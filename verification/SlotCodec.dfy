/**
 The text record of one pending slot: ten strict ASCII lines, decimal numbers, and a dash for a
 missing file identity. Decoding undoes encoding for every value that fits the slot bound.
 */
module SlotCodec {
  import opened Basics

  const MAGIC: string := "BONOBO-PENDING-1"
  const MAX_SLOT_BYTES: nat := 1024
  const MAX_FILE_BYTES: nat := 0x1_0000_0000 + 1_048_576

  datatype SlotValue = SlotValue(
    identifier: string, sha256: string, size: nat, sourceSha256: string, sourceSize: nat, modifiedNs: nat,
    device: Option<nat>, inode: Option<nat>, windowsFileId: Option<nat>)
  {
    predicate Valid() {
      IsDigest(identifier) && IsDigest(sha256) && IsDigest(sourceSha256) && 0 < size <= MAX_FILE_BYTES
    }
  }

  predicate IsDigest(s: string) {
    |s| == 64 && forall i :: 0 <= i < 64 ==> '0' <= s[i] <= '9' || 'a' <= s[i] <= 'f'
  }

  /** A value is written exactly when its lines take at most 1024 characters. */
  lemma EncodesExactly(v: SlotValue)
    ensures Encode(v).Some? <==> |JoinLines(LinesOf(v))| <= 1024
    ensures Encode(v).Some? ==> Encode(v).value == JoinLines(LinesOf(v))
  {
    hide JoinLines, LinesOf;
  }

  // ---------------------------------------------------------------- decimal numbers

  predicate IsDigit(c: char) {
    '0' <= c <= '9'
  }

  function DigitChar(d: nat): (c: char)
    requires d < 10
    ensures IsDigit(c) && DigitValue(c) == d
  {
    ['0', '1', '2', '3', '4', '5', '6', '7', '8', '9'][d]
  }

  function DigitValue(c: char): nat
    requires IsDigit(c)
  {
    c as int - '0' as int
  }

  function Decimal(n: nat): (s: string)
    ensures s != [] && forall i :: 0 <= i < |s| ==> IsDigit(s[i])
  {
    if n < 10 then [DigitChar(n)] else Decimal(n / 10) + [DigitChar(n % 10)]
  }

  function NumberOf(s: string): nat
    requires forall i :: 0 <= i < |s| ==> IsDigit(s[i])
  {
    if s == [] then 0 else 10 * NumberOf(s[..|s| - 1]) + DigitValue(s[|s| - 1])
  }

  function ParseNumber(s: string): Option<nat> {
    if s == [] || !(forall i :: 0 <= i < |s| ==> IsDigit(s[i])) then None else Some(NumberOf(s))
  }

  lemma {:induction false} DecimalRoundTrip(n: nat)
    ensures ParseNumber(Decimal(n)) == Some(n)
  {
    if n < 10 {
      var s := Decimal(n);
      assert s[..|s| - 1] == [];
      assert NumberOf(s) == DigitValue(s[0]);
    } else {
      DecimalRoundTrip(n / 10);
      assert Decimal(n)[..|Decimal(n)| - 1] == Decimal(n / 10);
    }
  }

  function OptionalText(value: Option<nat>): string {
    if value.None? then "-" else Decimal(value.value)
  }

  function ParseOptional(s: string): Option<Option<nat>> {
    if s == "-" then Some(None)
    else
      var n :- ParseNumber(s);
      Some(Some(n))
  }

  lemma OptionalRoundTrip(value: Option<nat>)
    ensures ParseOptional(OptionalText(value)) == Some(value)
  {
    if value.Some? {
      DecimalRoundTrip(value.value);
      assert IsDigit(Decimal(value.value)[0]);
    }
  }

  // ---------------------------------------------------------------- lines

  /** The ASCII line boundaries the decoder's splitting recognizes. */
  predicate IsBreak(c: char) {
    c == '\n' || c == '\r' || c == 11 as char || c == 12 as char || c == 28 as char || c == 29 as char
        || c == 30 as char
  }

  function SplitLines(s: string, open: string): seq<string>
    decreases |s|
  {
    if s == [] then (if open == [] then [] else [open])
    else if |s| > 1 && s[0] == '\r' && s[1] == '\n' then [open] + SplitLines(s[2..], [])
    else if IsBreak(s[0]) then [open] + SplitLines(s[1..], [])
    else SplitLines(s[1..], open + [s[0]])
  }

  function JoinLines(lines: seq<string>): string {
    if lines == [] then [] else lines[0] + ['\n'] + JoinLines(lines[1..])
  }

  predicate Unbroken(line: string) {
    forall i :: 0 <= i < |line| ==> !IsBreak(line[i])
  }

  /** No line that comes out holds a line boundary: line feed, carriage return, tabulation, form feed or a separator. */
  lemma {:induction false} LinesAreUnbroken(s: string, line: string)
    requires forall i :: 0 <= i < |line| ==> line[i] as int !in {10, 11, 12, 13, 28, 29, 30}
    ensures forall k, i :: 0 <= k < |SplitLines(s, line)| && 0 <= i < |SplitLines(s, line)[k]| ==>
              SplitLines(s, line)[k][i] as int !in {10, 11, 12, 13, 28, 29, 30}
    decreases |s|
  {
    if s != [] {
      if |s| > 1 && s[0] == '\r' && s[1] == '\n' {
        LinesAreUnbroken(s[2..], []);
      } else if IsBreak(s[0]) {
        LinesAreUnbroken(s[1..], []);
      } else {
        LinesAreUnbroken(s[1..], line + [s[0]]);
      }
    }
  }

  lemma {:induction false} SplitOne(line: string, tail: string, open: string)
    requires Unbroken(line)
    ensures SplitLines(line + ['\n'] + tail, open) == [open + line] + SplitLines(tail, [])
    decreases |line|
  {
    var s := line + ['\n'] + tail;
    if line == [] {
      assert s[1..] == tail && open + line == open;
    } else {
      assert !IsBreak(s[0]) && s[1..] == line[1..] + ['\n'] + tail;
      SplitOne(line[1..], tail, open + [line[0]]);
      assert open + [line[0]] + line[1..] == open + line;
    }
  }

  lemma {:induction false} SplitJoined(lines: seq<string>)
    requires forall i :: 0 <= i < |lines| ==> Unbroken(lines[i])
    ensures SplitLines(JoinLines(lines), []) == lines
  {
    if lines != [] {
      SplitOne(lines[0], JoinLines(lines[1..]), []);
      assert [] + lines[0] == lines[0];
      SplitJoined(lines[1..]);
    }
  }

  // ---------------------------------------------------------------- the record

  function LinesOf(v: SlotValue): (lines: seq<string>)
    ensures |lines| == 10
  {
    [MAGIC, v.identifier, v.sha256, Decimal(v.size), v.sourceSha256, Decimal(v.sourceSize), Decimal(v.modifiedNs),
     OptionalText(v.device), OptionalText(v.inode), OptionalText(v.windowsFileId)]
  }

  function Encode(v: SlotValue): Option<string> {
    var payload := JoinLines(LinesOf(v));
    if |payload| > MAX_SLOT_BYTES then None else Some(payload)
  }

  /** Parse exactly ten lines; anything else, and any value outside its domain, is refused. */
  function Decode(payload: string): (r: Option<SlotValue>)
    ensures r.Some? ==> r.value.Valid()
  {
    var lines := SplitLines(payload, []);
    if |lines| != 10 || lines[0] != MAGIC then None
    else
      var size :- ParseNumber(lines[3]);
      var sourceSize :- ParseNumber(lines[5]);
      var modifiedNs :- ParseNumber(lines[6]);
      var device :- ParseOptional(lines[7]);
      var inode :- ParseOptional(lines[8]);
      var windowsFileId :- ParseOptional(lines[9]);
      var v := SlotValue(lines[1], lines[2], size, lines[4], sourceSize, modifiedNs, device, inode, windowsFileId);
      if v.Valid() then Some(v) else None
  }

  lemma DigestUnbroken(s: string)
    requires IsDigest(s)
    ensures Unbroken(s)
  {
  }

  lemma NumberUnbroken(n: nat)
    ensures Unbroken(Decimal(n))
  {
  }

  lemma OptionalUnbroken(value: Option<nat>)
    ensures Unbroken(OptionalText(value))
  {
    hide Decimal;
  }

  /** Every stored value that fits the slot bound reads back as itself. */
  lemma SlotRoundTrip(v: SlotValue)
    requires v.Valid() && Encode(v).Some?
    ensures Decode(Encode(v).value) == Some(v)
  {
    hide Decimal, ParseNumber, OptionalText, ParseOptional, SplitLines, JoinLines, IsDigest, Unbroken;
    var lines := LinesOf(v);
    DigestUnbroken(v.identifier);
    DigestUnbroken(v.sha256);
    DigestUnbroken(v.sourceSha256);
    NumberUnbroken(v.size);
    NumberUnbroken(v.sourceSize);
    NumberUnbroken(v.modifiedNs);
    OptionalUnbroken(v.device);
    OptionalUnbroken(v.inode);
    OptionalUnbroken(v.windowsFileId);
    MagicUnbroken();
    assert forall i :: 0 <= i < |lines| ==> Unbroken(lines[i]);
    SplitJoined(lines);
    DecimalRoundTrip(v.size);
    DecimalRoundTrip(v.sourceSize);
    DecimalRoundTrip(v.modifiedNs);
    OptionalRoundTrip(v.device);
    OptionalRoundTrip(v.inode);
    OptionalRoundTrip(v.windowsFileId);
  }

  lemma MagicUnbroken()
    ensures Unbroken(MAGIC)
  {
  }
}
