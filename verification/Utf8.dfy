/** Strict UTF-8 acceptance, as RFC 3629 section 4 lists the well-formed byte sequences. */
module Utf8 {
  import opened Basics

  predicate Continuation(b: Byte) {
    0x80 <= b <= 0xBF
  }

  /** Length of the well-formed scalar at the head of `s`, or zero when there is none. */
  function ScalarLength(s: Bytes): (n: nat)
    requires |s| > 0
    ensures n <= |s|
  {
    var b := s[0];
    if b <= 0x7F then 1
    else if 0xC2 <= b <= 0xDF && |s| >= 2 && Continuation(s[1]) then 2
    else if b == 0xE0 && |s| >= 3 && 0xA0 <= s[1] <= 0xBF && Continuation(s[2]) then 3
    else if (0xE1 <= b <= 0xEC || 0xEE <= b <= 0xEF) && |s| >= 3 && Continuation(s[1]) && Continuation(s[2]) then 3
    else if b == 0xED && |s| >= 3 && 0x80 <= s[1] <= 0x9F && Continuation(s[2]) then 3
    else if b == 0xF0 && |s| >= 4 && 0x90 <= s[1] <= 0xBF && Continuation(s[2]) && Continuation(s[3]) then 4
    else if 0xF1 <= b <= 0xF3 && |s| >= 4 && Continuation(s[1]) && Continuation(s[2]) && Continuation(s[3]) then 4
    else if b == 0xF4 && |s| >= 4 && 0x80 <= s[1] <= 0x8F && Continuation(s[2]) && Continuation(s[3]) then 4
    else 0
  }

  predicate WellFormed(s: Bytes) {
    s == [] || (ScalarLength(s) > 0 && WellFormed(s[ScalarLength(s)..]))
  }

  predicate StartsWithMark(s: Bytes) {
    |s| >= 3 && s[0] == 0xEF && s[1] == 0xBB && s[2] == 0xBF
  }

  /** The text rule shared by schema fields and custom properties: well formed and no leading byte-order mark. */
  predicate AcceptedText(s: Bytes) {
    !StartsWithMark(s) && WellFormed(s)
  }

  // ---------------------------------------------------------------- what the rule accepts

  /** A Unicode scalar value: no surrogate. */
  predicate Scalar(c: nat) {
    c <= 0xD7FF || 0xE000 <= c <= 0x10FFFF
  }

  /** The UTF-8 form of one scalar value, as section 3 of RFC 3629 gives it. */
  function EncodeScalar(c: nat): Bytes
    requires Scalar(c)
  {
    if c < 0x80 then [c]
    else if c < 0x800 then [0xC0 + c / 64, 0x80 + c % 64]
    else if c < 0x1_0000 then [0xE0 + c / 4096, 0x80 + c / 64 % 64, 0x80 + c % 64]
    else [0xF0 + c / 262144, 0x80 + c / 4096 % 64, 0x80 + c / 64 % 64, 0x80 + c % 64]
  }

  /** The six bits a continuation byte carries. */
  function Low(b: Byte): int {
    var n: int := b;
    n - 0x80
  }

  /** The scalar value at the head of well-formed bytes. */
  function ScalarAt(s: Bytes): int
    requires |s| > 0 && ScalarLength(s) > 0
  {
    var lead: int := s[0];
    match ScalarLength(s)
    case 1 => lead
    case 2 => (lead - 0xC0) * 64 + Low(s[1])
    case 3 => (lead - 0xE0) * 4096 + Low(s[1]) * 64 + Low(s[2])
    case _ => (lead - 0xF0) * 262144 + Low(s[1]) * 4096 + Low(s[2]) * 64 + Low(s[3])
  }

  lemma SixBits(high: int, low: int)
    requires 0 <= low < 64
    ensures (high * 64 + low) / 64 == high && (high * 64 + low) % 64 == low
  {
  }

  lemma HeadOfTwo(s: Bytes)
    requires |s| > 0 && ScalarLength(s) == 2
    ensures 0x80 <= ScalarAt(s) < 0x800 && EncodeScalar(ScalarAt(s)) == s[..2]
  {
    SixBits(s[0] - 0xC0, Low(s[1]));
  }

  lemma HeadOfThree(s: Bytes)
    requires |s| > 0 && ScalarLength(s) == 3
    ensures 0x800 <= ScalarAt(s) < 0x1_0000 && Scalar(ScalarAt(s)) && EncodeScalar(ScalarAt(s)) == s[..3]
  {
    var lead: int := s[0];
    SixBits((lead - 0xE0) * 64 + Low(s[1]), Low(s[2]));
    SixBits(lead - 0xE0, Low(s[1]));
    assert ScalarAt(s) / 4096 == lead - 0xE0;
  }

  lemma HeadOfFour(s: Bytes)
    requires |s| > 0 && ScalarLength(s) == 4
    ensures 0x1_0000 <= ScalarAt(s) <= 0x10FFFF && EncodeScalar(ScalarAt(s)) == s[..4]
  {
    var lead: int := s[0];
    SixBits((lead - 0xF0) * 4096 + Low(s[1]) * 64 + Low(s[2]), Low(s[3]));
    SixBits((lead - 0xF0) * 64 + Low(s[1]), Low(s[2]));
    SixBits(lead - 0xF0, Low(s[1]));
    assert ScalarAt(s) / 4096 == (lead - 0xF0) * 64 + Low(s[1]);
    assert ScalarAt(s) / 262144 == lead - 0xF0;
  }

  lemma HeadIsScalar(s: Bytes)
    requires |s| > 0 && ScalarLength(s) > 0
    ensures ScalarAt(s) >= 0 && Scalar(ScalarAt(s)) && EncodeScalar(ScalarAt(s)) == s[..ScalarLength(s)]
  {
    hide EncodeScalar;
    match ScalarLength(s)
    case 1 => HeadOfOne(s);
    case 2 => HeadOfTwo(s);
    case 3 => HeadOfThree(s);
    case _ => HeadOfFour(s);
  }

  lemma HeadOfOne(s: Bytes)
    requires |s| > 0 && ScalarLength(s) == 1
    ensures 0 <= ScalarAt(s) < 0x80 && EncodeScalar(ScalarAt(s)) == s[..1]
  {
  }

  /** The bytes of a scalar value stand for it again, and where they end is plain from the first of them. */
  lemma ScalarIsHead(c: nat, rest: Bytes)
    requires Scalar(c)
    ensures var s := EncodeScalar(c) + rest;
            |s| > 0 && ScalarLength(s) == |EncodeScalar(c)| && ScalarAt(s) == c && s[ScalarLength(s)..] == rest
  {
    if c < 0x80 {
    } else if c < 0x800 {
      SixBitsOf(c);
    } else if c < 0x1_0000 {
      SixBitsOf(c);
      SixBitsOf(c / 64);
      assert c / 64 / 64 == c / 4096;
    } else {
      SixBitsOf(c);
      SixBitsOf(c / 64);
      SixBitsOf(c / 4096);
      assert c / 64 / 64 == c / 4096 && c / 4096 / 64 == c / 262144;
    }
  }

  lemma SixBitsOf(c: nat)
    ensures c == c / 64 * 64 + c % 64
  {
  }

  predicate Scalars(cs: seq<nat>) {
    forall i :: 0 <= i < |cs| ==> Scalar(cs[i])
  }

  function EncodeScalars(cs: seq<nat>): Bytes
    requires Scalars(cs)
  {
    if cs == [] then [] else EncodeScalar(cs[0]) + EncodeScalars(cs[1..])
  }

  ghost predicate Encodes(s: Bytes, cs: seq<nat>) {
    Scalars(cs) && EncodeScalars(cs) == s
  }

  lemma {:induction false} DecodeAll(s: Bytes) returns (cs: seq<nat>)
    requires WellFormed(s)
    ensures Encodes(s, cs)
    decreases |s|
  {
    hide ScalarLength, ScalarAt, EncodeScalar;
    if s == [] {
      cs := [];
    } else {
      HeadIsScalar(s);
      var tail := DecodeAll(s[ScalarLength(s)..]);
      cs := [ScalarAt(s)] + tail;
      assert cs[1..] == tail;
      assert s == s[..ScalarLength(s)] + s[ScalarLength(s)..];
    }
  }

  lemma {:induction false} EncodedIsWellFormed(cs: seq<nat>)
    requires Scalars(cs)
    ensures WellFormed(EncodeScalars(cs))
    ensures EncodeScalars(cs) == [] <==> cs == []
    ensures StartsWithMark(EncodeScalars(cs)) <==> cs != [] && cs[0] == 0xFEFF
  {
    hide ScalarLength, ScalarAt, EncodeScalar, StartsWithMark;
    if cs != [] {
      EncodedIsWellFormed(cs[1..]);
      ScalarIsHead(cs[0], EncodeScalars(cs[1..]));
      MarkIsScalar(cs[0], EncodeScalars(cs[1..]));
    } else {
      NothingHasNoMark();
    }
  }

  lemma NothingHasNoMark()
    ensures !StartsWithMark([])
  {
  }

  lemma MarkIsScalar(c: nat, rest: Bytes)
    requires Scalar(c)
    ensures StartsWithMark(EncodeScalar(c) + rest) <==> c == 0xFEFF
  {
    if StartsWithMark(EncodeScalar(c) + rest) {
      ScalarIsHead(c, rest);
      assert ScalarAt(EncodeScalar(c) + rest) == 0xFEFF;
    }
  }

  /** Accepted text is the UTF-8 form of some scalar values that do not begin with the byte-order mark. */
  lemma AcceptedExactly(s: Bytes)
    ensures AcceptedText(s) <==> exists cs: seq<nat> :: Encodes(s, cs) && (cs != [] ==> cs[0] != 0xFEFF)
  {
    hide StartsWithMark, WellFormed, EncodeScalars, Scalars;
    if AcceptedText(s) {
      var cs := DecodeAll(s);
      EncodedIsWellFormed(cs);
    }
    if cs: seq<nat> :| Encodes(s, cs) && (cs != [] ==> cs[0] != 0xFEFF) {
      EncodedIsWellFormed(cs);
    }
  }
}
