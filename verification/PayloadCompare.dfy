/**
 Exact comparison of two payload streams whose chunk boundaries differ and whose iterators may
 never end. Two independent comparators are proved to decide the same question, and to stop.
 */
module PayloadCompare {
  import opened Basics

  /** A payload: its declared length and what its iterator yields at each step; `None` ends it. */
  datatype Stream = Stream(length: nat, chunks: nat -> Option<Bytes>)

  predicate ValidChunk(chunk: Option<Bytes>, size: nat) {
    chunk.Some? && 0 < |chunk.value| <= size
  }

  /** The bytes of the first `n` chunks. */
  function Prefix(s: Stream, n: nat): Bytes {
    if n == 0 then []
    else Prefix(s, n - 1) + (match s.chunks(n - 1) case None => [] case Some(chunk) => chunk)
  }

  /** The iterator yields `n` chunks of proper size, ends, and delivers what was declared. */
  ghost predicate ExactAt(s: Stream, size: nat, n: nat) {
    && (forall i: nat :: i < n ==> ValidChunk(s.chunks(i), size))
    && s.chunks(n).None? && |Prefix(s, n)| == s.length
  }

  /** What the comparators are asked: both streams exact, and the same bytes. */
  ghost predicate SameBytes(a: Stream, b: Stream, size: nat) {
    exists m: nat, n: nat :: ExactAt(a, size, m) && ExactAt(b, size, n) && Prefix(a, m) == Prefix(b, n)
  }

  lemma {:induction false} PrefixGrows(s: Stream, m: nat, n: nat)
    requires m <= n
    ensures |Prefix(s, m)| <= |Prefix(s, n)| && Prefix(s, n)[..|Prefix(s, m)|] == Prefix(s, m)
    decreases n
  {
    if m < n {
      PrefixGrows(s, m, n - 1);
    }
  }

  /** One side of the comparison: chunks pulled, the open buffer, and how much was observed. */
  datatype Side = Side(index: nat, buffer: Bytes, offset: nat, done: bool, observed: nat) {
    function Available(): int { |buffer| - offset }
  }

  /** Everything pulled so far was proper, and the buffer is the end of it. */
  ghost predicate Proper(s: Stream, size: nat, side: Side) {
    && (forall i: nat :: i < side.index ==> ValidChunk(s.chunks(i), size))
    && side.observed == |Prefix(s, side.index)| <= s.length
    && side.offset <= |side.buffer| <= side.observed
    && side.buffer == Prefix(s, side.index)[side.observed - |side.buffer|..]
    && (side.done ==> s.chunks(side.index).None? && side.offset == |side.buffer|)
  }

  /** The bytes of a proper side that were compared. */
  ghost function Taken(s: Stream, side: Side): Bytes
    requires side.offset <= |side.buffer| <= |Prefix(s, side.index)|
  {
    Prefix(s, side.index)[..|Prefix(s, side.index)| - (|side.buffer| - side.offset)]
  }

  /** The bookkeeping that holds even after a difference was found. */
  predicate Counted(s: Stream, size: nat, side: Side) {
    && side.offset <= |side.buffer|
    && (side.done ==> side.offset == |side.buffer|)
    && (!side.done ==> side.observed <= s.length + size)
  }

  /** What is left to observe, with room for one oversized chunk. */
  function Budget(s: Stream, size: nat, side: Side): int {
    if side.done then 0 else s.length + size + 1 - side.observed
  }

  /** Pull the next chunk of a drained side. `ok` turns false once the stream cannot be exact. */
  method Pull(s: Stream, size: nat, side: Side) returns (next: Side, ok: bool)
    requires Counted(s, size, side) && side.offset == |side.buffer| && !side.done
    ensures Counted(s, size, next)
    ensures 2 * Budget(s, size, next) + next.Available() < 2 * Budget(s, size, side) + side.Available()
    ensures Proper(s, size, side) && ok ==> Proper(s, size, next) && Taken(s, next) == Taken(s, side)
    ensures Proper(s, size, side) && !ok ==> forall n :: !ExactAt(s, size, n)
  {
    match s.chunks(side.index)
    case None =>
      next, ok := side.(done := true), true;
    case Some(chunk) =>
      if !(0 < |chunk| <= size) {
        next, ok := side.(index := side.index + 1, done := true), false;
        return;
      }
      var observed := side.observed + |chunk|;
      ok := observed <= s.length;
      if observed > s.length + size {
        next := side.(index := side.index + 1, observed := observed, done := true);
      } else {
        next := Side(side.index + 1, chunk, 0, false, observed);
      }
      if Proper(s, size, side) && !ok {
        TooLong(s, size, side.index + 1);
      }
  }

  /** More bytes than declared within the first chunks rules out an exact stream. */
  lemma TooLong(s: Stream, size: nat, index: nat)
    requires forall i: nat :: i < index ==> ValidChunk(s.chunks(i), size)
    requires |Prefix(s, index)| > s.length
    ensures forall n :: !ExactAt(s, size, n)
  {
    forall n: nat
      ensures !ExactAt(s, size, n)
    {
      if index <= n {
        PrefixGrows(s, index, n);
      }
    }
  }

  /** A stretch of the open chunk, found again in the bytes seen so far and in everything that extends them. */
  lemma StretchOf(whole: Bytes, seen: Bytes, chunk: Bytes, offset: nat, amount: nat)
    requires |seen| <= |whole| && whole[..|seen|] == seen
    requires |chunk| <= |seen| && chunk == seen[|seen| - |chunk|..] && offset + amount <= |chunk|
    ensures var at := |seen| - |chunk| + offset;
            whole[at..at + amount] == seen[at..at + amount] == chunk[offset..offset + amount]
  {
    var at := |seen| - |chunk| + offset;
    assert forall k :: at <= k < at + amount ==> whole[k] == whole[..|seen|][k] == seen[k];
    var mine := chunk[offset..offset + amount];
    assert forall k :: 0 <= k < amount ==> mine[k] == seen[at + k];
  }

  /** Every chunk before the end of an exact stream is proper, so the proper ones reach no further than its end. */
  lemma ExactReaches(s: Stream, size: nat, index: nat, n: nat)
    requires (forall i: nat :: i < index ==> ValidChunk(s.chunks(i), size)) && ExactAt(s, size, n)
    ensures index <= n
  {
  }

  /** What a proper side has taken, and what its buffer still holds, is what an exact stream delivers next. */
  lemma OnTheWay(s: Stream, size: nat, side: Side, amount: nat, n: nat)
    requires Proper(s, size, side) && ExactAt(s, size, n) && amount <= side.Available()
    ensures var taken := |Taken(s, side)|;
            && taken + side.Available() <= |Prefix(s, n)|
            && Prefix(s, n)[..taken] == Taken(s, side)
            && Prefix(s, n)[taken..taken + amount] == side.buffer[side.offset..side.offset + amount]
            && (side.done ==> Taken(s, side) == Prefix(s, n))
  {
    ExactReaches(s, size, side.index, n);
    PrefixGrows(s, side.index, n);
    var whole, seen := Prefix(s, n), Prefix(s, side.index);
    StretchOf(whole, seen, side.buffer, side.offset, amount);
    assert whole[..|Taken(s, side)|] == whole[..|seen|][..|Taken(s, side)|];
  }

  lemma DifferentBytes(a: Stream, b: Stream, size: nat, first: Side, second: Side, compared: nat)
    requires Proper(a, size, first) && Proper(b, size, second) && Taken(a, first) == Taken(b, second)
    requires compared <= first.Available() && compared <= second.Available()
    requires first.buffer[first.offset..first.offset + compared]
               != second.buffer[second.offset..second.offset + compared]
    ensures !SameBytes(a, b, size)
  {
    hide Taken, Prefix;
    if SameBytes(a, b, size) {
      var m: nat, n: nat :| ExactAt(a, size, m) && ExactAt(b, size, n) && Prefix(a, m) == Prefix(b, n);
      OnTheWay(a, size, first, compared, m);
      OnTheWay(b, size, second, compared, n);
    }
  }

  lemma OneEnded(a: Stream, b: Stream, size: nat, first: Side, second: Side)
    requires Proper(a, size, first) && Proper(b, size, second) && Taken(a, first) == Taken(b, second)
    requires (first.Available() > 0 && second.done) || (second.Available() > 0 && first.done)
    ensures !SameBytes(a, b, size)
  {
    hide Taken;
    if SameBytes(a, b, size) {
      var m: nat, n: nat :| ExactAt(a, size, m) && ExactAt(b, size, n) && Prefix(a, m) == Prefix(b, n);
      OnTheWay(a, size, first, 0, m);
      OnTheWay(b, size, second, 0, n);
    }
  }

  lemma NeverExact(a: Stream, b: Stream, size: nat)
    requires (forall n :: !ExactAt(a, size, n)) || (forall n :: !ExactAt(b, size, n))
    ensures !SameBytes(a, b, size)
  {
  }

  /** Both sides drained to the same bytes: nothing is left but the declared lengths. */
  lemma Decide(a: Stream, b: Stream, size: nat, first: Side, second: Side)
    requires Proper(a, size, first) && Proper(b, size, second) && Taken(a, first) == Taken(b, second)
    requires first.done && second.done
    ensures SameBytes(a, b, size) <==> first.observed == a.length && second.observed == b.length
  {
    assert Taken(a, first) == Prefix(a, first.index) && Taken(b, second) == Prefix(b, second.index);
    if first.observed == a.length && second.observed == b.length {
      assert ExactAt(a, size, first.index) && ExactAt(b, size, second.index);
    }
    if SameBytes(a, b, size) {
      var m: nat, n: nat :| ExactAt(a, size, m) && ExactAt(b, size, n) && Prefix(a, m) == Prefix(b, n);
      OnTheWay(a, size, first, 0, m);
      OnTheWay(b, size, second, 0, n);
    }
  }

  /** The relation between the two sides while no difference has been found. */
  ghost predicate InStep(a: Stream, b: Stream, size: nat, first: Side, second: Side) {
    Proper(a, size, first) && Proper(b, size, second) && Taken(a, first) == Taken(b, second)
  }

  /** The comparator of the model: it reads both streams to their end or to the end of their budget. */
  method PayloadsEqual(a: Stream, b: Stream, size: nat) returns (same: bool)
    requires size > 0
    ensures same <==> SameBytes(a, b, size)
  {
    hide Proper, SameBytes, Counted, Budget, Taken;
    var first, second := Side(0, [], 0, false, 0), Side(0, [], 0, false, 0);
    var equal := true;
    Beginning(a, b, size);
    while !(first.done && second.done)
      invariant Counted(a, size, first) && Counted(b, size, second)
      invariant equal ==> InStep(a, b, size, first, second)
      invariant !equal ==> !SameBytes(a, b, size)
      decreases 2 * Budget(a, size, first) + first.Available() + 2 * Budget(b, size, second) + second.Available()
    {
      CountedBounds(a, size, first);
      CountedBounds(b, size, second);
      if first.offset == |first.buffer| && !first.done {
        first, equal := PullFirst(a, b, size, first, second, equal);
      }
      if second.offset == |second.buffer| && !second.done {
        second, equal := PullSecond(a, b, size, first, second, equal);
      }
      CountedBounds(a, size, first);
      CountedBounds(b, size, second);
      equal, first, second := CompareAvailable(a, b, size, first, second, equal);
    }
    if equal {
      Decide(a, b, size, first, second);
    }
    CountedBounds(a, size, first);
    CountedBounds(b, size, second);
    same := equal && first.observed == a.length && second.observed == b.length
            && first.offset == |first.buffer| && second.offset == |second.buffer|;
  }

  lemma Beginning(a: Stream, b: Stream, size: nat)
    ensures var side := Side(0, [], 0, false, 0);
            Counted(a, size, side) && Counted(b, size, side) && InStep(a, b, size, side, side)
  {
  }

  lemma CountedBounds(s: Stream, size: nat, side: Side)
    requires Counted(s, size, side)
    ensures Budget(s, size, side) >= 0 && side.Available() >= 0 && (side.done ==> side.Available() == 0)
  {
  }

  method PullFirst(
    a: Stream, b: Stream, size: nat, first: Side, second: Side, equal: bool)
    returns (next: Side, stillEqual: bool)
    requires Counted(a, size, first) && first.offset == |first.buffer| && !first.done
    requires equal ==> InStep(a, b, size, first, second)
    requires !equal ==> !SameBytes(a, b, size)
    ensures Counted(a, size, next)
    ensures 2 * Budget(a, size, next) + next.Available() < 2 * Budget(a, size, first) + first.Available()
    ensures stillEqual ==> InStep(a, b, size, next, second)
    ensures !stillEqual ==> !SameBytes(a, b, size)
  {
    hide Proper, SameBytes, Counted, Budget, Taken;
    var ok;
    next, ok := Pull(a, size, first);
    stillEqual := equal && ok;
    if equal && !ok {
      NeverExact(a, b, size);
    }
  }

  method PullSecond(
    a: Stream, b: Stream, size: nat, first: Side, second: Side, equal: bool)
    returns (next: Side, stillEqual: bool)
    requires Counted(b, size, second) && second.offset == |second.buffer| && !second.done
    requires equal ==> InStep(a, b, size, first, second)
    requires !equal ==> !SameBytes(a, b, size)
    ensures Counted(b, size, next)
    ensures 2 * Budget(b, size, next) + next.Available() < 2 * Budget(b, size, second) + second.Available()
    ensures stillEqual ==> InStep(a, b, size, first, next)
    ensures !stillEqual ==> !SameBytes(a, b, size)
  {
    hide Proper, SameBytes, Counted, Budget, Taken;
    var ok;
    next, ok := Pull(b, size, second);
    stillEqual := equal && ok;
    if equal && !ok {
      NeverExact(a, b, size);
    }
  }

  lemma Consumed(s: Stream, size: nat, side: Side, n: nat)
    requires Proper(s, size, side) && n <= side.Available()
    ensures var next := side.(offset := side.offset + n);
            && Proper(s, size, next)
            && Taken(s, next) == Taken(s, side) + side.buffer[side.offset..side.offset + n]
  {
    var seen := Prefix(s, side.index);
    var taken := |Taken(s, side)|;
    assert seen[taken..taken + n] == side.buffer[side.offset..side.offset + n];
    assert seen[..taken + n] == seen[..taken] + seen[taken..taken + n];
  }

  /** Compare what both sides have; a side that has bytes left when the other ended is a difference. */
  method CompareAvailable(a: Stream, b: Stream, size: nat, first: Side, second: Side, equal: bool)
    returns (stillEqual: bool, first': Side, second': Side)
    requires Counted(a, size, first) && Counted(b, size, second)
    requires equal ==> InStep(a, b, size, first, second)
    requires !equal ==> !SameBytes(a, b, size)
    ensures Counted(a, size, first') && Counted(b, size, second')
    ensures stillEqual ==> InStep(a, b, size, first', second')
    ensures !stillEqual ==> !SameBytes(a, b, size)
    ensures Budget(a, size, first') == Budget(a, size, first) && Budget(b, size, second') == Budget(b, size, second)
    ensures first'.Available() <= first.Available() && second'.Available() <= second.Available()
    ensures first.Available() > 0 && (second.Available() > 0 || second.done) ==> first'.Available() < first.Available()
    ensures second.Available() > 0 && first.done ==> second'.Available() < second.Available()
  {
    hide Proper, SameBytes, Taken;
    stillEqual, first', second' := equal, first, second;
    var firstAvailable, secondAvailable := first.Available(), second.Available();
    if firstAvailable > 0 && secondAvailable > 0 {
      var compared := Min(firstAvailable, secondAvailable);
      if first.buffer[first.offset..first.offset + compared] != second.buffer[second.offset..second.offset + compared] {
        if equal {
          DifferentBytes(a, b, size, first, second, compared);
        }
        stillEqual := false;
      }
      if stillEqual {
        Consumed(a, size, first, compared);
        Consumed(b, size, second, compared);
      }
      first' := first.(offset := first.offset + compared);
      second' := second.(offset := second.offset + compared);
    } else if (firstAvailable > 0 && second.done) || (secondAvailable > 0 && first.done) {
      if equal {
        OneEnded(a, b, size, first, second);
      }
      stillEqual := false;
      if firstAvailable > 0 {
        first' := first.(offset := |first.buffer|);
      } else {
        second' := second.(offset := |second.buffer|);
      }
    }
  }

  // ---------------------------------------------------------------- the second comparator

  /** Its cursor: the chunks pulled, the open one, and how far into it the comparison got. */
  datatype Cursor = Cursor(index: nat, chunk: Bytes, offset: nat)

  /** The open chunk is the end of what was pulled, and `compared` bytes of the stream lie behind the cursor. */
  ghost predicate CursorAt(s: Stream, size: nat, c: Cursor, compared: nat) {
    && (forall i: nat :: i < c.index ==> ValidChunk(s.chunks(i), size))
    && c.offset <= |c.chunk| <= |Prefix(s, c.index)|
    && c.chunk == Prefix(s, c.index)[|Prefix(s, c.index)| - |c.chunk|..]
    && compared == |Prefix(s, c.index)| - |c.chunk| + c.offset
  }

  /** Replace a used-up chunk by the next one; an iterator that ended or misbehaved cannot be exact. */
  method Refill(s: Stream, size: nat, c: Cursor, compared: nat) returns (next: Cursor, ok: bool)
    requires CursorAt(s, size, c, compared) && compared < s.length
    ensures ok ==> c.index <= next.index && next.offset < |next.chunk| && CursorAt(s, size, next, compared)
    ensures !ok ==> forall n :: !ExactAt(s, size, n)
  {
    next, ok := c, true;
    if c.offset == |c.chunk| {
      match s.chunks(c.index)
      case None =>
        ok := false;
        OwesBytes(s, size, c, compared);
      case Some(bytes) =>
        ok := 0 < |bytes| <= size;
        if ok {
          next := Cursor(c.index + 1, bytes, 0);
        } else {
          OwesBytes(s, size, c, compared);
        }
    }
  }

  /** An exact stream still owes bytes as long as fewer than declared were compared. */
  lemma OwesBytes(s: Stream, size: nat, c: Cursor, compared: nat)
    requires CursorAt(s, size, c, compared) && c.offset == |c.chunk| && compared < s.length
    requires !ValidChunk(s.chunks(c.index), size)
    ensures forall n :: !ExactAt(s, size, n)
  {
    forall n: nat
      ensures !ExactAt(s, size, n)
    {
      if ExactAt(s, size, n) {
        ExactReaches(s, size, c.index, n);
      }
    }
  }

  /** Where the cursor stands, an exact stream has the bytes of the open chunk next. */
  lemma CursorOnTheWay(s: Stream, size: nat, c: Cursor, compared: nat, amount: nat, n: nat)
    requires CursorAt(s, size, c, compared) && ExactAt(s, size, n) && c.offset + amount <= |c.chunk|
    ensures c.index <= n && compared + (|c.chunk| - c.offset) <= s.length
    ensures Prefix(s, n)[compared..compared + amount] == c.chunk[c.offset..c.offset + amount]
  {
    ExactReaches(s, size, c.index, n);
    PrefixGrows(s, c.index, n);
    StretchOf(Prefix(s, n), Prefix(s, c.index), c.chunk, c.offset, amount);
  }

  /** The compared prefixes agree. */
  ghost predicate Matched(a: Stream, b: Stream, i: nat, j: nat, compared: nat) {
    && compared <= |Prefix(a, i)| && compared <= |Prefix(b, j)|
    && Prefix(a, i)[..compared] == Prefix(b, j)[..compared]
  }

  /** Both cursors behind the same compared bytes. */
  ghost predicate Together(a: Stream, b: Stream, size: nat, x: Cursor, y: Cursor, compared: nat) {
    CursorAt(a, size, x, compared) && CursorAt(b, size, y, compared) && Matched(a, b, x.index, y.index, compared)
  }

  lemma MatchedAhead(a: Stream, b: Stream, i: nat, j: nat, i': nat, j': nat, compared: nat)
    requires Matched(a, b, i, j, compared) && i <= i' && j <= j'
    ensures Matched(a, b, i', j', compared)
  {
    PrefixGrows(a, i, i');
    PrefixGrows(b, j, j');
    assert Prefix(a, i')[..|Prefix(a, i)|][..compared] == Prefix(a, i')[..compared];
    assert Prefix(b, j')[..|Prefix(b, j)|][..compared] == Prefix(b, j')[..compared];
  }

  lemma TogetherMore(a: Stream, b: Stream, size: nat, x: Cursor, y: Cursor, compared: nat, amount: nat)
    requires Together(a, b, size, x, y, compared)
    requires x.offset + amount <= |x.chunk| && y.offset + amount <= |y.chunk|
    requires x.chunk[x.offset..x.offset + amount] == y.chunk[y.offset..y.offset + amount]
    ensures Together(a, b, size, x.(offset := x.offset + amount), y.(offset := y.offset + amount), compared + amount)
  {
    hide Prefix;
    var p, q := Prefix(a, x.index), Prefix(b, y.index);
    assert p[..|p|] == p && q[..|q|] == q;
    StretchOf(p, p, x.chunk, x.offset, amount);
    StretchOf(q, q, y.chunk, y.offset, amount);
    assert p[..compared + amount] == p[..compared] + p[compared..compared + amount];
    assert q[..compared + amount] == q[..compared] + q[compared..compared + amount];
  }

  lemma CursorsDiffer(a: Stream, b: Stream, size: nat, x: Cursor, y: Cursor, compared: nat, amount: nat)
    requires Together(a, b, size, x, y, compared)
    requires x.offset + amount <= |x.chunk| && y.offset + amount <= |y.chunk|
    requires x.chunk[x.offset..x.offset + amount] != y.chunk[y.offset..y.offset + amount]
    ensures !SameBytes(a, b, size)
  {
    hide Prefix;
    if SameBytes(a, b, size) {
      var m: nat, n: nat :| ExactAt(a, size, m) && ExactAt(b, size, n) && Prefix(a, m) == Prefix(b, n);
      CursorOnTheWay(a, size, x, compared, amount, m);
      CursorOnTheWay(b, size, y, compared, amount, n);
    }
  }

  /** At the declared length, anything left in the chunk or in the iterator rules out an exact stream. */
  lemma Leftover(s: Stream, size: nat, c: Cursor)
    requires CursorAt(s, size, c, s.length) && (c.offset != |c.chunk| || s.chunks(c.index).Some?)
    ensures forall n :: !ExactAt(s, size, n)
  {
    forall n: nat
      ensures !ExactAt(s, size, n)
    {
      if ExactAt(s, size, n) {
        CursorOnTheWay(s, size, c, s.length, 0, n);
        if c.index < n {
          PrefixGrows(s, c.index + 1, n);
        }
      }
    }
  }

  lemma Exhausted(a: Stream, b: Stream, size: nat, x: Cursor, y: Cursor)
    requires a.length == b.length && Together(a, b, size, x, y, a.length)
    requires x.offset == |x.chunk| && y.offset == |y.chunk| && a.chunks(x.index).None? && b.chunks(y.index).None?
    ensures SameBytes(a, b, size)
  {
    assert ExactAt(a, size, x.index) && ExactAt(b, size, y.index);
    assert Prefix(a, x.index)[..a.length] == Prefix(a, x.index) && Prefix(b, y.index)[..a.length] == Prefix(b, y.index);
  }

  lemma LengthsDiffer(a: Stream, b: Stream, size: nat)
    requires a.length != b.length
    ensures !SameBytes(a, b, size)
  {
  }

  lemma TogetherStart(a: Stream, b: Stream, size: nat)
    ensures Together(a, b, size, Cursor(0, [], 0), Cursor(0, [], 0), 0)
  {
  }

  /** One turn of the loop: refill both cursors, compare what both hold up to the declared length. */
  method CompareTurn(a: Stream, b: Stream, size: nat, x: Cursor, y: Cursor, compared: nat)
    returns (x': Cursor, y': Cursor, compared': nat, ok: bool)
    requires Together(a, b, size, x, y, compared) && compared < a.length == b.length
    ensures ok ==> Together(a, b, size, x', y', compared') && compared < compared' <= a.length
    ensures !ok ==> !SameBytes(a, b, size)
  {
    hide SameBytes, Matched, Prefix, ExactAt, CursorAt;
    x', y', compared', ok := x, y, compared, false;
    var xOk, yOk;
    x', xOk := Refill(a, size, x, compared);
    y', yOk := Refill(b, size, y, compared);
    if !xOk || !yOk {
      NeverExact(a, b, size);
      return;
    }
    MatchedAhead(a, b, x.index, y.index, x'.index, y'.index, compared);
    var amount := Min(Min(|x'.chunk| - x'.offset, |y'.chunk| - y'.offset), a.length - compared);
    if x'.chunk[x'.offset..x'.offset + amount] != y'.chunk[y'.offset..y'.offset + amount] {
      CursorsDiffer(a, b, size, x', y', compared, amount);
      return;
    }
    TogetherMore(a, b, size, x', y', compared, amount);
    x', y' := x'.(offset := x'.offset + amount), y'.(offset := y'.offset + amount);
    compared', ok := compared + amount, true;
  }

  /** The comparator of the interoperability check: it stops at the first difference. */
  method InteropPayloadsEqual(a: Stream, b: Stream, size: nat) returns (same: bool)
    ensures same <==> SameBytes(a, b, size)
  {
    hide SameBytes, Matched, Prefix, ExactAt, CursorAt, Together;
    if a.length != b.length {
      LengthsDiffer(a, b, size);
      return false;
    }
    var x, y := Cursor(0, [], 0), Cursor(0, [], 0);
    var compared: nat := 0;
    TogetherStart(a, b, size);
    while compared < a.length
      invariant compared <= a.length && Together(a, b, size, x, y, compared)
      decreases a.length - compared
    {
      var ok;
      x, y, compared, ok := CompareTurn(a, b, size, x, y, compared);
      if !ok {
        return false;
      }
    }
    same := Conclude(a, b, size, x, y);
  }

  /** Nothing may be left in either chunk or iterator. */
  method Conclude(a: Stream, b: Stream, size: nat, x: Cursor, y: Cursor) returns (same: bool)
    requires a.length == b.length && Together(a, b, size, x, y, a.length)
    ensures same <==> SameBytes(a, b, size)
  {
    hide SameBytes, Matched, Prefix, ExactAt, CursorAt;
    if x.offset != |x.chunk| || a.chunks(x.index).Some? {
      Leftover(a, size, x);
      NeverExact(a, b, size);
      return false;
    }
    if y.offset != |y.chunk| || b.chunks(y.index).Some? {
      Leftover(b, size, y);
      NeverExact(a, b, size);
      return false;
    }
    Exhausted(a, b, size, x, y);
    return true;
  }

  /** The two comparators agree on every pair of streams, finite or not. */
  method BothComparators(a: Stream, b: Stream, size: nat) returns (first: bool, second: bool)
    requires size > 0
    ensures first == second && first == SameBytes(a, b, size)
  {
    first := PayloadsEqual(a, b, size);
    second := InteropPayloadsEqual(a, b, size);
  }
}
