/**
 The two stored forms of a field payload: inline bytes, or a span of the captured ciphertext that
 is decrypted again on demand from the middle of the continuous stream. Both forms are proved to
 deliver the declared payload and nothing of the framing or padding.
 */
module Payloads {
  import opened Basics
  import opened Crypto
  import Writer

  const FIELD_HEADER_BYTES := Writer.FIELD_HEADER_BYTES

  /** One padded frame in the captured file, with the ciphertext block before it. */
  datatype Span = Span(previous: Block, offset: nat, length: nat, payloadLength: nat) {
    predicate Fits(file: Bytes) {
      && length == Writer.PaddedLength(payloadLength)
      && offset + length <= |file|
    }
  }

  datatype FieldPayload = Inline(data: Bytes) | Deferred(span: Span)

  /** The decrypted frame of a span, header and padding included. */
  function FrameOf(p: Primitives, key: Key, file: Bytes, span: Span): (frame: Bytes)
    requires span.Fits(file)
    ensures |frame| == span.length
  {
    CbcDecrypt(p, key, span.previous, file[span.offset..span.offset + span.length])
  }

  /** The bytes a payload stands for. */
  function Content(p: Primitives, key: Key, file: Bytes, payload: FieldPayload): Bytes {
    match payload
    case Inline(data) => data
    case Deferred(span) =>
      if span.Fits(file) then FrameOf(p, key, file, span)[FIELD_HEADER_BYTES..FIELD_HEADER_BYTES + span.payloadLength]
      else []
  }

  /** Every chunk but the last is full, none is empty, none exceeds the bound. */
  predicate WellChunked(chunks: seq<Bytes>, size: nat) {
    && (forall i :: 0 <= i < |chunks| ==> 0 < |chunks[i]| <= size)
    && (forall i :: 0 <= i < |chunks| - 1 ==> |chunks[i]| == size)
  }

  /** Decrypting one block of the span yields that block of its frame. */
  lemma BlockOfFrame(p: Primitives, key: Key, file: Bytes, span: Span, at: nat)
    requires span.Fits(file) && at % BLOCK_BYTES == 0 && at + BLOCK_BYTES <= span.length
    ensures var cipher := file[span.offset..span.offset + span.length];
            && Aligned(cipher[..at])
            && file[span.offset + at..span.offset + at + BLOCK_BYTES] == cipher[at..at + BLOCK_BYTES]
            && CbcDecrypt(p, key, Chain(span.previous, cipher[..at]), cipher[at..at + BLOCK_BYTES])
               == FrameOf(p, key, file, span)[at..at + BLOCK_BYTES]
            && Aligned(cipher[..at + BLOCK_BYTES])
            && Chain(span.previous, cipher[..at + BLOCK_BYTES]) == cipher[at..at + BLOCK_BYTES]
  {
    hide CbcDecrypt;
    var cipher := file[span.offset..span.offset + span.length];
    CbcWindow(p, key, span.previous, cipher, at, at + BLOCK_BYTES);
    SliceOfSlice(file, span.offset, span.length, at, BLOCK_BYTES);
    assert cipher[..at + BLOCK_BYTES][at..] == cipher[at..at + BLOCK_BYTES];
  }

  lemma SliceOfSlice(data: Bytes, offset: nat, length: nat, at: nat, n: nat)
    requires offset + length <= |data| && at + n <= length
    ensures data[offset..offset + length][at..at + n] == data[offset + at..offset + at + n]
  {
    var inner := data[offset..offset + length];
    var window := inner[at..at + n];
    assert forall i :: 0 <= i < n ==> window[i] == data[offset + at + i];
  }

  /** One more block extends what has been delivered by the payload bytes it holds. */
  lemma PayloadGrows(frame: Bytes, span: Span, at: nat, taken: nat, available: nat)
    requires |frame| == span.length == Writer.PaddedLength(span.payloadLength)
    requires Resumes(span, at, taken) && taken < span.payloadLength && at + BLOCK_BYTES <= span.length
    requires available == Min(BLOCK_BYTES - (if at == 0 then FIELD_HEADER_BYTES else 0), span.payloadLength - taken)
    ensures var start := if at == 0 then FIELD_HEADER_BYTES else 0;
            var payload := frame[FIELD_HEADER_BYTES..FIELD_HEADER_BYTES + span.payloadLength];
            payload[..taken + available] == payload[..taken] + frame[at..at + BLOCK_BYTES][start..start + available]
    ensures Resumes(span, at + BLOCK_BYTES, taken + available)
    ensures taken + available < span.payloadLength ==> at + BLOCK_BYTES < span.length
  {
    var start := if at == 0 then FIELD_HEADER_BYTES else 0;
    var payload := frame[FIELD_HEADER_BYTES..FIELD_HEADER_BYTES + span.payloadLength];
    SliceOfSlice(frame, FIELD_HEADER_BYTES, span.payloadLength, taken, available);
    SliceOfSlice(frame, at, BLOCK_BYTES, start, available);
    assert payload[..taken + available] == payload[..taken] + payload[taken..taken + available];
  }

  lemma Regroup(chunks: seq<Bytes>, open: Bytes, more: seq<Bytes>, output: Bytes, data: Bytes)
    requires Flatten(more) + output == open + data
    ensures Flatten(chunks + more) + output == Flatten(chunks) + open + data
  {
    hide Flatten;
    FlattenAppend(chunks, more);
    assert Flatten(chunks) + Flatten(more) + output == Flatten(chunks) + (Flatten(more) + output);
    assert Flatten(chunks) + (open + data) == Flatten(chunks) + open + data;
  }

  /**
   Where the payload resumes after `taken` bytes: past the header in the first block, at the edge of
   every later one.
   */
  predicate Resumes(span: Span, at: nat, taken: nat) {
    && at % BLOCK_BYTES == 0
    && taken <= span.payloadLength
    && (if at == 0 then taken == 0 else taken == Min(span.payloadLength, at - FIELD_HEADER_BYTES))
  }

  method StreamChunks(p: Primitives, key: Key, file: Bytes, span: Span, chunkSize: nat) returns (chunks: seq<Bytes>)
    requires span.Fits(file) && chunkSize > 0
    ensures Flatten(chunks) == Content(p, key, file, Deferred(span))
    ensures WellChunked(chunks, chunkSize)
  {
    hide CbcDecrypt, Chain, Flatten, Xor, FrameOf;
    var decryptor := new CbcDecryptor(p, key, span.previous);
    ghost var cipher := file[span.offset..span.offset + span.length];
    ghost var frame := FrameOf(p, key, file, span);
    ghost var payload := frame[FIELD_HEADER_BYTES..FIELD_HEADER_BYTES + span.payloadLength];
    var remaining := span.payloadLength;
    var position: nat := 0;
    var output: Bytes := [];
    chunks := [];
    FlattenNothing();
    assert cipher[..0] == [];
    assert Chain(span.previous, cipher[..0]) == span.previous by { ChainNothing(span.previous); }
    while remaining > 0
      invariant 0 <= remaining <= span.payloadLength && position <= span.length
      invariant (remaining > 0 ==> position + BLOCK_BYTES <= span.length)
      invariant Resumes(span, position, span.payloadLength - remaining)
      invariant fresh(decryptor) && decryptor.p == p && decryptor.key == key
      invariant Aligned(cipher[..position]) && decryptor.previous == Chain(span.previous, cipher[..position])
      invariant |output| < chunkSize && forall i :: 0 <= i < |chunks| ==> |chunks[i]| == chunkSize
      invariant Flatten(chunks) + output == payload[..span.payloadLength - remaining]
      decreases remaining
    {
      BlockOfFrame(p, key, file, span, position);
      var plaintext := decryptor.Transform(file[span.offset + position..span.offset + position + BLOCK_BYTES]);
      var start := if position == 0 then FIELD_HEADER_BYTES else 0;
      var available := Min(BLOCK_BYTES - start, remaining);
      PayloadGrows(frame, span, position, span.payloadLength - remaining, available);
      ghost var open := output;
      var more;
      more, output := FillChunks(chunkSize, output, plaintext[start..start + available]);
      Regroup(chunks, open, more, output, plaintext[start..start + available]);
      chunks := chunks + more;
      remaining := remaining - available;
      position := position + BLOCK_BYTES;
    }
    assert payload[..span.payloadLength] == payload;
    if output != [] {
      FlattenSnoc(chunks, output);
      chunks := chunks + [output];
    }
  }

  lemma FlattenNothing()
    ensures Flatten<Byte>([]) == []
  {
  }

  lemma ChainNothing(iv: Block)
    ensures Chain(iv, []) == iv
  {
  }

  /** Top up the open chunk and emit every chunk that becomes full. */
  method FillChunks(chunkSize: nat, open: Bytes, data: Bytes) returns (full: seq<Bytes>, output: Bytes)
    requires chunkSize > 0 && |open| < chunkSize
    ensures |output| < chunkSize && forall i :: 0 <= i < |full| ==> |full[i]| == chunkSize
    ensures Flatten(full) + output == open + data
  {
    hide Flatten;
    full, output := [], open;
    FlattenNothing();
    var position := 0;
    while position < |data|
      invariant 0 <= position <= |data| && |output| < chunkSize
      invariant forall i :: 0 <= i < |full| ==> |full[i]| == chunkSize
      invariant Flatten(full) + output == open + data[..position]
    {
      var copied := Min(chunkSize - |output|, |data| - position);
      ghost var before := output;
      output := output + data[position..position + copied];
      assert data[..position + copied] == data[..position] + data[position..position + copied];
      assert Flatten(full) + output == (Flatten(full) + before) + data[position..position + copied];
      assert Flatten(full) + output == open + data[..position + copied];
      position := position + copied;
      if |output| == chunkSize {
        FlattenSnoc(full, output);
        full := full + [output];
        output := [];
      }
    }
    assert data[..position] == data;
  }
}
