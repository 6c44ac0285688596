/**
 The streaming parser: envelope boundaries, the frame loop with its budgets, both payload forms,
 and publication of a document only after the authenticator and the schema pass have accepted it.
 */
module Reader {
  import opened Basics
  import opened Crypto
  import opened Documents
  import opened Payloads
  import Schema
  import Writer

  const PREFIX_BYTES: nat := 152
  const SUFFIX_BYTES: nat := 48

  datatype Frame<T> = Frame(typeCode: Byte, payload: T)

  /** The private builder: fields routed to the header or to record slots in traversal order. */
  datatype Builder<T> = Builder(header: seq<Frame<T>>, records: seq<seq<Frame<T>>>)

  datatype Cursor<T> = Cursor(builder: Builder<T>, inHeader: bool, recordOrdinal: nat, fieldCount: nat,
                              authenticated: Bytes)

  /** A parsed stream still in quarantine, with the bytes its authenticator has seen. */
  datatype Quarantined<T> = Quarantined(builder: Builder<T>, authenticated: Bytes)

  function Start<T>(): Cursor<T> {
    Cursor(Builder([], []), true, 0, 0, [])
  }

  /** Append to the open record slot, creating it when it is the next one. */
  function AddField<T>(c: Cursor<T>, f: Frame<T>): Option<Builder<T>> {
    var b := c.builder;
    if c.inHeader then Some(Builder(b.header + [f], b.records))
    else if c.recordOrdinal == |b.records| then Some(Builder(b.header, b.records + [[f]]))
    else if c.recordOrdinal < |b.records| then
      Some(Builder(b.header, b.records[c.recordOrdinal := b.records[c.recordOrdinal] + [f]]))
    else None
  }

  /** Accept one frame: count it, route it, and let terminators close the open section. */
  function Advance<T>(c: Cursor<T>, f: Frame<T>, content: Bytes, limits: ResourceLimits): Result<Cursor<T>> {
    var builder := AddField(c, f);
    if builder.None? then Err(InvalidField)
    else
      var next := Cursor(builder.value, c.inHeader, c.recordOrdinal, c.fieldCount + 1, c.authenticated + content);
      if f.typeCode != Schema.END then Ok(next)
      else if c.inHeader then Ok(next.(inHeader := false))
      else if c.recordOrdinal + 1 > limits.maxRecords then Err(MaxRecords)
      else Ok(next.(recordOrdinal := c.recordOrdinal + 1))
  }

  /** The length and type at the head of a frame, or the reason the stream is refused there. */
  function FrameHead<T>(c: Cursor<T>, first: Block, remaining: nat, limits: ResourceLimits): Result<(nat, Byte)> {
    var length := FromLittleEndian(first[..4]);
    if Writer.PaddedLength(length) > remaining then Err(InvalidField)
    else if c.fieldCount + 1 > limits.maxFields then Err(MaxFields)
    else if first[4] == Schema.END && length != 0 then Err(InvalidField)
    else Ok((length, first[4]))
  }

  predicate EndsInTerminator<T>(fields: seq<Frame<T>>) {
    fields != [] && fields[|fields| - 1].typeCode == Schema.END
  }

  function Finish<T>(c: Cursor<T>): Result<Quarantined<T>> {
    if c.inHeader || (c.builder.records != [] && !EndsInTerminator(c.builder.records[|c.builder.records| - 1]))
    then Err(InvalidField)
    else Ok(Quarantined(c.builder, c.authenticated))
  }

  /** Reading a decrypted stream of frames to its end. */
  function ParseFrom(rest: Bytes, c: Cursor<Bytes>, limits: ResourceLimits): Result<Quarantined<Bytes>>
    decreases |rest|
  {
    if rest == [] then Finish(c)
    else if !c.inHeader && c.recordOrdinal >= limits.maxRecords then Err(MaxRecords)
    else if |rest| < BLOCK_BYTES then Err(InvalidField)
    else
      var head :- FrameHead(c, rest[..BLOCK_BYTES], |rest|, limits);
      var payload := rest[5..5 + head.0];
      var next :- Advance(c, Frame(head.1, payload), payload, limits);
      ParseFrom(rest[Writer.PaddedLength(head.0)..], next, limits)
  }

  // ---------------------------------------------------------------- one payload

  /**
   Consume one frame block by block. Only declared payload bytes are authenticated; a payload above
   the inline bound becomes a span, which is streamed once more and compared by digest.
   */
  method ConsumeFieldPayload(
    p: Primitives, key: Key, file: Bytes, decryptor: CbcDecryptor, firstPlaintext: Block, span: Span,
    limits: ResourceLimits)
    returns (payload: FieldPayload, authenticated: Bytes)
    requires span.Fits(file) && limits.Valid()
    requires firstPlaintext == FrameOf(p, key, file, span)[..BLOCK_BYTES]
    requires decryptor.p == p && decryptor.key == key
    requires decryptor.previous == Chain(span.previous, file[span.offset..span.offset + BLOCK_BYTES])
    modifies decryptor
    ensures authenticated == Content(p, key, file, Deferred(span))
    ensures payload.Deferred? ==> payload.span.Fits(file)
    ensures Content(p, key, file, payload) == Content(p, key, file, Deferred(span))
    ensures payload.Inline? <==> span.payloadLength <= limits.maxInlinePayload
    ensures Aligned(file[span.offset..span.offset + span.length])
    ensures decryptor.previous == Chain(span.previous, file[span.offset..span.offset + span.length])
  {
    hide CbcDecrypt, Chain, Xor, FrameOf;
    ghost var cipher := file[span.offset..span.offset + span.length];
    ghost var frame := FrameOf(p, key, file, span);
    ghost var declared := frame[5..5 + span.payloadLength];
    SliceOfSlice(file, span.offset, span.length, 0, BLOCK_BYTES);
    var consumed: nat := Min(span.payloadLength, BLOCK_BYTES - 5);
    authenticated := firstPlaintext[5..5 + consumed];
    FirstBytes(frame, span, firstPlaintext, consumed);
    var position: nat := BLOCK_BYTES;
    while position < span.length
      invariant BLOCK_BYTES <= position <= span.length && position % BLOCK_BYTES == 0
      invariant Resumes(span, position, consumed) && authenticated == declared[..consumed]
      invariant decryptor.p == p && decryptor.key == key
      invariant Aligned(cipher[..position]) && decryptor.previous == Chain(span.previous, cipher[..position])
    {
      BlockOfFrame(p, key, file, span, position);
      var plaintext := decryptor.Transform(file[span.offset + position..span.offset + position + BLOCK_BYTES]);
      var count := Min(span.payloadLength - consumed, BLOCK_BYTES);
      PayloadBlock(frame, span, position, consumed, count);
      authenticated := authenticated + plaintext[..count];
      consumed := consumed + count;
      position := position + BLOCK_BYTES;
    }
    assert cipher[..span.length] == cipher;
    assert consumed == span.payloadLength && declared[..consumed] == declared;
    if span.payloadLength <= limits.maxInlinePayload {
      payload := Inline(authenticated);
    } else {
      payload := Deferred(span);
      var chunks := StreamChunks(p, key, file, span, limits.ioChunk);
      assert p.sha256(Flatten(chunks)) == p.sha256(authenticated);
    }
  }

  lemma FirstBytes(frame: Bytes, span: Span, first: Block, consumed: nat)
    requires |frame| == span.length == Writer.PaddedLength(span.payloadLength) && first == frame[..BLOCK_BYTES]
    requires consumed == Min(span.payloadLength, BLOCK_BYTES - 5)
    ensures first[5..5 + consumed] == frame[5..5 + span.payloadLength][..consumed]
    ensures Resumes(span, BLOCK_BYTES, consumed)
  {
  }

  lemma PayloadBlock(frame: Bytes, span: Span, at: nat, consumed: nat, count: nat)
    requires |frame| == span.length == Writer.PaddedLength(span.payloadLength)
    requires at > 0 && Resumes(span, at, consumed) && at + BLOCK_BYTES <= span.length
    requires count == Min(span.payloadLength - consumed, BLOCK_BYTES)
    ensures Resumes(span, at + BLOCK_BYTES, consumed + count)
    ensures var declared := frame[5..5 + span.payloadLength];
            declared[..consumed + count] == declared[..consumed] + frame[at..at + BLOCK_BYTES][..count]
  {
    var declared := frame[5..5 + span.payloadLength];
    SliceOfSlice(frame, 5, span.payloadLength, consumed, count);
    SliceOfSlice(frame, at, BLOCK_BYTES, 0, count);
    assert declared[..consumed + count] == declared[..consumed] + declared[consumed..consumed + count];
  }

  // ---------------------------------------------------------------- the frame loop

  function ResolveFields(p: Primitives, key: Key, file: Bytes, fields: seq<Frame<FieldPayload>>): (r: seq<Frame<Bytes>>)
    ensures |r| == |fields|
  {
    seq(|fields|, i requires 0 <= i < |fields| => Frame(fields[i].typeCode, Content(p, key, file, fields[i].payload)))
  }

  function ResolveBuilder(p: Primitives, key: Key, file: Bytes, b: Builder<FieldPayload>): (r: Builder<Bytes>)
    ensures |r.records| == |b.records|
  {
    Builder(
      ResolveFields(p, key, file, b.header),
      seq(|b.records|, r requires 0 <= r < |b.records| => ResolveFields(p, key, file, b.records[r])))
  }

  function ResolveCursor(p: Primitives, key: Key, file: Bytes, c: Cursor<FieldPayload>): Cursor<Bytes> {
    Cursor(ResolveBuilder(p, key, file, c.builder), c.inHeader, c.recordOrdinal, c.fieldCount, c.authenticated)
  }

  lemma ResolveSnoc(p: Primitives, key: Key, file: Bytes, fields: seq<Frame<FieldPayload>>, f: Frame<FieldPayload>)
    ensures ResolveFields(p, key, file, fields + [f])
         == ResolveFields(p, key, file, fields) + [Frame(f.typeCode, Content(p, key, file, f.payload))]
  {
    hide Content;
  }

  lemma ResolveOne(p: Primitives, key: Key, file: Bytes, f: Frame<FieldPayload>)
    ensures ResolveFields(p, key, file, [f]) == [Frame(f.typeCode, Content(p, key, file, f.payload))]
  {
    hide Content;
  }

  lemma ResolveAdd(p: Primitives, key: Key, file: Bytes, c: Cursor<FieldPayload>, f: Frame<FieldPayload>)
    ensures var added := AddField(c, f);
            var resolved := AddField(ResolveCursor(p, key, file, c),
                                     Frame(f.typeCode, Content(p, key, file, f.payload)));
            if added.None? then resolved.None? else resolved == Some(ResolveBuilder(p, key, file, added.value))
  {
    hide Content, ResolveFields;
    var b, r := c.builder, c.recordOrdinal;
    if c.inHeader {
      ResolveSnoc(p, key, file, b.header, f);
    } else if r == |b.records| {
      ResolveOne(p, key, file, f);
      assert ResolveBuilder(p, key, file, Builder(b.header, b.records + [[f]])).records
          == ResolveBuilder(p, key, file, b).records + [ResolveFields(p, key, file, [f])];
    } else if r < |b.records| {
      ResolveSnoc(p, key, file, b.records[r], f);
      assert ResolveBuilder(p, key, file, Builder(b.header, b.records[r := b.records[r] + [f]])).records
          == ResolveBuilder(p, key, file, b).records[r := ResolveFields(p, key, file, b.records[r] + [f])];
    }
  }

  /** Storing spans or storing bytes makes no difference to how a stream is routed. */
  lemma ResolveAdvance(
    p: Primitives, key: Key, file: Bytes, c: Cursor<FieldPayload>, f: Frame<FieldPayload>, limits: ResourceLimits)
    ensures var content := Content(p, key, file, f.payload);
            var kept := Advance(c, f, content, limits);
            var resolved := Advance(ResolveCursor(p, key, file, c), Frame(f.typeCode, content), content, limits);
            if kept.Err? then resolved == Err(kept.error) else resolved == Ok(ResolveCursor(p, key, file, kept.value))
  {
    hide AddField, Content, ResolveBuilder;
    ResolveAdd(p, key, file, c, f);
  }

  lemma ResolveFinish(p: Primitives, key: Key, file: Bytes, c: Cursor<FieldPayload>)
    ensures var kept := Finish(c);
            Finish(ResolveCursor(p, key, file, c)) ==
            if kept.Err? then Err(kept.error)
            else Ok(Quarantined(ResolveBuilder(p, key, file, kept.value.builder), kept.value.authenticated))
  {
    hide Content;
  }

  /**
   What the loop knows at a frame boundary: the chain stands there and the rest of the stream
   remains to be parsed.
   */
  ghost predicate Boundary(
    p: Primitives, key: Key, iv: Block, file: Bytes, length: nat, position: nat, previous: Block,
    cursor: Cursor<FieldPayload>, limits: ResourceLimits)
    requires PREFIX_BYTES + length <= |file| && length % BLOCK_BYTES == 0
  {
    var cipher := file[PREFIX_BYTES..PREFIX_BYTES + length];
    var plain := CbcDecrypt(p, key, iv, cipher);
    && position <= length && position % BLOCK_BYTES == 0 && Aligned(cipher[..position])
    && previous == Chain(iv, cipher[..position])
    && ParseFrom(plain, Start(), limits) == ParseFrom(plain[position..], ResolveCursor(p, key, file, cursor), limits)
  }

  method ReadFrame(
    p: Primitives, key: Key, ghost iv: Block, file: Bytes, length: nat, position: nat, previous: Block,
    cursor: Cursor<FieldPayload>, decryptor: CbcDecryptor, limits: ResourceLimits)
    returns (result: Result<Cursor<FieldPayload>>, after: nat)
    requires PREFIX_BYTES + length <= |file| && length % BLOCK_BYTES == 0 && limits.Valid() && position < length
    requires Boundary(p, key, iv, file, length, position, previous, cursor, limits)
    requires decryptor.p == p && decryptor.key == key && decryptor.previous == previous
    modifies decryptor
    ensures result.Err? ==>
              ParseFrom(CbcDecrypt(p, key, iv, file[PREFIX_BYTES..PREFIX_BYTES + length]), Start(), limits)
                  == Err(result.error)
    ensures result.Ok? ==> position < after <= length
                           && Boundary(p, key, iv, file, length, after, decryptor.previous, result.value, limits)
                           && decryptor.previous == file[PREFIX_BYTES + after - BLOCK_BYTES..PREFIX_BYTES + after]
  {
    hide CbcDecrypt, Chain, Xor, FrameOf, ResolveBuilder, AddField, Content, Finish, Advance, ParseFrom, FrameHead,
         Boundary;
    after := position;
    ghost var rest := CbcDecrypt(p, key, iv, file[PREFIX_BYTES..PREFIX_BYTES + length])[position..];
    BoundaryParts(p, key, iv, file, length, position, previous, cursor, limits);
    if !cursor.inHeader && cursor.recordOrdinal >= limits.maxRecords {
      StopAtRecords(rest, ResolveCursor(p, key, file, cursor), limits);
      return Err(MaxRecords), after;
    }
    var offset := PREFIX_BYTES + position;
    var firstCipher: Block := file[offset..offset + BLOCK_BYTES];
    FirstBlock(p, key, iv, file, length, position);
    var first := decryptor.Transform(firstCipher);
    var head := CheckHead(cursor, first, length - position, limits);
    HeadIgnoresPayloads(p, key, file, cursor, first, length - position, limits);
    ParseOne(rest, ResolveCursor(p, key, file, cursor), limits);
    if head.Err? {
      return Err(head.error), after;
    }
    var (payloadLength, code) := head.value;
    var padded := Writer.PaddedLength(payloadLength);
    var span := Span(previous, offset, padded, payloadLength);
    SpanFrame(p, key, iv, file, length, position, span);
    ChainOne(previous, firstCipher);
    var payload, content := ConsumeFieldPayload(p, key, file, decryptor, first, span, limits);
    SpanContent(p, key, file, span, rest);
    result := Advance(cursor, Frame(code, payload), content, limits);
    ResolveAdvance(p, key, file, cursor, Frame(code, payload), limits);
    after := position + padded;
    if result.Ok? {
      BoundaryNext(p, key, iv, file, length, position, after, decryptor.previous, result.value, limits);
    }
  }

  method CheckHead(
    cursor: Cursor<FieldPayload>, first: Block, remaining: nat, limits: ResourceLimits)
    returns (head: Result<(nat, Byte)>)
    ensures head == FrameHead(cursor, first, remaining, limits)
    ensures head.Ok? ==> Writer.PaddedLength(head.value.0) <= remaining
  {
    hide FromLittleEndian;
    var payloadLength := FromLittleEndian(first[..4]);
    var code := first[4];
    if Writer.PaddedLength(payloadLength) > remaining {
      return Err(InvalidField);
    }
    if cursor.fieldCount + 1 > limits.maxFields {
      return Err(MaxFields);
    }
    if code == Schema.END && payloadLength != 0 {
      return Err(InvalidField);
    }
    return Ok((payloadLength, code));
  }

  lemma HeadIgnoresPayloads(
    p: Primitives, key: Key, file: Bytes, cursor: Cursor<FieldPayload>, first: Block, remaining: nat,
    limits: ResourceLimits)
    ensures FrameHead(ResolveCursor(p, key, file, cursor), first, remaining, limits)
              == FrameHead(cursor, first, remaining, limits)
  {
  }

  lemma BoundaryParts(
    p: Primitives, key: Key, iv: Block, file: Bytes, length: nat, position: nat, previous: Block,
    cursor: Cursor<FieldPayload>, limits: ResourceLimits)
    requires PREFIX_BYTES + length <= |file| && length % BLOCK_BYTES == 0
    requires Boundary(p, key, iv, file, length, position, previous, cursor, limits)
    ensures position <= length && position % BLOCK_BYTES == 0
    ensures var cipher := file[PREFIX_BYTES..PREFIX_BYTES + length];
            && Aligned(cipher[..position]) && previous == Chain(iv, cipher[..position])
            && ParseFrom(CbcDecrypt(p, key, iv, cipher), Start(), limits)
               == ParseFrom(CbcDecrypt(p, key, iv, cipher)[position..], ResolveCursor(p, key, file, cursor), limits)
  {
    hide CbcDecrypt, Chain, ParseFrom, ResolveCursor;
  }

  lemma BoundaryNext(
    p: Primitives, key: Key, iv: Block, file: Bytes, length: nat, position: nat, after: nat, previous: Block,
    cursor: Cursor<FieldPayload>, limits: ResourceLimits)
    requires PREFIX_BYTES + length <= |file| && length % BLOCK_BYTES == 0
    requires position <= after <= length && after % BLOCK_BYTES == 0
    requires var cipher := file[PREFIX_BYTES..PREFIX_BYTES + length];
             && Aligned(cipher[..after]) && previous == Chain(iv, cipher[..after])
             && ParseFrom(CbcDecrypt(p, key, iv, cipher), Start(), limits)
                == ParseFrom(CbcDecrypt(p, key, iv, cipher)[position..][after - position..],
                             ResolveCursor(p, key, file, cursor), limits)
    ensures Boundary(p, key, iv, file, length, after, previous, cursor, limits)
  {
    hide CbcDecrypt, Chain, ParseFrom, ResolveCursor;
    DropTwice(CbcDecrypt(p, key, iv, file[PREFIX_BYTES..PREFIX_BYTES + length]), position, after - position);
  }

  lemma StopAtRecords(rest: Bytes, c: Cursor<Bytes>, limits: ResourceLimits)
    requires rest != [] && !c.inHeader && c.recordOrdinal >= limits.maxRecords
    ensures ParseFrom(rest, c, limits) == Err(MaxRecords)
  {
  }

  lemma ParseOne(rest: Bytes, c: Cursor<Bytes>, limits: ResourceLimits)
    requires |rest| >= BLOCK_BYTES && !(!c.inHeader && c.recordOrdinal >= limits.maxRecords)
    ensures var head := FrameHead(c, rest[..BLOCK_BYTES], |rest|, limits);
            if head.Err? then ParseFrom(rest, c, limits) == Err(head.error)
            else
              && Writer.PaddedLength(head.value.0) <= |rest|
              && var payload := rest[5..5 + head.value.0];
                 var next := Advance(c, Frame(head.value.1, payload), payload, limits);
                 ParseFrom(rest, c, limits)
                 == if next.Err? then Err(next.error) else ParseFrom(rest[Writer.PaddedLength(head.value.0)..],
                                                                     next.value, limits)
  {
    hide Advance, Finish;
  }

  lemma ChainOne(iv: Block, block: Block)
    ensures Chain(iv, block) == block
  {
  }

  lemma SpanContent(p: Primitives, key: Key, file: Bytes, span: Span, rest: Bytes)
    requires span.Fits(file) && span.length <= |rest| && FrameOf(p, key, file, span) == rest[..span.length]
    ensures Content(p, key, file, Deferred(span)) == rest[5..5 + span.payloadLength]
  {
    hide CbcDecrypt;
    assert rest[..span.length][5..5 + span.payloadLength] == rest[5..5 + span.payloadLength];
  }

  lemma DropTwice(data: Bytes, at: nat, n: nat)
    requires at + n <= |data|
    ensures data[at..][n..] == data[at + n..]
  {
  }

  /** The loop over the encrypted region: refused and accepted exactly as the decrypted stream is. */
  method DecryptFields(p: Primitives, file: Bytes, length: nat, keys: VaultKeys, iv: Block, limits: ResourceLimits)
    returns (result: Result<Quarantined<FieldPayload>>)
    requires PREFIX_BYTES + length <= |file| && length % BLOCK_BYTES == 0 && limits.Valid()
    ensures var parsed := ParseFrom(CbcDecrypt(p, keys.content, iv, file[PREFIX_BYTES..PREFIX_BYTES + length]), Start(),
              limits);
            if parsed.Err? then result == Err(parsed.error)
            else result.Ok?
                 && parsed.value.authenticated == result.value.authenticated
                 && parsed.value.builder == ResolveBuilder(p, keys.content, file, result.value.builder)
  {
    hide CbcDecrypt, Chain, ResolveBuilder, Finish, Boundary;
    var decryptor := new CbcDecryptor(p, keys.content, iv);
    var cursor: Cursor<FieldPayload> := Start();
    var previous := iv;
    var position: nat := 0;
    BoundaryStart(p, keys.content, iv, file, length, limits);
    while position < length
      invariant 0 <= position <= length && previous == decryptor.previous
      invariant fresh(decryptor) && decryptor.p == p && decryptor.key == keys.content
      invariant Boundary(p, keys.content, iv, file, length, position, previous, cursor, limits)
      decreases length - position
    {
      var read, after := ReadFrame(p, keys.content, iv, file, length, position, previous, cursor, decryptor, limits);
      if read.Err? {
        return Err(read.error);
      }
      cursor := read.value;
      position := after;
      previous := file[PREFIX_BYTES + position - BLOCK_BYTES..PREFIX_BYTES + position];
    }
    BoundaryEnd(p, keys.content, iv, file, length, previous, cursor, limits);
    ResolveFinish(p, keys.content, file, cursor);
    return Finish(cursor);
  }

  lemma BoundaryStart(p: Primitives, key: Key, iv: Block, file: Bytes, length: nat, limits: ResourceLimits)
    requires PREFIX_BYTES + length <= |file| && length % BLOCK_BYTES == 0
    ensures Boundary(p, key, iv, file, length, 0, iv, Start(), limits)
  {
    hide CbcDecrypt, ParseFrom;
    var cipher := file[PREFIX_BYTES..PREFIX_BYTES + length];
    assert cipher[..0] == [];
    assert CbcDecrypt(p, key, iv, cipher)[0..] == CbcDecrypt(p, key, iv, cipher);
    StartResolves(p, key, file);
  }

  lemma BoundaryEnd(
    p: Primitives, key: Key, iv: Block, file: Bytes, length: nat, previous: Block, cursor: Cursor<FieldPayload>,
    limits: ResourceLimits)
    requires PREFIX_BYTES + length <= |file| && length % BLOCK_BYTES == 0
    requires Boundary(p, key, iv, file, length, length, previous, cursor, limits)
    ensures ParseFrom(CbcDecrypt(p, key, iv, file[PREFIX_BYTES..PREFIX_BYTES + length]), Start(), limits)
         == Finish(ResolveCursor(p, key, file, cursor))
  {
    hide CbcDecrypt, Finish, ResolveCursor;
    assert CbcDecrypt(p, key, iv, file[PREFIX_BYTES..PREFIX_BYTES + length])[length..] == [];
  }

  lemma StartResolves(p: Primitives, key: Key, file: Bytes)
    ensures ResolveCursor(p, key, file, Start()) == Start()
  {
  }

  /** The first block of a frame, decrypted in stream order, is the head of the remaining plaintext. */
  lemma FirstBlock(p: Primitives, key: Key, iv: Block, file: Bytes, length: nat, at: nat)
    requires PREFIX_BYTES + length <= |file| && length % BLOCK_BYTES == 0 && at % BLOCK_BYTES == 0 && at < length
    ensures var cipher := file[PREFIX_BYTES..PREFIX_BYTES + length];
            var block := file[PREFIX_BYTES + at..PREFIX_BYTES + at + BLOCK_BYTES];
            && Aligned(cipher[..at])
            && CbcDecrypt(p, key, iv, cipher)[at..][..BLOCK_BYTES] == CbcDecrypt(p, key, Chain(iv, cipher[..at]), block)
  {
    hide CbcDecrypt, Chain;
    var cipher := file[PREFIX_BYTES..PREFIX_BYTES + length];
    CbcWindow(p, key, iv, cipher, at, at + BLOCK_BYTES);
    SliceOfSlice(file, PREFIX_BYTES, length, at, BLOCK_BYTES);
    var plain := CbcDecrypt(p, key, iv, cipher);
    assert plain[at..][..BLOCK_BYTES] == plain[at..at + BLOCK_BYTES];
  }

  /** A span taken at the current position decrypts to the frame at the head of the remaining plaintext. */
  lemma SpanFrame(p: Primitives, key: Key, iv: Block, file: Bytes, length: nat, at: nat, span: Span)
    requires PREFIX_BYTES + length <= |file| && length % BLOCK_BYTES == 0 && at % BLOCK_BYTES == 0
    requires span.offset == PREFIX_BYTES + at && span.length == Writer.PaddedLength(span.payloadLength) <= length - at
    requires Aligned(file[PREFIX_BYTES..PREFIX_BYTES + length][..at])
    requires span.previous == Chain(iv, file[PREFIX_BYTES..PREFIX_BYTES + length][..at])
    ensures span.Fits(file)
    ensures FrameOf(p, key, file, span)
              == CbcDecrypt(p, key, iv, file[PREFIX_BYTES..PREFIX_BYTES + length])[at..][..span.length]
    ensures var cipher := file[PREFIX_BYTES..PREFIX_BYTES + length];
            && Aligned(cipher[..at + span.length])
            && Chain(iv, cipher[..at + span.length])
                  == file[span.offset + span.length - BLOCK_BYTES..span.offset + span.length]
            && Aligned(file[span.offset..span.offset + span.length])
            && Chain(iv, cipher[..at + span.length]) == Chain(span.previous,
                                                              file[span.offset..span.offset + span.length])
  {
    hide CbcDecrypt;
    var cipher := file[PREFIX_BYTES..PREFIX_BYTES + length];
    CbcWindow(p, key, iv, cipher, at, at + span.length);
    SliceOfSlice(file, PREFIX_BYTES, length, at, span.length);
    var plain := CbcDecrypt(p, key, iv, cipher);
    assert plain[at..][..span.length] == plain[at..at + span.length];
    SliceOfSlice(file, PREFIX_BYTES, length, at + span.length - BLOCK_BYTES, BLOCK_BYTES);
    assert cipher[..at + span.length][at + span.length - BLOCK_BYTES..]
             == cipher[at + span.length - BLOCK_BYTES..at + span.length];
  }
}
