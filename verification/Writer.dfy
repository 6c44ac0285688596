/**
 The streaming serializer: fixed envelope, length and type frames with field-local padding in one
 continuous CBC stream, end marker, and an authenticator over the payload bytes (sections 2 and 3
 of the PasswordSafe V3 format). The streamed form is proved equal to a one-shot definition.
 */
module Writer {
  import opened Basics
  import opened Crypto
  import opened Documents
  import opened Validation

  const FIELD_HEADER_BYTES: nat := 5
  const MAX_FIELD_BYTES: nat := 0xFFFF_FFFF
  const FIXED_CANDIDATE_BYTES: nat := 4 + 32 + 4 + 32 + 64 + 16 + 16 + 32

  const FILE_TAG: Bytes := [0x50, 0x57, 0x53, 0x33]
  const EOF_MARKER: Bytes := [
    0x50, 0x57, 0x53, 0x33, 0x2D, 0x45, 0x4F, 0x46, 0x50, 0x57, 0x53, 0x33, 0x2D, 0x45, 0x4F, 0x46]

  /** Salt, iteration count and derived key travel together. */
  datatype Material = Material(salt: Key, iterations: nat, derived: Key)

  function PaddingLength(length: nat): (n: nat)
    ensures n < BLOCK_BYTES && (FIELD_HEADER_BYTES + length + n) % BLOCK_BYTES == 0
  {
    -(FIELD_HEADER_BYTES + length) % BLOCK_BYTES
  }

  function PaddedLength(length: nat): (n: nat)
    ensures n == FIELD_HEADER_BYTES + length + PaddingLength(length)
    ensures n % BLOCK_BYTES == 0
  {
    (FIELD_HEADER_BYTES + length + BLOCK_BYTES - 1) / BLOCK_BYTES * BLOCK_BYTES
  }

  function FrameHeader(code: Byte, length: nat): (h: Bytes)
    ensures |h| == FIELD_HEADER_BYTES
  {
    LittleEndian(length, 4) + [code]
  }

  /** One field frame: length, type, payload, padding to the block boundary. */
  function Framed(code: Byte, payload: Bytes, padding: Bytes): Bytes {
    FrameHeader(code, |payload|) + payload + padding
  }

  predicate PaddingFits(payload: Bytes, padding: Bytes) {
    |padding| == PaddingLength(|payload|)
  }

  predicate PaddingsFit(fields: seq<RawField>, paddings: seq<Bytes>) {
    |paddings| == |fields| && forall i :: 0 <= i < |fields| ==> PaddingFits(fields[i].payload, paddings[i])
  }

  lemma FramedAligned(code: Byte, payload: Bytes, padding: Bytes)
    requires PaddingFits(payload, padding)
    ensures Aligned(Framed(code, payload, padding)) && |Framed(code, payload, padding)| == PaddedLength(|payload|)
  {
  }

  function FramesFrom(fields: seq<RawField>, paddings: seq<Bytes>, i: nat): Bytes
    requires i <= |fields| == |paddings|
    decreases |fields| - i
  {
    if i == |fields| then []
    else Framed(fields[i].typeCode, fields[i].payload, paddings[i]) + FramesFrom(fields, paddings, i + 1)
  }

  function PayloadsFrom(fields: seq<RawField>, i: nat): Bytes
    requires i <= |fields|
    decreases |fields| - i
  {
    if i == |fields| then [] else fields[i].payload + PayloadsFrom(fields, i + 1)
  }

  lemma AlignedNothing()
    ensures Aligned([])
  {
  }

  lemma {:induction false} FramesAligned(fields: seq<RawField>, paddings: seq<Bytes>, i: nat)
    requires PaddingsFit(fields, paddings) && i <= |fields|
    ensures Aligned(FramesFrom(fields, paddings, i))
    decreases |fields| - i
  {
    hide Framed, Aligned, PaddingLength;
    if i < |fields| {
      assert PaddingFits(fields[i].payload, paddings[i]);
      FramedAligned(fields[i].typeCode, fields[i].payload, paddings[i]);
      FramesAligned(fields, paddings, i + 1);
      AlignedParts(Framed(fields[i].typeCode, fields[i].payload, paddings[i]), FramesFrom(fields, paddings, i + 1));
    } else {
      AlignedNothing();
    }
  }

  function Prefix(p: Primitives, material: Material, keys: VaultKeys, iv: Block): (r: Bytes)
    ensures |r| == 152
  {
    FILE_TAG + material.salt + LittleEndian(material.iterations, 4) + p.sha256(material.derived)
    + WrappedKeys(p, material.derived, keys) + iv
  }

  /** The whole candidate file, described at once. */
  function CandidateBytes(
    p: Primitives, fields: seq<RawField>, paddings: seq<Bytes>, material: Material, keys: VaultKeys, iv: Block): Bytes
    requires PaddingsFit(fields, paddings)
  {
    FramesAligned(fields, paddings, 0);
    Prefix(p, material, keys, iv)
    + CbcEncrypt(p, keys.content, iv, FramesFrom(fields, paddings, 0))
    + EOF_MARKER
    + p.hmac(keys.authentication, PayloadsFrom(fields, 0))
  }

  // ---------------------------------------------------------------- the streaming form

  /** What one payload hands to the writer: a declared length and the chunks its iterator yields. */
  predicate ChunksDeliver(declared: nat, chunks: seq<Bytes>) {
    (forall i :: 0 <= i < |chunks| ==> chunks[i] != []) && |Flatten(chunks)| == declared
  }

  /** The writer's output after some plaintext: whole blocks are out, the rest is pending. */
  ghost predicate Streamed(
    p: Primitives, key: Key, start: Block, emitted: Bytes, fed: Bytes, pending: Bytes, output: Bytes, previous: Block)
  {
    && |pending| < BLOCK_BYTES && |pending| <= |fed| && pending == fed[|fed| - |pending|..]
    && Aligned(fed[..|fed| - |pending|])
    && output == emitted + CbcEncrypt(p, key, start, fed[..|fed| - |pending|])
    && previous == Chain(start, CbcEncrypt(p, key, start, fed[..|fed| - |pending|]))
  }

  lemma StreamedStart(p: Primitives, key: Key, start: Block, emitted: Bytes)
    ensures Streamed(p, key, start, emitted, [], [], emitted, start)
  {
  }

  lemma StreamedPart(
    p: Primitives, key: Key, start: Block, emitted: Bytes, fed: Bytes, pending: Bytes, output: Bytes, previous: Block,
    more: Bytes)
    requires Streamed(p, key, start, emitted, fed, pending, output, previous) && |pending| + |more| < BLOCK_BYTES
    ensures Streamed(p, key, start, emitted, fed + more, pending + more, output, previous)
  {
    hide CbcEncrypt, Chain;
    assert (fed + more)[..|fed| - |pending|] == fed[..|fed| - |pending|];
    assert (fed + more)[|fed| - |pending|..] == pending + more;
  }

  lemma StreamedBlock(
    p: Primitives, key: Key, start: Block, emitted: Bytes, fed: Bytes, pending: Bytes, output: Bytes, previous: Block,
    more: Bytes)
    requires Streamed(p, key, start, emitted, fed, pending, output, previous) && |pending| + |more| == BLOCK_BYTES
    ensures Aligned(pending + more)
    ensures var encrypted := CbcEncrypt(p, key, previous, pending + more);
            Streamed(p, key, start, emitted, fed + more, [], output + encrypted, encrypted)
  {
    hide CbcEncrypt, Chain;
    var whole := fed[..|fed| - |pending|];
    BlockAligned(pending + more);
    assert (fed + more)[..|fed + more|] == whole + (pending + more);
    CbcEncryptAppend(p, key, start, whole, pending + more);
    assert (fed + more)[|fed + more|..] == [];
    ChainThrough(start, CbcEncrypt(p, key, start, whole), CbcEncrypt(p, key, previous, pending + more));
    Reassociated(emitted, CbcEncrypt(p, key, start, whole), CbcEncrypt(p, key, previous, pending + more));
  }

  lemma BlockAligned(data: Bytes)
    requires |data| == BLOCK_BYTES
    ensures Aligned(data)
  {
  }

  lemma ChainThrough(start: Block, whole: Bytes, last: Bytes)
    requires Aligned(whole) && |last| == BLOCK_BYTES
    ensures Aligned(whole + last) && Chain(start, whole + last) == last
  {
  }

  lemma StreamedDone(
    p: Primitives, key: Key, start: Block, emitted: Bytes, fed: Bytes, pending: Bytes, output: Bytes, previous: Block)
    requires Streamed(p, key, start, emitted, fed, pending, output, previous) && Aligned(fed)
    ensures pending == []
    ensures output == emitted + CbcEncrypt(p, key, start, fed)
    ensures previous == Chain(start, CbcEncrypt(p, key, start, fed))
  {
    hide CbcEncrypt, Chain;
    assert fed[..|fed|] == fed;
  }

  lemma FlattenGrows(chunks: seq<Bytes>, n: nat)
    requires n <= |chunks|
    ensures |Flatten(chunks[..n])| <= |Flatten(chunks)|
  {
    assert chunks == chunks[..n] + chunks[n..];
    FlattenAppend(chunks[..n], chunks[n..]);
  }

  class FieldStream {
    const p: Primitives
    const key: Key
    const encryptor: CbcEncryptor
    var output: Bytes
    var authenticated: Bytes

    ghost predicate Valid()
      reads this
    {
      encryptor.p == p && encryptor.key == key
    }

    ghost predicate At(start: Block, emitted: Bytes, fed: Bytes, pending: Bytes)
      reads this, encryptor
    {
      Valid() && Streamed(p, key, start, emitted, fed, pending, output, encryptor.previous)
    }

    constructor (p: Primitives, key: Key, iv: Block, prefix: Bytes)
      ensures Valid() && this.p == p && this.key == key && fresh(encryptor)
      ensures output == prefix && authenticated == [] && encryptor.previous == iv
    {
      this.p, this.key, output, authenticated := p, key, prefix, [];
      encryptor := new CbcEncryptor(p, key, iv);
    }

    /** Encrypt data of any length, keeping at most one partial block. */
    method EncryptBytes(pending: Bytes, data: Bytes, ghost start: Block, ghost emitted: Bytes, ghost fed: Bytes)
      returns (rest: Bytes)
      requires At(start, emitted, fed, pending)
      modifies this`output, encryptor
      ensures At(start, emitted, fed + data, rest)
    {
      hide Streamed, CbcEncrypt, Xor;
      rest := pending;
      var position := 0;
      PendingShort(start, emitted, fed, pending);
      assert fed + data[..0] == fed;
      while position < |data|
        invariant 0 <= position <= |data| && |rest| < BLOCK_BYTES
        invariant At(start, emitted, fed + data[..position], rest)
      {
        var copied := Min(BLOCK_BYTES - |rest|, |data| - position);
        var more := data[position..position + copied];
        ghost var before := fed + data[..position];
        assert fed + data[..position + copied] == before + more;
        if |rest| + copied == BLOCK_BYTES {
          StreamedBlock(p, key, start, emitted, before, rest, output, encryptor.previous, more);
          var encrypted := encryptor.Transform(rest + more);
          output := output + encrypted;
          rest := [];
        } else {
          StreamedPart(p, key, start, emitted, before, rest, output, encryptor.previous, more);
          rest := rest + more;
        }
        position := position + copied;
      }
      assert data[..|data|] == data;
    }

    /** Frame one payload, chunk by chunk. It succeeds exactly when the chunks deliver the declared length. */
    method WriteField(code: Byte, declared: nat, chunks: seq<Bytes>, padding: Bytes) returns (result: Result<()>)
      requires Valid()
      modifies this, encryptor
      ensures Valid()
      ensures result.Ok? <==>
                declared <= MAX_FIELD_BYTES && ChunksDeliver(declared, chunks) && |padding| == PaddingLength(declared)
      ensures result.Ok? ==>
                && Aligned(Framed(code, Flatten(chunks), padding))
                && var cipher := CbcEncrypt(p, key, old(encryptor.previous), Framed(code, Flatten(chunks), padding));
                   && output == old(output) + cipher
                   && encryptor.previous == Chain(old(encryptor.previous), cipher)
                   && authenticated == old(authenticated) + Flatten(chunks)
    {
      hide Streamed, CbcEncrypt, Chain, PaddingLength;
      ghost var start, emitted, before := encryptor.previous, output, authenticated;
      if declared > MAX_FIELD_BYTES {
        return Err(PreparationFailed);
      }
      StreamedStart(p, key, start, emitted);
      var header := FrameHeader(code, declared);
      var pending := EncryptBytes([], header, start, emitted, []);
      ghost var fed: Bytes := [] + header;
      var observed := 0;
      var i := 0;
      while i < |chunks|
        invariant 0 <= i <= |chunks|
        invariant observed == |Flatten(chunks[..i])| <= declared
        invariant forall j :: 0 <= j < i ==> chunks[j] != []
        invariant fed == header + Flatten(chunks[..i])
        invariant At(start, emitted, fed, pending)
        invariant authenticated == before + Flatten(chunks[..i])
      {
        assert chunks[..i + 1] == chunks[..i] + [chunks[i]];
        FlattenSnoc(chunks[..i], chunks[i]);
        FlattenGrows(chunks, i + 1);
        if chunks[i] == [] {
          return Err(PreparationFailed);
        }
        observed := observed + |chunks[i]|;
        if observed > declared {
          return Err(PreparationFailed);
        }
        authenticated := authenticated + chunks[i];
        pending := EncryptBytes(pending, chunks[i], start, emitted, fed);
        fed := fed + chunks[i];
        i := i + 1;
      }
      assert chunks[..i] == chunks;
      if observed != declared || |padding| != PaddingLength(declared) {
        return Err(PreparationFailed);
      }
      pending := EncryptBytes(pending, padding, start, emitted, fed);
      assert fed + padding == Framed(code, Flatten(chunks), padding);
      FramedAligned(code, Flatten(chunks), padding);
      StreamedDone(p, key, start, emitted, fed + padding, pending, output, encryptor.previous);
      return Ok(());
    }

    lemma PendingShort(start: Block, emitted: Bytes, fed: Bytes, pending: Bytes)
      requires At(start, emitted, fed, pending)
      ensures |pending| < BLOCK_BYTES
    {
    }
  }

  // ---------------------------------------------------------------- the whole candidate

  /** What the parts of one candidate must satisfy to be written. */
  predicate Writable(fields: seq<RawField>, chunks: seq<seq<Bytes>>, paddings: seq<Bytes>)
    requires |chunks| == |fields| == |paddings|
  {
    forall i :: 0 <= i < |fields| ==> WritableAt(fields, chunks, paddings, i)
  }

  predicate WritableAt(fields: seq<RawField>, chunks: seq<seq<Bytes>>, paddings: seq<Bytes>, i: nat)
    requires |chunks| == |fields| == |paddings| && i < |fields|
  {
    && |fields[i].payload| <= MAX_FIELD_BYTES
    && ChunksDeliver(|fields[i].payload|, chunks[i])
    && PaddingFits(fields[i].payload, paddings[i])
  }

  /** The frames and payloads written so far, as whole streams. */
  ghost predicate Emitted(
    p: Primitives, key: Key, iv: Block, prefix: Bytes, fields: seq<RawField>, paddings: seq<Bytes>, i: nat,
    output: Bytes, previous: Block, authenticated: Bytes)
    requires i <= |fields| == |paddings|
  {
    var frames := FramesFrom(fields[..i], paddings[..i], 0);
    && Aligned(frames)
    && output == prefix + CbcEncrypt(p, key, iv, frames)
    && previous == Chain(iv, CbcEncrypt(p, key, iv, frames))
    && authenticated == PayloadsFrom(fields[..i], 0)
  }

  lemma {:induction false} FramesSnoc(fields: seq<RawField>, paddings: seq<Bytes>, n: nat, i: nat)
    requires i <= n < |fields| == |paddings|
    ensures FramesFrom(fields[..n + 1], paddings[..n + 1], i)
         == FramesFrom(fields[..n], paddings[..n], i) + Framed(fields[n].typeCode, fields[n].payload, paddings[n])
    ensures PayloadsFrom(fields[..n + 1], i) == PayloadsFrom(fields[..n], i) + fields[n].payload
    decreases n - i
  {
    hide Framed;
    if i < n {
      FramesSnoc(fields, paddings, n, i + 1);
    } else {
      assert FramesFrom(fields[..n + 1], paddings[..n + 1], n + 1) == [];
      assert PayloadsFrom(fields[..n + 1], n + 1) == [];
    }
  }

  lemma EmittedStep(
    p: Primitives, key: Key, iv: Block, prefix: Bytes, fields: seq<RawField>, paddings: seq<Bytes>, i: nat,
    output: Bytes, previous: Block, authenticated: Bytes)
    requires i < |fields| == |paddings| && PaddingFits(fields[i].payload, paddings[i])
    requires Emitted(p, key, iv, prefix, fields, paddings, i, output, previous, authenticated)
    ensures var frame := Framed(fields[i].typeCode, fields[i].payload, paddings[i]);
            && Aligned(frame)
            && var cipher := CbcEncrypt(p, key, previous, frame);
               Emitted(p, key, iv, prefix, fields, paddings, i + 1,
                       output + cipher, Chain(previous, cipher), authenticated + fields[i].payload)
  {
    hide CbcEncrypt, Framed, FramesFrom, PayloadsFrom, PaddingFits;
    var frame := Framed(fields[i].typeCode, fields[i].payload, paddings[i]);
    var frames := FramesFrom(fields[..i], paddings[..i], 0);
    FramedAligned(fields[i].typeCode, fields[i].payload, paddings[i]);
    FramesSnoc(fields, paddings, i, 0);
    CbcEncryptAppend(p, key, iv, frames, frame);
  }

  /** Emit the envelope, every field, the end marker and the authenticator. */
  method WriteCandidate(
    p: Primitives, fields: seq<RawField>, chunks: seq<seq<Bytes>>, paddings: seq<Bytes>,
    material: Material, keys: VaultKeys, iv: Block)
    returns (result: Result<Bytes>)
    requires |chunks| == |fields| == |paddings|
    requires forall i :: 0 <= i < |fields| ==> Flatten(chunks[i]) == fields[i].payload
    ensures result.Ok? <==> Writable(fields, chunks, paddings)
    ensures result.Ok? ==>
              PaddingsFit(fields, paddings) && result.value == CandidateBytes(p, fields, paddings, material, keys, iv)
  {
    hide Emitted, CbcEncrypt, Chain, Framed, PaddingFits, ChunksDeliver, FramesFrom, PayloadsFrom;
    var wrapped := WrapVaultKeys(p, material.derived, keys);
    var prefix := FILE_TAG + material.salt + LittleEndian(material.iterations, 4) + p.sha256(material.derived) + wrapped
        + iv;
    var stream := new FieldStream(p, keys.content, iv, prefix);
    EmittedStart(p, keys.content, iv, prefix, fields, paddings);
    var i := 0;
    while i < |fields|
      invariant 0 <= i <= |fields|
      invariant fresh(stream) && fresh(stream.encryptor) && stream.Valid() && stream.p == p
      invariant stream.key == keys.content
      invariant forall j :: 0 <= j < i ==> WritableAt(fields, chunks, paddings, j)
      invariant Emitted(p, keys.content, iv, prefix, fields, paddings, i, stream.output, stream.encryptor.previous,
                  stream.authenticated)
    {
      ghost var output, previous, authenticated := stream.output, stream.encryptor.previous, stream.authenticated;
      var written := stream.WriteField(fields[i].typeCode, |fields[i].payload|, chunks[i], paddings[i]);
      WritableStep(fields, chunks, paddings, i);
      if written.Err? {
        return Err(written.error);
      }
      EmittedStep(p, keys.content, iv, prefix, fields, paddings, i, output, previous, authenticated);
      i := i + 1;
    }
    EmittedAll(p, keys.content, iv, prefix, fields, paddings, stream.output, stream.encryptor.previous,
               stream.authenticated);
    WritableFits(fields, chunks, paddings);
    return Ok(stream.output + EOF_MARKER + p.hmac(keys.authentication, stream.authenticated));
  }

  lemma WritableStep(fields: seq<RawField>, chunks: seq<seq<Bytes>>, paddings: seq<Bytes>, i: nat)
    requires |chunks| == |fields| == |paddings| && i < |fields|
    ensures WritableAt(fields, chunks, paddings, i) <==>
              |fields[i].payload| <= MAX_FIELD_BYTES && ChunksDeliver(|fields[i].payload|, chunks[i])
              && |paddings[i]| == PaddingLength(|fields[i].payload|)
  {
  }

  lemma WritableFits(fields: seq<RawField>, chunks: seq<seq<Bytes>>, paddings: seq<Bytes>)
    requires |chunks| == |fields| == |paddings|
    requires forall j :: 0 <= j < |fields| ==> WritableAt(fields, chunks, paddings, j)
    ensures Writable(fields, chunks, paddings) && PaddingsFit(fields, paddings)
  {
    hide PaddingFits, ChunksDeliver;
    forall i | 0 <= i < |fields|
      ensures PaddingFits(fields[i].payload, paddings[i])
    {
      assert WritableAt(fields, chunks, paddings, i);
    }
  }

  lemma EmittedStart(p: Primitives, key: Key, iv: Block, prefix: Bytes, fields: seq<RawField>, paddings: seq<Bytes>)
    requires |fields| == |paddings|
    ensures Emitted(p, key, iv, prefix, fields, paddings, 0, prefix, iv, [])
  {
  }

  lemma EmittedAll(
    p: Primitives, key: Key, iv: Block, prefix: Bytes, fields: seq<RawField>, paddings: seq<Bytes>,
    output: Bytes, previous: Block, authenticated: Bytes)
    requires |fields| == |paddings|
    requires Emitted(p, key, iv, prefix, fields, paddings, |fields|, output, previous, authenticated)
    ensures Aligned(FramesFrom(fields, paddings, 0))
    ensures output == prefix + CbcEncrypt(p, key, iv, FramesFrom(fields, paddings, 0))
    ensures authenticated == PayloadsFrom(fields, 0)
  {
    hide CbcEncrypt, FramesFrom, PayloadsFrom;
    assert fields[..|fields|] == fields && paddings[..|paddings|] == paddings;
  }

  // ---------------------------------------------------------------- the check before any output

  function SizeFrom(fields: seq<RawField>, i: nat, size: nat, limit: nat): Result<nat>
    requires i <= |fields|
    decreases |fields| - i
  {
    if i == |fields| then Ok(size)
    else if |fields[i].payload| > MAX_FIELD_BYTES then Err(MaxEncryptedFile)
    else if PaddedLength(|fields[i].payload|) > limit - size then Err(MaxEncryptedFile)
    else SizeFrom(fields, i + 1, size + PaddedLength(|fields[i].payload|), limit)
  }

  function CheckCandidate(document: VaultDocument, iterations: nat, limits: ResourceLimits): Result<nat> {
    var _ :- CheckDocument(document, limits);
    if iterations > limits.maxIterations then Err(MaxIterations)
    else SizeFrom(AllFields(document), 0, FIXED_CANDIDATE_BYTES, limits.maxEncryptedFile)
  }

  method ValidateDocument(
    document: VaultDocument, iterations: nat, limits: ResourceLimits)
    returns (result: Result<nat>)
    ensures result == CheckCandidate(document, iterations, limits)
  {
    hide CheckDocument, AllFields, PaddedLength;
    var checked := ValidateDocumentForSerialization(document, limits);
    if checked.Err? {
      return Err(checked.error);
    }
    if iterations > limits.maxIterations {
      return Err(MaxIterations);
    }
    var fields := AllFields(document);
    var candidateSize: nat := FIXED_CANDIDATE_BYTES;
    var i := 0;
    while i < |fields|
      invariant 0 <= i <= |fields|
      invariant SizeFrom(fields, 0, FIXED_CANDIDATE_BYTES, limits.maxEncryptedFile)
             == SizeFrom(fields, i, candidateSize, limits.maxEncryptedFile)
    {
      if |fields[i].payload| > MAX_FIELD_BYTES {
        return Err(MaxEncryptedFile);
      }
      var paddedLength := PaddedLength(|fields[i].payload|);
      if paddedLength > limits.maxEncryptedFile - candidateSize {
        return Err(MaxEncryptedFile);
      }
      candidateSize := candidateSize + paddedLength;
      i := i + 1;
    }
    return Ok(candidateSize);
  }

  /** The size check accepts exactly the streams that fit, and its running size is the size of what is written. */
  lemma {:induction false} SizeIsExact(fields: seq<RawField>, paddings: seq<Bytes>, i: nat, size: nat, limit: nat)
    requires PaddingsFit(fields, paddings) && i <= |fields| && size <= limit
    ensures SizeFrom(fields, i, size, limit).Ok? <==>
              (forall k :: i <= k < |fields| ==> |fields[k].payload| <= MAX_FIELD_BYTES)
              && size + |FramesFrom(fields, paddings, i)| <= limit
    ensures SizeFrom(fields, i, size, limit).Ok? ==>
              SizeFrom(fields, i, size, limit).value == size + |FramesFrom(fields, paddings, i)|
    decreases |fields| - i
  {
    hide PaddingLength, Framed, PaddingsFit;
    if i < |fields| {
      SizeOfFrame(fields, paddings, i);
      var next := size + PaddedLength(|fields[i].payload|);
      if next <= limit {
        SizeIsExact(fields, paddings, i + 1, next, limit);
      }
    }
  }

  lemma SizeOfFrame(fields: seq<RawField>, paddings: seq<Bytes>, i: nat)
    requires PaddingsFit(fields, paddings) && i < |fields|
    ensures |Framed(fields[i].typeCode, fields[i].payload, paddings[i])| == PaddedLength(|fields[i].payload|)
  {
    assert PaddingFits(fields[i].payload, paddings[i]);
    FramedAligned(fields[i].typeCode, fields[i].payload, paddings[i]);
  }

  lemma AcceptedNotEmpty(document: VaultDocument, limits: ResourceLimits)
    requires CheckDocument(document, limits).Ok?
    ensures AllFields(document) != []
  {
    hide CheckShapeFrom, CheckSchema, StoredMatches, OrdinalsMatch, CountType;
  }

  /** A candidate that passed the check is exactly as long as the check computed, and within the limit. */
  lemma CandidateSize(
    p: Primitives, document: VaultDocument, limits: ResourceLimits, paddings: seq<Bytes>, material: Material,
    keys: VaultKeys, iv: Block)
    requires CheckCandidate(document, material.iterations, limits).Ok? && PaddingsFit(AllFields(document), paddings)
    ensures |CandidateBytes(p, AllFields(document), paddings, material, keys, iv)|
         == CheckCandidate(document, material.iterations, limits).value <= limits.maxEncryptedFile
  {
    hide CheckDocument, AllFields, PaddingsFit, FramesFrom, PayloadsFrom, CbcEncrypt, Prefix;
    FramesAligned(AllFields(document), paddings, 0);
    AcceptedNotEmpty(document, limits);
    SizeIsExact(AllFields(document), paddings, 0, FIXED_CANDIDATE_BYTES, limits.maxEncryptedFile);
  }
}
