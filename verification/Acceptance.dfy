/**
 Which files open. A file is accepted under a passphrase exactly when it is what the writer emits for
 some document it accepts under the same limits; so every part of a file is checked, and nothing the
 writer would refuse is ever opened. What a changed authenticator or password check leads to is
 stated for every file.
 */
module Acceptance {
  import opened Basics
  import opened Crypto
  import opened Documents
  import opened Validation
  import opened Payloads
  import opened Reader
  import opened Writer
  import opened Vaults
  import Schema

  // ---------------------------------------------------------------- the parts of a written file

  /** Where everything stands in a written file, byte for byte. */
  lemma CandidateLayout(
    p: Primitives, fields: seq<RawField>, paddings: seq<Bytes>, material: Material, keys: VaultKeys, iv: Block)
    requires PaddingsFit(fields, paddings) && material.iterations < 0x1_0000_0000
    ensures var file := CandidateBytes(p, fields, paddings, material, keys, iv);
            var frames := FramesFrom(fields, paddings, 0);
            && |file| == 152 + |frames| + 48 && Aligned(frames)
            && file[..4] == [0x50, 0x57, 0x53, 0x33] && file[4..36] == material.salt
            && FromLittleEndian(file[36..40]) == material.iterations && file[40..72] == p.sha256(material.derived)
            && file[72..88] == p.encrypt(material.derived, keys.content[..16])
            && file[88..104] == p.encrypt(material.derived, keys.content[16..])
            && file[104..120] == p.encrypt(material.derived, keys.authentication[..16])
            && file[120..136] == p.encrypt(material.derived, keys.authentication[16..])
            && file[136..152] == iv
            && file[152..|file| - 48] == CbcEncrypt(p, keys.content, iv, frames)
            && file[|file| - 48..|file| - 40] == [0x50, 0x57, 0x53, 0x33, 0x2D, 0x45, 0x4F, 0x46]
            && file[|file| - 40..|file| - 32] == [0x50, 0x57, 0x53, 0x33, 0x2D, 0x45, 0x4F, 0x46]
            && file[|file| - 32..] == p.hmac(keys.authentication, PayloadsFrom(fields, 0))
  {
    hide LittleEndian, FromLittleEndian, WrappedKeys, CbcEncrypt, FramesFrom, PayloadsFrom, Prefix;
    FramesAligned(fields, paddings, 0);
    Pow256Values();
    LittleEndianRoundTrip(material.iterations, 4);
    PrefixParts(p, material, keys, iv);
    WrappedParts(p, material.derived, keys);
    var prefix, body := Prefix(p, material, keys, iv), CbcEncrypt(p, keys.content, iv, FramesFrom(fields, paddings, 0));
    var file := CandidateBytes(p, fields, paddings, material, keys, iv);
    assert file == prefix + body + EOF_MARKER + p.hmac(keys.authentication, PayloadsFrom(fields, 0));
    assert file[..152] == prefix;
    SliceOfPrefix(file, prefix);
    assert file[|file| - 48..|file| - 32] == EOF_MARKER;
    assert file[|file| - 48..|file| - 40] == EOF_MARKER[..8] && file[|file| - 40..|file| - 32] == EOF_MARKER[8..];
  }

  lemma SliceOfPrefix(file: Bytes, prefix: Bytes)
    requires |prefix| == 152 <= |file| && file[..152] == prefix
    ensures file[..4] == prefix[..4] && file[4..36] == prefix[4..36] && file[36..40] == prefix[36..40]
    ensures file[40..72] == prefix[40..72] && file[136..152] == prefix[136..152]
    ensures file[72..88] == prefix[72..136][..16] && file[88..104] == prefix[72..136][16..32]
    ensures file[104..120] == prefix[72..136][32..48] && file[120..136] == prefix[72..136][48..]
  {
    SliceOfSlice(prefix, 72, 64, 0, 16);
    SliceOfSlice(prefix, 72, 64, 16, 16);
    SliceOfSlice(prefix, 72, 64, 32, 16);
    SliceOfSlice(prefix, 72, 64, 48, 16);
    assert file[72..88] == prefix[72..88] && file[88..104] == prefix[88..104];
    assert file[104..120] == prefix[104..120] && file[120..136] == prefix[120..136];
  }

  lemma WrappedParts(p: Primitives, derived: Key, keys: VaultKeys)
    ensures var wrapped := WrappedKeys(p, derived, keys);
            && wrapped[..16] == p.encrypt(derived, keys.content[..16])
            && wrapped[16..32] == p.encrypt(derived, keys.content[16..])
            && wrapped[32..48] == p.encrypt(derived, keys.authentication[..16])
            && wrapped[48..] == p.encrypt(derived, keys.authentication[16..])
  {
  }

  /** How many payload bytes precede the field at `k`. */
  function BytesBefore(fields: seq<RawField>, k: nat): nat
    requires k <= |fields|
  {
    if k == 0 then 0 else BytesBefore(fields, k - 1) + |fields[k - 1].payload|
  }

  /** What is authenticated: every payload in order, each at its place, and nothing else. */
  lemma {:induction false} PayloadsInOrder(fields: seq<RawField>, k: nat)
    requires k <= |fields|
    ensures var all := PayloadsFrom(fields, 0);
            && |all| == BytesBefore(fields, k) + |PayloadsFrom(fields, k)|
            && all[BytesBefore(fields, k)..] == PayloadsFrom(fields, k)
            && (k < |fields| ==>
                  && BytesBefore(fields, k) + |fields[k].payload| <= |all|
                  && all[BytesBefore(fields, k)..BytesBefore(fields, k) + |fields[k].payload|] == fields[k].payload)
            && |PayloadsFrom(fields, |fields|)| == 0
    decreases k
  {
    var all := PayloadsFrom(fields, 0);
    if k > 0 {
      PayloadsInOrder(fields, k - 1);
      var before, payload := BytesBefore(fields, k - 1), fields[k - 1].payload;
      assert all[before..] == payload + PayloadsFrom(fields, k);
      assert all[before + |payload|..] == all[before..][|payload|..];
    }
    if k < |fields| {
      var before := BytesBefore(fields, k);
      assert all[before..before + |fields[k].payload|] == all[before..][..|fields[k].payload|];
    }
  }

  // ---------------------------------------------------------------- a stream that parses is a framed one

  lemma {:induction false} FramesShift(f: RawField, fields: seq<RawField>, padding: Bytes, paddings: seq<Bytes>, i: nat)
    requires i <= |fields| == |paddings|
    ensures FramesFrom([f] + fields, [padding] + paddings, i + 1) == FramesFrom(fields, paddings, i)
    ensures PayloadsFrom([f] + fields, i + 1) == PayloadsFrom(fields, i)
    decreases |fields| - i
  {
    hide Framed;
    if i < |fields| {
      assert ([f] + fields)[i + 1] == fields[i] && ([padding] + paddings)[i + 1] == paddings[i];
      FramesShift(f, fields, padding, paddings, i + 1);
    }
  }

  /** The frame at the head of a stream, put together again from what was read from it. */
  lemma FrameWritesBack(rest: Bytes, length: nat)
    requires |rest| >= BLOCK_BYTES && length == FromLittleEndian(rest[..BLOCK_BYTES][..4])
    requires PaddedLength(length) <= |rest|
    ensures length <= MAX_FIELD_BYTES
    ensures var payload, padding := rest[5..5 + length], rest[5 + length..PaddedLength(length)];
            && PaddingFits(payload, padding)
            && Framed(rest[..BLOCK_BYTES][4], payload, padding) + rest[PaddedLength(length)..] == rest
  {
    hide LittleEndian, FromLittleEndian, PaddingLength;
    Pow256Values();
    assert rest[..BLOCK_BYTES][..4] == rest[..4];
    LittleEndianInverse(rest[..4]);
    assert FrameHeader(rest[4], length) == rest[..5];
    assert rest == rest[..5] + rest[5..5 + length] + rest[5 + length..PaddedLength(length)]
        + rest[PaddedLength(length)..];
  }

  lemma {:induction false} ParsedIsFramed(rest: Bytes, c: Cursor<Bytes>, limits: ResourceLimits)
    returns (fields: seq<RawField>, paddings: seq<Bytes>)
    requires ParseFrom(rest, c, limits).Ok?
    ensures PaddingsFit(fields, paddings) && rest == FramesFrom(fields, paddings, 0)
    ensures forall k :: 0 <= k < |fields| ==> |fields[k].payload| <= MAX_FIELD_BYTES
    ensures Fold(fields, c, limits) == ParseFrom(rest, c, limits)
    decreases |rest|
  {
    hide Framed, Advance, Finish, FromLittleEndian, PaddingFits;
    if rest == [] {
      fields, paddings := [], [];
    } else {
      ParseOne(rest, c, limits);
      var length := FromLittleEndian(rest[..BLOCK_BYTES][..4]);
      FrameWritesBack(rest, length);
      var payload, padding := rest[5..5 + length], rest[5 + length..PaddedLength(length)];
      var f := RawField(rest[..BLOCK_BYTES][4], payload, 0, Unknown);
      var next := Advance(c, Frame(f.typeCode, payload), payload, limits).value;
      var tail, tailPaddings := ParsedIsFramed(rest[PaddedLength(length)..], next, limits);
      fields, paddings := [f] + tail, [padding] + tailPaddings;
      FramesShift(f, tail, padding, tailPaddings, 0);
      assert fields[1..] == tail;
    }
  }

  // ---------------------------------------------------------------- folding loses nothing

  /** All frames of a builder in stream order. */
  function Spread(b: Builder<Bytes>): seq<Frame<Bytes>> {
    b.header + Flatten(b.records)
  }

  /** Where the next frame goes: into the header while there is no record, else into the last or the next one. */
  predicate Placed(c: Cursor<Bytes>, limits: ResourceLimits) {
    && (c.inHeader ==> c.builder.records == [] && c.recordOrdinal == 0)
    && c.recordOrdinal <= |c.builder.records| <= c.recordOrdinal + 1
    && |c.builder.records| <= limits.maxRecords
  }

  lemma AdvanceSpreads(c: Cursor<Bytes>, f: Frame<Bytes>, limits: ResourceLimits)
    requires Placed(c, limits) && (c.inHeader || c.recordOrdinal < limits.maxRecords)
    requires Advance(c, f, f.payload, limits).Ok?
    ensures var next := Advance(c, f, f.payload, limits).value;
            && Placed(next, limits) && Spread(next.builder) == Spread(c.builder) + [f]
            && next.authenticated == c.authenticated + f.payload && next.fieldCount == c.fieldCount + 1
  {
    var records, r := c.builder.records, c.recordOrdinal;
    if c.inHeader {
      assert Flatten(records) == [];
    } else if r == |records| {
      FlattenSnoc(records, [f]);
    } else {
      assert records == records[..r] + [records[r]];
      assert records[r := records[r] + [f]] == records[..r] + [records[r] + [f]];
      FlattenSnoc(records[..r], records[r]);
      FlattenSnoc(records[..r], records[r] + [f]);
    }
  }

  lemma {:induction false} FoldSpreads(fields: seq<RawField>, c: Cursor<Bytes>, limits: ResourceLimits)
    requires Placed(c, limits) && c.fieldCount <= limits.maxFields && Fold(fields, c, limits).Ok?
    ensures var parsed := Fold(fields, c, limits).value;
            && Spread(parsed.builder) == Spread(c.builder) + FramesOfFields(fields)
            && parsed.authenticated == c.authenticated + PayloadsFrom(fields, 0)
            && |parsed.builder.records| <= limits.maxRecords && c.fieldCount + |fields| <= limits.maxFields
    decreases |fields|
  {
    hide Advance, Placed, Spread;
    if fields == [] {
      assert FramesOfFields(fields) == [];
      SpreadEnds(c, limits);
    } else {
      var f := FrameOfField(fields[0]);
      var next := Advance(c, f, f.payload, limits).value;
      AdvanceSpreads(c, f, limits);
      FoldSpreads(fields[1..], next, limits);
      assert FramesOfFields(fields) == [f] + FramesOfFields(fields[1..]);
      assert fields == [fields[0]] + fields[1..];
      var nothing := seq(|fields| - 1, _ => []);
      FramesShift(fields[0], fields[1..], [], nothing, 0);
    }
  }

  lemma SpreadEnds(c: Cursor<Bytes>, limits: ResourceLimits)
    requires Placed(c, limits)
    ensures |c.builder.records| <= limits.maxRecords
  {
  }

  // ---------------------------------------------------------------- what is published has the same fields

  lemma RawFrames(fields: seq<Frame<Bytes>>, classes: seq<Classification>)
    requires |classes| == |fields|
    ensures FramesOfFields(RawOf(fields, classes)) == fields
  {
  }

  lemma {:induction false} FlattenFrames(lists: seq<seq<RawField>>, frames: seq<seq<Frame<Bytes>>>)
    requires |lists| == |frames| && forall r :: 0 <= r < |lists| ==> FramesOfFields(lists[r]) == frames[r]
    ensures FramesOfFields(Flatten(lists)) == Flatten(frames)
    decreases |lists|
  {
    if lists != [] {
      FlattenFrames(lists[1..], frames[1..]);
      FramesOfBoth(lists[0], Flatten(lists[1..]));
    }
  }

  lemma PublishedFields(b: Builder<Bytes>, limits: ResourceLimits)
    requires PublishDocument(b, limits).Ok?
    ensures FramesOfFields(AllFields(PublishDocument(b, limits).value)) == Spread(b)
  {
    hide CheckSchema, CheckVersion, RawOf, FramesOfFields;
    var document := PublishDocument(b, limits).value;
    var accepted := CheckSchema(Unclassified(b.header), UnclassifiedAll(b.records), document.version,
                                limits.maxDecodedText).value;
    LengthsAgree(b, document.version, limits.maxDecodedText);
    RawFrames(b.header, accepted.header);
    forall r | 0 <= r < |b.records|
      ensures FramesOfFields(FieldLists(document.records)[r]) == b.records[r]
    {
      RawFrames(b.records[r], accepted.records[r]);
    }
    FlattenFrames(FieldLists(document.records), b.records);
    FramesOfBoth(document.header, Flatten(FieldLists(document.records)));
  }

  lemma FramesOfBoth(left: seq<RawField>, right: seq<RawField>)
    ensures FramesOfFields(left + right) == FramesOfFields(left) + FramesOfFields(right)
  {
  }

  /** Framing and payloads depend on types and bytes alone. */
  lemma {:induction false} SameFrames(fields: seq<RawField>, others: seq<RawField>, paddings: seq<Bytes>, i: nat)
    requires FramesOfFields(fields) == FramesOfFields(others) && i <= |fields| == |others| == |paddings|
    ensures FramesFrom(fields, paddings, i) == FramesFrom(others, paddings, i)
    ensures PayloadsFrom(fields, i) == PayloadsFrom(others, i)
    decreases |fields| - i
  {
    hide Framed;
    if i < |fields| {
      assert FramesOfFields(fields)[i] == FramesOfFields(others)[i];
      SameFrames(fields, others, paddings, i + 1);
    }
  }

  // ---------------------------------------------------------------- encryption undone and done again

  /** A block cipher permutes the blocks: encryption also undoes decryption. */
  ghost predicate Permutes(p: Primitives) {
    p.Inverse() && forall k: Key, b: Block :: p.encrypt(k, p.decrypt(k, b)) == b
  }

  lemma {:induction false} CbcWritesBack(p: Primitives, key: Key, iv: Block, cipher: Bytes)
    requires Permutes(p) && Aligned(cipher)
    ensures CbcEncrypt(p, key, iv, CbcDecrypt(p, key, iv, cipher)) == cipher
    decreases |cipher|
  {
    hide Xor, CbcEncrypt, CbcDecrypt;
    if cipher == [] {
      CbcNothing(p, key, iv);
    } else {
      var block: Block := cipher[..BLOCK_BYTES];
      var plain := CbcDecrypt(p, key, iv, cipher);
      CbcDecryptStep(p, key, iv, cipher);
      CbcEncryptStep(p, key, iv, plain);
      XorInvolution(p.decrypt(key, block), iv);
      assert plain[..BLOCK_BYTES] == Xor(p.decrypt(key, block), iv);
      assert plain[BLOCK_BYTES..] == CbcDecrypt(p, key, block, cipher[BLOCK_BYTES..]);
      assert p.encrypt(key, Xor(plain[..BLOCK_BYTES], iv)) == block;
      CbcWritesBack(p, key, block, cipher[BLOCK_BYTES..]);
      assert cipher == block + cipher[BLOCK_BYTES..];
    }
  }

  lemma WrapsBack(p: Primitives, derived: Key, wrapped: Wrapped)
    requires Permutes(p)
    ensures WrappedKeys(p, derived, UnwrappedKeys(p, derived, wrapped)) == wrapped
  {
    var keys := UnwrappedKeys(p, derived, wrapped);
    assert Half(keys.content, false) == p.decrypt(derived, wrapped[0..16]);
    assert Half(keys.content, true) == p.decrypt(derived, wrapped[16..32]);
    assert Half(keys.authentication, false) == p.decrypt(derived, wrapped[32..48]);
    assert Half(keys.authentication, true) == p.decrypt(derived, wrapped[48..64]);
    assert wrapped == wrapped[0..16] + wrapped[16..32] + wrapped[32..48] + wrapped[48..64];
  }

  // ---------------------------------------------------------------- the writer's check accepts what was opened

  lemma {:induction false} ShapeAccepted(records: seq<RawRecord>, r: nat, maxFields: nat, count: nat)
    requires r <= |records| && count + |Flatten(FieldLists(records)[r..])| <= maxFields
    requires forall k :: 0 <= k < |records| ==> records[k].ordinal == k && OrdinalsMatch(records[k].fields)
    ensures CheckShapeFrom(records, r, maxFields, count).Ok?
    decreases |records| - r
  {
    hide OrdinalsMatch;
    if r < |records| {
      var lists := FieldLists(records);
      assert lists[r..][1..] == lists[r + 1..];
      ShapeAccepted(records, r + 1, maxFields, count + |records[r].fields|);
    }
  }

  lemma PublishedAccepted(b: Builder<Bytes>, limits: ResourceLimits)
    requires PublishDocument(b, limits).Ok?
    requires |b.records| <= limits.maxRecords && |Spread(b)| <= limits.maxFields
    ensures CheckDocument(PublishDocument(b, limits).value, limits).Ok?
  {
    hide CheckSchema, CheckVersion, CheckShapeFrom, OrdinalsMatch, Unclassified, Erased, ClassesOf, PublishDocument,
         StoredMatches, Spread, FramesOfFields;
    var document := PublishDocument(b, limits).value;
    PublishedErased(b, limits);
    PublishedFields(b, limits);
    SchemaErased(document.header, FieldLists(document.records), document.version, limits.maxDecodedText);
    assert FieldLists(document.records)[0..] == FieldLists(document.records);
    assert |AllFields(document)| == |Spread(b)|;
    ShapeAccepted(document.records, 0, limits.maxFields, |document.header|);
    PublishedCount(b, limits);
  }

  lemma PublishedCount(b: Builder<Bytes>, limits: ResourceLimits)
    requires PublishDocument(b, limits).Ok?
    ensures |PublishDocument(b, limits).value.records| == |b.records|
  {
    hide CheckSchema, CheckVersion, RawOf;
  }

  // ---------------------------------------------------------------- the two languages are one

  /** One way to have written a file. */
  datatype Writing = Writing(document: VaultDocument, paddings: seq<Bytes>, material: Material, keys: VaultKeys,
                             iv: Block)

  /** The writer accepts the document, its parts fit, the key was derived from the passphrase, and this is the file. */
  ghost predicate Writes(p: Primitives, w: Writing, passphrase: Bytes, limits: ResourceLimits, file: Bytes) {
    && CheckCandidate(w.document, w.material.iterations, limits).Ok?
    && PaddingsFit(AllFields(w.document), w.paddings)
    && w.material.iterations >= 1
    && w.material.derived == Stretched(p, passphrase, w.material.salt, w.material.iterations)
    && file == CandidateBytes(p, AllFields(w.document), w.paddings, w.material, w.keys, w.iv)
  }

  /** The decrypted stream of an opened file is the frames of the published document, all payloads authenticated. */
  lemma OpenedFrames(parsed: Quarantined<Bytes>, plain: Bytes, limits: ResourceLimits) returns (paddings: seq<Bytes>)
    requires ParseFrom(plain, Start(), limits) == Ok(parsed) && PublishDocument(parsed.builder, limits).Ok?
    ensures var document := PublishDocument(parsed.builder, limits).value;
            && PaddingsFit(AllFields(document), paddings) && plain == FramesFrom(AllFields(document), paddings, 0)
            && parsed.authenticated == PayloadsFrom(AllFields(document), 0)
            && CheckDocument(document, limits).Ok?
            && forall k :: 0 <= k < |AllFields(document)| ==> |AllFields(document)[k].payload| <= MAX_FIELD_BYTES
  {
    hide ParseFrom, PublishDocument, Fold, Spread, AllFields, FramesFrom, PayloadsFrom, CheckDocument, PaddingFits;
    var document := PublishDocument(parsed.builder, limits).value;
    var fields, fitted := ParsedIsFramed(plain, Start(), limits);
    paddings := fitted;
    FoldSpreads(fields, Start(), limits);
    StartIsEmpty();
    PublishedFields(parsed.builder, limits);
    var all := AllFields(document);
    assert FramesOfFields(fields) == FramesOfFields(all);
    SameFrames(fields, all, paddings, 0);
    forall k | 0 <= k < |all|
      ensures all[k].payload == fields[k].payload
    {
      assert FramesOfFields(fields)[k] == FramesOfFields(all)[k];
    }
    PublishedAccepted(parsed.builder, limits);
  }

  lemma StartIsEmpty()
    ensures Spread(Start<Bytes>().builder) == [] && Start<Bytes>().authenticated == []
  {
  }

  /** The envelope of an opened file, put together again from what was read from it. */
  lemma EnvelopeWritesBack(p: Primitives, file: Bytes, derived: Key, limits: ResourceLimits)
    requires Permutes(p) && ReadEnvelope(file, limits).Ok?
    requires p.sha256(derived) == ReadEnvelope(file, limits).value.check
    ensures var e := ReadEnvelope(file, limits).value;
            file == Prefix(p, Material(e.salt, e.iterations, derived), UnwrappedKeys(p, derived, e.wrapped), e.iv)
                    + file[PREFIX_BYTES..PREFIX_BYTES + e.length] + EOF_MARKER + e.authenticator
  {
    hide LittleEndian, FromLittleEndian, WrappedKeys, UnwrappedKeys;
    var e := ReadEnvelope(file, limits).value;
    WrapsBack(p, derived, e.wrapped);
    LittleEndianInverse(file[36..40]);
    assert file[..152] == file[..4] + file[4..36] + file[36..40] + file[40..72] + file[72..136] + file[136..152];
    assert file == file[..152] + file[152..152 + e.length] + file[152 + e.length..|file| - 32] + file[|file| - 32..];
  }

  lemma OpenedWrites(p: Primitives, file: Bytes, passphrase: Bytes, limits: ResourceLimits) returns (w: Writing)
    requires Permutes(p) && limits.Valid() && OpenVault(p, file, passphrase, limits).Ok?
    ensures Writes(p, w, passphrase, limits, file)
    ensures w.document == OpenVault(p, file, passphrase, limits).value.document
  {
    hide ReadEnvelope, Stretched, ParseFrom, PublishDocument, CbcEncrypt, CbcDecrypt, UnwrappedKeys, AllFields,
         FramesFrom, PayloadsFrom, CheckDocument, PaddingFits, Prefix, SizeFrom;
    var e := ReadEnvelope(file, limits).value;
    var derived := Stretched(p, passphrase, e.salt, e.iterations);
    var keys := UnwrappedKeys(p, derived, e.wrapped);
    var cipher := file[PREFIX_BYTES..PREFIX_BYTES + e.length];
    var plain := CbcDecrypt(p, keys.content, e.iv, cipher);
    var parsed := ParseFrom(plain, Start(), limits).value;
    var document := PublishDocument(parsed.builder, limits).value;
    var paddings := OpenedFrames(parsed, plain, limits);
    w := Writing(document, paddings, Material(e.salt, e.iterations, derived), keys, e.iv);
    EnvelopeIterations(file, limits);
    EnvelopeWritesBack(p, file, derived, limits);
    CbcWritesBack(p, keys.content, e.iv, cipher);
    AcceptedNotEmpty(document, limits);
    SizeIsExact(AllFields(document), paddings, 0, FIXED_CANDIDATE_BYTES, limits.maxEncryptedFile);
  }

  /**
   The reader accepts exactly what the writer can write: a file opens under a passphrase if and only if
   it is the file of some accepted document, under material derived from that passphrase.
   */
  lemma OpensExactlyWritten(p: Primitives, file: Bytes, passphrase: Bytes, limits: ResourceLimits)
    requires Permutes(p) && limits.Valid()
    ensures OpenVault(p, file, passphrase, limits).Ok? <==> exists w: Writing :: Writes(p, w, passphrase, limits, file)
  {
    hide OpenVault, CandidateBytes, CheckCandidate, AllFields, Stretched;
    if OpenVault(p, file, passphrase, limits).Ok? {
      var w := OpenedWrites(p, file, passphrase, limits);
    }
    if w: Writing :| Writes(p, w, passphrase, limits, file) {
      WholeFileRoundTrip(p, w.document, w.paddings, w.material, w.keys, w.iv, passphrase, limits);
    }
  }

  /** A file says one thing: however it was written, the documents are equal and the keys are the same. */
  lemma WritingIsUnique(
    p: Primitives, file: Bytes, passphrase: Bytes, limits: ResourceLimits, one: Writing, other: Writing)
    requires p.Inverse() && limits.Valid()
    requires Writes(p, one, passphrase, limits, file) && Writes(p, other, passphrase, limits, file)
    ensures DocumentsEqual(one.document, other.document) && one.keys == other.keys
    ensures one.material == other.material
  {
    hide OpenVault, CandidateBytes, CheckCandidate, AllFields, Stretched;
    WholeFileRoundTrip(p, one.document, one.paddings, one.material, one.keys, one.iv, passphrase, limits);
    WholeFileRoundTrip(p, other.document, other.paddings, other.material, other.keys, other.iv, passphrase, limits);
  }

  // ---------------------------------------------------------------- what changed bytes lead to

  /** Every opened file carries the right password check and the authenticator of exactly the published payloads. */
  lemma OpenedIsAuthentic(p: Primitives, file: Bytes, passphrase: Bytes, limits: ResourceLimits)
    requires OpenVault(p, file, passphrase, limits).Ok?
    ensures |file| >= MINIMUM_FILE_BYTES
    ensures var vault := OpenVault(p, file, passphrase, limits).value;
            var derived := Stretched(p, passphrase, file[4..36], FromLittleEndian(file[36..40]));
            && vault.derived == derived && file[40..72] == p.sha256(derived)
            && file[|file| - 32..] == p.hmac(vault.keys.authentication, PayloadsFrom(AllFields(vault.document), 0))
  {
    hide Stretched, ParseFrom, PublishDocument, CbcDecrypt, UnwrappedKeys, AllFields, PayloadsFrom, FromLittleEndian;
    var e := ReadEnvelope(file, limits).value;
    var derived := Stretched(p, passphrase, e.salt, e.iterations);
    var keys := UnwrappedKeys(p, derived, e.wrapped);
    var plain := CbcDecrypt(p, keys.content, e.iv, file[PREFIX_BYTES..PREFIX_BYTES + e.length]);
    var paddings := OpenedFrames(ParseFrom(plain, Start(), limits).value, plain, limits);
  }

  function Overwritten(file: Bytes, at: nat, bytes: Bytes): (r: Bytes)
    requires at + |bytes| <= |file|
    ensures |r| == |file|
  {
    file[..at] + bytes + file[at + |bytes|..]
  }

  lemma OverwrittenParts(file: Bytes, at: nat, bytes: Bytes, from: nat, to: nat)
    requires at + |bytes| <= |file| && from <= to <= |file|
    ensures to <= at || at + |bytes| <= from ==> Overwritten(file, at, bytes)[from..to] == file[from..to]
    ensures from == at && to == at + |bytes| ==> Overwritten(file, at, bytes)[from..to] == bytes
  {
  }

  /** Any other authenticator on a file that opens is found out. */
  lemma OtherAuthenticatorFails(p: Primitives, file: Bytes, passphrase: Bytes, limits: ResourceLimits, other: Key)
    requires OpenVault(p, file, passphrase, limits).Ok? && |file| >= 32 && other != file[|file| - 32..]
    ensures OpenVault(p, Overwritten(file, |file| - 32, other), passphrase, limits) == Err(HmacMismatch)
  {
    hide Stretched, ParseFrom, PublishDocument, CbcDecrypt, UnwrappedKeys, FromLittleEndian;
    var changed := Overwritten(file, |file| - 32, other);
    var at, length := |file| - 32, |file| - PREFIX_BYTES - SUFFIX_BYTES;
    forall from: nat, to: nat | from <= to <= at
      ensures changed[from..to] == file[from..to]
    {
      OverwrittenParts(file, at, other, from, to);
    }
    assert changed[|file| - 32..] == other;
    assert changed[..4] == file[..4];
    assert ReadEnvelope(changed, limits)
             == Ok(ReadEnvelope(file, limits).value.(authenticator := other));
    assert changed[PREFIX_BYTES..PREFIX_BYTES + length] == file[PREFIX_BYTES..PREFIX_BYTES + length];
  }

  /** The two verdicts that only comparing digests can give. */
  predicate OfDigests(e: VaultError) {
    e.PasswordCheckFailed? || e.HmacMismatch?
  }

  lemma {:induction false} CheckFromVerdict(
    section: Schema.Section, recordOrdinal: Option<nat>, fields: seq<RawField>, i: nat, version: nat, maxText: nat,
    total: nat)
    requires i <= |fields|
    ensures var checked := CheckFrom(section, recordOrdinal, fields, i, version, maxText, total);
            checked.Err? ==> !OfDigests(checked.error)
    decreases |fields| - i
  {
    hide Schema.SpecOf, Schema.ValueAccepted, Schema.LengthMalformed;
    if i < |fields| {
      var head := CheckField(section, recordOrdinal, fields[i], Seen(fields, i), version, maxText, total);
      if head.Ok? {
        CheckFromVerdict(section, recordOrdinal, fields, i + 1, version, maxText, head.value.total);
      }
    }
  }

  lemma {:induction false} CheckRecordsVerdict(
    records: seq<seq<RawField>>, r: nat, version: nat, maxText: nat, total: nat)
    requires r <= |records|
    ensures var checked := CheckRecordsFrom(records, r, version, maxText, total);
            checked.Err? ==> !OfDigests(checked.error)
    decreases |records| - r
  {
    hide CheckFrom, MandatoryPresent, GroupsComplete;
    if r < |records| {
      CheckFromVerdict(Schema.Record, Some(r), records[r], 0, version, maxText, total);
      var head := CheckRecord(records[r], r, version, maxText, total);
      if head.Ok? {
        CheckRecordsVerdict(records, r + 1, version, maxText, head.value.total);
      }
    }
  }

  lemma PublishVerdict(b: Builder<Bytes>, limits: ResourceLimits)
    ensures PublishDocument(b, limits).Err? ==> !OfDigests(PublishDocument(b, limits).error)
  {
    hide CheckFrom, CheckRecordsFrom, RawOf, Unclassified;
    var header, records := Unclassified(b.header), UnclassifiedAll(b.records);
    if CheckVersion(header).Ok? {
      var version := CheckVersion(header).value;
      CheckFromVerdict(Schema.Header, None, header, 0, version, limits.maxDecodedText, 0);
      var head := CheckFrom(Schema.Header, None, header, 0, version, limits.maxDecodedText, 0);
      if head.Ok? {
        CheckRecordsVerdict(records, 0, version, limits.maxDecodedText, head.value.total);
      }
    }
  }

  lemma {:induction false} ParseVerdict(rest: Bytes, c: Cursor<Bytes>, limits: ResourceLimits)
    ensures ParseFrom(rest, c, limits).Err? ==> !OfDigests(ParseFrom(rest, c, limits).error)
    decreases |rest|
  {
    hide AddField, FromLittleEndian;
    if |rest| >= BLOCK_BYTES && !(!c.inHeader && c.recordOrdinal >= limits.maxRecords) {
      ParseOne(rest, c, limits);
      var head := FrameHead(c, rest[..BLOCK_BYTES], |rest|, limits);
      if head.Ok? {
        var payload := rest[5..5 + head.value.0];
        var next := Advance(c, Frame(head.value.1, payload), payload, limits);
        if next.Ok? {
          ParseVerdict(rest[PaddedLength(head.value.0)..], next.value, limits);
        }
      }
    }
  }

  /** What a file under this key decrypts to. */
  function PlainOf(p: Primitives, file: Bytes, e: Envelope, derived: Key): Bytes
    requires PREFIX_BYTES + e.length <= |file| && e.length % BLOCK_BYTES == 0
  {
    CbcDecrypt(p, UnwrappedKeys(p, derived, e.wrapped).content, e.iv, file[PREFIX_BYTES..PREFIX_BYTES + e.length])
  }

  /**
   For every file whose envelope can be read: it is refused for its password exactly when the check
   differs, and then for its authenticator exactly when the stream parses and its payloads give another one.
   */
  lemma DigestVerdictsExactly(p: Primitives, file: Bytes, passphrase: Bytes, limits: ResourceLimits)
    requires |file| <= limits.maxEncryptedFile && ReadEnvelope(file, limits).Ok?
    ensures var e := ReadEnvelope(file, limits).value;
            var derived := Stretched(p, passphrase, e.salt, e.iterations);
            var parsed := ParseFrom(PlainOf(p, file, e, derived), Start(), limits);
            var result := OpenVault(p, file, passphrase, limits);
            && (result == Err(PasswordCheckFailed) <==> p.sha256(derived) != e.check)
            && (result == Err(HmacMismatch) <==>
                  && p.sha256(derived) == e.check && parsed.Ok?
                  && e.authenticator
                       != p.hmac(UnwrappedKeys(p, derived, e.wrapped).authentication, parsed.value.authenticated))
  {
    hide Stretched, ParseFrom, CbcDecrypt, UnwrappedKeys, ReadEnvelope, PublishDocument;
    var e := ReadEnvelope(file, limits).value;
    var derived := Stretched(p, passphrase, e.salt, e.iterations);
    var plain := PlainOf(p, file, e, derived);
    ParseVerdict(plain, Start(), limits);
    if ParseFrom(plain, Start(), limits).Ok? {
      PublishVerdict(ParseFrom(plain, Start(), limits).value.builder, limits);
    }
  }
}
