/**
 Whole vault files: the fixed envelope, publication of an authenticated document, and the round
 trip. Every document the writer's check accepts is read back exactly, for all keys, chaining
 values, paddings and payload sizes, as long as both sides use the same limits.
 */
module Vaults {
  import opened Basics
  import opened Crypto
  import opened Documents
  import opened Validation
  import opened Payloads
  import opened Reader
  import opened Writer
  import Schema

  datatype Envelope = Envelope(salt: Key, iterations: nat, check: Key, wrapped: Wrapped, iv: Block, length: nat,
                               authenticator: Key)

  const MINIMUM_FILE_BYTES: nat := PREFIX_BYTES + 16 + SUFFIX_BYTES

  /** The fixed-size envelope and the end marker. */
  function ReadEnvelope(file: Bytes, limits: ResourceLimits): (r: Result<Envelope>)
    ensures r.Ok? ==> PREFIX_BYTES + r.value.length + SUFFIX_BYTES == |file|
    ensures r.Ok? ==> r.value.length > 0 && r.value.length % BLOCK_BYTES == 0
  {
    if |file| < MINIMUM_FILE_BYTES then Err(InvalidEnvelope)
    else if file[..4] != FILE_TAG then Err(InvalidEnvelope)
    else
      var iterations := FromLittleEndian(file[36..40]);
      var length := |file| - PREFIX_BYTES - SUFFIX_BYTES;
      if iterations == 0 then Err(InvalidEnvelope)
      else if iterations > limits.maxIterations then Err(MaxIterations)
      else if length <= 0 || length % BLOCK_BYTES != 0 then Err(InvalidEnvelope)
      else if file[|file| - SUFFIX_BYTES..|file| - 32] != EOF_MARKER then Err(UnexpectedEof)
      else Ok(Envelope(file[4..36], iterations, file[40..72], file[72..136], file[136..152], length,
             file[|file| - 32..]))
  }

  function RawOf(fields: seq<Frame<Bytes>>, classes: seq<Classification>): (r: seq<RawField>)
    requires |classes| == |fields|
    ensures |r| == |fields|
  {
    seq(|fields|, i requires 0 <= i < |fields| => RawField(fields[i].typeCode, fields[i].payload, i, classes[i]))
  }

  /** Before the schema pass every field counts as not understood. */
  function Unclassified(fields: seq<Frame<Bytes>>): seq<RawField> {
    RawOf(fields, seq(|fields|, _ => Unknown))
  }

  function UnclassifiedAll(records: seq<seq<Frame<Bytes>>>): (r: seq<seq<RawField>>)
    ensures |r| == |records|
  {
    seq(|records|, i requires 0 <= i < |records| => Unclassified(records[i]))
  }

  /** Version first, then the schema pass; handles and revision are fresh session identities. */
  function PublishDocument(b: Builder<Bytes>, limits: ResourceLimits): Result<VaultDocument> {
    var header, records := Unclassified(b.header), UnclassifiedAll(b.records);
    var version :- CheckVersion(header);
    SchemaChecks(header, records, version, limits.maxDecodedText);
    var accepted :- CheckSchema(header, records, version, limits.maxDecodedText);
    Ok(VaultDocument(
      version,
      RawOf(b.header, accepted.header),
      seq(|b.records|, r requires 0 <= r < |b.records| => RawRecord(RawOf(b.records[r], accepted.records[r]), r, r)),
      0,
      accepted.warnings))
  }

  datatype Opened = Opened(document: VaultDocument, keys: VaultKeys, derived: Key, envelope: Envelope)

  /** Publish a document only when the stored authenticator matches the one over its payload bytes. */
  function PublishSnapshot(
    p: Primitives, file: Bytes, envelope: Envelope, derived: Key, limits: ResourceLimits): Result<Opened>
    requires PREFIX_BYTES + envelope.length <= |file| && envelope.length % BLOCK_BYTES == 0
  {
    var keys := UnwrappedKeys(p, derived, envelope.wrapped);
    var plain := CbcDecrypt(p, keys.content, envelope.iv, file[PREFIX_BYTES..PREFIX_BYTES + envelope.length]);
    var parsed :- ParseFrom(plain, Start(), limits);
    if p.hmac(keys.authentication, parsed.authenticated) != envelope.authenticator then Err(HmacMismatch)
    else
      var document :- PublishDocument(parsed.builder, limits);
      Ok(Opened(document, keys, derived, envelope))
  }

  function OpenVault(p: Primitives, file: Bytes, passphrase: Bytes, limits: ResourceLimits): Result<Opened> {
    if |file| > limits.maxEncryptedFile then Err(MaxEncryptedFile)
    else
      var envelope :- ReadEnvelope(file, limits);
      var derived := Stretched(p, passphrase, envelope.salt, envelope.iterations);
      if p.sha256(derived) != envelope.check then Err(PasswordCheckFailed)
      else PublishSnapshot(p, file, envelope, derived, limits)
  }

  method OpenSnapshot(
    p: Primitives, file: Bytes, passphrase: Bytes, limits: ResourceLimits)
    returns (result: Result<Opened>)
    requires limits.Valid()
    ensures result == OpenVault(p, file, passphrase, limits)
  {
    hide ReadEnvelope, Stretched, ParseFrom, PublishDocument, CbcDecrypt, ResolveBuilder, UnwrappedKeys;
    if |file| > limits.maxEncryptedFile {
      return Err(MaxEncryptedFile);
    }
    var envelope := ReadEnvelope(file, limits);
    if envelope.Err? {
      return Err(envelope.error);
    }
    assert 1 <= envelope.value.iterations <= limits.maxIterations by { EnvelopeIterations(file, limits); }
    var derived := StretchPassphrase(p, passphrase, envelope.value.salt, envelope.value.iterations,
                                     limits.maxIterations);
    if p.sha256(derived.value) != envelope.value.check {
      return Err(PasswordCheckFailed);
    }
    var keys := UnwrapVaultKeys(p, derived.value, envelope.value.wrapped);
    var parsed := DecryptFields(p, file, envelope.value.length, keys, envelope.value.iv, limits);
    if parsed.Err? {
      return Err(parsed.error);
    }
    if p.hmac(keys.authentication, parsed.value.authenticated) != envelope.value.authenticator {
      return Err(HmacMismatch);
    }
    var document := PublishDocument(ResolveBuilder(p, keys.content, file, parsed.value.builder), limits);
    if document.Err? {
      return Err(document.error);
    }
    return Ok(Opened(document.value, keys, derived.value, envelope.value));
  }

  lemma EnvelopeIterations(file: Bytes, limits: ResourceLimits)
    requires ReadEnvelope(file, limits).Ok?
    ensures 1 <= ReadEnvelope(file, limits).value.iterations <= limits.maxIterations
  {
  }

  // ---------------------------------------------------------------- frames, folded

  function FrameOfField(f: RawField): Frame<Bytes> {
    Frame(f.typeCode, f.payload)
  }

  function FramesOfFields(fields: seq<RawField>): (r: seq<Frame<Bytes>>)
    ensures |r| == |fields|
  {
    seq(|fields|, i requires 0 <= i < |fields| => FrameOfField(fields[i]))
  }

  /** What the parser does with a list of fields, framing aside. */
  function Fold(fields: seq<RawField>, c: Cursor<Bytes>, limits: ResourceLimits): Result<Quarantined<Bytes>>
    decreases |fields|
  {
    if fields == [] then Finish(c)
    else if !c.inHeader && c.recordOrdinal >= limits.maxRecords then Err(MaxRecords)
    else if c.fieldCount + 1 > limits.maxFields then Err(MaxFields)
    else if fields[0].typeCode == Schema.END && fields[0].payload != [] then Err(InvalidField)
    else
      var next :- Advance(c, FrameOfField(fields[0]), fields[0].payload, limits);
      Fold(fields[1..], next, limits)
  }

  /** The head of a written frame reads back as its length and type, and its payload where the parser looks. */
  lemma FrameReadsBack(code: Byte, payload: Bytes, padding: Bytes, tail: Bytes)
    requires |payload| <= MAX_FIELD_BYTES && PaddingFits(payload, padding)
    ensures var rest := Framed(code, payload, padding) + tail;
            && |rest| >= BLOCK_BYTES && |rest| == PaddedLength(|payload|) + |tail|
            && FromLittleEndian(rest[..BLOCK_BYTES][..4]) == |payload| && rest[..BLOCK_BYTES][4] == code
            && rest[5..5 + |payload|] == payload && rest[PaddedLength(|payload|)..] == tail
  {
    hide LittleEndian, FromLittleEndian, PaddingLength;
    FramedAligned(code, payload, padding);
    Pow256Values();
    LittleEndianRoundTrip(|payload|, 4);
    var frame := Framed(code, payload, padding);
    var rest := frame + tail;
    assert rest[..BLOCK_BYTES][..4] == LittleEndian(|payload|, 4);
    assert frame == FrameHeader(code, |payload|) + (payload + padding);
    assert rest[5..5 + |payload|] == payload;
  }

  /** Parsing what was framed is folding the fields, for any padding. */
  lemma {:induction false} ParseIsFold(
    fields: seq<RawField>, paddings: seq<Bytes>, i: nat, c: Cursor<Bytes>, limits: ResourceLimits)
    requires PaddingsFit(fields, paddings) && i <= |fields|
    requires forall k :: 0 <= k < |fields| ==> |fields[k].payload| <= MAX_FIELD_BYTES
    ensures ParseFrom(FramesFrom(fields, paddings, i), c, limits) == Fold(fields[i..], c, limits)
    decreases |fields| - i
  {
    hide Framed, Finish, Advance, PaddingFits, FromLittleEndian;
    if i < |fields| {
      var f := fields[i];
      var tail := FramesFrom(fields, paddings, i + 1);
      FrameReadsBack(f.typeCode, f.payload, paddings[i], tail);
      var rest := Framed(f.typeCode, f.payload, paddings[i]) + tail;
      assert fields[i..][1..] == fields[i + 1..];
      if !(!c.inHeader && c.recordOrdinal >= limits.maxRecords) {
        ParseOne(rest, c, limits);
        var next := Advance(c, FrameOfField(f), f.payload, limits);
        if next.Ok? {
          ParseIsFold(fields, paddings, i + 1, next.value, limits);
        }
      }
    }
  }

  // ---------------------------------------------------------------- folding a structured document

  /** A section as the schema guarantees it: one terminator, last, with no payload. */
  ghost predicate Closed(fields: seq<RawField>) {
    && fields != [] && fields[|fields| - 1].typeCode == Schema.END && fields[|fields| - 1].payload == []
    && forall k :: 0 <= k < |fields| - 1 ==> fields[k].typeCode != Schema.END
  }

  lemma {:induction false} FoldHeader(
    fields: seq<RawField>, k: nat, tail: seq<RawField>, c: Cursor<Bytes>, limits: ResourceLimits)
    requires Closed(fields) && k < |fields|
    requires c.inHeader && c.builder == Builder(FramesOfFields(fields[..k]), []) && c.recordOrdinal == 0
    requires c.fieldCount + (|fields| - k) <= limits.maxFields
    ensures Fold(fields[k..] + tail, c, limits)
         == Fold(tail, Cursor(Builder(FramesOfFields(fields), []), false, 0, c.fieldCount + (|fields| - k),
                              c.authenticated + PayloadsFrom(fields, k)), limits)
    decreases |fields| - k
  {
    var rest := fields[k..] + tail;
    assert rest[0] == fields[k] && rest[1..] == fields[k + 1..] + tail;
    assert FramesOfFields(fields[..k + 1]) == FramesOfFields(fields[..k]) + [FrameOfField(fields[k])];
    if k + 1 < |fields| {
      var next := Advance(c, FrameOfField(fields[k]), fields[k].payload, limits).value;
      FoldHeader(fields, k + 1, tail, next, limits);
      assert c.authenticated + fields[k].payload + PayloadsFrom(fields, k + 1)
               == c.authenticated + PayloadsFrom(fields, k);
    } else {
      assert fields[..k + 1] == fields && fields[k + 1..] + tail == tail;
      assert PayloadsFrom(fields, k) == fields[k].payload;
    }
  }

  lemma {:induction false} FoldRecord(
    fields: seq<RawField>, k: nat, tail: seq<RawField>, done: seq<seq<Frame<Bytes>>>, c: Cursor<Bytes>,
    limits: ResourceLimits)
    requires Closed(fields) && k < |fields|
    requires !c.inHeader && c.recordOrdinal == |done| < limits.maxRecords
    requires c.builder.records == if k == 0 then done else done + [FramesOfFields(fields[..k])]
    requires c.fieldCount + (|fields| - k) <= limits.maxFields
    ensures Fold(fields[k..] + tail, c, limits)
         == Fold(tail, Cursor(Builder(c.builder.header, done + [FramesOfFields(fields)]), false, |done| + 1,
                              c.fieldCount + (|fields| - k), c.authenticated + PayloadsFrom(fields, k)), limits)
    decreases |fields| - k
  {
    var rest := fields[k..] + tail;
    assert rest[0] == fields[k] && rest[1..] == fields[k + 1..] + tail;
    assert FramesOfFields(fields[..k + 1]) == FramesOfFields(fields[..k]) + [FrameOfField(fields[k])];
    RecordSlot(fields, k, done, c);
    if k + 1 < |fields| {
      var next := Advance(c, FrameOfField(fields[k]), fields[k].payload, limits).value;
      FoldRecord(fields, k + 1, tail, done, next, limits);
      assert c.authenticated + fields[k].payload + PayloadsFrom(fields, k + 1)
               == c.authenticated + PayloadsFrom(fields, k);
    } else {
      assert fields[..k + 1] == fields && fields[k + 1..] + tail == tail;
      assert PayloadsFrom(fields, k) == fields[k].payload;
    }
  }

  /** The builder slot of the record being read, before and after its field at `k`. */
  lemma RecordSlot(fields: seq<RawField>, k: nat, done: seq<seq<Frame<Bytes>>>, c: Cursor<Bytes>)
    requires k < |fields| && !c.inHeader && c.recordOrdinal == |done|
    requires c.builder.records == if k == 0 then done else done + [FramesOfFields(fields[..k])]
    ensures AddField(c, FrameOfField(fields[k]))
              == Some(Builder(c.builder.header, done + [FramesOfFields(fields[..k + 1])]))
  {
    assert FramesOfFields(fields[..k + 1]) == FramesOfFields(fields[..k]) + [FrameOfField(fields[k])];
    assert k == 0 ==> FramesOfFields(fields[..k]) == [];
    if k > 0 {
      var slots := done + [FramesOfFields(fields[..k])];
      assert slots[|done| := FramesOfFields(fields[..k + 1])] == done + [FramesOfFields(fields[..k + 1])];
    } else {
      assert [FrameOfField(fields[k])] == FramesOfFields(fields[..k + 1]);
    }
  }

  function FramesOfRecords(records: seq<RawRecord>): (r: seq<seq<Frame<Bytes>>>)
    ensures |r| == |records|
  {
    seq(|records|, i requires 0 <= i < |records| => FramesOfFields(records[i].fields))
  }

  function BuilderOf(document: VaultDocument): Builder<Bytes> {
    Builder(FramesOfFields(document.header), FramesOfRecords(document.records))
  }

  lemma {:induction false} FoldRecords(records: seq<RawRecord>, r: nat, c: Cursor<Bytes>, limits: ResourceLimits)
    requires r <= |records| <= limits.maxRecords
    requires forall q :: 0 <= q < |records| ==> Closed(records[q].fields)
    requires !c.inHeader && c.recordOrdinal == r && c.builder.records == FramesOfRecords(records[..r])
    requires c.fieldCount + |Flatten(FieldLists(records)[r..])| <= limits.maxFields
    ensures Fold(Flatten(FieldLists(records)[r..]), c, limits)
         == Ok(Quarantined(Builder(c.builder.header, FramesOfRecords(records)),
                           c.authenticated + PayloadsFrom(Flatten(FieldLists(records)[r..]), 0)))
    decreases |records| - r
  {
    hide Closed, Fold, Advance;
    var lists := FieldLists(records);
    if r == |records| {
      assert records[..r] == records;
      FoldNothing(c, limits);
      LastCloses(records);
    } else {
      var fields, tail := records[r].fields, Flatten(lists[r + 1..]);
      assert lists[r..][0] == fields && lists[r..][1..] == lists[r + 1..];
      assert Flatten(lists[r..]) == fields + tail;
      NotEmpty(fields);
      FoldRecord(fields, 0, tail, FramesOfRecords(records[..r]), c, limits);
      assert fields[0..] == fields;
      assert FramesOfRecords(records[..r + 1]) == FramesOfRecords(records[..r]) + [FramesOfFields(fields)];
      var next := Cursor(Builder(c.builder.header, FramesOfRecords(records[..r + 1])), false, r + 1,
                         c.fieldCount + |fields|, c.authenticated + PayloadsFrom(fields, 0));
      FoldRecords(records, r + 1, next, limits);
      PayloadsAppend(fields, tail, 0);
      Reassociate(c.authenticated, PayloadsFrom(fields, 0), PayloadsFrom(tail, 0));
    }
  }

  lemma Reassociate(a: Bytes, b: Bytes, c: Bytes)
    ensures a + b + c == a + (b + c)
  {
  }

  lemma NotEmpty(fields: seq<RawField>)
    requires Closed(fields)
    ensures fields != []
  {
  }

  lemma FoldNothing(c: Cursor<Bytes>, limits: ResourceLimits)
    ensures Fold([], c, limits) == Finish(c)
    ensures PayloadsFrom([], 0) == [] && c.authenticated + [] == c.authenticated
    ensures Flatten<RawField>([]) == []
  {
  }

  lemma LastCloses(records: seq<RawRecord>)
    requires forall q :: 0 <= q < |records| ==> Closed(records[q].fields)
    ensures var frames := FramesOfRecords(records); frames != [] ==> EndsInTerminator(frames[|frames| - 1])
  {
    if records != [] {
      assert Closed(records[|records| - 1].fields);
    }
  }

  lemma {:induction false} PayloadsAppend(left: seq<RawField>, right: seq<RawField>, i: nat)
    requires i <= |left|
    ensures PayloadsFrom(left + right, i) == PayloadsFrom(left, i) + PayloadsFrom(right, 0)
    decreases |left| - i
  {
    if i < |left| {
      PayloadsAppend(left, right, i + 1);
    } else {
      PayloadsShift(left, right, 0);
    }
  }

  lemma {:induction false} PayloadsShift(left: seq<RawField>, right: seq<RawField>, k: nat)
    requires k <= |right|
    ensures PayloadsFrom(left + right, |left| + k) == PayloadsFrom(right, k)
    decreases |right| - k
  {
    if k < |right| {
      assert (left + right)[|left| + k] == right[k];
      PayloadsShift(left, right, k + 1);
    }
  }

  // ---------------------------------------------------------------- reading back an accepted document

  lemma SectionCloses(section: Schema.Section, recordOrdinal: Option<nat>, fields: seq<RawField>, version: nat)
    requires EndsWithEnd(fields) && ExaminedFrom(section, recordOrdinal, fields, 0, version)
    ensures Closed(fields)
  {
    hide ExaminedFrom;
    EndIsLastOnly(section, recordOrdinal, fields, version);
  }

  lemma StructuredCloses(document: VaultDocument)
    requires Structured(document)
    ensures Closed(document.header) && forall r :: 0 <= r < |document.records| ==> Closed(document.records[r].fields)
  {
    hide Closed, ExaminedFrom, CheckVersion, MandatoryPresent, GroupsComplete, ClassesFrom, OrdinalsMatch;
    SectionCloses(Schema.Header, None, document.header, document.version);
    forall r | 0 <= r < |document.records|
      ensures Closed(document.records[r].fields)
    {
      assert RecordStructured(document.records[r], r, document.version);
      SectionCloses(Schema.Record, Some(r), document.records[r].fields, document.version);
    }
  }

  /** Parsing the frames of a structured document rebuilds its sections and authenticates exactly its payloads. */
  lemma ParseDocument(document: VaultDocument, paddings: seq<Bytes>, limits: ResourceLimits)
    requires Structured(document) && PaddingsFit(AllFields(document), paddings)
    requires |document.records| <= limits.maxRecords && |AllFields(document)| <= limits.maxFields
    requires forall k :: 0 <= k < |AllFields(document)| ==> |AllFields(document)[k].payload| <= MAX_FIELD_BYTES
    ensures ParseFrom(FramesFrom(AllFields(document), paddings, 0), Start(), limits)
         == Ok(Quarantined(BuilderOf(document), PayloadsFrom(AllFields(document), 0)))
  {
    hide Structured, Fold, ParseFrom, FramesFrom, PayloadsFrom, Closed, PaddingsFit;
    var fields, header, tail := AllFields(document), document.header, Flatten(FieldLists(document.records));
    ParseIsFold(fields, paddings, 0, Start(), limits);
    StructuredCloses(document);
    NotEmpty(header);
    assert fields[0..] == header[0..] + tail;
    assert FramesOfFields(header[..0]) == [];
    FoldHeader(header, 0, tail, Start(), limits);
    var c := Cursor(Builder(FramesOfFields(header), []), false, 0, |header|, PayloadsFrom(header, 0));
    assert [] + PayloadsFrom(header, 0) == PayloadsFrom(header, 0);
    assert FieldLists(document.records)[0..] == FieldLists(document.records)
             && FramesOfRecords(document.records[..0]) == [];
    FoldRecords(document.records, 0, c, limits);
    PayloadsAppend(header, tail, 0);
  }

  lemma UnclassifiedIsErased(fields: seq<RawField>)
    requires OrdinalsMatch(fields)
    ensures Unclassified(FramesOfFields(fields)) == Erased(fields)
  {
  }

  lemma ReclassifiedIsSame(fields: seq<RawField>)
    requires OrdinalsMatch(fields)
    ensures RawOf(FramesOfFields(fields), ClassesOf(fields)) == fields
  {
  }

  lemma OrdinalsOf(document: VaultDocument)
    requires Structured(document)
    ensures OrdinalsMatch(document.header)
    ensures forall r :: 0 <= r < |document.records| ==>
              document.records[r].ordinal == r && OrdinalsMatch(document.records[r].fields)
  {
    hide OrdinalsMatch, RecordStructure, HeaderStructure, CheckVersion, ClassesFrom;
    forall r | 0 <= r < |document.records|
      ensures document.records[r].ordinal == r && OrdinalsMatch(document.records[r].fields)
    {
      assert RecordStructured(document.records[r], r, document.version);
    }
  }

  /** The document published from the sections of an accepted one is that document. */
  lemma PublishAccepted(document: VaultDocument, limits: ResourceLimits)
    requires CheckDocument(document, limits).Ok?
    ensures PublishDocument(BuilderOf(document), limits).Ok?
    ensures DocumentsEqual(document, PublishDocument(BuilderOf(document), limits).value)
  {
    hide CheckSchema, CheckVersion, CheckShapeFrom, OrdinalsMatch, Structured, Unclassified, Erased, RawOf, ClassesOf;
    SaveCheckIsConsistency(document, limits);
    OrdinalsOf(document);
    var b := BuilderOf(document);
    UnclassifiedIsErased(document.header);
    forall r | 0 <= r < |document.records|
      ensures UnclassifiedAll(b.records)[r] == ErasedAll(FieldLists(document.records))[r]
    {
      UnclassifiedIsErased(document.records[r].fields);
    }
    assert UnclassifiedAll(b.records) == ErasedAll(FieldLists(document.records));
    SchemaErased(document.header, FieldLists(document.records), document.version, limits.maxDecodedText);
    ReclassifiedIsSame(document.header);
    forall r | 0 <= r < |document.records|
      ensures RawOf(b.records[r], ClassesOf(document.records[r].fields)) == document.records[r].fields
    {
      ReclassifiedIsSame(document.records[r].fields);
    }
  }

  lemma {:induction false} ShapeCount(records: seq<RawRecord>, r: nat, maxFields: nat, count: nat)
    requires r <= |records| && CheckShapeFrom(records, r, maxFields, count).Ok? && count <= maxFields
    ensures count + |Flatten(FieldLists(records)[r..])| <= maxFields
    decreases |records| - r
  {
    hide OrdinalsMatch;
    if r < |records| {
      ShapeCount(records, r + 1, maxFields, count + |records[r].fields|);
      assert FieldLists(records)[r..][1..] == FieldLists(records)[r + 1..];
    }
  }

  lemma AcceptedCounts(document: VaultDocument, limits: ResourceLimits)
    requires CheckDocument(document, limits).Ok?
    ensures |document.records| <= limits.maxRecords && |AllFields(document)| <= limits.maxFields
  {
    hide CheckSchema, CheckVersion, CheckShapeFrom, OrdinalsMatch, StoredMatches;
    ShapeCount(document.records, 0, limits.maxFields, |document.header|);
    assert FieldLists(document.records)[0..] == FieldLists(document.records);
  }

  lemma {:induction false} AcceptedLengths(fields: seq<RawField>, i: nat, size: nat, limit: nat)
    requires i <= |fields| && SizeFrom(fields, i, size, limit).Ok?
    ensures forall k :: i <= k < |fields| ==> |fields[k].payload| <= MAX_FIELD_BYTES
    decreases |fields| - i
  {
    if i < |fields| {
      AcceptedLengths(fields, i + 1, size + PaddedLength(|fields[i].payload|), limit);
    }
  }

  /** The parts of a candidate, found again where the reader looks for them. */
  lemma EnvelopeReadsBack(
    p: Primitives, body: Bytes, authenticator: Key, material: Material, keys: VaultKeys, iv: Block,
    limits: ResourceLimits)
    requires Aligned(body) && body != [] && 1 <= material.iterations <= limits.maxIterations && limits.Valid()
    ensures var file := Prefix(p, material, keys, iv) + body + EOF_MARKER + authenticator;
            && ReadEnvelope(file, limits)
               == Ok(Envelope(material.salt, material.iterations, p.sha256(material.derived),
                              WrappedKeys(p, material.derived, keys), iv, |body|, authenticator))
            && file[PREFIX_BYTES..PREFIX_BYTES + |body|] == body
  {
    hide LittleEndian, FromLittleEndian, WrappedKeys;
    var prefix := Prefix(p, material, keys, iv);
    var count := LittleEndian(material.iterations, 4);
    Pow256Values();
    LittleEndianRoundTrip(material.iterations, 4);
    PrefixParts(p, material, keys, iv);
    var file := prefix + body + EOF_MARKER + authenticator;
    assert file[..4] == prefix[..4] && file[4..36] == prefix[4..36] && file[36..40] == prefix[36..40];
    assert file[40..72] == prefix[40..72] && file[72..136] == prefix[72..136] && file[136..152] == prefix[136..152];
    assert file[|file| - 32..] == authenticator;
    assert file[|file| - SUFFIX_BYTES..|file| - 32] == EOF_MARKER;
    assert file[PREFIX_BYTES..PREFIX_BYTES + |body|] == body;
  }

  lemma PrefixParts(p: Primitives, material: Material, keys: VaultKeys, iv: Block)
    ensures var prefix := Prefix(p, material, keys, iv);
            && prefix[..4] == FILE_TAG && prefix[4..36] == material.salt
            && prefix[36..40] == LittleEndian(material.iterations, 4) && prefix[40..72] == p.sha256(material.derived)
            && prefix[72..136] == WrappedKeys(p, material.derived, keys) && prefix[136..152] == iv
  {
    hide LittleEndian, WrappedKeys;
    var head := FILE_TAG + material.salt + LittleEndian(material.iterations, 4);
    var tail := p.sha256(material.derived) + WrappedKeys(p, material.derived, keys) + iv;
    assert Prefix(p, material, keys, iv) == head + tail;
    assert head[..4] == FILE_TAG && head[4..36] == material.salt
             && head[36..40] == LittleEndian(material.iterations, 4);
    assert tail[..32] == p.sha256(material.derived) && tail[32..96] == WrappedKeys(p, material.derived, keys)
             && tail[96..112] == iv;
  }

  /**
   Whatever the writer's check accepts reads back exactly: same version, field order, ordinals,
   classifications, warnings and payload bytes, and the same keys, under one set of limits.
   */
  lemma WholeFileRoundTrip(
    p: Primitives, document: VaultDocument, paddings: seq<Bytes>, material: Material, keys: VaultKeys, iv: Block,
    passphrase: Bytes, limits: ResourceLimits)
    requires p.Inverse() && limits.Valid()
    requires CheckCandidate(document, material.iterations, limits).Ok? && PaddingsFit(AllFields(document), paddings)
    requires material.iterations >= 1
    requires material.derived == Stretched(p, passphrase, material.salt, material.iterations)
    ensures var reread := OpenVault(p, CandidateBytes(p, AllFields(document), paddings, material, keys, iv), passphrase,
              limits);
            && reread.Ok?
            && DocumentsEqual(document, reread.value.document)
            && reread.value.keys == keys && reread.value.derived == material.derived
            && reread.value.envelope.salt == material.salt && reread.value.envelope.iterations == material.iterations
  {
    hide CheckDocument, AllFields, Structured, PaddingFits, FramesFrom, PayloadsFrom, CbcEncrypt, CbcDecrypt, Prefix,
         Stretched, ParseFrom, PublishDocument, ReadEnvelope, WrappedKeys, UnwrappedKeys, SizeFrom, DocumentsEqual,
         Recomputed;
    var fields := AllFields(document);
    SaveCheckIsConsistency(document, limits);
    CandidateSize(p, document, limits, paddings, material, keys, iv);
    AcceptedCounts(document, limits);
    AcceptedLengths(fields, 0, FIXED_CANDIDATE_BYTES, limits.maxEncryptedFile);
    AcceptedNotEmpty(document, limits);
    FramesAligned(fields, paddings, 0);
    FramesNotEmpty(fields, paddings);
    var body := CbcEncrypt(p, keys.content, iv, FramesFrom(fields, paddings, 0));
    EnvelopeReadsBack(p, body, p.hmac(keys.authentication, PayloadsFrom(fields, 0)), material, keys, iv, limits);
    UnwrapUndoesWrap(p, material.derived, keys);
    CbcRoundTrip(p, keys.content, iv, FramesFrom(fields, paddings, 0));
    ParseDocument(document, paddings, limits);
    PublishAccepted(document, limits);
  }

  lemma FramesNotEmpty(fields: seq<RawField>, paddings: seq<Bytes>)
    requires fields != [] && PaddingsFit(fields, paddings)
    ensures FramesFrom(fields, paddings, 0) != []
  {
  }

  // ---------------------------------------------------------------- what the reader publishes

  lemma RawOfErased(fields: seq<Frame<Bytes>>, classes: seq<Classification>)
    requires |classes| == |fields|
    ensures Erased(RawOf(fields, classes)) == Unclassified(fields)
    ensures ClassesOf(RawOf(fields, classes)) == classes && OrdinalsMatch(RawOf(fields, classes))
  {
  }

  lemma PublishedErased(b: Builder<Bytes>, limits: ResourceLimits)
    requires PublishDocument(b, limits).Ok?
    ensures var document := PublishDocument(b, limits).value;
            && Erased(document.header) == Unclassified(b.header)
            && ErasedAll(FieldLists(document.records)) == UnclassifiedAll(b.records)
            && OrdinalsMatch(document.header)
            && (forall r :: 0 <= r < |document.records| ==>
                  document.records[r].ordinal == r && OrdinalsMatch(document.records[r].fields))
            && CheckVersion(Unclassified(b.header)) == Ok(document.version)
            && var accepted := CheckSchema(Unclassified(b.header), UnclassifiedAll(b.records), document.version,
                                           limits.maxDecodedText);
               accepted.Ok? && StoredMatches(document, accepted.value)
  {
    hide CheckSchema, CheckVersion, RawOf, Unclassified, Erased, ClassesOf, OrdinalsMatch, HeaderStructure,
         RecordsStructure, ClassesFrom;
    var header, records := Unclassified(b.header), UnclassifiedAll(b.records);
    var document := PublishDocument(b, limits).value;
    SchemaChecks(header, records, document.version, limits.maxDecodedText);
    var accepted := CheckSchema(header, records, document.version, limits.maxDecodedText).value;
    LengthsAgree(b, document.version, limits.maxDecodedText);
    RawOfErased(b.header, accepted.header);
    forall r | 0 <= r < |document.records|
      ensures Erased(document.records[r].fields) == Unclassified(b.records[r])
      ensures ClassesOf(document.records[r].fields) == accepted.records[r] && OrdinalsMatch(document.records[r].fields)
    {
      RawOfErased(b.records[r], accepted.records[r]);
    }
    assert ErasedAll(FieldLists(document.records)) == records;
  }

  lemma LengthsAgree(b: Builder<Bytes>, version: nat, maxText: nat)
    requires CheckSchema(Unclassified(b.header), UnclassifiedAll(b.records), version, maxText).Ok?
    ensures var accepted := CheckSchema(Unclassified(b.header), UnclassifiedAll(b.records), version, maxText).value;
            && |accepted.header| == |b.header| && |accepted.records| == |b.records|
            && forall r :: 0 <= r < |b.records| ==> |accepted.records[r]| == |b.records[r]|
  {
    hide CheckSchema;
    SchemaChecks(Unclassified(b.header), UnclassifiedAll(b.records), version, maxText);
  }

  /** Every published document would pass the save check, budgets aside: sessions start out consistent. */
  lemma PublishedIsConsistent(b: Builder<Bytes>, limits: ResourceLimits)
    requires PublishDocument(b, limits).Ok?
    ensures Consistent(PublishDocument(b, limits).value)
  {
    hide CheckSchema, CheckVersion, WarningsFrom, RecordWarningsFrom, ClassesFrom, PublishDocument, Unclassified,
         Erased, ClassesOf, HeaderStructure, OrdinalsMatch, RecordStructure;
    var document := PublishDocument(b, limits).value;
    PublishedErased(b, limits);
    SchemaErased(document.header, FieldLists(document.records), document.version, limits.maxDecodedText);
    SchemaChecks(document.header, FieldLists(document.records), document.version, limits.maxDecodedText);
  }
}
