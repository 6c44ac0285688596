/** The raw document value: ordered fields, records, preservation warnings and exact equality. */
module Documents {
  import opened Basics

  datatype Classification = Understood | Unknown | MalformedContent

  datatype WarningCode = MalformedOptionalField | DuplicateOptionalField | UnknownField

  /** Warnings carry structural coordinates only; header warnings have no record ordinal. */
  datatype Warning = Warning(code: WarningCode, recordOrdinal: Option<nat>, fieldOrdinal: nat, typeCode: Byte)

  datatype RawField = RawField(typeCode: Byte, payload: Bytes, ordinal: nat, classification: Classification)

  datatype RawRecord = RawRecord(fields: seq<RawField>, ordinal: nat, handle: nat)

  datatype VaultDocument = VaultDocument(
    version: nat, header: seq<RawField>, records: seq<RawRecord>, revision: nat, warnings: seq<Warning>)

  /** Every caller budget is positive and no larger than the reviewed ceiling. */
  datatype ResourceLimits = ResourceLimits(
    maxIterations: nat, maxRecords: nat, maxFields: nat, maxInlinePayload: nat,
    maxDecodedText: nat, ioChunk: nat, maxEncryptedFile: nat)
  {
    predicate Valid() {
      && 0 < maxIterations <= 10_000_000
      && 0 < maxRecords <= 1_000_000
      && 0 < maxFields <= 2_000_000
      && 0 < maxInlinePayload <= 1_048_576
      && 0 < maxDecodedText <= 16_777_216
      && 0 < ioChunk <= 65_536
      && 0 < maxEncryptedFile <= 0x1_0000_0000 + 1_048_576
    }
  }

  /** Semantic equality: handles and revisions are session-local and do not take part. */
  predicate DocumentsEqual(a: VaultDocument, b: VaultDocument) {
    && a.version == b.version
    && a.warnings == b.warnings
    && a.header == b.header
    && |a.records| == |b.records|
    && forall i :: 0 <= i < |a.records| ==>
         a.records[i].ordinal == b.records[i].ordinal && a.records[i].fields == b.records[i].fields
  }

  function FieldLists(records: seq<RawRecord>): seq<seq<RawField>> {
    seq(|records|, i requires 0 <= i < |records| => records[i].fields)
  }

  /** All fields in authenticated order: header first, then each record. */
  function AllFields(document: VaultDocument): seq<RawField> {
    document.header + Flatten(FieldLists(document.records))
  }
}
