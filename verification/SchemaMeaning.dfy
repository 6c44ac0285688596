/**
 What the schema pass decides, said of the field table and of positions alone: which sections are
 refused, how every field of an accepted one is classified, and exactly which warnings it draws.
 */
module SchemaMeaning {
  import opened Basics
  import opened Schema
  import opened Documents
  import opened Validation
  import opened Commands
  import CustomFields
  import Utf8

  // ---------------------------------------------------------------- one field

  /** The content of a known field is not what its type calls for. */
  predicate Ill(section: Section, f: RawField) {
    SpecOf(section, f.typeCode).Some? && IllFormed(SpecOf(section, f.typeCode).value, section, f)
  }

  /**
   A payload has the fixed size of its field or the other size the field may have, eight bytes for a time
   as old versions wrote it; and a required one is not empty.
   */
  predicate WellSized(spec: FieldSpec, length: nat) {
    && (spec.fixedLength.Some? ==>
          || Some(length) == spec.fixedLength || Some(length) == spec.alternateLength
          || (spec.kind.TimeKind? && spec.historicalTime && length == 8))
    && (spec.Mandatory() && !spec.role.Terminator? ==> length > 0)
  }

  /** Texts are accepted text, identities have the RFC 4122 variant, and an old time is written in hexadecimal. */
  predicate Sound(spec: FieldSpec, payload: Bytes) {
    && (spec.kind.TextKind? ==> Utf8.AcceptedText(payload))
    && (spec.kind.UuidKind? ==> |payload| == 16 && payload[8] / 64 == 2)
    && (spec.kind.TimeKind? && spec.historicalTime && |payload| == 8 ==>
          forall i :: 0 <= i < 8 ==>
            0x30 <= payload[i] <= 0x39 || 0x41 <= payload[i] <= 0x46 || 0x61 <= payload[i] <= 0x66)
  }

  lemma SizesExactly(section: Section, code: Byte, length: nat)
    requires SpecOf(section, code).Some?
    ensures WellSized(SpecOf(section, code).value, length) <==> !LengthMalformed(SpecOf(section, code).value, length)
  {
  }

  lemma ValuesExactly(spec: FieldSpec, payload: Bytes)
    requires !spec.kind.OpaqueKind?
    ensures Sound(spec, payload) <==> ValueAccepted(spec, payload)
  {
    hide Utf8.AcceptedText;
  }

  predicate IllFormed(spec: FieldSpec, section: Section, f: RawField) {
    || !WellSized(spec, |f.payload|)
    || (!spec.kind.OpaqueKind? && !Sound(spec, f.payload))
    || (section.Record? && f.typeCode == 0x30 && !spec.kind.OpaqueKind?
        && CustomFields.Parse(f.payload, CustomFields.MAX_DECODED_TEXT_BYTES).None?)
  }

  /** An earlier field of the section has the same type. */
  predicate Again(fields: seq<RawField>, k: nat)
    requires k < |fields|
  {
    exists j :: 0 <= j < k && fields[j].typeCode == fields[k].typeCode
  }

  /** A known field belongs to the format version, comes once if it must, and is well formed if it must be there. */
  predicate Admitted(section: Section, fields: seq<RawField>, k: nat, version: nat)
    requires k < |fields|
  {
    SpecOf(section, fields[k].typeCode).Some? ==>
      var spec := SpecOf(section, fields[k].typeCode).value;
      && spec.since <= version
      && (spec.Mandatory() && !spec.multiple ==> !Again(fields, k))
      && (spec.Mandatory() ==> !Ill(section, fields[k]))
  }

  /** Bytes a field adds to the text budget. */
  function TextBytes(section: Section, f: RawField): nat {
    if SpecOf(section, f.typeCode).Some? && SpecOf(section, f.typeCode).value.kind.TextKind? then |f.payload| else 0
  }

  /** A field that is decoded at all fits the bound by itself. */
  predicate Decodable(section: Section, f: RawField, maxText: nat) {
    SpecOf(section, f.typeCode).Some? ==>
      var spec := SpecOf(section, f.typeCode).value;
      !WellSized(spec, |f.payload|) || spec.kind.OpaqueKind? || |f.payload| <= maxText
  }

  function ClassOf(section: Section, f: RawField): Classification {
    if SpecOf(section, f.typeCode).None? then Unknown
    else if Ill(section, f) then MalformedContent
    else Understood
  }

  /** Which warnings the field at `k` draws. */
  predicate Draws(section: Section, fields: seq<RawField>, k: nat, code: WarningCode)
    requires k < |fields|
  {
    match code
    case UnknownField => SpecOf(section, fields[k].typeCode).None?
    case DuplicateOptionalField =>
      && SpecOf(section, fields[k].typeCode).Some? && !SpecOf(section, fields[k].typeCode).value.multiple
      && Again(fields, k)
    case MalformedOptionalField => Ill(section, fields[k])
  }

  function At(code: WarningCode, recordOrdinal: Option<nat>, f: RawField): Warning {
    Warning(code, recordOrdinal, f.ordinal, f.typeCode)
  }

  /** The warnings of the field at `k`, a duplicate before a malformed value. */
  function Drawn(section: Section, recordOrdinal: Option<nat>, fields: seq<RawField>, k: nat): seq<Warning>
    requires k < |fields|
  {
    (if Draws(section, fields, k, UnknownField) then [At(UnknownField, recordOrdinal, fields[k])] else [])
    + (if Draws(section, fields, k, DuplicateOptionalField)
       then [At(DuplicateOptionalField, recordOrdinal, fields[k])] else [])
    + (if Draws(section, fields, k, MalformedOptionalField)
       then [At(MalformedOptionalField, recordOrdinal, fields[k])] else [])
  }

  lemma FieldExactly(
    section: Section, recordOrdinal: Option<nat>, fields: seq<RawField>, k: nat, version: nat, maxText: nat, total: nat)
    requires k < |fields| && total <= maxText
    ensures var f := fields[k];
            var checked := CheckField(section, recordOrdinal, f, Seen(fields, k), version, maxText, total);
            && (checked.Ok? <==>
                  && Admitted(section, fields, k, version) && Decodable(section, f, maxText)
                  && total + TextBytes(section, f) <= maxText)
            && (checked.Ok? ==>
                  && checked.value.classification == ClassOf(section, f)
                  && checked.value.total == total + TextBytes(section, f)
                  && checked.value.warnings == Drawn(section, recordOrdinal, fields, k))
  {
    hide HeaderSpec, RecordSpec, LengthMalformed, ValueAccepted, WellSized, Sound, CustomFields.Parse;
    if SpecOf(section, fields[k].typeCode).Some? {
      SizesExactly(section, fields[k].typeCode, |fields[k].payload|);
      if !SpecOf(section, fields[k].typeCode).value.kind.OpaqueKind? {
        ValuesExactly(SpecOf(section, fields[k].typeCode).value, fields[k].payload);
      }
    }
    assert Seen(fields, k) <==> Again(fields, k);
    CustomTextIsOptional();
  }

  lemma CustomTextIsOptional()
    ensures RecordSpec(0x30).Some? && !RecordSpec(0x30).value.Mandatory()
  {
  }

  // ---------------------------------------------------------------- one section

  function TextFrom(section: Section, fields: seq<RawField>, i: nat): nat
    requires i <= |fields|
    decreases |fields| - i
  {
    if i == |fields| then 0 else TextBytes(section, fields[i]) + TextFrom(section, fields, i + 1)
  }

  function DrawnFrom(section: Section, recordOrdinal: Option<nat>, fields: seq<RawField>, i: nat): seq<Warning>
    requires i <= |fields|
    decreases |fields| - i
  {
    if i == |fields| then []
    else Drawn(section, recordOrdinal, fields, i) + DrawnFrom(section, recordOrdinal, fields, i + 1)
  }

  /** Every field from `i` on is admitted, and each one that is decoded fits the bound. */
  predicate AllAdmitted(section: Section, fields: seq<RawField>, i: nat, version: nat, maxText: nat) {
    forall k :: i <= k < |fields| ==> Admitted(section, fields, k, version) && Decodable(section, fields[k], maxText)
  }

  lemma {:induction false} SectionFrom(
    section: Section, recordOrdinal: Option<nat>, fields: seq<RawField>, i: nat, version: nat, maxText: nat, total: nat)
    requires i <= |fields| && total <= maxText
    ensures var checked := CheckFrom(section, recordOrdinal, fields, i, version, maxText, total);
            && (checked.Ok? <==>
                  && AllAdmitted(section, fields, i, version, maxText)
                  && total + TextFrom(section, fields, i) <= maxText)
            && (checked.Ok? ==>
                  && checked.value.total == total + TextFrom(section, fields, i)
                  && checked.value.warnings == DrawnFrom(section, recordOrdinal, fields, i)
                  && forall k :: i <= k < |fields| ==> checked.value.classes[k - i] == ClassOf(section, fields[k]))
    decreases |fields| - i
  {
    hide CheckField, Admitted, Decodable, TextBytes, Drawn, ClassOf, Seen;
    if i < |fields| {
      FieldExactly(section, recordOrdinal, fields, i, version, maxText, total);
      var head := CheckField(section, recordOrdinal, fields[i], Seen(fields, i), version, maxText, total);
      if head.Ok? {
        SectionFrom(section, recordOrdinal, fields, i + 1, version, maxText, head.value.total);
      }
    }
  }

  /** A warning that some field of the section draws. */
  predicate DrawnBy(section: Section, recordOrdinal: Option<nat>, fields: seq<RawField>, w: Warning) {
    && w.recordOrdinal == recordOrdinal && w.fieldOrdinal < |fields|
    && w.typeCode == fields[w.fieldOrdinal].typeCode && Draws(section, fields, w.fieldOrdinal, w.code)
  }

  /** Place of a warning within its section. */
  function Rank(w: Warning): nat {
    3 * w.fieldOrdinal
    + match w.code
      case UnknownField => 0
      case DuplicateOptionalField => 1
      case MalformedOptionalField => 2
  }

  predicate Rising(warnings: seq<Warning>) {
    forall a, b :: 0 <= a < b < |warnings| ==> Rank(warnings[a]) < Rank(warnings[b])
  }

  lemma DrawnHere(section: Section, recordOrdinal: Option<nat>, fields: seq<RawField>, k: nat)
    requires OrdinalsMatch(fields) && k < |fields|
    ensures Rising(Drawn(section, recordOrdinal, fields, k))
    ensures forall w :: w in Drawn(section, recordOrdinal, fields, k) <==>
              w.fieldOrdinal == k && DrawnBy(section, recordOrdinal, fields, w)
  {
    hide Draws;
    forall w: Warning | w.fieldOrdinal == k && DrawnBy(section, recordOrdinal, fields, w)
      ensures w in Drawn(section, recordOrdinal, fields, k)
    {
      assert w == At(w.code, recordOrdinal, fields[k]);
      match w.code
      case UnknownField =>
      case DuplicateOptionalField =>
      case MalformedOptionalField =>
    }
  }

  lemma {:induction false} DrawnExactly(
    section: Section, recordOrdinal: Option<nat>, fields: seq<RawField>, i: nat)
    requires OrdinalsMatch(fields) && i <= |fields|
    ensures var warnings := DrawnFrom(section, recordOrdinal, fields, i);
            && Rising(warnings)
            && forall w :: w in warnings <==> i <= w.fieldOrdinal && DrawnBy(section, recordOrdinal, fields, w)
    decreases |fields| - i
  {
    hide Drawn, Draws;
    if i < |fields| {
      DrawnHere(section, recordOrdinal, fields, i);
      DrawnExactly(section, recordOrdinal, fields, i + 1);
      RisingJoin(Drawn(section, recordOrdinal, fields, i), DrawnFrom(section, recordOrdinal, fields, i + 1), i);
    }
  }

  lemma RisingJoin(left: seq<Warning>, right: seq<Warning>, i: nat)
    requires Rising(left) && Rising(right)
    requires (forall w :: w in left ==> w.fieldOrdinal == i) && (forall w :: w in right ==> w.fieldOrdinal > i)
    ensures Rising(left + right)
  {
    forall a, b | 0 <= a < b < |left + right|
      ensures Rank((left + right)[a]) < Rank((left + right)[b])
    {
      if a < |left| <= b {
        assert left[a] in left && right[b - |left|] in right;
      }
    }
  }

  /**
   The pass over one section. It is accepted exactly when every field is admitted and the texts fit the
   budget together; then each field has its class, and the warnings are one for each that a field draws,
   in the order of the fields, and no others.
   */
  lemma SectionExactly(
    section: Section, recordOrdinal: Option<nat>, fields: seq<RawField>, version: nat, maxText: nat, total: nat)
    requires OrdinalsMatch(fields) && total <= maxText
    ensures var checked := CheckFrom(section, recordOrdinal, fields, 0, version, maxText, total);
            && (checked.Ok? <==>
                  && AllAdmitted(section, fields, 0, version, maxText)
                  && total + TextFrom(section, fields, 0) <= maxText)
            && (checked.Ok? ==>
                  && (forall k :: 0 <= k < |fields| ==> checked.value.classes[k] == ClassOf(section, fields[k]))
                  && (forall w :: w in checked.value.warnings <==> DrawnBy(section, recordOrdinal, fields, w))
                  && Rising(checked.value.warnings))
  {
    hide Admitted, Decodable, Draws, ClassOf, CheckFrom, TextFrom, DrawnFrom, Rank;
    SectionFrom(section, recordOrdinal, fields, 0, version, maxText, total);
    DrawnExactly(section, recordOrdinal, fields, 0);
  }

  // ---------------------------------------------------------------- a whole document

  /** A record that ends, has its identity, title and password once, and no half of a group. */
  ghost predicate Complete(fields: seq<RawField>) {
    && fields != [] && fields[|fields| - 1].typeCode == 0xFF
    && OnlyOne(fields, 0x01) && OnlyOne(fields, 0x03) && OnlyOne(fields, 0x06)
    && ((exists c: Byte :: 0x25 <= c <= 0x29 && Has(fields, c)) ==> Has(fields, 0x26))
    && ((exists c: Byte :: 0x2A <= c <= 0x2F && Has(fields, c)) ==>
          && Has(fields, 0x2A) && Has(fields, 0x2B) && Has(fields, 0x2C)
          && Has(fields, 0x2D) && Has(fields, 0x2E) && Has(fields, 0x2F))
  }

  lemma CompleteExactly(fields: seq<RawField>)
    ensures Complete(fields) <==> EndsWithEnd(fields) && MandatoryPresent(fields) && GroupsComplete(fields)
  {
    hide Has, CountType, OnlyOne;
    CountOne(fields, 0x01);
    CountOne(fields, 0x03);
    CountOne(fields, 0x06);
  }

  function TextOfRecords(records: seq<seq<RawField>>, r: nat): nat
    requires r <= |records|
    decreases |records| - r
  {
    if r == |records| then 0 else TextFrom(Record, records[r], 0) + TextOfRecords(records, r + 1)
  }

  function DrawnByRecords(records: seq<seq<RawField>>, r: nat): seq<Warning>
    requires r <= |records|
    decreases |records| - r
  {
    if r == |records| then [] else DrawnFrom(Record, Some(r), records[r], 0) + DrawnByRecords(records, r + 1)
  }

  ghost predicate RecordsAdmitted(records: seq<seq<RawField>>, r: nat, version: nat, maxText: nat) {
    forall q :: r <= q < |records| ==> Complete(records[q]) && AllAdmitted(Record, records[q], 0, version, maxText)
  }

  predicate ClassedAs(fields: seq<RawField>, classes: seq<Classification>) {
    |classes| == |fields| && forall k :: 0 <= k < |fields| ==> classes[k] == ClassOf(Record, fields[k])
  }

  predicate ClassesRight(records: seq<seq<RawField>>, classes: seq<seq<Classification>>) {
    |classes| == |records| && forall q :: 0 <= q < |records| ==> ClassedAs(records[q], classes[q])
  }

  lemma ClassesOfNothing()
    ensures ClassesRight([], [])
  {
  }

  lemma ClassesJoin(records: seq<seq<RawField>>, head: seq<Classification>, classes: seq<seq<Classification>>)
    requires records != [] && ClassedAs(records[0], head) && ClassesRight(records[1..], classes)
    ensures ClassesRight(records, [head] + classes)
  {
    hide ClassedAs;
    assert forall q :: 0 < q < |records| ==> records[q] == records[1..][q - 1];
  }

  lemma {:induction false} RecordsFrom(
    records: seq<seq<RawField>>, r: nat, version: nat, maxText: nat, total: nat)
    requires r <= |records| && total <= maxText
    ensures var checked := CheckRecordsFrom(records, r, version, maxText, total);
            && (checked.Ok? <==>
                  RecordsAdmitted(records, r, version, maxText) && total + TextOfRecords(records, r) <= maxText)
            && (checked.Ok? ==>
                  && checked.value.warnings == DrawnByRecords(records, r)
                  && ClassesRight(records[r..], checked.value.classes))
    decreases |records| - r
  {
    hide CheckFrom, Complete, AllAdmitted, TextFrom, DrawnFrom, ClassOf, MandatoryPresent, GroupsComplete, EndsWithEnd,
         ClassesRight;
    if r == |records| {
      assert records[r..] == [];
      ClassesOfNothing();
    } else {
      CompleteExactly(records[r]);
      SectionFrom(Record, Some(r), records[r], 0, version, maxText, total);
      var head := CheckRecord(records[r], r, version, maxText, total);
      if head.Ok? {
        RecordsFrom(records, r + 1, version, maxText, head.value.total);
        var rest := CheckRecordsFrom(records, r + 1, version, maxText, head.value.total);
        if rest.Ok? {
          assert records[r..][1..] == records[r + 1..];
          ClassesJoin(records[r..], head.value.classes, rest.value.classes);
        }
      }
    }
  }

  lemma {:induction false} RecordWarningsExactly(records: seq<seq<RawField>>, r: nat)
    requires r <= |records| && forall q :: 0 <= q < |records| ==> OrdinalsMatch(records[q])
    ensures forall w :: w in DrawnByRecords(records, r) <==>
              w.recordOrdinal.Some? && r <= w.recordOrdinal.value < |records|
              && DrawnBy(Record, w.recordOrdinal, records[w.recordOrdinal.value], w)
    decreases |records| - r
  {
    hide Draws, OrdinalsMatch, DrawnFrom;
    if r < |records| {
      DrawnExactly(Record, Some(r), records[r], 0);
      RecordWarningsExactly(records, r + 1);
    }
  }

  /**
   The pass over a document: accepted exactly when the header ends, every record is complete, every field
   is admitted and all texts together fit the budget; and a warning is reported exactly when a field of the
   header or of a record draws it, the header's before the first record's and so on.
   */
  lemma SchemaExactly(header: seq<RawField>, records: seq<seq<RawField>>, version: nat, maxText: nat)
    requires OrdinalsMatch(header) && forall r :: 0 <= r < |records| ==> OrdinalsMatch(records[r])
    ensures var checked := CheckSchema(header, records, version, maxText);
            && (checked.Ok? <==>
                  && EndsWithEnd(header) && AllAdmitted(Header, header, 0, version, maxText)
                  && RecordsAdmitted(records, 0, version, maxText)
                  && TextFrom(Header, header, 0) + TextOfRecords(records, 0) <= maxText)
            && (checked.Ok? ==>
                  && (forall k :: 0 <= k < |header| ==> checked.value.header[k] == ClassOf(Header, header[k]))
                  && ClassesRight(records, checked.value.records)
                  && checked.value.warnings == DrawnFrom(Header, None, header, 0) + DrawnByRecords(records, 0)
                  && forall w :: w in checked.value.warnings <==>
                       match w.recordOrdinal
                       case None => DrawnBy(Header, None, header, w)
                       case Some(r) => r < |records| && DrawnBy(Record, Some(r), records[r], w))
  {
    hide Draws, AllAdmitted, RecordsAdmitted, CheckFrom, CheckRecordsFrom, TextFrom, TextOfRecords, DrawnFrom,
         DrawnByRecords, OrdinalsMatch, ClassOf, ClassesRight;
    SectionFrom(Header, None, header, 0, version, maxText, 0);
    DrawnExactly(Header, None, header, 0);
    RecordWarningsExactly(records, 0);
    var head := CheckFrom(Header, None, header, 0, version, maxText, 0);
    assert records[0..] == records;
    if head.Ok? {
      RecordsFrom(records, 0, version, maxText, head.value.total);
    }
  }

  // ---------------------------------------------------------------- the save check

  /** The version is the first field of the header, two bytes wide, there once, and supported. */
  ghost predicate VersionIs(header: seq<RawField>, version: nat) {
    && header != [] && header[0].typeCode == 0x00 && |header[0].payload| == 2
    && (forall k :: 0 < k < |header| ==> header[k].typeCode != 0x00)
    && var low: int, high: int := header[0].payload[0], header[0].payload[1];
       version == low + 256 * high && 0x0300 <= version <= 0x0311
  }

  lemma VersionExactly(header: seq<RawField>, version: nat)
    ensures CheckVersion(header) == Ok(version) <==> VersionIs(header, version)
  {
    hide CountType;
    if header != [] && header[0].typeCode == 0x00 {
      CountOne(header, 0x00);
      assert OnlyOne(header, 0x00) ==> OneAt(header, 0x00, 0);
      assert (forall k :: 0 < k < |header| ==> header[k].typeCode != 0x00) ==> OneAt(header, 0x00, 0);
      if |header[0].payload| == 2 {
        var tail := header[0].payload[1..];
        assert FromLittleEndian(header[0].payload) == header[0].payload[0] + 256 * FromLittleEndian(tail);
        assert FromLittleEndian(tail) == tail[0] + 256 * FromLittleEndian(tail[1..]);
      }
    }
  }

  lemma {:induction false} ShapeExactly(records: seq<RawRecord>, r: nat, maxFields: nat, count: nat)
    requires r <= |records| && count <= maxFields
    ensures CheckShapeFrom(records, r, maxFields, count).Ok? <==>
              && (forall q :: r <= q < |records| ==> records[q].ordinal == q && OrdinalsMatch(records[q].fields))
              && count + |Flatten(FieldLists(records)[r..])| <= maxFields
    decreases |records| - r
  {
    hide OrdinalsMatch;
    if r < |records| {
      var lists := FieldLists(records);
      assert lists[r..][0] == records[r].fields && lists[r..][1..] == lists[r + 1..];
      if |records[r].fields| <= maxFields - count {
        ShapeExactly(records, r + 1, maxFields, count + |records[r].fields|);
      }
    }
  }

  /** Everything in its place, and no more of it than the budgets allow. */
  ghost predicate Shaped(document: VaultDocument, limits: ResourceLimits) {
    && |document.records| <= limits.maxRecords && |AllFields(document)| <= limits.maxFields
    && OrdinalsMatch(document.header)
    && forall r :: 0 <= r < |document.records| ==>
         document.records[r].ordinal == r && OrdinalsMatch(document.records[r].fields)
  }

  /** The fields are what the format calls for. */
  ghost predicate Conforms(document: VaultDocument, limits: ResourceLimits) {
    var header, records := document.header, FieldLists(document.records);
    && VersionIs(header, document.version) && EndsWithEnd(header)
    && AllAdmitted(Header, header, 0, document.version, limits.maxDecodedText)
    && RecordsAdmitted(records, 0, document.version, limits.maxDecodedText)
    && TextFrom(Header, header, 0) + TextOfRecords(records, 0) <= limits.maxDecodedText
  }

  /** What is stored about the fields is what they call for. */
  ghost predicate StoredRight(document: VaultDocument) {
    var header, records := document.header, FieldLists(document.records);
    && (forall k :: 0 <= k < |header| ==> header[k].classification == ClassOf(Header, header[k]))
    && (forall r, k :: 0 <= r < |records| && 0 <= k < |records[r]| ==>
          records[r][k].classification == ClassOf(Record, records[r][k]))
    && document.warnings == DrawnFrom(Header, None, header, 0) + DrawnByRecords(records, 0)
  }

  lemma StoredExactly(document: VaultDocument, accepted: Accepted)
    requires |accepted.header| == |document.header|
    requires forall k :: 0 <= k < |document.header| ==> accepted.header[k] == ClassOf(Header, document.header[k])
    requires ClassesRight(FieldLists(document.records), accepted.records)
    requires accepted.warnings
               == DrawnFrom(Header, None, document.header, 0) + DrawnByRecords(FieldLists(document.records), 0)
    ensures StoredMatches(document, accepted) <==> StoredRight(document)
  {
    hide ClassOf, DrawnFrom, DrawnByRecords;
    var records := FieldLists(document.records);
    assert forall r :: 0 <= r < |records| ==> ClassedAs(records[r], accepted.records[r]);
    if StoredMatches(document, accepted) {
      forall r, k | 0 <= r < |records| && 0 <= k < |records[r]|
        ensures records[r][k].classification == ClassOf(Record, records[r][k])
      {
        assert accepted.records[r][k] == ClassesOf(document.records[r].fields)[k];
      }
      forall k | 0 <= k < |document.header|
        ensures document.header[k].classification == ClassOf(Header, document.header[k])
      {
        assert accepted.header[k] == ClassesOf(document.header)[k];
      }
    }
    if StoredRight(document) {
      forall r | 0 <= r < |records|
        ensures accepted.records[r] == ClassesOf(document.records[r].fields)
      {
        assert records[r] == document.records[r].fields;
      }
    }
  }

  /** A save accepts a document exactly when it is shaped and conforms, and what it stores about its fields is right. */
  lemma SaveAcceptsExactly(document: VaultDocument, limits: ResourceLimits)
    ensures CheckDocument(document, limits).Ok? <==>
              Shaped(document, limits) && Conforms(document, limits) && StoredRight(document)
  {
    hide OrdinalsMatch, CheckVersion, VersionIs, CheckSchema, AllAdmitted, RecordsAdmitted, TextFrom, TextOfRecords,
         StoredMatches, StoredRight, ClassOf, ClassesRight, DrawnFrom, DrawnByRecords, DrawnBy, CheckShapeFrom;
    var header, records := document.header, FieldLists(document.records);
    assert records[0..] == records;
    if |header| <= limits.maxFields {
      ShapeExactly(document.records, 0, limits.maxFields, |header|);
    }
    VersionExactly(header, document.version);
    if Shaped(document, limits) && CheckVersion(header) == Ok(document.version) {
      SchemaExactly(header, records, document.version, limits.maxDecodedText);
      var checked := CheckSchema(header, records, document.version, limits.maxDecodedText);
      if checked.Ok? {
        SchemaLengths(header, records, document.version, limits.maxDecodedText);
        StoredExactly(document, checked.value);
      }
    }
  }

  lemma SchemaLengths(header: seq<RawField>, records: seq<seq<RawField>>, version: nat, maxText: nat)
    requires CheckSchema(header, records, version, maxText).Ok?
    ensures |CheckSchema(header, records, version, maxText).value.header| == |header|
  {
    hide CheckRecordsFrom;
  }
}
