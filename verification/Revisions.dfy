/**
 Copy-on-write revisions: planned records, the fork that renumbers ordinals, and the incremental
 remapping of warning coordinates. The remapped warnings are proved to be the ones a from-scratch
 pass over the new revision produces, record by record.
 */
module Revisions {
  import opened Basics
  import opened Schema
  import opened Documents
  import opened Validation

  /**
   A planned field either retains the field at `origin` of its source record or is fresh.
   The pair of source record and origin stands for the identity of the retained object.
   */
  datatype PlannedField = PlannedField(origin: Option<nat>, typeCode: Byte, payload: Bytes,
                                       classification: Classification)

  datatype PlannedRecord = PlannedRecord(source: Option<nat>, fields: seq<PlannedField>, handle: nat)

  function Renumber(fields: seq<PlannedField>): seq<RawField> {
    seq(|fields|,
        k requires 0 <= k < |fields| => RawField(fields[k].typeCode, fields[k].payload, k, fields[k].classification))
  }

  function Retain(f: RawField, origin: nat): PlannedField {
    PlannedField(Some(origin), f.typeCode, f.payload, f.classification)
  }

  /** Every field of an untouched record keeps its place. */
  function RetainAll(fields: seq<RawField>): seq<PlannedField> {
    seq(|fields|, k requires 0 <= k < |fields| => Retain(fields[k], k))
  }

  function OriginIndex(fields: seq<PlannedField>, origin: nat, from: nat): (found: Option<nat>)
    requires from <= |fields|
    ensures found.Some? ==> from <= found.value < |fields| && fields[found.value].origin == Some(origin)
    ensures found.None? ==> forall k :: from <= k < |fields| ==> fields[k].origin != Some(origin)
    decreases |fields| - from
  {
    if from == |fields| then None
    else if fields[from].origin == Some(origin) then Some(from)
    else OriginIndex(fields, origin, from + 1)
  }

  function SourceIndex(planned: seq<PlannedRecord>, source: nat, from: nat): (found: Option<nat>)
    requires from <= |planned|
    ensures found.Some? ==> from <= found.value < |planned| && planned[found.value].source == Some(source)
    ensures found.None? ==> forall k :: from <= k < |planned| ==> planned[k].source != Some(source)
    decreases |planned| - from
  {
    if from == |planned| then None
    else if planned[from].source == Some(source) then Some(from)
    else SourceIndex(planned, source, from + 1)
  }

  /** Where the field at old coordinates ended up, if the plan retains it. */
  function NewLocation(planned: seq<PlannedRecord>, record: nat, field: nat): Option<(nat, nat)> {
    var r :- SourceIndex(planned, record, 0);
    var k :- OriginIndex(planned[r].fields, field, 0);
    Some((r, k))
  }

  /** A record warning resolves only through coordinates that name an existing field of that type. */
  predicate Resolves(document: VaultDocument, w: Warning) {
    && w.recordOrdinal.Some? && w.recordOrdinal.value < |document.records|
    && w.fieldOrdinal < |document.records[w.recordOrdinal.value].fields|
    && document.records[w.recordOrdinal.value].fields[w.fieldOrdinal].typeCode == w.typeCode
  }

  function RemapOne(document: VaultDocument, planned: seq<PlannedRecord>, w: Warning): seq<Warning> {
    if w.recordOrdinal.None? then [w]
    else if !Resolves(document, w) then []
    else
      match NewLocation(planned, w.recordOrdinal.value, w.fieldOrdinal)
      case None => []
      case Some(at) => [Warning(w.code, Some(at.0), at.1, w.typeCode)]
  }

  /** Keep header warnings, move record warnings with their fields, drop those of fields that are gone. */
  function Remap(document: VaultDocument, planned: seq<PlannedRecord>, warnings: seq<Warning>): seq<Warning> {
    if warnings == [] then []
    else RemapOne(document, planned, warnings[0]) + Remap(document, planned, warnings[1..])
  }

  function ForkRecord(planned: PlannedRecord, ordinal: nat): RawRecord {
    RawRecord(Renumber(planned.fields), ordinal, planned.handle)
  }

  function Fork(document: VaultDocument, planned: seq<PlannedRecord>, revision: nat): VaultDocument {
    VaultDocument(
      document.version,
      document.header,
      seq(|planned|, r requires 0 <= r < |planned| => ForkRecord(planned[r], r)),
      revision,
      Remap(document, planned, document.warnings))
  }

  // ---------------------------------------------------------------- selecting the warnings of one record

  /** The warnings of the header (`None`) or of one record, in their order. */
  function Select(warnings: seq<Warning>, key: Option<nat>): seq<Warning> {
    if warnings == [] then []
    else if warnings[0].recordOrdinal == key then [warnings[0]] + Select(warnings[1..], key)
    else Select(warnings[1..], key)
  }

  lemma {:induction false} SelectConcat(left: seq<Warning>, right: seq<Warning>, key: Option<nat>)
    ensures Select(left + right, key) == Select(left, key) + Select(right, key)
  {
    if left == [] {
      assert left + right == right;
    } else {
      assert (left + right)[0] == left[0] && (left + right)[1..] == left[1..] + right;
      SelectConcat(left[1..], right, key);
    }
  }

  lemma {:induction false} SelectAll(warnings: seq<Warning>, key: Option<nat>)
    requires forall i :: 0 <= i < |warnings| ==> warnings[i].recordOrdinal == key
    ensures Select(warnings, key) == warnings
  {
    if warnings != [] {
      SelectAll(warnings[1..], key);
    }
  }

  lemma {:induction false} SelectNone(warnings: seq<Warning>, key: Option<nat>)
    requires forall i :: 0 <= i < |warnings| ==> warnings[i].recordOrdinal != key
    ensures Select(warnings, key) == []
  {
    if warnings != [] {
      SelectNone(warnings[1..], key);
    }
  }

  lemma {:induction false} SelectMember(warnings: seq<Warning>, key: Option<nat>, w: Warning)
    requires w in Select(warnings, key)
    ensures w in warnings && w.recordOrdinal == key
  {
    if warnings[0].recordOrdinal == key {
      if w != warnings[0] {
        assert w in Select(warnings[1..], key);
        SelectMember(warnings[1..], key, w);
      }
    } else {
      SelectMember(warnings[1..], key, w);
    }
  }

  // ---------------------------------------------------------------- the warnings a field sequence produces

  lemma {:induction false} WarningsFromCoordinates(
    section: Section, recordOrdinal: Option<nat>, fields: seq<RawField>, i: nat, version: nat, w: Warning)
    requires i <= |fields|
    requires w in WarningsFrom(section, recordOrdinal, fields, i, version)
    ensures w.recordOrdinal == recordOrdinal
    ensures exists k :: i <= k < |fields| && w.fieldOrdinal == fields[k].ordinal && w.typeCode == fields[k].typeCode
    decreases |fields| - i
  {
    hide SpecOf, DecodeField;
    var head := FieldWarnings(section, recordOrdinal, fields[i], Seen(fields, i), version);
    if w in head {
      FieldWarningsCoordinates(section, recordOrdinal, fields[i], Seen(fields, i), version, w);
    } else {
      assert w in WarningsFrom(section, recordOrdinal, fields, i + 1, version);
      WarningsFromCoordinates(section, recordOrdinal, fields, i + 1, version, w);
    }
  }

  lemma FieldWarningsCoordinates(
    section: Section, recordOrdinal: Option<nat>, f: RawField, seen: bool, version: nat, w: Warning)
    requires w in FieldWarnings(section, recordOrdinal, f, seen, version)
    ensures w == WarningAt(w.code, recordOrdinal, f)
  {
    hide SpecOf, DecodeField;
  }

  /** The verdict on a field depends on its type, its bytes and whether its type was seen, not on where it stands. */
  lemma VerdictIgnoresPosition(
    section: Section, from: Option<nat>, to: Option<nat>, f: RawField, g: RawField, seen: bool, version: nat)
    requires f.typeCode == g.typeCode && f.payload == g.payload
    ensures Examine(section, from, f, seen, version).Ok? == Examine(section, to, g, seen, version).Ok?
    ensures Examine(section, from, f, seen, version).Ok? ==>
              Examine(section, from, f, seen, version).value.classification
                  == Examine(section, to, g, seen, version).value.classification
    ensures var a, b := FieldWarnings(section, from, f, seen, version), FieldWarnings(section, to, g, seen, version);
            && |a| == |b|
            && forall i :: 0 <= i < |a| ==> b[i] == WarningAt(a[i].code, to, g)
  {
    hide SpecOf, DecodeField;
  }

  // ---------------------------------------------------------------- plans that keep a record faithful

  /**
   What a plan for one record must respect: retained fields keep their content and their order,
   fresh fields are clean and alone in their type, and a type is retained either wholly or not at all.
   */
  ghost predicate FaithfulPlan(before: seq<RawField>, after: seq<PlannedField>, version: nat) {
    && (forall k :: 0 <= k < |after| && after[k].origin.Some? ==> RetainedAt(before, after[k]))
    && (forall k, l :: 0 <= k < l < |after| && after[k].origin.Some? && after[l].origin.Some? ==>
          after[k].origin.value < after[l].origin.value)
    && (forall k :: 0 <= k < |after| && after[k].origin.None? ==> FreshClean(after[k], version))
    && (forall k, l :: 0 <= k < |after| && 0 <= l < |after| && k != l && after[k].origin.None? ==>
          after[k].typeCode != after[l].typeCode)
    && (forall i, k ::
          0 <= i < |before| && 0 <= k < |after| && after[k].origin.Some? && before[i].typeCode == after[k].typeCode ==>
          OriginIndex(after, i, 0).Some?)
  }

  predicate RetainedAt(before: seq<RawField>, f: PlannedField) {
    f.origin.Some? && f.origin.value < |before| && f == Retain(before[f.origin.value], f.origin.value)
  }

  /** A fresh field draws no warning and is classified as the schema pass would classify it. */
  predicate FreshClean(f: PlannedField, version: nat) {
    CleanValue(f.typeCode, f.payload, version) && f.classification == Understood
  }

  predicate CleanValue(code: Byte, payload: Bytes, version: nat) {
    Examine(Record, Some(0), RawField(code, payload, 0, Understood), false, version)
        == Ok(Checked(Understood, [], TextLength(code, payload)))
  }

  function TextLength(code: Byte, payload: Bytes): nat {
    if SpecOf(Record, code).Some? && SpecOf(Record, code).value.kind.TextKind? then |payload| else 0
  }

  /** Move the warnings of one record along with its retained fields. */
  function RemapRecord(warnings: seq<Warning>, after: seq<PlannedField>, ordinal: nat): seq<Warning> {
    if warnings == [] then []
    else
      match OriginIndex(after, warnings[0].fieldOrdinal, 0)
      case None => RemapRecord(warnings[1..], after, ordinal)
      case Some(k) =>
        [Warning(warnings[0].code, Some(ordinal), k, warnings[0].typeCode)] + RemapRecord(warnings[1..], after, ordinal)
  }

  lemma {:induction false} RemapRecordConcat(
    left: seq<Warning>, right: seq<Warning>, after: seq<PlannedField>, ordinal: nat)
    ensures RemapRecord(left + right, after, ordinal)
              == RemapRecord(left, after, ordinal) + RemapRecord(right, after, ordinal)
  {
    if left == [] {
      assert left + right == right;
    } else {
      assert (left + right)[0] == left[0] && (left + right)[1..] == left[1..] + right;
      RemapRecordConcat(left[1..], right, after, ordinal);
    }
  }

  lemma {:induction false} RemapRecordDropped(warnings: seq<Warning>, after: seq<PlannedField>, ordinal: nat, i: nat)
    requires OriginIndex(after, i, 0).None?
    requires forall j :: 0 <= j < |warnings| ==> warnings[j].fieldOrdinal == i
    ensures RemapRecord(warnings, after, ordinal) == []
  {
    if warnings != [] {
      RemapRecordDropped(warnings[1..], after, ordinal, i);
    }
  }

  lemma {:induction false} RemapRecordMoved(
    warnings: seq<Warning>, moved: seq<Warning>, after: seq<PlannedField>, ordinal: nat, i: nat, k: nat)
    requires OriginIndex(after, i, 0) == Some(k)
    requires |moved| == |warnings|
    requires forall j :: 0 <= j < |warnings| ==>
               warnings[j].fieldOrdinal == i && moved[j] == Warning(warnings[j].code, Some(ordinal), k,
                                                                    warnings[j].typeCode)
    ensures RemapRecord(warnings, after, ordinal) == moved
  {
    if warnings != [] {
      RemapRecordMoved(warnings[1..], moved[1..], after, ordinal, i, k);
      assert moved == [moved[0]] + moved[1..];
    }
  }

  lemma OriginIndexUnique(before: seq<RawField>, after: seq<PlannedField>, version: nat, k: nat)
    requires FaithfulPlan(before, after, version) && k < |after| && after[k].origin.Some?
    ensures OriginIndex(after, after[k].origin.value, 0) == Some(k)
  {
    var at := OriginIndex(after, after[k].origin.value, 0);
    assert at.Some?;
    assert after[at.value].origin.value == after[k].origin.value;
  }

  /** A retained field has seen its type before exactly when it had in the old record; a fresh one never has. */
  lemma SeenAfterPlan(before: seq<RawField>, after: seq<PlannedField>, version: nat, k: nat)
    requires FaithfulPlan(before, after, version) && k < |after|
    ensures |Renumber(after)| == |after|
    ensures after[k].origin.Some? ==> Seen(Renumber(after), k) == Seen(before, after[k].origin.value)
    ensures after[k].origin.None? ==> !Seen(Renumber(after), k)
  {
    hide CleanValue;
    var fields := Renumber(after);
    if after[k].origin.Some? {
      var i := after[k].origin.value;
      if j :| 0 <= j < k && fields[j].typeCode == fields[k].typeCode {
        assert after[j].typeCode == after[k].typeCode;
        assert after[j].origin.Some?;
        assert before[after[j].origin.value].typeCode == before[i].typeCode;
      }
      if j :| 0 <= j < i && before[j].typeCode == before[i].typeCode {
        var l := OriginIndex(after, j, 0).value;
        assert l < k;
        assert fields[l].typeCode == fields[k].typeCode;
      }
    }
  }

  lemma FreshContributesNothing(after: seq<PlannedField>, version: nat, ordinal: nat, k: nat)
    requires k < |after| && after[k].origin.None? && FreshClean(after[k], version)
    requires !Seen(Renumber(after), k)
    ensures Examine(Record, Some(ordinal), Renumber(after)[k], false, version).Ok?
    ensures Examine(Record, Some(ordinal), Renumber(after)[k], false, version).value.classification
              == after[k].classification
    ensures FieldWarnings(Record, Some(ordinal), Renumber(after)[k], false, version) == []
  {
    hide Examine, Seen;
    var bare := RawField(after[k].typeCode, after[k].payload, 0, Understood);
    VerdictIgnoresPosition(Record, Some(0), Some(ordinal), bare, Renumber(after)[k], false, version);
  }

  /** The warnings of a retained field are the old ones at its new coordinates. */
  lemma RetainedFieldMoves(
    before: seq<RawField>, after: seq<PlannedField>, version: nat, from: nat, ordinal: nat, k: nat)
    requires FaithfulPlan(before, after, version) && OrdinalsMatch(before)
    requires k < |after| && after[k].origin.Some?
    ensures var i := after[k].origin.value;
            var fields := Renumber(after);
            && i < |before|
            && Seen(fields, k) == Seen(before, i)
            && Examine(Record, Some(from), before[i], Seen(before, i), version).Ok?
               == Examine(Record, Some(ordinal), fields[k], Seen(fields, k), version).Ok?
            && (Examine(Record, Some(from), before[i], Seen(before, i), version).Ok? ==>
                  Examine(Record, Some(from), before[i], Seen(before, i), version).value.classification
                  == Examine(Record, Some(ordinal), fields[k], Seen(fields, k), version).value.classification)
            && RemapRecord(FieldWarnings(Record, Some(from), before[i], Seen(before, i), version), after, ordinal)
               == FieldWarnings(Record, Some(ordinal), fields[k], Seen(fields, k), version)
  {
    hide Examine, FreshClean, Seen, FieldWarnings;
    var i := after[k].origin.value;
    var fields := Renumber(after);
    SeenAfterPlan(before, after, version, k);
    OriginIndexUnique(before, after, version, k);
    var seen := Seen(before, i);
    VerdictIgnoresPosition(Record, Some(from), Some(ordinal), before[i], fields[k], seen, version);
    var earlier, later := FieldWarnings(Record, Some(from), before[i], seen, version),
        FieldWarnings(Record, Some(ordinal), fields[k], seen, version);
    forall j | 0 <= j < |earlier|
      ensures earlier[j].fieldOrdinal == i
      ensures later[j] == Warning(earlier[j].code, Some(ordinal), k, earlier[j].typeCode)
    {
      FieldWarningsCoordinates(Record, Some(from), before[i], seen, version, earlier[j]);
    }
    RemapRecordMoved(earlier, later, after, ordinal, i, k);
  }

  lemma DroppedFieldVanishes(
    before: seq<RawField>, after: seq<PlannedField>, version: nat, from: nat, ordinal: nat, i: nat)
    requires OrdinalsMatch(before) && i < |before| && OriginIndex(after, i, 0).None?
    ensures RemapRecord(FieldWarnings(Record, Some(from), before[i], Seen(before, i), version), after, ordinal) == []
  {
    hide FieldWarnings, Seen;
    var warnings := FieldWarnings(Record, Some(from), before[i], Seen(before, i), version);
    forall j | 0 <= j < |warnings|
      ensures warnings[j].fieldOrdinal == i
    {
      FieldWarningsCoordinates(Record, Some(from), before[i], Seen(before, i), version, warnings[j]);
    }
    RemapRecordDropped(warnings, after, ordinal, i);
  }

  /** Positions `i` of the old record and `q` of the plan are aligned when no retained field crosses them. */
  ghost predicate Aligned(after: seq<PlannedField>, i: nat, q: nat)
    requires q <= |after|
  {
    && (forall k :: q <= k < |after| && after[k].origin.Some? ==> after[k].origin.value >= i)
    && (forall k :: 0 <= k < q && after[k].origin.Some? ==> after[k].origin.value < i)
  }

  /** The heart of the remapping: walking the old record and the plan side by side. */
  lemma {:induction false} AlignedWarnings(
    before: seq<RawField>, after: seq<PlannedField>, version: nat, from: nat, ordinal: nat, i: nat, q: nat)
    requires FaithfulPlan(before, after, version) && OrdinalsMatch(before)
    requires i <= |before| && q <= |after| && Aligned(after, i, q)
    ensures RemapRecord(WarningsFrom(Record, Some(from), before, i, version), after, ordinal)
         == WarningsFrom(Record, Some(ordinal), Renumber(after), q, version)
    decreases |before| - i + |after| - q
  {
    hide FieldWarnings, FaithfulPlan, Seen, OrdinalsMatch;
    var fields := Renumber(after);
    if q < |after| && after[q].origin.None? {
      SkipFresh(before, after, version, ordinal, q);
      AlignedWarnings(before, after, version, from, ordinal, i, q + 1);
    } else if i < |before| {
      var head := FieldWarnings(Record, Some(from), before[i], Seen(before, i), version);
      RemapRecordConcat(head, WarningsFrom(Record, Some(from), before, i + 1, version), after, ordinal);
      match OriginIndex(after, i, 0)
      case None =>
        DroppedFieldVanishes(before, after, version, from, ordinal, i);
        AlignedWarnings(before, after, version, from, ordinal, i + 1, q);
      case Some(k) =>
        AlignedMeet(before, after, version, i, q, k);
        RetainedFieldMoves(before, after, version, from, ordinal, k);
        AlignedWarnings(before, after, version, from, ordinal, i + 1, q + 1);
    } else {
      assert q == |after| by {
        RetainedInRange(before, after, version, i, q);
      }
    }
  }

  lemma SkipFresh(before: seq<RawField>, after: seq<PlannedField>, version: nat, ordinal: nat, q: nat)
    requires FaithfulPlan(before, after, version)
    requires q < |after| && after[q].origin.None?
    ensures WarningsFrom(Record, Some(ordinal), Renumber(after), q, version)
         == WarningsFrom(Record, Some(ordinal), Renumber(after), q + 1, version)
  {
    hide FieldWarnings, Seen, FreshClean;
    SeenAfterPlan(before, after, version, q);
    FreshContributesNothing(after, version, ordinal, q);
  }

  lemma AlignedMeet(before: seq<RawField>, after: seq<PlannedField>, version: nat, i: nat, q: nat, k: nat)
    requires FaithfulPlan(before, after, version)
    requires q <= |after| && Aligned(after, i, q) && (q < |after| ==> after[q].origin.Some?)
    requires OriginIndex(after, i, 0) == Some(k)
    ensures k == q && Aligned(after, i + 1, q + 1)
  {
    hide FreshClean, RetainedAt;
    assert k >= q;
    assert k <= q;
  }

  lemma RetainedInRange(before: seq<RawField>, after: seq<PlannedField>, version: nat, i: nat, q: nat)
    requires FaithfulPlan(before, after, version)
    requires q <= |after| && Aligned(after, i, q) && (q < |after| ==> after[q].origin.Some?)
    requires i >= |before|
    ensures q == |after|
  {
    hide FreshClean;
    assert q < |after| ==> RetainedAt(before, after[q]);
  }

  /** A faithful plan keeps every field examined, its stored classification right, and its warnings in step. */
  lemma PlannedRecordExamined(before: seq<RawField>, after: seq<PlannedField>, version: nat, from: nat, ordinal: nat)
    requires FaithfulPlan(before, after, version) && OrdinalsMatch(before)
    requires ExaminedFrom(Record, Some(from), before, 0, version)
    requires ClassesOf(before) == ClassesFrom(Record, Some(from), before, 0, version)
    ensures var fields := Renumber(after);
            && OrdinalsMatch(fields)
            && ExaminedFrom(Record, Some(ordinal), fields, 0, version)
            && ClassesOf(fields) == ClassesFrom(Record, Some(ordinal), fields, 0, version)
            && RemapRecord(WarningsFrom(Record, Some(from), before, 0, version), after, ordinal)
               == WarningsFrom(Record, Some(ordinal), fields, 0, version)
  {
    hide Examine, Seen, WarningsFrom, FreshClean, RemapRecord;
    var fields := Renumber(after);
    forall k | 0 <= k < |fields|
      ensures Examine(Record, Some(ordinal), fields[k], Seen(fields, k), version).Ok?
      ensures Examine(Record, Some(ordinal), fields[k], Seen(fields, k), version).value.classification
                == fields[k].classification
    {
      PlannedFieldExamined(before, after, version, from, ordinal, k);
    }
    AlignedWarnings(before, after, version, from, ordinal, 0, 0);
  }

  lemma PlannedFieldExamined(
    before: seq<RawField>, after: seq<PlannedField>, version: nat, from: nat, ordinal: nat, k: nat)
    requires FaithfulPlan(before, after, version) && OrdinalsMatch(before)
    requires ExaminedFrom(Record, Some(from), before, 0, version)
    requires ClassesOf(before) == ClassesFrom(Record, Some(from), before, 0, version)
    requires k < |after|
    ensures var fields := Renumber(after);
            && Examine(Record, Some(ordinal), fields[k], Seen(fields, k), version).Ok?
            && Examine(Record, Some(ordinal), fields[k], Seen(fields, k), version).value.classification
                  == fields[k].classification
  {
    hide Examine, Seen, FreshClean, RemapRecord, FieldWarnings;
    if after[k].origin.Some? {
      var i := after[k].origin.value;
      RetainedFieldMoves(before, after, version, from, ordinal, k);
      assert before[i].classification == ClassesOf(before)[i];
    } else {
      SeenAfterPlan(before, after, version, k);
      FreshContributesNothing(after, version, ordinal, k);
    }
  }

  // ---------------------------------------------------------------- whole revisions

  /** The per-record conditions that no field-by-field argument covers. */
  predicate RecordShape(fields: seq<RawField>) {
    EndsWithEnd(fields) && MandatoryPresent(fields) && GroupsComplete(fields)
  }

  /** A plan for a document: no record is used twice, and every planned record is faithful and complete. */
  ghost predicate PlanFits(document: VaultDocument, planned: seq<PlannedRecord>) {
    && (forall r, l :: 0 <= r < l < |planned| && planned[r].source.Some? ==> planned[r].source != planned[l].source)
    && forall r :: 0 <= r < |planned| ==> PlannedRecordFits(document, planned[r])
  }

  ghost predicate PlannedRecordFits(document: VaultDocument, p: PlannedRecord) {
    && RecordShape(Renumber(p.fields))
    && match p.source {
         case Some(s) => s < |document.records| && FaithfulPlan(document.records[s].fields, p.fields, document.version)
         case None => FaithfulPlan([], p.fields, document.version)
       }
  }

  lemma NewRecordStructured(p: PlannedRecord, version: nat, ordinal: nat)
    requires FaithfulPlan([], p.fields, version) && RecordShape(Renumber(p.fields))
    ensures RecordStructured(ForkRecord(p, ordinal), ordinal, version)
    ensures WarningsFrom(Record, Some(ordinal), Renumber(p.fields), 0, version) == []
    ensures forall k :: 0 <= k < |p.fields| ==> p.fields[k].origin.None?
  {
    hide Examine, Seen, WarningsFrom, FreshClean, RemapRecord, MandatoryPresent, GroupsComplete;
    assert ClassesOf([]) == ClassesFrom(Record, Some(0), [], 0, version);
    PlannedRecordExamined([], p.fields, version, 0, ordinal);
    NoWarnings(version);
    forall k | 0 <= k < |p.fields|
      ensures p.fields[k].origin.None?
    {
      assert p.fields[k].origin.Some? ==> RetainedAt([], p.fields[k]);
    }
  }

  lemma NoWarnings(version: nat)
    ensures WarningsFrom(Record, Some(0), [], 0, version) == []
    ensures forall after, ordinal :: RemapRecord([], after, ordinal) == []
  {
  }

  lemma ForkedRecordStructured(document: VaultDocument, planned: seq<PlannedRecord>, r: nat)
    requires Structured(document) && PlanFits(document, planned) && r < |planned|
    ensures RecordStructured(ForkRecord(planned[r], r), r, document.version)
    ensures match planned[r].source
            case Some(s) =>
              && s < |document.records|
              && RemapRecord(WarningsFrom(Record, Some(s), document.records[s].fields, 0, document.version),
                             planned[r].fields, r)
                 == WarningsFrom(Record, Some(r), Renumber(planned[r].fields), 0, document.version)
            case None => WarningsFrom(Record, Some(r), Renumber(planned[r].fields), 0, document.version) == []
  {
    hide FaithfulPlan, RecordShape, ExaminedFrom, WarningsFrom, ClassesFrom, HeaderStructure, CheckVersion;
    match planned[r].source
    case Some(s) =>
      RecordShapeParts(document, planned, r, s);
    case None =>
      NewRecordStructured(planned[r], document.version, r);
  }

  lemma RecordShapeParts(document: VaultDocument, planned: seq<PlannedRecord>, r: nat, s: nat)
    requires Structured(document) && PlanFits(document, planned) && r < |planned| && planned[r].source == Some(s)
    ensures s < |document.records| && RecordStructured(ForkRecord(planned[r], r), r, document.version)
    ensures RemapRecord(WarningsFrom(Record, Some(s), document.records[s].fields, 0, document.version),
              planned[r].fields, r)
            == WarningsFrom(Record, Some(r), Renumber(planned[r].fields), 0, document.version)
  {
    hide FaithfulPlan, ExaminedFrom, WarningsFrom, ClassesFrom, HeaderStructure, CheckVersion, MandatoryPresent,
         GroupsComplete;
    assert PlannedRecordFits(document, planned[r]);
    assert RecordStructured(document.records[s], s, document.version);
    PlannedRecordExamined(document.records[s].fields, planned[r].fields, document.version, s, r);
  }

  /** A fitting plan turns a structured document into a structured one. */
  lemma ForkStructured(document: VaultDocument, planned: seq<PlannedRecord>, revision: nat)
    requires Structured(document) && PlanFits(document, planned)
    ensures Structured(Fork(document, planned, revision))
  {
    hide RecordStructured, PlanFits, HeaderStructure, CheckVersion, ClassesFrom, ForkRecord, Remap;
    forall r | 0 <= r < |planned|
      ensures RecordStructured(ForkRecord(planned[r], r), r, document.version)
    {
      ForkedRecordStructured(document, planned, r);
    }
  }

  /**
   Each record's warnings, taken on their own, are the recomputed ones; nothing is said about how
   records interleave.
   */
  ghost predicate WarningsFaithful(document: VaultDocument) {
    && Select(document.warnings, None) == WarningsFrom(Header, None, document.header, 0, document.version)
    && (forall r :: 0 <= r < |document.records| ==>
          Select(document.warnings, Some(r)) == WarningsFrom(Record, Some(r), document.records[r].fields, 0,
                                                             document.version))
    && (forall w :: w in document.warnings && w.recordOrdinal.Some? ==> w.recordOrdinal.value < |document.records|)
  }

  lemma {:induction false} SelectContains(warnings: seq<Warning>, w: Warning)
    requires w in warnings
    ensures w in Select(warnings, w.recordOrdinal)
  {
    if w != warnings[0] {
      assert w in warnings[1..];
      SelectContains(warnings[1..], w);
    }
  }

  lemma FaithfulResolves(document: VaultDocument, w: Warning)
    requires Structured(document) && WarningsFaithful(document)
    requires w in document.warnings && w.recordOrdinal.Some?
    ensures Resolves(document, w)
  {
    hide WarningsFrom, HeaderStructure, CheckVersion, ClassesFrom, RecordStructure;
    SelectContains(document.warnings, w);
    var r := w.recordOrdinal.value;
    assert RecordStructured(document.records[r], r, document.version);
    WarningsFromCoordinates(Record, Some(r), document.records[r].fields, 0, document.version, w);
  }

  lemma SourceIndexUnique(planned: seq<PlannedRecord>, r: nat, from: nat)
    requires forall k, l :: 0 <= k < l < |planned| && planned[k].source.Some? ==> planned[k].source != planned[l].source
    requires from <= r < |planned| && planned[r].source.Some?
    ensures SourceIndex(planned, planned[r].source.value, from) == Some(r)
  {
    var at := SourceIndex(planned, planned[r].source.value, from);
    assert at.Some?;
    assert planned[at.value].source == planned[r].source;
  }

  ghost predicate DistinctSources(planned: seq<PlannedRecord>) {
    forall k, l :: 0 <= k < l < |planned| && planned[k].source.Some? ==> planned[k].source != planned[l].source
  }

  /** Selecting the remapped warnings of one new record is remapping the selected warnings of its source. */
  lemma {:induction false} SelectRemap(
    document: VaultDocument, planned: seq<PlannedRecord>, warnings: seq<Warning>, r: nat)
    requires DistinctSources(planned) && r < |planned|
    requires forall w :: w in warnings && w.recordOrdinal.Some? ==> Resolves(document, w)
    ensures Select(Remap(document, planned, warnings), Some(r))
            == if planned[r].source.Some? then RemapRecord(Select(warnings, planned[r].source), planned[r].fields, r)
                else []
  {
    hide Resolves;
    if warnings != [] {
      var w := warnings[0];
      assert w in warnings;
      SelectRemapOne(document, planned, w, r);
      SelectConcat(RemapOne(document, planned, w), Remap(document, planned, warnings[1..]), Some(r));
      SelectRemap(document, planned, warnings[1..], r);
      if planned[r].source.Some? {
        SelectConcat([w], warnings[1..], planned[r].source);
        assert [w] + warnings[1..] == warnings;
        RemapRecordConcat(Select([w], planned[r].source), Select(warnings[1..], planned[r].source), planned[r].fields,
                          r);
      }
    }
  }

  lemma SelectRemapOne(document: VaultDocument, planned: seq<PlannedRecord>, w: Warning, r: nat)
    requires DistinctSources(planned) && r < |planned|
    requires w.recordOrdinal.Some? ==> Resolves(document, w)
    ensures Select(RemapOne(document, planned, w), Some(r))
            == if planned[r].source.Some? then RemapRecord(Select([w], planned[r].source), planned[r].fields, r) else []
  {
    hide Resolves;
    var remapped := RemapOne(document, planned, w);
    if planned[r].source.Some? {
      SourceIndexUnique(planned, r, 0);
    }
    if planned[r].source.Some? && planned[r].source == w.recordOrdinal {
      assert Select([w], planned[r].source) == [w] by { SelectAll([w], planned[r].source); }
      SelectAll(remapped, Some(r));
      assert [w][1..] == [];
    } else {
      if planned[r].source.Some? {
        SelectNone([w], planned[r].source);
      }
      SelectNone(remapped, Some(r));
    }
  }

  lemma {:induction false} SelectRemapHeader(
    document: VaultDocument, planned: seq<PlannedRecord>, warnings: seq<Warning>)
    ensures Select(Remap(document, planned, warnings), None) == Select(warnings, None)
    ensures forall w :: w in Remap(document, planned, warnings) && w.recordOrdinal.Some? ==>
              w.recordOrdinal.value < |planned|
  {
    hide Resolves;
    if warnings != [] {
      var one := RemapOne(document, planned, warnings[0]);
      SelectConcat(one, Remap(document, planned, warnings[1..]), None);
      SelectRemapHeader(document, planned, warnings[1..]);
      if warnings[0].recordOrdinal.None? {
        SelectAll(one, None);
      } else {
        SelectNone(one, None);
      }
    }
  }

  /** Incremental remapping agrees, record by record, with validation from scratch. */
  lemma ForkWarningsFaithful(document: VaultDocument, planned: seq<PlannedRecord>, revision: nat)
    requires Structured(document) && WarningsFaithful(document) && PlanFits(document, planned)
    ensures WarningsFaithful(Fork(document, planned, revision))
  {
    hide RecordStructured, PlannedRecordFits, HeaderStructure, CheckVersion, ClassesFrom, Remap, WarningsFrom, Select,
         RemapRecord, Resolves;
    var fork := Fork(document, planned, revision);
    SelectRemapHeader(document, planned, document.warnings);
    forall r | 0 <= r < |planned|
      ensures Select(fork.warnings, Some(r)) == WarningsFrom(Record, Some(r), fork.records[r].fields, 0, fork.version)
    {
      ForkedRecordStructured(document, planned, r);
      forall w | w in document.warnings && w.recordOrdinal.Some?
        ensures Resolves(document, w)
      {
        FaithfulResolves(document, w);
      }
      SelectRemap(document, planned, document.warnings, r);
    }
  }

  // ---------------------------------------------------------------- when the interleaving is right too

  predicate KeyLe(a: Option<nat>, b: Option<nat>) {
    a.None? || (b.Some? && a.value <= b.value)
  }

  /** Header warnings first, then records in order: what a from-scratch pass always produces. */
  predicate Ordered(warnings: seq<Warning>) {
    forall i, j :: 0 <= i < j < |warnings| ==> KeyLe(warnings[i].recordOrdinal, warnings[j].recordOrdinal)
  }

  lemma {:induction false} SplitFirst(warnings: seq<Warning>, key: Option<nat>)
    requires Ordered(warnings)
    requires forall i :: 0 <= i < |warnings| ==> KeyLe(key, warnings[i].recordOrdinal)
    ensures var m := |Select(warnings, key)|;
            && m <= |warnings| && warnings[..m] == Select(warnings, key)
            && forall i :: m <= i < |warnings| ==> warnings[i].recordOrdinal != key
  {
    if warnings != [] {
      if warnings[0].recordOrdinal == key {
        SplitFirst(warnings[1..], key);
        var m := |Select(warnings[1..], key)|;
        assert warnings[..m + 1] == [warnings[0]] + warnings[1..][..m];
        forall i | m + 1 <= i < |warnings|
          ensures warnings[i].recordOrdinal != key
        {
          assert warnings[i] == warnings[1..][i - 1];
        }
      } else {
        forall i | 0 <= i < |warnings|
          ensures warnings[i].recordOrdinal != key
        {
          assert i > 0 ==> KeyLe(warnings[0].recordOrdinal, warnings[i].recordOrdinal);
        }
        SelectNone(warnings, key);
      }
    }
  }

  lemma {:induction false} OrderedRecords(document: VaultDocument, warnings: seq<Warning>, r: nat)
    requires r <= |document.records| && Ordered(warnings)
    requires forall i :: 0 <= i < |warnings| ==>
               warnings[i].recordOrdinal.Some? && r <= warnings[i].recordOrdinal.value < |document.records|
    requires forall k :: r <= k < |document.records| ==>
               Select(warnings, Some(k)) == WarningsFrom(Record, Some(k), document.records[k].fields, 0,
                                                         document.version)
    ensures warnings == RecordWarningsFrom(FieldLists(document.records), r, document.version)
    decreases |document.records| - r
  {
    hide WarningsFrom;
    if r < |document.records| {
      SplitFirst(warnings, Some(r));
      var m := |Select(warnings, Some(r))|;
      var head, tail := warnings[..m], warnings[m..];
      assert warnings == head + tail;
      forall k | r < k < |document.records|
        ensures Select(tail, Some(k)) == Select(warnings, Some(k))
      {
        SelectConcat(head, tail, Some(k));
        SelectHead(warnings, Some(r), Some(k));
      }
      OrderedRecords(document, tail, r + 1);
    }
  }

  lemma SelectHead(warnings: seq<Warning>, key: Option<nat>, other: Option<nat>)
    requires key != other
    ensures Select(Select(warnings, key), other) == []
  {
    forall i | 0 <= i < |Select(warnings, key)|
      ensures Select(warnings, key)[i].recordOrdinal != other
    {
      SelectMember(warnings, key, Select(warnings, key)[i]);
    }
    SelectNone(Select(warnings, key), other);
  }

  lemma OrderedIsRecomputed(document: VaultDocument)
    requires WarningsFaithful(document) && Ordered(document.warnings)
    ensures document.warnings == Recomputed(document)
  {
    hide WarningsFrom, Select;
    var warnings := document.warnings;
    SplitFirst(warnings, None);
    var m := |Select(warnings, None)|;
    var head, tail := warnings[..m], warnings[m..];
    assert warnings == head + tail;
    forall k | 0 <= k < |document.records|
      ensures Select(tail, Some(k)) == Select(warnings, Some(k))
    {
      SelectConcat(head, tail, Some(k));
      SelectHead(warnings, None, Some(k));
    }
    forall i | 0 <= i < |tail|
      ensures tail[i].recordOrdinal.Some? && tail[i].recordOrdinal.value < |document.records|
    {
      assert tail[i] == warnings[m + i] && tail[i] in warnings;
    }
    OrderedRecords(document, tail, 0);
  }

  lemma {:induction false} RecomputedRecords(document: VaultDocument, r: nat)
    requires r <= |document.records|
    ensures var warnings := RecordWarningsFrom(FieldLists(document.records), r, document.version);
            && Ordered(warnings)
            && (forall w :: w in warnings ==> w.recordOrdinal.Some? && r <= w.recordOrdinal.value < |document.records|)
            && (forall k :: r <= k < |document.records| ==>
                  Select(warnings, Some(k)) == WarningsFrom(Record, Some(k), document.records[k].fields, 0,
                                                            document.version))
    decreases |document.records| - r
  {
    hide WarningsFrom;
    if r < |document.records| {
      hide Ordered, Select;
      var head := WarningsFrom(Record, Some(r), document.records[r].fields, 0, document.version);
      var tail := RecordWarningsFrom(FieldLists(document.records), r + 1, document.version);
      RecomputedRecords(document, r + 1);
      SameKey(Record, Some(r), document.records[r].fields, document.version);
      SelectAll(head, Some(r));
      SelectNone(tail, Some(r));
      SelectConcat(head, tail, Some(r));
      forall k | r < k < |document.records|
        ensures Select(head + tail, Some(k)) == Select(tail, Some(k))
      {
        SelectNone(head, Some(k));
        SelectConcat(head, tail, Some(k));
      }
      OrderedConcat(head, tail);
    }
  }

  lemma SameKey(section: Section, recordOrdinal: Option<nat>, fields: seq<RawField>, version: nat)
    ensures forall i :: 0 <= i < |WarningsFrom(section, recordOrdinal, fields, 0, version)| ==>
              WarningsFrom(section, recordOrdinal, fields, 0, version)[i].recordOrdinal == recordOrdinal
  {
    hide WarningsFrom;
    var warnings := WarningsFrom(section, recordOrdinal, fields, 0, version);
    forall i | 0 <= i < |warnings|
      ensures warnings[i].recordOrdinal == recordOrdinal
    {
      WarningsFromCoordinates(section, recordOrdinal, fields, 0, version, warnings[i]);
    }
  }

  lemma OrderedConcat(head: seq<Warning>, tail: seq<Warning>)
    requires Ordered(head) && Ordered(tail)
    requires forall i, j :: 0 <= i < |head| && 0 <= j < |tail| ==> KeyLe(head[i].recordOrdinal, tail[j].recordOrdinal)
    ensures Ordered(head + tail)
  {
  }

  lemma RecomputedIsOrdered(document: VaultDocument)
    requires document.warnings == Recomputed(document)
    ensures WarningsFaithful(document) && Ordered(document.warnings)
  {
    hide WarningsFrom, RecordWarningsFrom, Select;
    var head := WarningsFrom(Header, None, document.header, 0, document.version);
    var tail := RecordWarningsFrom(FieldLists(document.records), 0, document.version);
    RecomputedRecords(document, 0);
    SameKey(Header, None, document.header, document.version);
    SelectAll(head, None);
    SelectNone(tail, None);
    SelectConcat(head, tail, None);
    forall k | 0 <= k < |document.records|
      ensures Select(head + tail, Some(k)) == Select(tail, Some(k))
    {
      SelectNone(head, Some(k));
      SelectConcat(head, tail, Some(k));
    }
    OrderedConcat(head, tail);
  }

  /** A structured document with faithful warnings is saved exactly when its warnings are also in order. */
  lemma ConsistentExactlyWhenOrdered(document: VaultDocument)
    ensures Consistent(document) <==> Structured(document) && WarningsFaithful(document) && Ordered(document.warnings)
  {
    hide Structured, WarningsFaithful, Ordered, Recomputed;
    if Consistent(document) {
      RecomputedIsOrdered(document);
    }
    if WarningsFaithful(document) && Ordered(document.warnings) {
      OrderedIsRecomputed(document);
    }
  }
}
