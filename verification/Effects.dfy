/**
 What each session command does to the records: the value it sets is the value read back, the
 marker it sets decides later guards, and every record it does not name keeps its fields.
 */
module Effects {
  import opened Basics
  import opened Schema
  import opened Documents
  import opened Validation
  import opened Revisions
  import opened Edits
  import opened Commands
  import opened Histories
  import opened Guards

  lemma {:induction false} FirstIsOnly(fields: seq<RawField>, code: Byte, payload: Bytes)
    requires Has(fields, code)
    requires forall k :: 0 <= k < |fields| && fields[k].typeCode == code ==> fields[k].payload == payload
    ensures FirstOf(fields, code).Some? && FirstOf(fields, code).value.payload == payload
  {
    var first := FirstOf(fields, code).value;
    assert first in fields;
  }

  /** The patched record reads back the values of the patch and nothing of what it removed. */
  lemma PatchReadsBack(
    fields: seq<RawField>, replacements: seq<Replacement>, ordinal: nat, version: nat, replacement: Replacement)
    requires EndsWithEnd(fields) && ExaminedFrom(Record, Some(ordinal), fields, 0, version)
    requires GoodReplacements(fields, replacements, version) && replacement in replacements
    ensures var found := FirstOf(Renumber(EditedFields(fields, replacements)), replacement.code);
            if replacement.payload.Some? then found.Some? && found.value.payload == replacement.payload.value
            else found.None?
  {
    hide FirstOf, EditedFields, ExaminedFrom, GoodReplacements, InReplacements;
    PatchMeaning(fields, replacements, ordinal, version);
    var after := EditedFields(fields, replacements);
    var numbered := Renumber(after);
    forall k | 0 <= k < |numbered| && numbered[k].typeCode == replacement.code
      ensures replacement.payload.Some? && numbered[k].payload == replacement.payload.value
    {
      assert after[k] in after && after[k].typeCode == replacement.code;
    }
    if replacement.payload.Some? {
      var k :| 0 <= k < |after| && after[k] == Fresh(replacement.code, replacement.payload.value);
      assert numbered[k].typeCode == replacement.code;
      FirstIsOnly(numbered, replacement.code, replacement.payload.value);
    }
  }

  /** Protecting a record protects it, and unprotecting it ends that. */
  lemma ProtectionTakesEffect(document: VaultDocument, r: nat, on: bool)
    requires Structured(document) && r < |document.records| && PlanProtection(document, r, on).Planned?
    ensures IsProtected(Renumber(PlanProtection(document, r, on).records[r].fields)) == on
    ensures var marker := FirstOf(Renumber(PlanProtection(document, r, on).records[r].fields), PROTECTED);
            if on then marker.Some? && marker.value.payload == [1] else marker.None?
  {
    hide FirstOf, EditedFields, ExaminedFrom, GoodReplacements, RecordSpec, CountType, HeaderStructure, CheckVersion,
         ClassesFrom;
    var fields := document.records[r].fields;
    assert RecordStructured(document.records[r], r, document.version);
    ShapeOf(document.records[r], r, document.version);
    MarkerIsGood(fields, on, document.version);
    PatchReadsBack(fields, [Replacement(PROTECTED, if on then Some([1]) else None)], r, document.version,
                   Replacement(PROTECTED, if on then Some([1]) else None));
  }

  /** A new record reads back every text it was given; empty optional texts have no field. */
  lemma NewRecordReadsBack(record: NewRecord, code: Byte)
    requires code in {UUID, GROUP, TITLE, USERNAME, PASSWORD, URL}
    ensures var value: Bytes := if code == UUID then record.uuid else if code == GROUP then record.group
              else if code == TITLE then record.title else if code == USERNAME then record.username
              else if code == PASSWORD then record.password else record.url;
            var found := FirstOf(Renumber(NewRecordFields(record)), code);
            if value == [] && code != TITLE && code != PASSWORD then found.None?
            else found.Some? && found.value.payload == value
  {
    hide FirstOf;
    var value: Bytes := if code == UUID then record.uuid else if code == GROUP then record.group
      else if code == TITLE then record.title else if code == USERNAME then record.username
      else if code == PASSWORD then record.password else record.url;
    var fields := NewRecordFields(record);
    var numbered := Renumber(fields);
    NewRecordContent(record, code, value);
    forall k | 0 <= k < |numbered| && numbered[k].typeCode == code
      ensures numbered[k].payload == value
    {
      assert fields[k] in fields;
    }
    if !(value == [] && code != TITLE && code != PASSWORD) {
      var k :| 0 <= k < |fields| && fields[k] == Fresh(code, value);
      assert numbered[k].typeCode == code;
      FirstIsOnly(numbered, code, value);
    }
  }

  lemma NewRecordContent(record: NewRecord, code: Byte, value: Bytes)
    requires code in {UUID, GROUP, TITLE, USERNAME, PASSWORD, URL}
    requires value == (if code == UUID then record.uuid else if code == GROUP then record.group
              else if code == TITLE then record.title else if code == USERNAME then record.username
              else if code == PASSWORD then record.password else record.url)
    ensures forall f :: f in NewRecordFields(record) && f.typeCode == code ==> f == Fresh(code, value)
    ensures if value == [] && code != TITLE && code != PASSWORD then forall f :: f in NewRecordFields(record) ==>
              f.typeCode != code
            else Fresh(code, value) in NewRecordFields(record)
  {
  }

  /**
   The frame of every command on a record: each record it does not name keeps its handle, its fields
   and its place among the others; a deleted record is gone, a moved one is unchanged where it was put.
   */
  lemma OtherRecordsKept(document: VaultDocument, r: nat, action: Action, revision: nat, s: nat)
    requires Numbered(document) && r < |document.records| && s < |document.records|
    requires PlanAction(document, r, action).Planned? && (s != r || action.Move?)
    ensures var fork := Fork(document, PlanAction(document, r, action).records, revision);
            && |fork.records| == |document.records| - (if action.Delete? then 1 else 0)
            && LandsAt(action, r, s) < |fork.records|
            && StandsAt(fork, document.records[s].handle, document.records[s].fields, LandsAt(action, r, s))
  {
    hide PlanAction, Remap;
    OthersPlanned(document, r, action, s);
    assert Renumber(RetainAll(document.records[s].fields)) == document.records[s].fields;
  }
}
