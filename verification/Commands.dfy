/**
 The six session commands as plans over the current document: patch, add, move, delete, protect
 and unprotect, with their guards. What a patch does to a record is proved here: the values it
 sets and removes, and the terminator, mandatory fields and groups it leaves in order.
 */
module Commands {
  import opened Basics
  import opened Schema
  import opened Documents
  import opened Validation
  import opened Revisions
  import opened Edits

  datatype NewRecord = NewRecord(uuid: Block, title: Bytes, password: Bytes, username: Bytes, group: Bytes, url: Bytes)

  datatype Action = Patch(edits: seq<Edit>) | Move(position: int) | Delete | Protect | Unprotect

  datatype Command = Add(record: NewRecord) | On(handle: nat, action: Action)

  datatype Refusal =
    | Locked | StaleRevision | SaveInProgress | UnsavedChanges | UnknownHandle | ProtectedRecord | EmptyPatch
    | RefusedEdit
    | OrdinalOutOfRange | SameOrdinal | AlreadyProtected | NotProtected | AmbiguousProtection
    | UnsupportedVersionLevel | InvalidRecord

  datatype Plan = Planned(records: seq<PlannedRecord>) | Refused(reason: Refusal)

  function FindRecord(records: seq<RawRecord>, handle: nat, from: nat): (found: Option<nat>)
    requires from <= |records|
    ensures found.Some? ==> from <= found.value < |records| && records[found.value].handle == handle
    ensures found.None? ==> forall r :: from <= r < |records| ==> records[r].handle != handle
    decreases |records| - from
  {
    if from == |records| then None
    else if records[from].handle == handle then Some(from)
    else FindRecord(records, handle, from + 1)
  }

  /** The first protected marker decides; a malformed one does not protect. */
  predicate IsProtected(fields: seq<RawField>) {
    var marker := FirstOf(fields, PROTECTED);
    marker.Some? && |marker.value.payload| == 1 && marker.value.payload[0] != 0
  }

  /** Keep record `r` of the source with a new field list. */
  function Rewritten(record: RawRecord, r: nat, fields: seq<PlannedField>): PlannedRecord {
    PlannedRecord(Some(r), fields, record.handle)
  }

  function Kept(records: seq<RawRecord>, r: nat): PlannedRecord
    requires r < |records|
  {
    Rewritten(records[r], r, RetainAll(records[r].fields))
  }

  function KeptAll(records: seq<RawRecord>): (kept: seq<PlannedRecord>)
    ensures |kept| == |records|
  {
    seq(|records|, r requires 0 <= r < |records| => Kept(records, r))
  }

  function FreshText(code: Byte, value: Bytes): seq<PlannedField> {
    if value == [] then [] else [Fresh(code, value)]
  }

  /** Identity, the texts that are present, and the terminator, in the order of a new record. */
  function NewRecordFields(record: NewRecord): seq<PlannedField> {
    [Fresh(UUID, record.uuid)]
    + FreshText(GROUP, record.group)
    + [Fresh(TITLE, record.title)]
    + FreshText(USERNAME, record.username)
    + [Fresh(PASSWORD, record.password)]
    + FreshText(URL, record.url)
    + [Fresh(END, [])]
  }

  predicate NewRecordAccepted(record: NewRecord) {
    && (record.group != [] ==> EncodeText(RecordSpec(GROUP).value, record.group).Some?)
    && EncodeText(RecordSpec(TITLE).value, record.title).Some?
    && (record.username != [] ==> EncodeText(RecordSpec(USERNAME).value, record.username).Some?)
    && EncodeText(RecordSpec(PASSWORD).value, record.password).Some?
    && (record.url != [] ==> EncodeText(RecordSpec(URL).value, record.url).Some?)
  }

  function PlanPatch(document: VaultDocument, r: nat, edits: seq<Edit>): Plan
    requires r < |document.records|
  {
    var record := document.records[r];
    if IsProtected(record.fields) then Refused(ProtectedRecord)
    else if edits == [] then Refused(EmptyPatch)
    else
      match EncodeEdits(record.fields, edits, [], document.version)
      case None => Refused(RefusedEdit)
      case Some(replacements) =>
        Planned(KeptAll(document.records)[r := Rewritten(record, r, EditedFields(record.fields, replacements))])
  }

  /** Setting the marker replaces its one occurrence or inserts it before the terminator; clearing it removes it. */
  function PlanProtection(document: VaultDocument, r: nat, on: bool): Plan
    requires r < |document.records|
  {
    var record := document.records[r];
    if CountType(record.fields, PROTECTED) > 1 then Refused(AmbiguousProtection)
    else if on && RecordSpec(PROTECTED).value.since > document.version then Refused(UnsupportedVersionLevel)
    else
      var marker := Replacement(PROTECTED, if on then Some([1]) else None);
      Planned(KeptAll(document.records)[r := Rewritten(record, r, EditedFields(record.fields, [marker]))])
  }

  function Moved<T>(items: seq<T>, from: nat, to: nat): (r: seq<T>)
    requires from < |items| && to < |items|
    ensures |r| == |items|
  {
    var rest := items[..from] + items[from + 1..];
    rest[..to] + [items[from]] + rest[to..]
  }

  function PlanAction(document: VaultDocument, r: nat, action: Action): Plan
    requires r < |document.records|
  {
    var guarded := IsProtected(document.records[r].fields);
    var kept := KeptAll(document.records);
    match action
    case Patch(edits) => if guarded then Refused(ProtectedRecord) else PlanPatch(document, r, edits)
    case Move(position) =>
      if !(0 <= position < |kept|) then Refused(OrdinalOutOfRange)
      else if position == r then Refused(SameOrdinal)
      else Planned(Moved(kept, r, position))
    case Delete => if guarded then Refused(ProtectedRecord) else Planned(kept[..r] + kept[r + 1..])
    case Protect => if guarded then Refused(AlreadyProtected) else PlanProtection(document, r, true)
    case Unprotect => if !guarded then Refused(NotProtected) else PlanProtection(document, r, false)
  }

  function PlanCommand(document: VaultDocument, command: Command, freshHandle: nat): Plan {
    match command
    case Add(record) =>
      if !NewRecordAccepted(record) then Refused(InvalidRecord)
      else Planned(KeptAll(document.records) + [PlannedRecord(None, NewRecordFields(record), freshHandle)])
    case On(handle, action) =>
      var found := FindRecord(document.records, handle, 0);
      if found.None? then Refused(UnknownHandle) else PlanAction(document, found.value, action)
  }

  // ---------------------------------------------------------------- what a patch does to a record

  lemma {:induction false} ExtrasOffer(fields: seq<RawField>, replacements: seq<Replacement>, replacement: Replacement)
    requires replacement in replacements && replacement.payload.Some? && !Has(fields, replacement.code)
    ensures Fresh(replacement.code, replacement.payload.value) in Extras(fields, replacements)
  {
    hide Has;
    if replacement != replacements[0] {
      ExtrasOffer(fields, replacements[1..], replacement);
    }
  }

  lemma {:induction false} FindIsThe(replacements: seq<Replacement>, replacement: Replacement)
    requires replacement in replacements
    requires forall i, j :: 0 <= i < j < |replacements| ==> replacements[i].code != replacements[j].code
    ensures FindReplacement(replacements, replacement.code) == Some(replacement)
  {
    hide FindReplacement;
    var found := FindReplacement(replacements, replacement.code);
    assert InReplacements(replacements, replacement.code);
    assert found.Some? && found.value in replacements;
  }

  /** A replacement with a payload survives into the plan: in the place of its field, or among the extras. */
  lemma {:induction false} PlanFromOffers(
    fields: seq<RawField>, replacements: seq<Replacement>, replacement: Replacement, i: nat)
    requires i < |fields| && replacement in replacements && replacement.payload.Some?
    requires forall i, j :: 0 <= i < j < |replacements| ==> replacements[i].code != replacements[j].code
    requires replacement.code != END && EndsWithEnd(fields)
    requires Has(fields, replacement.code) ==>
               exists j :: i <= j < |fields| && fields[j].typeCode == replacement.code && !Seen(fields, j)
    ensures Fresh(replacement.code, replacement.payload.value) in PlanFrom(fields, replacements, i)
    decreases |fields| - i
  {
    hide Seen, Extras, FindReplacement;
    if !Has(fields, replacement.code) {
      ExtrasOffer(fields, replacements, replacement);
    }
    if i < |fields| - 1 {
      if fields[i].typeCode == replacement.code && !Seen(fields, i) {
        FindIsThe(replacements, replacement);
        assert Fresh(replacement.code, replacement.payload.value) in InPlaceOne(fields, replacements, i);
      } else {
        PlanFromOffers(fields, replacements, replacement, i + 1);
      }
    }
  }

  lemma {:induction false} FirstOccurrence(fields: seq<RawField>, i: nat)
    requires i < |fields|
    ensures exists j :: 0 <= j < |fields| && fields[j].typeCode == fields[i].typeCode && !Seen(fields, j)
    decreases i
  {
    if Seen(fields, i) {
      var j :| 0 <= j < i && fields[j].typeCode == fields[i].typeCode;
      FirstOccurrence(fields, j);
    }
  }

  lemma PatchedValuesOffered(
    fields: seq<RawField>, replacements: seq<Replacement>, version: nat, replacement: Replacement)
    requires EndsWithEnd(fields) && GoodReplacements(fields, replacements, version)
    requires replacement in replacements && replacement.payload.Some?
    ensures Fresh(replacement.code, replacement.payload.value) in PlanFrom(fields, replacements, 0)
  {
    hide PlanFrom, CountType, CleanValue, Seen;
    assert GoodReplacement(fields, replacement, version);
    if Has(fields, replacement.code) {
      var i :| 0 <= i < |fields| && fields[i].typeCode == replacement.code;
      FirstOccurrence(fields, i);
    }
    PlanFromOffers(fields, replacements, replacement, 0);
  }

  /** In the plan, a field of a named type is the fresh one carrying its value. */
  lemma {:induction false} NamedIsFresh(
    fields: seq<RawField>, replacements: seq<Replacement>, version: nat, replacement: Replacement, i: nat)
    requires EndsWithEnd(fields) && GoodReplacements(fields, replacements, version)
    requires replacement in replacements && i < |fields|
    ensures forall f :: f in PlanFrom(fields, replacements, i) && f.typeCode == replacement.code ==>
              replacement.payload.Some? && f == Fresh(replacement.code, replacement.payload.value)
    decreases |fields| - i
  {
    hide Extras, CountType, CleanValue, Seen, FindReplacement;
    if i == |fields| - 1 {
      assert GoodReplacement(fields, replacement, version);
      ExtrasNamed(fields, replacements, replacement);
    } else {
      NamedIsFresh(fields, replacements, version, replacement, i + 1);
      FindIsThe(replacements, replacement);
      if fields[i].typeCode == replacement.code {
        UsedOnce(fields, replacements, i, replacement, version);
      }
    }
  }

  lemma {:induction false} ExtrasNamed(fields: seq<RawField>, replacements: seq<Replacement>, replacement: Replacement)
    requires forall i, j :: 0 <= i < j < |replacements| ==> replacements[i].code != replacements[j].code
    requires replacement in replacements || !InReplacements(replacements, replacement.code)
    ensures forall f :: f in Extras(fields, replacements) && f.typeCode == replacement.code ==>
              replacement.payload.Some? && f == Fresh(replacement.code, replacement.payload.value)
  {
    hide Has;
    if replacements != [] {
      if replacement == replacements[0] {
        InReplacementsTail(replacements);
      } else {
        assert !(replacement in replacements) ==> replacements[0].code != replacement.code;
        InReplacementsTail(replacements);
      }
      ExtrasNamed(fields, replacements[1..], replacement);
    }
  }

  /**
   The meaning of a resolved patch. Exactly the fields whose type the patch does not name are
   retained, in order; each named type with a value has that value and nothing else; each removed
   type is gone.
   */
  lemma PatchMeaning(fields: seq<RawField>, replacements: seq<Replacement>, ordinal: nat, version: nat)
    requires EndsWithEnd(fields) && ExaminedFrom(Record, Some(ordinal), fields, 0, version)
    requires GoodReplacements(fields, replacements, version)
    ensures var after := EditedFields(fields, replacements);
            && (forall j :: 0 <= j < |fields| ==>
                  (Retain(fields[j], j) in after <==> !InReplacements(replacements, fields[j].typeCode)))
            && (forall k, l :: 0 <= k < l < |after| && after[k].origin.Some? && after[l].origin.Some? ==>
                  after[k].origin.value < after[l].origin.value)
            && (forall replacement, f :: replacement in replacements && f in after && f.typeCode == replacement.code ==>
                  replacement.payload.Some? && f == Fresh(replacement.code, replacement.payload.value))
            && (forall replacement :: replacement in replacements && replacement.payload.Some? ==>
                  Fresh(replacement.code, replacement.payload.value) in after)
  {
    hide PlanFrom, EditedFields, CleanValue, ExaminedFrom, InReplacements, FreshClean, GoodReplacement;
    var after := EditedFields(fields, replacements);
    EditedFieldsFaithful(fields, replacements, ordinal, version);
    PlanFromFits(fields, replacements, 0, version);
    forall replacement | replacement in replacements
      ensures forall f :: f in after && f.typeCode == replacement.code ==>
                replacement.payload.Some? && f == Fresh(replacement.code, replacement.payload.value)
      ensures replacement.payload.Some? ==> Fresh(replacement.code, replacement.payload.value) in after
    {
      NamedIsFresh(fields, replacements, version, replacement, 0);
      if replacement.payload.Some? {
        PatchedValuesOffered(fields, replacements, version, replacement);
      }
    }
    forall j | 0 <= j < |fields|
      ensures Retain(fields[j], j) in after <==> !InReplacements(replacements, fields[j].typeCode)
    {
      if !InReplacements(replacements, fields[j].typeCode) {
        var k :| 0 <= k < |after| && after[k].origin == Some(j);
        assert RetainedAt(fields, after[k]);
      }
    }
  }

  // ---------------------------------------------------------------- the patched record is complete

  /** Exactly one field of a type, said by position. */
  ghost predicate OnlyOne(fields: seq<RawField>, code: Byte) {
    exists i :: OneAt(fields, code, i)
  }

  predicate OneAt(fields: seq<RawField>, code: Byte, i: int) {
    0 <= i < |fields| && fields[i].typeCode == code && forall j :: 0 <= j < |fields| && fields[j].typeCode == code ==>
        j == i
  }

  lemma {:induction false} CountZero(fields: seq<RawField>, code: Byte)
    requires forall j :: 0 <= j < |fields| ==> fields[j].typeCode != code
    ensures CountType(fields, code) == 0
  {
    if fields != [] {
      CountZero(fields[1..], code);
    }
  }

  lemma {:induction false} CountOneAt(fields: seq<RawField>, code: Byte, i: int)
    requires OneAt(fields, code, i)
    ensures CountType(fields, code) == 1
    decreases |fields|
  {
    if i == 0 {
      CountZero(fields[1..], code);
    } else {
      assert forall j :: 0 <= j < |fields[1..]| && fields[1..][j].typeCode == code ==> fields[j + 1].typeCode == code;
      CountOneAt(fields[1..], code, i - 1);
    }
  }

  lemma {:induction false} OneAtExists(fields: seq<RawField>, code: Byte) returns (i: int)
    requires CountType(fields, code) == 1
    ensures OneAt(fields, code, i)
  {
    if fields[0].typeCode == code {
      i := 0;
      forall j | 0 < j < |fields|
        ensures fields[j].typeCode != code
      {
        if fields[1..][j - 1].typeCode == code {
          CountAtLeast(fields[1..], j - 1);
        }
      }
    } else {
      i := OneAtExists(fields[1..], code);
      i := i + 1;
      assert forall j :: 0 < j < |fields| ==> fields[j] == fields[1..][j - 1];
    }
  }

  lemma CountOne(fields: seq<RawField>, code: Byte)
    ensures CountType(fields, code) == 1 <==> OnlyOne(fields, code)
  {
    hide CountType, OneAt;
    if CountType(fields, code) == 1 {
      var i := OneAtExists(fields, code);
    }
    if i :| OneAt(fields, code, i) {
      CountOneAt(fields, code, i);
    }
  }

  lemma {:induction false} PlanFromEnds(fields: seq<RawField>, replacements: seq<Replacement>, i: nat)
    requires i < |fields|
    ensures var after := PlanFrom(fields, replacements, i);
            after != [] && after[|after| - 1] == Retain(fields[|fields| - 1], |fields| - 1)
    decreases |fields| - i
  {
    hide InPlaceOne, Extras;
    if i < |fields| - 1 {
      PlanFromEnds(fields, replacements, i + 1);
    }
  }

  /** A type the patch does not name occurs once afterwards if it occurred once before. */
  lemma UnnamedStaysOne(
    fields: seq<RawField>, replacements: seq<Replacement>, after: seq<PlannedField>, version: nat, code: Byte)
    requires TailFits(fields, replacements, 0, after, version)
    requires !InReplacements(replacements, code) && CountType(fields, code) == 1
    ensures CountType(Renumber(after), code) == 1
  {
    hide FreshClean, InReplacements, CountType;
    CountOne(fields, code);
    CountOne(Renumber(after), code);
    var i :| OneAt(fields, code, i);
    var k :| 0 <= k < |after| && after[k].origin == Some(i);
    assert RetainedAt(fields, after[k]);
    var numbered := Renumber(after);
    assert numbered[k].typeCode == code;
    forall l | 0 <= l < |numbered| && numbered[l].typeCode == code
      ensures l == k
    {
      assert after[l].typeCode == code;
      assert after[l].origin.Some? ==> RetainedAt(fields, after[l]);
    }
    assert OneAt(numbered, code, k);
  }

  lemma NamedIsOne(
    fields: seq<RawField>, replacements: seq<Replacement>, after: seq<PlannedField>, version: nat,
    replacement: Replacement)
    requires TailFits(fields, replacements, 0, after, version)
    requires replacement.payload.Some? && Fresh(replacement.code, replacement.payload.value) in after
    ensures CountType(Renumber(after), replacement.code) == 1
  {
    hide FreshClean, InReplacements, CountType;
    CountOne(Renumber(after), replacement.code);
    var k :| 0 <= k < |after| && after[k] == Fresh(replacement.code, replacement.payload.value);
    var numbered := Renumber(after);
    assert numbered[k].typeCode == replacement.code;
    forall l | 0 <= l < |numbered| && numbered[l].typeCode == replacement.code
      ensures l == k
    {
      assert after[l].typeCode == replacement.code;
    }
    assert OneAt(numbered, replacement.code, k);
  }

  lemma UnnamedSamePresence(
    fields: seq<RawField>, replacements: seq<Replacement>, after: seq<PlannedField>, version: nat, code: Byte)
    requires TailFits(fields, replacements, 0, after, version)
    requires !InReplacements(replacements, code)
    ensures Has(Renumber(after), code) <==> Has(fields, code)
  {
    hide FreshClean, InReplacements;
    var numbered := Renumber(after);
    if Has(fields, code) {
      var i :| 0 <= i < |fields| && fields[i].typeCode == code;
      var k :| 0 <= k < |after| && after[k].origin == Some(i);
      assert RetainedAt(fields, after[k]);
      assert numbered[k].typeCode == code;
    }
    if Has(numbered, code) {
      var k :| 0 <= k < |numbered| && numbered[k].typeCode == code;
      assert after[k].typeCode == code;
      assert RetainedAt(fields, after[k]);
    }
  }

  lemma MandatoryStaysOne(fields: seq<RawField>, replacements: seq<Replacement>, ordinal: nat, version: nat, code: Byte)
    requires EndsWithEnd(fields) && ExaminedFrom(Record, Some(ordinal), fields, 0, version)
    requires GoodReplacements(fields, replacements, version)
    requires MandatoryCode(code) && CountType(fields, code) == 1
    ensures CountType(Renumber(EditedFields(fields, replacements)), code) == 1
  {
    hide PlanFrom, EditedFields, CleanValue, ExaminedFrom, TailFits, FreshClean, CountType;
    EditedFieldsFaithful(fields, replacements, ordinal, version);
    PlanFromFits(fields, replacements, 0, version);
    var after := EditedFields(fields, replacements);
    if InReplacements(replacements, code) {
      var i :| 0 <= i < |replacements| && replacements[i].code == code;
      assert GoodReplacement(fields, replacements[i], version);
      PatchedValuesOffered(fields, replacements, version, replacements[i]);
      NamedIsOne(fields, replacements, after, version, replacements[i]);
    } else {
      UnnamedStaysOne(fields, replacements, after, version, code);
    }
  }

  lemma GroupsStayComplete(fields: seq<RawField>, replacements: seq<Replacement>, ordinal: nat, version: nat)
    requires EndsWithEnd(fields) && ExaminedFrom(Record, Some(ordinal), fields, 0, version)
    requires GoodReplacements(fields, replacements, version)
    ensures GroupsComplete(Renumber(EditedFields(fields, replacements))) == GroupsComplete(fields)
  {
    hide PlanFrom, EditedFields, CleanValue, ExaminedFrom, TailFits, FreshClean, CountType, Has, GoodReplacements,
         InReplacements;
    EditedFieldsFaithful(fields, replacements, ordinal, version);
    PlanFromFits(fields, replacements, 0, version);
    NotEnd(fields, replacements, version);
    var after := EditedFields(fields, replacements);
    forall code: Byte | 0x25 <= code <= 0x2F
      ensures Has(Renumber(after), code) <==> Has(fields, code)
    {
      UnnamedSamePresence(fields, replacements, after, version, code);
    }
  }

  lemma EditedShape(fields: seq<RawField>, replacements: seq<Replacement>, ordinal: nat, version: nat)
    requires RecordShape(fields) && ExaminedFrom(Record, Some(ordinal), fields, 0, version)
    requires GoodReplacements(fields, replacements, version)
    ensures RecordShape(Renumber(EditedFields(fields, replacements)))
    ensures FaithfulPlan(fields, EditedFields(fields, replacements), version)
  {
    hide PlanFrom, EditedFields, CleanValue, ExaminedFrom, GroupsComplete, CountType, GoodReplacements, FaithfulPlan;
    EditedFieldsFaithful(fields, replacements, ordinal, version);
    PlanFromEnds(fields, replacements, 0);
    MandatoryStaysOne(fields, replacements, ordinal, version, UUID);
    MandatoryStaysOne(fields, replacements, ordinal, version, TITLE);
    MandatoryStaysOne(fields, replacements, ordinal, version, PASSWORD);
    GroupsStayComplete(fields, replacements, ordinal, version);
  }
}
