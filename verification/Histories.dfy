/**
 Runs of session commands. The stored classifications and warnings of every reachable revision are
 the ones a save recomputes; only an identity outside the RFC 4122 variant and a move across
 warned records can break that, and the exact conditions are proved.
 */
module Histories {
  import opened Basics
  import opened Schema
  import opened Documents
  import opened Validation
  import opened Revisions
  import opened Edits
  import opened Commands
  import Utf8

  // ---------------------------------------------------------------- untouched records

  lemma RetainAllFaithful(fields: seq<RawField>, version: nat)
    ensures FaithfulPlan(fields, RetainAll(fields), version)
  {
    hide FreshClean;
    var after := RetainAll(fields);
    forall i | 0 <= i < |fields|
      ensures OriginIndex(after, i, 0).Some?
    {
      assert after[i].origin == Some(i);
    }
  }

  lemma KeptFits(document: VaultDocument, r: nat)
    requires Structured(document) && r < |document.records|
    ensures PlannedRecordFits(document, Kept(document.records, r))
    ensures Renumber(Kept(document.records, r).fields) == document.records[r].fields
  {
    hide FaithfulPlan, ExaminedFrom, ClassesFrom, HeaderStructure, CheckVersion, GroupsComplete, MandatoryPresent;
    var record := document.records[r];
    RetainAllFaithful(record.fields, document.version);
    assert RecordStructured(record, r, document.version);
    assert Renumber(RetainAll(record.fields)) == record.fields;
  }

  lemma KeptAllFits(document: VaultDocument)
    requires Structured(document)
    ensures PlanFits(document, KeptAll(document.records))
  {
    hide PlannedRecordFits, Structured;
    forall r | 0 <= r < |document.records|
      ensures PlannedRecordFits(document, KeptAll(document.records)[r])
    {
      KeptFits(document, r);
    }
  }

  // ---------------------------------------------------------------- new records

  lemma IdentityClean(uuid: Bytes, version: nat)
    requires |uuid| == 16 && version >= MINIMUM_VERSION
    ensures CleanValue(UUID, uuid, version) <==> 0x80 <= uuid[8] <= 0xBF
    ensures Examine(Record, Some(0), RawField(UUID, uuid, 0, Understood), false, version).Ok? <==>
              0x80 <= uuid[8] <= 0xBF
  {
    var none: seq<Warning> := [];
    assert none + none == none;
  }

  lemma TerminatorClean(version: nat)
    requires version >= MINIMUM_VERSION
    ensures CleanValue(END, [], version)
  {
    var none: seq<Warning> := [];
    assert none + none == none;
  }

  lemma NewTextClean(code: Byte, value: Bytes, version: nat)
    requires code in {GROUP, TITLE, USERNAME, PASSWORD, URL} && version >= MINIMUM_VERSION
    requires EncodeText(RecordSpec(code).value, value).Some?
    ensures CleanValue(code, value, version)
  {
    hide Utf8.AcceptedText;
    var none: seq<Warning> := [];
    assert none + none == none;
  }

  lemma NewFieldsClean(record: NewRecord, version: nat)
    requires NewRecordAccepted(record) && version >= MINIMUM_VERSION
    ensures forall f :: f in NewRecordFields(record) ==>
              f.origin.None? && f.classification == Understood
                  && (f.typeCode == UUID || CleanValue(f.typeCode, f.payload, version))
    ensures Fresh(UUID, record.uuid) in NewRecordFields(record)
  {
    hide CleanValue, EncodeText, RecordSpec;
    TerminatorClean(version);
    NewTextClean(TITLE, record.title, version);
    NewTextClean(PASSWORD, record.password, version);
    if record.group != [] {
      NewTextClean(GROUP, record.group, version);
    }
    if record.username != [] {
      NewTextClean(USERNAME, record.username, version);
    }
    if record.url != [] {
      NewTextClean(URL, record.url, version);
    }
  }

  /** The types of a new record strictly increase, so none repeats. */
  lemma NewFieldsIncrease(record: NewRecord)
    ensures var fields := NewRecordFields(record);
            && (forall k, l :: 0 <= k < l < |fields| ==> fields[k].typeCode < fields[l].typeCode)
            && fields[|fields| - 1].typeCode == END
            && (forall code :: MandatoryCode(code) ==> exists k :: 0 <= k < |fields| && fields[k].typeCode == code)
            && (forall k :: 0 <= k < |fields| ==> fields[k].typeCode < 0x25 || fields[k].typeCode == END)
  {
    var head := [Fresh(UUID, record.uuid)] + FreshText(GROUP, record.group);
    var title := head + [Fresh(TITLE, record.title)];
    var middle := title + FreshText(USERNAME, record.username);
    var password := middle + [Fresh(PASSWORD, record.password)];
    var fields := password + FreshText(URL, record.url) + [Fresh(END, [])];
    assert fields == NewRecordFields(record);
    assert fields[0].typeCode == UUID;
    assert fields[|head|].typeCode == TITLE;
    assert fields[|middle|].typeCode == PASSWORD;
  }

  lemma NewShape(record: NewRecord)
    ensures RecordShape(Renumber(NewRecordFields(record)))
  {
    hide NewRecordFields, CountType;
    NewFieldsIncrease(record);
    var fields := NewRecordFields(record);
    var numbered := Renumber(fields);
    forall code | MandatoryCode(code)
      ensures CountType(numbered, code) == 1
    {
      var k :| 0 <= k < |fields| && fields[k].typeCode == code;
      assert numbered[k].typeCode == code;
      assert forall j :: 0 <= j < |numbered| && numbered[j].typeCode == code ==> fields[j].typeCode == code;
      assert OneAt(numbered, code, k);
      CountOne(numbered, code);
    }
    assert MandatoryCode(UUID) && MandatoryCode(TITLE) && MandatoryCode(PASSWORD);
    forall code: Byte | 0x25 <= code <= 0x2F
      ensures !Has(numbered, code)
    {
      assert forall k :: 0 <= k < |numbered| ==> numbered[k].typeCode == fields[k].typeCode;
    }
  }

  lemma NewRecordFits(document: VaultDocument, record: NewRecord, handle: nat)
    requires NewRecordAccepted(record) && document.version >= MINIMUM_VERSION
    requires 0x80 <= record.uuid[8] <= 0xBF
    ensures PlannedRecordFits(document, PlannedRecord(None, NewRecordFields(record), handle))
  {
    hide NewRecordFields, CleanValue, RecordShape;
    NewShape(record);
    NewFieldsIncrease(record);
    NewFieldsClean(record, document.version);
    IdentityClean(record.uuid, document.version);
    var fields := NewRecordFields(record);
    forall k | 0 <= k < |fields|
      ensures FreshClean(fields[k], document.version) && fields[k].origin.None?
    {
      assert fields[k] in fields;
      assert fields[k].typeCode == UUID ==> fields[k] == Fresh(UUID, record.uuid) by {
        var j :| 0 <= j < |fields| && fields[j] == Fresh(UUID, record.uuid);
        assert fields[k].typeCode == UUID ==> !(k < j) && !(j < k);
      }
    }
  }

  // ---------------------------------------------------------------- every command's plan fits

  /** Where the element at `k` of a moved sequence came from. */
  function MoveSource(from: nat, to: nat, k: nat): nat {
    if k == to then from
    else if from <= k < to then k + 1
    else if to < k <= from then k - 1
    else k
  }

  lemma MovedAt<T>(items: seq<T>, from: nat, to: nat)
    requires from < |items| && to < |items|
    ensures forall k :: 0 <= k < |items| ==>
              MoveSource(from, to, k) < |items| && Moved(items, from, to)[k] == items[MoveSource(from, to, k)]
    ensures forall k, l :: 0 <= k < l < |items| ==> MoveSource(from, to, k) != MoveSource(from, to, l)
  {
  }

  lemma ReplacedFits(document: VaultDocument, r: nat, replacements: seq<Replacement>)
    requires Structured(document) && r < |document.records|
    requires GoodReplacements(document.records[r].fields, replacements, document.version)
    ensures var rewritten := Rewritten(document.records[r], r, EditedFields(document.records[r].fields, replacements));
            PlanFits(document, KeptAll(document.records)[r := rewritten])
  {
    hide FaithfulPlan, ExaminedFrom, EditedFields, GoodReplacements, RecordShape, HeaderStructure, CheckVersion,
         ClassesFrom;
    var record := document.records[r];
    KeptAllFits(document);
    assert RecordStructured(record, r, document.version);
    assert RecordShape(record.fields) by { ShapeOf(record, r, document.version); }
    EditedShape(record.fields, replacements, r, document.version);
    assert PlannedRecordFits(document, Rewritten(record, r, EditedFields(record.fields, replacements)));
  }

  lemma ShapeOf(record: RawRecord, r: nat, version: nat)
    requires RecordStructured(record, r, version)
    ensures RecordShape(record.fields) && ExaminedFrom(Record, Some(r), record.fields, 0, version)
  {
    hide ExaminedFrom, ClassesFrom, GroupsComplete, MandatoryPresent, EndsWithEnd;
  }

  lemma MarkerIsGood(fields: seq<RawField>, on: bool, version: nat)
    requires CountType(fields, PROTECTED) <= 1
    requires on ==> RecordSpec(PROTECTED).value.since <= version
    ensures GoodReplacements(fields, [Replacement(PROTECTED, if on then Some([1]) else None)], version)
  {
    hide CountType;
    var none: seq<Warning> := [];
    assert none + none == none;
  }

  /** Patches, moves, deletions and protection changes always yield a plan the fork keeps faithful. */
  lemma ActionFits(document: VaultDocument, r: nat, action: Action)
    requires Structured(document) && r < |document.records|
    requires PlanAction(document, r, action).Planned?
    ensures PlanFits(document, PlanAction(document, r, action).records)
  {
    hide PlannedRecordFits, Structured, CountType, IsProtected, Moved, RecordSpec, EditedFields, GoodReplacements;
    KeptAllFits(document);
    var kept := KeptAll(document.records);
    var fields := document.records[r].fields;
    match action
    case Patch(edits) =>
      EmptyIsGood(fields, document.version);
      EncodedEditsAreGood(fields, edits, [], document.version);
      ReplacedFits(document, r, EncodeEdits(fields, edits, [], document.version).value);
    case Move(position) =>
      MovedAt(kept, r, position);
    case Delete =>
      var after := kept[..r] + kept[r + 1..];
      assert forall k :: 0 <= k < |after| ==> after[k] == kept[if k < r then k else k + 1];
    case Protect =>
      MarkerIsGood(fields, true, document.version);
      ReplacedFits(document, r, [Replacement(PROTECTED, Some([1]))]);
    case Unprotect =>
      MarkerIsGood(fields, false, document.version);
      ReplacedFits(document, r, [Replacement(PROTECTED, None)]);
  }

  lemma EmptyIsGood(fields: seq<RawField>, version: nat)
    ensures GoodReplacements(fields, [], version)
  {
  }

  /** A new record must carry an identity of the variant the schema accepts. */
  predicate VariantAccepted(command: Command) {
    command.Add? ==> 0x80 <= command.record.uuid[8] <= 0xBF
  }

  lemma VersionLow(document: VaultDocument)
    requires Structured(document)
    ensures document.version >= MINIMUM_VERSION
  {
    hide HeaderStructure, RecordStructured, OrdinalsMatch;
  }

  lemma CommandFits(document: VaultDocument, command: Command, handle: nat)
    requires Structured(document) && VariantAccepted(command)
    requires PlanCommand(document, command, handle).Planned?
    ensures PlanFits(document, PlanCommand(document, command, handle).records)
  {
    hide PlannedRecordFits, Structured, PlanAction, NewRecordFields, NewRecordAccepted;
    match command
    case Add(record) =>
      VersionLow(document);
      KeptAllFits(document);
      NewRecordFits(document, record, handle);
    case On(target, action) =>
      ActionFits(document, FindRecord(document.records, target, 0).value, action);
  }

  /** The session invariant: what is stored is what a from-scratch pass finds, record by record. */
  ghost predicate Faithful(document: VaultDocument) {
    Structured(document) && WarningsFaithful(document)
  }

  /** Every accepted command keeps the invariant. */
  lemma CommandKeepsFaithful(document: VaultDocument, command: Command, handle: nat, revision: nat)
    requires Faithful(document) && VariantAccepted(command)
    requires PlanCommand(document, command, handle).Planned?
    ensures Faithful(Fork(document, PlanCommand(document, command, handle).records, revision))
  {
    hide PlanFits, Structured, WarningsFaithful, PlanCommand, Fork;
    var planned := PlanCommand(document, command, handle).records;
    CommandFits(document, command, handle);
    ForkStructured(document, planned, revision);
    ForkWarningsFaithful(document, planned, revision);
  }

  lemma StructuredNeedsVariant(document: VaultDocument, record: NewRecord, ordinal: nat, handle: nat)
    requires NewRecordAccepted(record) && document.version >= MINIMUM_VERSION
    requires RecordStructured(ForkRecord(PlannedRecord(None, NewRecordFields(record), handle), ordinal), ordinal,
               document.version)
    ensures 0x80 <= record.uuid[8] <= 0xBF
  {
    hide ClassesFrom, GroupsComplete, MandatoryPresent, EndsWithEnd, OrdinalsMatch, Examine;
    var fields := Renumber(NewRecordFields(record));
    assert NewRecordFields(record)[0] == Fresh(UUID, record.uuid);
    assert Examine(Record, Some(ordinal), fields[0], Seen(fields, 0), document.version).Ok?;
    assert !Seen(fields, 0);
    VerdictIgnoresPosition(Record, Some(ordinal), Some(0), fields[0], RawField(UUID, record.uuid, 0, Understood), false,
                           document.version);
    IdentityClean(record.uuid, document.version);
  }

  /** Adding a record keeps the document saveable exactly when the identity has the RFC 4122 variant. */
  lemma AddNeedsVariant(document: VaultDocument, record: NewRecord, handle: nat, revision: nat)
    requires Faithful(document) && NewRecordAccepted(record)
    ensures Faithful(Fork(document, PlanCommand(document, Add(record), handle).records, revision)) <==>
              VariantAccepted(Add(record))
  {
    hide WarningsFaithful, ForkRecord, RecordStructured, NewRecordFields, NewRecordAccepted, HeaderStructure,
         CheckVersion, OrdinalsMatch, ClassesFrom, Remap;
    var planned := PlanCommand(document, Add(record), handle).records;
    var fork := Fork(document, planned, revision);
    VersionLow(document);
    if VariantAccepted(Add(record)) {
      CommandKeepsFaithful(document, Add(record), handle, revision);
    }
    if Structured(fork) {
      var last := |document.records|;
      assert fork.records[last] == ForkRecord(PlannedRecord(None, NewRecordFields(record), handle), last);
      assert RecordStructured(fork.records[last], last, document.version);
      StructuredNeedsVariant(document, record, last, handle);
    }
  }

  // ---------------------------------------------------------------- the order of the warnings

  /** Sources that stay keep their relative order. */
  ghost predicate SourcesIncrease(planned: seq<PlannedRecord>) {
    forall k, l :: 0 <= k < l < |planned| && planned[k].source.Some? && planned[l].source.Some? ==>
      planned[k].source.value < planned[l].source.value
  }

  lemma {:induction false} RemapKeys(
    document: VaultDocument, planned: seq<PlannedRecord>, warnings: seq<Warning>, w: Warning)
    requires w in Remap(document, planned, warnings)
    ensures exists v :: v in warnings && w in RemapOne(document, planned, v)
  {
    hide RemapOne;
    if w in RemapOne(document, planned, warnings[0]) {
      assert warnings[0] in warnings;
    } else {
      RemapKeys(document, planned, warnings[1..], w);
      var v :| v in warnings[1..] && w in RemapOne(document, planned, v);
    }
  }

  lemma RemapOneKeeps(
    document: VaultDocument, planned: seq<PlannedRecord>, a: Warning, b: Warning, x: Warning, y: Warning)
    requires SourcesIncrease(planned) && KeyLe(a.recordOrdinal, b.recordOrdinal)
    requires x in RemapOne(document, planned, a) && y in RemapOne(document, planned, b)
    ensures KeyLe(x.recordOrdinal, y.recordOrdinal)
  {
    hide Resolves;
  }

  lemma {:induction false} RemapOrdered(document: VaultDocument, planned: seq<PlannedRecord>, warnings: seq<Warning>)
    requires SourcesIncrease(planned) && Ordered(warnings)
    ensures Ordered(Remap(document, planned, warnings))
  {
    hide RemapOne, KeyLe;
    if warnings != [] {
      var one, rest := RemapOne(document, planned, warnings[0]), Remap(document, planned, warnings[1..]);
      RemapOrdered(document, planned, warnings[1..]);
      forall i, j | 0 <= i < |one| && 0 <= j < |rest|
        ensures KeyLe(one[i].recordOrdinal, rest[j].recordOrdinal)
      {
        RemapKeys(document, planned, warnings[1..], rest[j]);
        var v :| v in warnings[1..] && rest[j] in RemapOne(document, planned, v);
        var at :| 0 < at < |warnings| && warnings[at] == v;
        RemapOneKeeps(document, planned, warnings[0], v, one[i], rest[j]);
      }
      assert |one| <= 1 by { RemapOneShort(document, planned, warnings[0]); }
      OrderedConcat(one, rest);
    }
  }

  lemma RemapOneShort(document: VaultDocument, planned: seq<PlannedRecord>, w: Warning)
    ensures |RemapOne(document, planned, w)| <= 1
  {
    hide Resolves, NewLocation;
  }

  /** Everything but a move leaves the records that stay in their old order. */
  lemma OrderKept(document: VaultDocument, command: Command, handle: nat)
    requires PlanCommand(document, command, handle).Planned?
    requires command.On? ==> !command.action.Move?
    ensures SourcesIncrease(PlanCommand(document, command, handle).records)
  {
    hide CountType, IsProtected, RecordSpec, EditedFields, NewRecordAccepted, NewRecordFields, EncodeEdits, Moved;
    var kept := KeptAll(document.records);
    assert forall k :: 0 <= k < |kept| ==> kept[k].source == Some(k);
    if command.On? && command.action.Delete? {
      var r := FindRecord(document.records, command.handle, 0).value;
      var after := kept[..r] + kept[r + 1..];
      assert forall k :: 0 <= k < |after| ==> after[k] == kept[if k < r then k else k + 1];
    }
  }

  lemma CommandKeepsOrder(document: VaultDocument, command: Command, handle: nat, revision: nat)
    requires Ordered(document.warnings)
    requires PlanCommand(document, command, handle).Planned?
    requires command.On? ==> !command.action.Move?
    ensures Ordered(Fork(document, PlanCommand(document, command, handle).records, revision).warnings)
  {
    hide PlanCommand, Remap, Ordered, SourcesIncrease;
    OrderKept(document, command, handle);
    RemapOrdered(document, PlanCommand(document, command, handle).records, document.warnings);
  }

  // ---------------------------------------------------------------- moves

  /** Where the record at `s` stands after a move. */
  function MovedTo(from: nat, to: nat, s: nat): nat {
    if s == from then to
    else if from < s <= to then s - 1
    else if to <= s < from then s + 1
    else s
  }

  /** The records the moved one passes. */
  predicate Passed(from: nat, to: nat, s: nat) {
    from < s <= to || to <= s < from
  }

  function Relocate(w: Warning, from: nat, to: nat): Warning {
    match w.recordOrdinal
    case None => w
    case Some(s) => w.(recordOrdinal := Some(MovedTo(from, to, s)))
  }

  function RelocateAll(warnings: seq<Warning>, from: nat, to: nat): seq<Warning> {
    seq(|warnings|, i requires 0 <= i < |warnings| => Relocate(warnings[i], from, to))
  }

  lemma MoveLocation(document: VaultDocument, from: nat, to: nat, w: Warning)
    requires from < |document.records| && to < |document.records|
    requires w.recordOrdinal.Some? ==> Resolves(document, w)
    ensures RemapOne(document, Moved(KeptAll(document.records), from, to), w) == [Relocate(w, from, to)]
  {
    hide Moved;
    var kept := KeptAll(document.records);
    var planned := Moved(kept, from, to);
    if w.recordOrdinal.Some? {
      var s := w.recordOrdinal.value;
      MovedAt(kept, from, to);
      var at := MovedTo(from, to, s);
      assert MoveSource(from, to, at) == s;
      assert planned[at] == kept[s];
      SourceIndexUnique(planned, at, 0);
      RetainedIndex(document.records[s].fields, w.fieldOrdinal);
    }
  }

  lemma RetainedIndex(fields: seq<RawField>, i: nat)
    requires i < |fields|
    ensures OriginIndex(RetainAll(fields), i, 0) == Some(i)
  {
    var after := RetainAll(fields);
    assert after[i].origin == Some(i);
    var at := OriginIndex(after, i, 0);
    assert after[at.value].origin == Some(at.value);
  }

  lemma {:induction false} MoveRemap(document: VaultDocument, from: nat, to: nat, warnings: seq<Warning>)
    requires from < |document.records| && to < |document.records|
    requires forall w :: w in warnings && w.recordOrdinal.Some? ==> Resolves(document, w)
    ensures Remap(document, Moved(KeptAll(document.records), from, to), warnings) == RelocateAll(warnings, from, to)
  {
    hide Moved, Resolves, RemapOne;
    if warnings != [] {
      assert warnings[0] in warnings;
      MoveLocation(document, from, to, warnings[0]);
      MoveRemap(document, from, to, warnings[1..]);
    }
  }

  predicate Warned(warnings: seq<Warning>, record: nat) {
    exists i :: 0 <= i < |warnings| && warnings[i].recordOrdinal == Some(record)
  }

  /** The moved record carries a warning, and so does one it passes. */
  predicate WarningsCross(warnings: seq<Warning>, from: nat, to: nat) {
    && Warned(warnings, from)
    && exists i :: 0 <= i < |warnings| && warnings[i].recordOrdinal.Some?
         && Passed(from, to, warnings[i].recordOrdinal.value)
  }

  lemma RelocatedOrder(warnings: seq<Warning>, from: nat, to: nat)
    requires Ordered(warnings) && from != to
    ensures Ordered(RelocateAll(warnings, from, to)) <==> !WarningsCross(warnings, from, to)
  {
    var moved := RelocateAll(warnings, from, to);
    if WarningsCross(warnings, from, to) {
      var i :| 0 <= i < |warnings| && warnings[i].recordOrdinal == Some(from);
      var j :| 0 <= j < |warnings| && warnings[j].recordOrdinal.Some?
          && Passed(from, to, warnings[j].recordOrdinal.value);
      if i < j {
        assert KeyLe(warnings[i].recordOrdinal, warnings[j].recordOrdinal);
        assert !KeyLe(moved[i].recordOrdinal, moved[j].recordOrdinal);
      } else {
        assert KeyLe(warnings[j].recordOrdinal, warnings[i].recordOrdinal);
        assert !KeyLe(moved[j].recordOrdinal, moved[i].recordOrdinal);
      }
    } else {
      forall i, j | 0 <= i < j < |moved|
        ensures KeyLe(moved[i].recordOrdinal, moved[j].recordOrdinal)
      {
        assert KeyLe(warnings[i].recordOrdinal, warnings[j].recordOrdinal);
        UncrossedPair(warnings, from, to, i, j);
      }
    }
  }

  lemma UncrossedPair(warnings: seq<Warning>, from: nat, to: nat, i: nat, j: nat)
    requires !WarningsCross(warnings, from, to) && i < |warnings| && j < |warnings|
    requires KeyLe(warnings[i].recordOrdinal, warnings[j].recordOrdinal)
    ensures KeyLe(Relocate(warnings[i], from, to).recordOrdinal, Relocate(warnings[j], from, to).recordOrdinal)
  {
    var a, b := warnings[i].recordOrdinal, warnings[j].recordOrdinal;
    if a.Some? {
      assert a.value == from ==> Warned(warnings, from) && !Passed(from, to, b.value);
      assert b.value == from ==> Warned(warnings, from) && !Passed(from, to, a.value);
    }
  }

  lemma AllResolve(document: VaultDocument)
    requires Faithful(document)
    ensures forall w :: w in document.warnings && w.recordOrdinal.Some? ==> Resolves(document, w)
  {
    hide Structured, WarningsFaithful, Resolves;
    forall w | w in document.warnings && w.recordOrdinal.Some?
      ensures Resolves(document, w)
    {
      FaithfulResolves(document, w);
    }
  }

  /** A move leaves the document saveable exactly when no two warned records change their relative order. */
  lemma MoveKeepsOrderExactly(document: VaultDocument, target: nat, position: int, revision: nat)
    requires Consistent(document)
    requires PlanCommand(document, On(target, Move(position)), 0).Planned?
    ensures var from := FindRecord(document.records, target, 0).value;
            var fork := Fork(document, PlanCommand(document, On(target, Move(position)), 0).records, revision);
            && Faithful(fork)
            && (Consistent(fork) <==> !WarningsCross(document.warnings, from, position))
  {
    hide Structured, WarningsFaithful, Consistent, Ordered, WarningsCross, Moved, Resolves;
    var from := FindRecord(document.records, target, 0).value;
    ConsistentExactlyWhenOrdered(document);
    CommandKeepsFaithful(document, On(target, Move(position)), 0, revision);
    AllResolve(document);
    MoveRemap(document, from, position, document.warnings);
    RelocatedOrder(document.warnings, from, position);
    var planned := PlanCommand(document, On(target, Move(position)), 0).records;
    ConsistentExactlyWhenOrdered(Fork(document, planned, revision));
  }

  lemma {:induction false} SelectCount(warnings: seq<Warning>, w: Warning)
    ensures multiset(warnings)[w] == multiset(Select(warnings, w.recordOrdinal))[w]
  {
    if warnings != [] {
      SelectCount(warnings[1..], w);
      assert warnings == [warnings[0]] + warnings[1..];
    }
  }

  /** Whatever the order, the stored warnings are a permutation of the recomputed ones. */
  lemma FaithfulIsPermutation(document: VaultDocument)
    requires Faithful(document)
    ensures multiset(document.warnings) == multiset(Recomputed(document))
  {
    hide Structured, WarningsFrom, Select, RecordWarningsFrom;
    var sorted := document.(warnings := Recomputed(document));
    RecomputedIsOrdered(sorted);
    forall w: Warning
      ensures multiset(document.warnings)[w] == multiset(Recomputed(document))[w]
    {
      SelectCount(document.warnings, w);
      SelectCount(sorted.warnings, w);
      if w.recordOrdinal.Some? && w.recordOrdinal.value >= |document.records| {
        assert w !in document.warnings;
        assert w !in sorted.warnings;
      }
    }
  }

  // ---------------------------------------------------------------- the counterexamples

  function SampleFields(): seq<RawField> {
    [RawField(UUID, seq(16, _ => 0x80), 0, Understood),
     RawField(0xE0, [1], 1, Unknown),
     RawField(TITLE, [0x41], 2, Understood),
     RawField(PASSWORD, [0x42], 3, Understood),
     RawField(END, [], 4, Understood)]
  }

  function SampleHeader(): seq<RawField> {
    [RawField(VERSION, [0x00, 0x03], 0, Understood), RawField(END, [], 1, Understood)]
  }

  /** Two records, each with one field of an unknown type. */
  function SampleVault(): VaultDocument {
    VaultDocument(
      0x0300, SampleHeader(), [RawRecord(SampleFields(), 0, 10), RawRecord(SampleFields(), 1, 11)], 0,
      [Warning(UnknownField, Some(0), 1, 0xE0), Warning(UnknownField, Some(1), 1, 0xE0)])
  }

  lemma SampleFieldExamined(r: nat, k: nat)
    requires k < 5
    ensures !Seen(SampleFields(), k)
    ensures Examine(Record, Some(r), SampleFields()[k], false, 0x0300).Ok?
    ensures Examine(Record, Some(r), SampleFields()[k], false, 0x0300).value.classification
              == SampleFields()[k].classification
    ensures FieldWarnings(Record, Some(r), SampleFields()[k], false, 0x0300)
         == if k == 1 then [Warning(UnknownField, Some(r), 1, 0xE0)] else []
  {
    assert Utf8.AcceptedText([0x41]) && Utf8.AcceptedText([0x42]);
  }

  lemma SampleRecord(r: nat)
    ensures RecordStructured(RawRecord(SampleFields(), r, 10 + r), r, 0x0300)
    ensures WarningsFrom(Record, Some(r), SampleFields(), 0, 0x0300) == [Warning(UnknownField, Some(r), 1, 0xE0)]
  {
    hide Examine, FieldWarnings, Seen;
    var fields := SampleFields();
    forall k | 0 <= k < 5
      ensures !Seen(fields, k)
      ensures Examine(Record, Some(r), fields[k], false, 0x0300).Ok?
      ensures Examine(Record, Some(r), fields[k], false, 0x0300).value.classification == fields[k].classification
      ensures FieldWarnings(Record, Some(r), fields[k], false, 0x0300)
                == if k == 1 then [Warning(UnknownField, Some(r), 1, 0xE0)] else []
    {
      SampleFieldExamined(r, k);
    }
    assert WarningsFrom(Record, Some(r), fields, 5, 0x0300) == [];
    assert WarningsFrom(Record, Some(r), fields, 4, 0x0300) == [];
    assert WarningsFrom(Record, Some(r), fields, 3, 0x0300) == [];
    assert WarningsFrom(Record, Some(r), fields, 2, 0x0300) == [];
    SampleCounts();
  }

  lemma SampleCounts()
    ensures MandatoryPresent(SampleFields()) && GroupsComplete(SampleFields())
  {
    var fields := SampleFields();
    assert OneAt(fields, UUID, 0) && OneAt(fields, TITLE, 2) && OneAt(fields, PASSWORD, 3);
    CountOneAt(fields, UUID, 0);
    CountOneAt(fields, TITLE, 2);
    CountOneAt(fields, PASSWORD, 3);
  }

  lemma SampleHeaderVersion()
    ensures CheckVersion(SampleHeader()) == Ok(0x0300)
  {
    var header := SampleHeader();
    assert OneAt(header, VERSION, 0);
    CountOneAt(header, VERSION, 0);
    assert FromLittleEndian([0x00, 0x03]) == 0x0300 by { assert [0x00, 0x03][1..] == [0x03]; }
  }

  lemma SampleHeaderExamined(k: nat)
    requires k < 2
    ensures !Seen(SampleHeader(), k)
    ensures Examine(Header, None, SampleHeader()[k], false, 0x0300).Ok?
    ensures Examine(Header, None, SampleHeader()[k], false, 0x0300).value.classification == Understood
    ensures FieldWarnings(Header, None, SampleHeader()[k], false, 0x0300) == []
  {
  }

  lemma SampleHeaderFits()
    ensures CheckVersion(SampleHeader()) == Ok(0x0300) && HeaderStructure(SampleHeader(), 0x0300)
    ensures ClassesOf(SampleHeader()) == ClassesFrom(Header, None, SampleHeader(), 0, 0x0300)
    ensures WarningsFrom(Header, None, SampleHeader(), 0, 0x0300) == []
  {
    hide Examine, FieldWarnings, Seen, CheckVersion;
    SampleHeaderVersion();
    SampleHeaderExamined(0);
    SampleHeaderExamined(1);
    assert WarningsFrom(Header, None, SampleHeader(), 2, 0x0300) == [];
    assert WarningsFrom(Header, None, SampleHeader(), 1, 0x0300) == [];
  }

  /** A vault a save accepts, and a move after which it no longer does. */
  lemma MoveCanBreakSaving()
    ensures Consistent(SampleVault())
    ensures var plan := PlanCommand(SampleVault(), On(10, Move(1)), 0);
            plan.Planned? && !Consistent(Fork(SampleVault(), plan.records, 1))
  {
    hide RecordStructured, HeaderStructure, CheckVersion, ClassesFrom, WarningsFrom, Fork, Moved, KeptAll, SampleFields,
         SampleHeader;
    var vault := SampleVault();
    SampleHeaderFits();
    SampleRecord(0);
    SampleRecord(1);
    assert FieldLists(vault.records) == [SampleFields(), SampleFields()];
    assert RecordWarningsFrom(FieldLists(vault.records), 2, 0x0300) == [];
    assert RecordWarningsFrom(FieldLists(vault.records), 1, 0x0300) == [Warning(UnknownField, Some(1), 1, 0xE0)];
    assert OrdinalsMatch(vault.header) by { SampleOrdinals(); }
    assert Recomputed(vault) == vault.warnings;
    MoveKeepsOrderExactly(vault, 10, 1, 1);
    assert vault.warnings[0].recordOrdinal == Some(0) && vault.warnings[1].recordOrdinal == Some(1);
    assert Warned(vault.warnings, 0) && Passed(0, 1, 1);
  }

  lemma SampleOrdinals()
    ensures OrdinalsMatch(SampleHeader())
  {
  }
}
