/**
 The public view a session command returns after it has committed. Preparing it decodes four texts
 of the record under a fixed bound, which the way in does not enforce, so a command can change the
 document and then fail. Exactly when that happens is proved for every command.
 */
module Views {
  import opened Basics
  import opened Schema
  import opened Documents
  import opened Validation
  import opened Revisions
  import opened Edits
  import opened Commands
  import opened Histories
  import opened Sessions
  import opened Guards
  import opened Effects
  import CustomFields
  import Utf8

  const TEXT_BOUND: nat := CustomFields.MAX_DECODED_TEXT_BYTES

  datatype RecordView = RecordView(
    handle: nat, revision: nat, title: Bytes, group: Bytes, username: Bytes, url: Bytes, protected: bool)

  predicate Viewed(code: Byte) {
    code == TITLE || code == GROUP || code == USERNAME || code == URL
  }

  /** The first text of a type; a missing or malformed one shows as empty. */
  function PublicText(fields: seq<RawField>, code: Byte): Result<Bytes>
    requires Viewed(code)
  {
    match FirstOf(fields, code)
    case None => Ok([])
    case Some(f) =>
      var verdict :- DecodeField(Record, RecordSpec(code).value, code, f.payload, TEXT_BOUND);
      Ok(if verdict.Clean? then f.payload else [])
  }

  function ViewOf(record: RawRecord, revision: nat): Result<RecordView> {
    var title :- PublicText(record.fields, TITLE);
    var group :- PublicText(record.fields, GROUP);
    var username :- PublicText(record.fields, USERNAME);
    var url :- PublicText(record.fields, URL);
    Ok(RecordView(record.handle, revision, title, group, username, url, IsProtected(record.fields)))
  }

  /** The view of the record with this handle, as a session returns it. */
  function SessionView(document: VaultDocument, handle: nat): Result<RecordView> {
    match FindRecord(document.records, handle, 0)
    case None => Err(InvalidField)
    case Some(r) => ViewOf(document.records[r], document.revision)
  }

  /** Every record can be listed. */
  predicate Listable(document: VaultDocument) {
    forall r :: 0 <= r < |document.records| ==> ViewOf(document.records[r], document.revision).Ok?
  }

  predicate TooLong(fields: seq<RawField>, code: Byte) {
    FirstOf(fields, code).Some? && |FirstOf(fields, code).value.payload| > TEXT_BOUND
  }

  /** One of the four viewed texts is longer than the decoding bound. */
  predicate Unviewable(fields: seq<RawField>) {
    TooLong(fields, TITLE) || TooLong(fields, GROUP) || TooLong(fields, USERNAME) || TooLong(fields, URL)
  }

  /** A text that decodes when nothing bounds it. */
  predicate Decodes(code: Byte, payload: Bytes)
    requires Viewed(code)
  {
    DecodeField(Record, RecordSpec(code).value, code, payload, |payload|).Ok?
  }

  predicate Decodable(fields: seq<RawField>) {
    forall k :: 0 <= k < |fields| && Viewed(fields[k].typeCode) ==> Decodes(fields[k].typeCode, fields[k].payload)
  }

  /** Every viewed text of the document decodes, its length aside. */
  predicate AllDecodable(document: VaultDocument) {
    forall r :: 0 <= r < |document.records| ==> Decodable(document.records[r].fields)
  }

  /** Of every record, the view fails exactly when one of its four texts is too long. */
  predicate ViewsExactly(document: VaultDocument) {
    forall r :: 0 <= r < |document.records| ==>
      (ViewOf(document.records[r], document.revision).Err? <==> Unviewable(document.records[r].fields))
  }

  lemma TextDecodes(code: Byte, payload: Bytes)
    requires Viewed(code) && Decodes(code, payload)
    ensures var decoded := DecodeField(Record, RecordSpec(code).value, code, payload, TEXT_BOUND);
            if |payload| > TEXT_BOUND then decoded == Err(MaxDecodedText) else decoded.Ok?
  {
    hide Utf8.AcceptedText;
  }

  lemma TextFails(fields: seq<RawField>, code: Byte)
    requires Viewed(code) && Decodable(fields)
    ensures PublicText(fields, code).Err? <==> TooLong(fields, code)
  {
    hide FirstOf, RecordSpec, DecodeField, Decodes;
    if FirstOf(fields, code).Some? {
      var f := FirstOf(fields, code).value;
      var k :| 0 <= k < |fields| && fields[k] == f;
      TextDecodes(code, f.payload);
    }
  }

  lemma ViewFailsExactly(record: RawRecord, revision: nat)
    requires Decodable(record.fields)
    ensures ViewOf(record, revision).Err? <==> Unviewable(record.fields)
  {
    hide FirstOf, RecordSpec, DecodeField, IsProtected, Decodable, TooLong, PublicText;
    TextFails(record.fields, TITLE);
    TextFails(record.fields, GROUP);
    TextFails(record.fields, USERNAME);
    TextFails(record.fields, URL);
  }

  lemma DecodableViews(document: VaultDocument)
    requires AllDecodable(document)
    ensures ViewsExactly(document)
  {
    hide ViewOf, Unviewable, Decodable;
    forall r | 0 <= r < |document.records|
      ensures ViewOf(document.records[r], document.revision).Err? <==> Unviewable(document.records[r].fields)
    {
      ViewFailsExactly(document.records[r], document.revision);
    }
  }

  /** Validation refuses a document with a viewed text that does not decode. */
  lemma StructuredDecodes(document: VaultDocument)
    requires Structured(document)
    ensures AllDecodable(document)
  {
    hide RecordStructured, HeaderStructure, CheckVersion, ClassesFrom, Examine, Decodes, RecordShape;
    forall r, k |
      0 <= r < |document.records| && 0 <= k < |document.records[r].fields|
      && Viewed(document.records[r].fields[k].typeCode)
      ensures Decodes(document.records[r].fields[k].typeCode, document.records[r].fields[k].payload)
    {
      var record := document.records[r];
      assert RecordStructured(record, r, document.version);
      ShapeOf(record, r, document.version);
      ExaminedDecodes(record.fields[k], r, Seen(record.fields, k), document.version);
    }
  }

  lemma ExaminedDecodes(f: RawField, r: nat, seen: bool, version: nat)
    requires Viewed(f.typeCode) && Examine(Record, Some(r), f, seen, version).Ok?
    ensures Decodes(f.typeCode, f.payload)
  {
    hide Utf8.AcceptedText;
  }

  // ---------------------------------------------------------------- after a command

  predicate PlansDecodable(fields: seq<PlannedField>) {
    forall k :: 0 <= k < |fields| && Viewed(fields[k].typeCode) ==> Decodes(fields[k].typeCode, fields[k].payload)
  }

  predicate ReplacesDecodable(replacements: seq<Replacement>) {
    forall i :: 0 <= i < |replacements| && Viewed(replacements[i].code) && replacements[i].payload.Some? ==>
      Decodes(replacements[i].code, replacements[i].payload.value)
  }

  lemma {:induction false} InPlaceDecodes(fields: seq<RawField>, replacements: seq<Replacement>, n: nat)
    requires n <= |fields| && Decodable(fields) && ReplacesDecodable(replacements)
    ensures PlansDecodable(InPlace(fields, replacements, n))
  {
    hide Decodes, Seen, FindReplacement;
    if n > 0 {
      InPlaceDecodes(fields, replacements, n - 1);
      var found := FindReplacement(replacements, fields[n - 1].typeCode);
      assert found.Some? ==> exists i :: 0 <= i < |replacements| && replacements[i] == found.value;
    }
  }

  lemma {:induction false} ExtrasDecode(fields: seq<RawField>, replacements: seq<Replacement>)
    requires ReplacesDecodable(replacements)
    ensures PlansDecodable(Extras(fields, replacements))
  {
    hide Decodes, Has;
    if replacements != [] {
      ExtrasDecode(fields, replacements[1..]);
    }
  }

  lemma EditedDecodes(fields: seq<RawField>, replacements: seq<Replacement>)
    requires Decodable(fields) && ReplacesDecodable(replacements)
    ensures PlansDecodable(EditedFields(fields, replacements))
  {
    hide Decodes, InPlace, Extras;
    InPlaceDecodes(fields, replacements, |fields|);
    ExtrasDecode(fields, replacements);
  }

  lemma GoodDecode(fields: seq<RawField>, replacements: seq<Replacement>, version: nat)
    requires GoodReplacements(fields, replacements, version)
    ensures ReplacesDecodable(replacements)
  {
    hide Decodes, CleanValue, CountType;
    forall i | 0 <= i < |replacements| && Viewed(replacements[i].code) && replacements[i].payload.Some?
      ensures Decodes(replacements[i].code, replacements[i].payload.value)
    {
      assert GoodReplacement(fields, replacements[i], version);
      CleanDecodes(replacements[i].code, replacements[i].payload.value, version);
    }
  }

  lemma CleanDecodes(code: Byte, payload: Bytes, version: nat)
    requires Viewed(code) && CleanValue(code, payload, version)
    ensures Decodes(code, payload)
  {
    hide Examine, Decodes;
    ExaminedDecodes(RawField(code, payload, 0, Understood), 0, false, version);
  }

  lemma PatchDecodes(fields: seq<RawField>, edits: seq<Edit>, version: nat)
    requires Decodable(fields) && EncodeEdits(fields, edits, [], version).Some?
    ensures PlansDecodable(EditedFields(fields, EncodeEdits(fields, edits, [], version).value))
  {
    hide EncodeEdits, Decodable, EditedFields, ReplacesDecodable, PlansDecodable;
    EncodedEditsAreGood(fields, edits, [], version);
    GoodDecode(fields, EncodeEdits(fields, edits, [], version).value, version);
    EditedDecodes(fields, EncodeEdits(fields, edits, [], version).value);
  }

  lemma AcceptedDecodes(code: Byte, value: Bytes)
    requires Viewed(code) && EncodeText(RecordSpec(code).value, value).Some?
    ensures Decodes(code, value)
  {
    hide Utf8.AcceptedText;
  }

  lemma NewDecodes(record: NewRecord)
    requires NewRecordAccepted(record)
    ensures PlansDecodable(NewRecordFields(record))
  {
    hide Decodes, RecordSpec, EncodeText;
    AcceptedDecodes(TITLE, record.title);
    if record.group != [] {
      AcceptedDecodes(GROUP, record.group);
    }
    if record.username != [] {
      AcceptedDecodes(USERNAME, record.username);
    }
    if record.url != [] {
      AcceptedDecodes(URL, record.url);
    }
  }

  lemma ActionDecodes(document: VaultDocument, r: nat, action: Action)
    requires AllDecodable(document) && r < |document.records| && PlanAction(document, r, action).Planned?
    ensures forall k :: 0 <= k < |PlanAction(document, r, action).records| ==>
              PlansDecodable(PlanAction(document, r, action).records[k].fields)
  {
    hide Decodes, EditedFields, EncodeEdits, IsProtected, CountType, Moved;
    var fields := document.records[r].fields;
    var kept := KeptAll(document.records);
    match action
    case Patch(edits) => PatchDecodes(fields, edits, document.version);
    case Protect => EditedDecodes(fields, [Replacement(PROTECTED, Some([1]))]);
    case Unprotect => EditedDecodes(fields, [Replacement(PROTECTED, None)]);
    case Move(position) => MovedAt(kept, r, position);
    case Delete =>
  }

  lemma CommandDecodes(document: VaultDocument, command: Command, handle: nat)
    requires AllDecodable(document) && PlanCommand(document, command, handle).Planned?
    ensures forall k :: 0 <= k < |PlanCommand(document, command, handle).records| ==>
              PlansDecodable(PlanCommand(document, command, handle).records[k].fields)
  {
    hide PlanAction, NewRecordFields, NewRecordAccepted, Decodes, FindRecord;
    match command
    case Add(record) => NewDecodes(record);
    case On(handle, action) => ActionDecodes(document, FindRecord(document.records, handle, 0).value, action);
  }

  /** Every accepted command, whatever identity an added record has, keeps the view of every record exact. */
  lemma CommandViewsExactly(document: VaultDocument, command: Command, handle: nat, revision: nat)
    requires AllDecodable(document) && PlanCommand(document, command, handle).Planned?
    ensures var fork := Fork(document, PlanCommand(document, command, handle).records, revision);
            AllDecodable(fork) && ViewsExactly(fork)
  {
    hide PlanCommand, Remap, Decodes, ViewsExactly;
    CommandDecodes(document, command, handle);
    var planned := PlanCommand(document, command, handle).records;
    var fork := Fork(document, planned, revision);
    forall r | 0 <= r < |planned|
      ensures Decodable(fork.records[r].fields)
    {
      assert PlansDecodable(planned[r].fields);
    }
    DecodableViews(fork);
  }

  /** The text a view shows for one type: the first field of that type if it decodes clean, and nothing otherwise. */
  ghost predicate ShowsText(fields: seq<RawField>, code: Byte, shown: Bytes)
    requires Viewed(code)
  {
    && (forall k :: 0 <= k < |fields| && FirstAt(fields, code, k) ==>
          shown == if CleanText(code, fields[k].payload) then fields[k].payload else [])
    && (!Has(fields, code) ==> shown == [])
  }

  predicate CleanText(code: Byte, payload: Bytes)
    requires Viewed(code)
  {
    Utf8.AcceptedText(payload) && (code == TITLE ==> payload != [])
  }

  lemma TextShown(fields: seq<RawField>, code: Byte)
    requires Viewed(code) && PublicText(fields, code).Ok?
    ensures ShowsText(fields, code, PublicText(fields, code).value)
  {
    hide FirstOf, Utf8.AcceptedText;
    forall k | 0 <= k < |fields| && FirstAt(fields, code, k)
      ensures PublicText(fields, code).value
           == if CleanText(code, fields[k].payload) then fields[k].payload else []
    {
      FirstOfIsFirst(fields, code, k);
    }
  }

  /**
   What a view carries: handle and revision, for each of the four types the text of its first field, and
   whether the record is protected.
   */
  lemma ViewShowsExactly(record: RawRecord, revision: nat)
    requires ViewOf(record, revision).Ok?
    ensures var view := ViewOf(record, revision).value;
            && view.handle == record.handle && view.revision == revision
            && ShowsText(record.fields, 0x03, view.title) && ShowsText(record.fields, 0x02, view.group)
            && ShowsText(record.fields, 0x04, view.username) && ShowsText(record.fields, 0x0D, view.url)
            && (view.protected <==> Marked(record.fields))
  {
    hide PublicText, ShowsText, IsProtected, Marked;
    TextShown(record.fields, TITLE);
    TextShown(record.fields, GROUP);
    TextShown(record.fields, USERNAME);
    TextShown(record.fields, URL);
    ProtectedIsMarked(record.fields);
  }

  /** The record a command answers for. */
  function Answers(command: Command, next: nat): nat {
    match command
    case Add(_) => next
    case On(handle, _) => handle
  }

  lemma AnswerIsPlanned(document: VaultDocument, command: Command, next: nat)
    requires PlanCommand(document, command, next).Planned? && !(command.On? && command.action.Delete?)
    ensures var planned := PlanCommand(document, command, next).records;
            exists k :: 0 <= k < |planned| && planned[k].handle == Answers(command, next)
  {
    hide EditedFields, EncodeEdits, IsProtected, CountType, Moved, NewRecordFields, NewRecordAccepted, RetainAll;
    var planned := PlanCommand(document, command, next).records;
    match command
    case Add(record) => assert planned[|document.records|].handle == next;
    case On(handle, action) =>
      var r := FindRecord(document.records, handle, 0).value;
      if action.Move? {
        MovedAt(KeptAll(document.records), r, action.position);
        assert planned[action.position].handle == handle;
      } else {
        assert planned[r].handle == handle;
      }
  }

  /**
   An accepted command other than a deletion has changed the document, and the call then fails exactly
   when one of the four texts of the record it answers for is too long.
   */
  lemma AnswerFailsExactly(s: State, expected: nat, command: Command)
    requires AllDecodable(s.document) && EditStep(s, expected, command).1.Done?
    requires !(command.On? && command.action.Delete?)
    ensures var after := EditStep(s, expected, command).0.document;
            var found := FindRecord(after.records, Answers(command, s.next), 0);
            && found.Some? && after.revision == s.next
            && (SessionView(after, Answers(command, s.next)).Err? <==> Unviewable(after.records[found.value].fields))
  {
    hide PlanCommand, Remap, Decodes, ViewOf, Unviewable, Renumber;
    CommandViewsExactly(s.document, command, s.next, s.next);
    AnswerIsPlanned(s.document, command, s.next);
    var planned := PlanCommand(s.document, command, s.next).records;
    var after := EditStep(s, expected, command).0.document;
    var k :| 0 <= k < |planned| && planned[k].handle == Answers(command, s.next);
    assert after.records[k].handle == Answers(command, s.next);
  }

  /** Over every run of requests on an opened vault, a view fails exactly when one of its texts is too long. */
  lemma {:induction false} RunViewsExactly(s: State, requests: seq<Request>)
    requires WellKept(s) && AllDecodable(s.document)
    ensures AllDecodable(Run(s, requests).document) && ViewsExactly(Run(s, requests).document)
    decreases |requests|
  {
    hide WellKept, AllDecodable, ViewsExactly, Step;
    DecodableViews(s.document);
    if requests != [] {
      StepKeepsWell(s, requests[0]);
      StepDecodes(s, requests[0]);
      RunViewsExactly(Step(s, requests[0]).0, requests[1..]);
    }
  }

  lemma StepDecodes(s: State, request: Request)
    requires WellKept(s) && AllDecodable(s.document)
    ensures AllDecodable(Step(s, request).0.document)
  {
    hide PlanCommand, Replay, Adopt, DocumentsEqual, AllDecodable, Fork, HandlesDistinct;
    match request
    case Edit(expected, command) =>
      if Step(s, request).1.Done? {
        CommandViewsExactly(s.document, command, s.next, s.next);
      }
    case FinishSave(reread) =>
      if Step(s, request).1.Done? {
        FinishSaveKeepsView(s, reread);
      }
    case _ =>
  }

  /** Whether adding a record is committed and then fails can be read off the texts it is given. */
  lemma AddedViewExactly(record: NewRecord)
    ensures Unviewable(Renumber(NewRecordFields(record))) <==>
              || |record.title| > TEXT_BOUND || |record.group| > TEXT_BOUND
              || |record.username| > TEXT_BOUND || |record.url| > TEXT_BOUND
  {
    hide FirstOf, NewRecordFields;
    NewRecordReadsBack(record, TITLE);
    NewRecordReadsBack(record, GROUP);
    NewRecordReadsBack(record, USERNAME);
    NewRecordReadsBack(record, URL);
  }

  lemma {:induction false} PlainText(s: Bytes)
    requires forall i :: 0 <= i < |s| ==> s[i] == 0x61
    ensures Utf8.AcceptedText(s)
  {
    if s != [] {
      PlainText(s[1..]);
    }
  }

  /** A title one byte longer than the bound, and otherwise nothing remarkable. */
  function LongTitle(uuid: Block): NewRecord {
    NewRecord(uuid, seq(TEXT_BOUND + 1, _ => 0x61), [0x61], [], [], [])
  }

  /** Such a record is accepted into every document, and its view then fails. */
  lemma LongTitleIsAddedAndFails(document: VaultDocument, uuid: Block, handle: nat, revision: nat)
    ensures PlanCommand(document, Add(LongTitle(uuid)), handle).Planned?
    ensures var fork := Fork(document, PlanCommand(document, Add(LongTitle(uuid)), handle).records, revision);
            && |fork.records| == |document.records| + 1
            && fork.records[|document.records|].handle == handle
            && ViewOf(fork.records[|document.records|], revision).Err?
  {
    hide Utf8.AcceptedText, NewRecordFields, FirstOf, KeptAll, Remap;
    var record := LongTitle(uuid);
    PlainText(record.title);
    PlainText(record.password);
    NewRecordReadsBack(record, TITLE);
    var fields := Renumber(NewRecordFields(record));
    assert DecodeField(Record, RecordSpec(TITLE).value, TITLE, record.title, TEXT_BOUND) == Err(MaxDecodedText);
    assert PublicText(fields, TITLE).Err?;
  }

  // ---------------------------------------------------------------- and no way out

  predicate TextsFit(section: Section, fields: seq<RawField>, i: nat, maxText: nat)
    requires i <= |fields|
  {
    forall k :: i <= k < |fields| && TextField(section, fields[k].typeCode) ==> |fields[k].payload| <= maxText
  }

  predicate TextField(section: Section, code: Byte) {
    SpecOf(section, code).Some? && SpecOf(section, code).value.kind.TextKind?
  }

  lemma {:induction false} CheckedTextsFit(
    section: Section, ordinal: Option<nat>, fields: seq<RawField>, i: nat, version: nat, maxText: nat, total: nat)
    requires i <= |fields| && CheckFrom(section, ordinal, fields, i, version, maxText, total).Ok?
    ensures TextsFit(section, fields, i, maxText)
    decreases |fields| - i
  {
    hide SpecOf, DecodeField;
    if i < |fields| {
      var head := CheckField(section, ordinal, fields[i], Seen(fields, i), version, maxText, total);
      CheckedTextsFit(section, ordinal, fields, i + 1, version, maxText, head.value.total);
    }
  }

  lemma {:induction false} CheckedRecordsFit(
    records: seq<seq<RawField>>, r: nat, version: nat, maxText: nat, total: nat)
    requires r <= |records| && CheckRecordsFrom(records, r, version, maxText, total).Ok?
    ensures forall k :: r <= k < |records| ==> TextsFit(Record, records[k], 0, maxText)
    decreases |records| - r
  {
    hide CheckFrom, TextsFit, EndsWithEnd, MandatoryPresent, GroupsComplete;
    if r < |records| {
      var head := CheckRecord(records[r], r, version, maxText, total);
      CheckedTextsFit(Record, Some(r), records[r], 0, version, maxText, total);
      CheckedRecordsFit(records, r + 1, version, maxText, head.value.total);
    }
  }

  /** A document with a record that cannot be viewed is refused by every save. */
  lemma UnviewableIsUnsaveable(document: VaultDocument, limits: ResourceLimits, r: nat)
    requires limits.Valid() && r < |document.records| && Unviewable(document.records[r].fields)
    ensures CheckDocument(document, limits).Err?
  {
    hide FirstOf, CheckRecordsFrom, CheckFrom, CheckVersion, CheckShapeFrom, StoredMatches, OrdinalsMatch, TextsFit;
    if CheckDocument(document, limits).Ok? {
      var lists, maxText := FieldLists(document.records), limits.maxDecodedText;
      var head := CheckFrom(Header, None, document.header, 0, document.version, maxText, 0);
      CheckedRecordsFit(lists, 0, document.version, maxText, head.value.total);
      assert TextsFit(Record, lists[r], 0, maxText);
      TooLongFails(lists[r], maxText);
    }
  }

  lemma TooLongFails(fields: seq<RawField>, maxText: nat)
    requires TextsFit(Record, fields, 0, maxText) && maxText <= TEXT_BOUND
    ensures !Unviewable(fields)
  {
    hide FirstOf;
    forall code | Viewed(code) && FirstOf(fields, code).Some?
      ensures |FirstOf(fields, code).value.payload| <= TEXT_BOUND
    {
      var f := FirstOf(fields, code).value;
      var k :| 0 <= k < |fields| && fields[k] == f;
      assert TextField(Record, fields[k].typeCode);
    }
    assert Viewed(TITLE) && Viewed(GROUP) && Viewed(USERNAME) && Viewed(URL);
  }
}
