/**
 When a session accepts a command, said of the document and the command alone, and what protection
 promises: a protected record stays as it is, over every run, until its protection is lifted.
 */
module Guards {
  import opened Basics
  import opened Schema
  import opened Documents
  import opened Validation
  import opened Revisions
  import opened Edits
  import opened Commands
  import opened Histories
  import opened Sessions
  import Utf8

  // ---------------------------------------------------------------- when a command is accepted

  /** The first field of a type decides, and only a single nonzero byte protects. */
  ghost predicate Marked(fields: seq<RawField>) {
    exists k :: 0 <= k < |fields| && FirstAt(fields, 0x15, k) && |fields[k].payload| == 1 && fields[k].payload[0] != 0
  }

  predicate FirstAt(fields: seq<RawField>, code: Byte, k: nat)
    requires k < |fields|
  {
    fields[k].typeCode == code && forall j :: 0 <= j < k ==> fields[j].typeCode != code
  }

  lemma {:induction false} FirstOfIsFirst(fields: seq<RawField>, code: Byte, k: nat)
    requires k < |fields| && FirstAt(fields, code, k)
    ensures FirstOf(fields, code) == Some(fields[k])
  {
    if k > 0 {
      FirstOfIsFirst(fields[1..], code, k - 1);
    }
  }

  lemma {:induction false} SomeIsFirst(fields: seq<RawField>, code: Byte, k: nat)
    requires k < |fields| && fields[k].typeCode == code
    ensures exists j :: 0 <= j <= k && FirstAt(fields, code, j)
    decreases k
  {
    if j :| 0 <= j < k && fields[j].typeCode == code {
      SomeIsFirst(fields, code, j);
    } else {
      assert FirstAt(fields, code, k);
    }
  }

  lemma ProtectedIsMarked(fields: seq<RawField>)
    ensures IsProtected(fields) <==> Marked(fields)
  {
    hide FirstOf;
    if k :| 0 <= k < |fields| && FirstAt(fields, 0x15, k) {
      FirstOfIsFirst(fields, 0x15, k);
      forall j | 0 <= j < |fields| && FirstAt(fields, 0x15, j)
        ensures j == k
      {
      }
    } else if IsProtected(fields) {
      var i :| 0 <= i < |fields| && fields[i].typeCode == 0x15;
      SomeIsFirst(fields, 0x15, i);
    }
  }

  /** At most one field of a type, said by position. */
  predicate AtMostOne(fields: seq<RawField>, code: Byte) {
    forall i, j :: 0 <= i < j < |fields| && fields[i].typeCode == code ==> fields[j].typeCode != code
  }

  lemma {:induction false} CountIsFew(fields: seq<RawField>, code: Byte)
    ensures CountType(fields, code) <= 1 <==> AtMostOne(fields, code)
    ensures CountType(fields, code) == 0 <==> !Has(fields, code)
  {
    if fields != [] {
      CountIsFew(fields[1..], code);
      assert forall i :: 0 < i < |fields| ==> fields[i] == fields[1..][i - 1];
      if fields[0].typeCode == code && CountType(fields[1..], code) > 0 {
        var i :| 0 <= i < |fields[1..]| && fields[1..][i].typeCode == code;
        assert fields[i + 1].typeCode == code;
      }
      if !AtMostOne(fields[1..], code) {
        var i, j :| 0 <= i < j < |fields[1..]| && fields[1..][i].typeCode == code && fields[1..][j].typeCode == code;
        assert fields[i + 1].typeCode == code && fields[j + 1].typeCode == code;
      }
    }
  }

  /** A text the field takes: well-formed UTF-8 without a mark, and present if the field must be. */
  predicate TextTaken(spec: FieldSpec, value: Bytes) {
    Utf8.AcceptedText(value) && (spec.Mandatory() ==> value != [])
  }

  predicate BytesTaken(spec: FieldSpec, value: Bytes) {
    spec.fixedLength.None? || |value| == spec.fixedLength.value
  }

  /** A number fits the width its field has on the wire, in the record if that already chose between two widths. */
  ghost predicate NumberTaken(spec: FieldSpec, fields: seq<RawField>, code: Byte, number: int) {
    if spec.alternateLength.Some? && Has(fields, code)
    then exists k :: 0 <= k < |fields| && FirstAt(fields, code, k) && NumberFits(spec, number, |fields[k].payload|)
    else spec.fixedLength.Some? && 0 <= number < Pow256(spec.fixedLength.value)
  }

  predicate NumberFits(spec: FieldSpec, number: int, width: nat) {
    (Some(width) == spec.fixedLength || Some(width) == spec.alternateLength) && 0 <= number < Pow256(width)
  }

  /** What a typed edit may do to a field of this specification. */
  ghost predicate EditTaken(spec: FieldSpec, fields: seq<RawField>, edit: Edit) {
    match edit
    case SetText(_, value) => spec.kind.TextKind? && !spec.IsSecret() && TextTaken(spec, value)
    case SetSecret(_, value) =>
      spec.IsSecret()
      && ((spec.kind.TextKind? && TextTaken(spec, value)) || (spec.kind.BinaryKind? && BytesTaken(spec, value)))
    case SetBytes(_, value) => spec.kind.BinaryKind? && !spec.IsSecret() && BytesTaken(spec, value)
    case SetUint32(code, number) => spec.kind.Uint32Kind? && NumberTaken(spec, fields, code, number)
    case SetTime(code, number) => spec.kind.TimeKind? && NumberTaken(spec, fields, code, number)
    case RemoveField(code) => !spec.Mandatory() && Has(fields, code)
  }

  ghost predicate EditAllowed(fields: seq<RawField>, edit: Edit, version: nat) {
    && RecordSpec(edit.code).Some? && AtMostOne(fields, edit.code)
    && var spec := RecordSpec(edit.code).value;
       && spec.editable && !spec.kind.OpaqueKind? && !spec.kind.EmptyKind?
       && (!edit.RemoveField? ==> spec.since <= version)
       && EditTaken(spec, fields, edit)
  }

  lemma WidthTaken(spec: FieldSpec, fields: seq<RawField>, code: Byte, number: int)
    ensures NumberTaken(spec, fields, code, number) <==>
              var width := WireWidth(spec, FirstOf(fields, code));
              width.Some? && EncodeNumber(number, width.value).Some?
  {
    hide FirstOf, Pow256, LittleEndian;
    if Has(fields, code) {
      var i :| 0 <= i < |fields| && fields[i].typeCode == code;
      SomeIsFirst(fields, code, i);
      var k :| 0 <= k < |fields| && FirstAt(fields, code, k);
      FirstOfIsFirst(fields, code, k);
      forall j | 0 <= j < |fields| && FirstAt(fields, code, j)
        ensures j == k
      {
      }
    }
  }

  /** An edit is refused exactly when its field may not be edited so, in this record and at this format level. */
  lemma EditAcceptedExactly(fields: seq<RawField>, edit: Edit, version: nat)
    ensures EncodeEdit(fields, edit, version).Some? <==> EditAllowed(fields, edit, version)
  {
    hide FirstOf, RecordSpec, CountType, Pow256, LittleEndian, NumberTaken, EncodeNumber, Utf8.AcceptedText;
    CountIsFew(fields, edit.code);
    if Editable(edit.code) {
      EditableFacts(edit.code);
      var spec := RecordSpec(edit.code).value;
      match edit
      case SetUint32(code, number) => WidthTaken(spec, fields, code, number);
      case SetTime(code, number) => WidthTaken(spec, fields, code, number);
      case _ =>
    }
  }

  /** What an accepted edit puts into the record: the bytes given, or the number in the width of the field. */
  lemma EncodedPayload(fields: seq<RawField>, edit: Edit, version: nat)
    requires EncodeEdit(fields, edit, version).Some?
    ensures var replacement := EncodeEdit(fields, edit, version).value;
            && replacement.code == edit.code
            && match edit
               case SetText(_, value) => replacement.payload == Some(value)
               case SetSecret(_, value) => replacement.payload == Some(value)
               case SetBytes(_, value) => replacement.payload == Some(value)
               case SetUint32(_, number) => replacement.payload.Some? && Carries(replacement.payload.value, number)
               case SetTime(_, number) => replacement.payload.Some? && Carries(replacement.payload.value, number)
               case RemoveField(_) => replacement.payload.None?
    ensures var replacement := EncodeEdit(fields, edit, version).value;
            (edit.SetUint32? || edit.SetTime?) && FirstOf(fields, edit.code).Some?
              && RecordSpec(edit.code).value.alternateLength.Some? ==>
              |replacement.payload.value| == |FirstOf(fields, edit.code).value.payload|
  {
    hide FirstOf, RecordSpec, CountType, Pow256, LittleEndian, FromLittleEndian, Utf8.AcceptedText;
    EditableFacts(edit.code);
    if edit.SetUint32? || edit.SetTime? {
      var width := WireWidth(RecordSpec(edit.code).value, FirstOf(fields, edit.code)).value.value;
      LittleEndianRoundTrip(edit.number, width);
    }
  }

  predicate Carries(payload: Bytes, number: int) {
    FromLittleEndian(payload) == number
  }

  predicate CodesDistinct(edits: seq<Edit>) {
    forall i, j :: 0 <= i < j < |edits| ==> edits[i].code != edits[j].code
  }

  lemma {:induction false} PatchAcceptedExactly(
    fields: seq<RawField>, edits: seq<Edit>, done: seq<Replacement>, version: nat)
    ensures EncodeEdits(fields, edits, done, version).Some? <==>
              && CodesDistinct(edits)
              && forall i :: 0 <= i < |edits| ==>
                   EditAllowed(fields, edits[i], version) && !InReplacements(done, edits[i].code)
    decreases |edits|
  {
    hide EncodeEdit, EditAllowed;
    if edits != [] {
      EditAcceptedExactly(fields, edits[0], version);
      var next := EncodeEdit(fields, edits[0], version);
      if next.Some? {
        EncodedCode(fields, edits[0], version);
        PatchAcceptedExactly(fields, edits[1..], done + [next.value], version);
        InReplacementsSnoc(done, next.value);
        var tail := edits[1..];
        assert forall i :: 0 < i < |edits| ==> edits[i] == tail[i - 1];
        assert forall i :: 0 <= i < |tail| ==> tail[i] == edits[i + 1];
      }
    }
  }

  lemma EncodedCode(fields: seq<RawField>, edit: Edit, version: nat)
    requires EncodeEdit(fields, edit, version).Some?
    ensures EncodeEdit(fields, edit, version).value.code == edit.code
  {
    hide FirstOf, RecordSpec, CountType, EncodeValue;
  }

  lemma InReplacementsSnoc(done: seq<Replacement>, last: Replacement)
    ensures forall code: Byte ::
              InReplacements(done + [last], code) <==> InReplacements(done, code) || code == last.code
  {
    forall code: Byte
      ensures InReplacements(done + [last], code) <==> InReplacements(done, code) || code == last.code
    {
      if i :| 0 <= i < |done| && done[i].code == code {
        assert (done + [last])[i].code == code;
      }
      assert (done + [last])[|done|] == last;
    }
  }

  /** What an accepted action needs of the record it names, in the document it is applied to. */
  ghost predicate ActionAllowed(document: VaultDocument, r: nat, action: Action)
    requires r < |document.records|
  {
    var fields := document.records[r].fields;
    match action
    case Patch(edits) =>
      && !Marked(fields) && edits != [] && CodesDistinct(edits)
      && forall i :: 0 <= i < |edits| ==> EditAllowed(fields, edits[i], document.version)
    case Move(position) => 0 <= position < |document.records| && position != r
    case Delete => !Marked(fields)
    case Protect => !Marked(fields) && AtMostOne(fields, 0x15) && document.version >= 0x0308
    case Unprotect => Marked(fields) && AtMostOne(fields, 0x15)
  }

  predicate RecordAllowed(record: NewRecord) {
    && Utf8.AcceptedText(record.title) && record.title != []
    && Utf8.AcceptedText(record.password) && record.password != []
    && Utf8.AcceptedText(record.group) && Utf8.AcceptedText(record.username) && Utf8.AcceptedText(record.url)
  }

  ghost predicate Allowed(document: VaultDocument, command: Command) {
    match command
    case Add(record) => RecordAllowed(record)
    case On(handle, action) =>
      exists r :: 0 <= r < |document.records| && NamesAt(document, handle, r) && ActionAllowed(document, r, action)
  }

  /** The record a handle names. */
  predicate NamesAt(document: VaultDocument, handle: nat, r: nat)
    requires r < |document.records|
  {
    document.records[r].handle == handle && forall q :: 0 <= q < r ==> document.records[q].handle != handle
  }

  lemma {:induction false} FindsNamed(records: seq<RawRecord>, handle: nat, from: nat)
    requires from <= |records|
    ensures var found := FindRecord(records, handle, from);
            found.Some? ==> forall q :: from <= q < found.value ==> records[q].handle != handle
    decreases |records| - from
  {
    if from < |records| && records[from].handle != handle {
      FindsNamed(records, handle, from + 1);
    }
  }

  lemma ActionAcceptedExactly(document: VaultDocument, r: nat, action: Action)
    requires r < |document.records|
    ensures PlanAction(document, r, action).Planned? <==> ActionAllowed(document, r, action)
  {
    hide EditedFields, EncodeEdits, CountType, IsProtected, Marked, EditAllowed, AtMostOne, Moved;
    var fields := document.records[r].fields;
    ProtectedIsMarked(fields);
    CountIsFew(fields, 0x15);
    match action
    case Patch(edits) => PatchAcceptedExactly(fields, edits, [], document.version);
    case _ =>
  }

  /**
   A session that is open, current and not saving accepts a command exactly when the document allows it;
   any other session refuses every command.
   */
  lemma CommandAcceptedExactly(s: State, expected: nat, command: Command)
    ensures EditStep(s, expected, command).1.Done? <==>
              && !s.locked && s.saving.None? && expected == s.document.revision && Allowed(s.document, command)
  {
    hide PlanAction, ActionAllowed, Fork, NewRecordFields, KeptAll;
    match command
    case Add(record) =>
      NewRecordAcceptedExactly(record);
    case On(handle, action) =>
      var found := FindRecord(s.document.records, handle, 0);
      FindsNamed(s.document.records, handle, 0);
      if found.Some? {
        ActionAcceptedExactly(s.document, found.value, action);
        assert NamesAt(s.document, handle, found.value);
      }
  }

  lemma NewRecordAcceptedExactly(record: NewRecord)
    ensures NewRecordAccepted(record) <==> RecordAllowed(record)
  {
    hide Utf8.ScalarLength;
  }

  // ---------------------------------------------------------------- what protection promises

  /** A protected record can only be moved or have its protection lifted. */
  lemma ProtectionForbids(document: VaultDocument, r: nat, action: Action)
    requires r < |document.records| && Marked(document.records[r].fields)
    requires PlanAction(document, r, action).Planned?
    ensures action.Move? || action.Unprotect?
  {
    hide Marked;
    ActionAcceptedExactly(document, r, action);
  }

  /** Every field knows its place, as it does in every opened document and in every revision made from one. */
  predicate Numbered(document: VaultDocument) {
    forall r :: 0 <= r < |document.records| ==> OrdinalsMatch(document.records[r].fields)
  }

  /** The record with this handle is in the document with these fields. */
  ghost predicate Stands(document: VaultDocument, handle: nat, fields: seq<RawField>) {
    exists r :: 0 <= r < |document.records| && StandsAt(document, handle, fields, r)
  }

  predicate StandsAt(document: VaultDocument, handle: nat, fields: seq<RawField>, r: nat)
    requires r < |document.records|
  {
    document.records[r].handle == handle && document.records[r].fields == fields
  }

  lemma ForkIsNumbered(document: VaultDocument, planned: seq<PlannedRecord>, revision: nat)
    ensures Numbered(Fork(document, planned, revision))
  {
    hide Remap;
  }

  lemma KeptStands(document: VaultDocument, planned: seq<PlannedRecord>, revision: nat, s: nat, at: nat)
    requires Numbered(document) && s < |document.records| && at < |planned|
    requires planned[at] == Kept(document.records, s)
    ensures Stands(Fork(document, planned, revision), document.records[s].handle, document.records[s].fields)
  {
    hide Remap;
    var record := document.records[s];
    assert Renumber(RetainAll(record.fields)) == record.fields;
    assert StandsAt(Fork(document, planned, revision), record.handle, record.fields, at);
  }

  /** Where an action leaves the records it does not rewrite. */
  function LandsAt(action: Action, r: nat, s: nat): nat {
    match action
    case Move(position) => if position >= 0 then MovedTo(r, position, s) else s
    case Delete => if s < r then s else if s > r then s - 1 else s
    case _ => s
  }

  lemma OthersPlanned(document: VaultDocument, r: nat, action: Action, s: nat)
    requires r < |document.records| && s < |document.records|
    requires PlanAction(document, r, action).Planned? && (s != r || action.Move?)
    ensures |PlanAction(document, r, action).records| == |document.records| - (if action.Delete? then 1 else 0)
    ensures LandsAt(action, r, s) < |PlanAction(document, r, action).records|
    ensures PlanAction(document, r, action).records[LandsAt(action, r, s)] == Kept(document.records, s)
  {
    hide IsProtected, EncodeEdits, EditedFields, CountType, RecordSpec, Moved;
    var kept := KeptAll(document.records);
    match action
    case Move(position) =>
      MovedAt(kept, r, position);
      assert MoveSource(r, position, MovedTo(r, position, s)) == s;
    case _ => assert kept[s] == Kept(document.records, s);
  }

  /** An added record comes last, and every record there was stays where it is. */
  lemma AddKeepsAll(document: VaultDocument, record: NewRecord, handle: nat, revision: nat)
    requires Numbered(document) && PlanCommand(document, Add(record), handle).Planned?
    ensures var fork := Fork(document, PlanCommand(document, Add(record), handle).records, revision);
            && |fork.records| == |document.records| + 1
            && fork.records[|document.records|].handle == handle
            && fork.records[|document.records|].fields == Renumber(NewRecordFields(record))
            && forall s :: 0 <= s < |document.records| ==>
                 StandsAt(fork, document.records[s].handle, document.records[s].fields, s)
  {
    hide Remap, NewRecordFields, NewRecordAccepted;
    var planned := PlanCommand(document, Add(record), handle).records;
    forall s | 0 <= s < |document.records|
      ensures ForkRecord(planned[s], s).handle == document.records[s].handle
      ensures ForkRecord(planned[s], s).fields == document.records[s].fields
    {
      assert planned[s] == Kept(document.records, s);
      assert Renumber(RetainAll(document.records[s].fields)) == document.records[s].fields;
    }
  }

  /** The fields of a new record, in the order it is written with. */
  lemma NewRecordOrder(record: NewRecord)
    requires record.group != [] && record.username != [] && record.url != []
    ensures var fields := Renumber(NewRecordFields(record));
            && |fields| == 7 && OrdinalsMatch(fields)
            && fields[0].typeCode == 0x01 && fields[0].payload == record.uuid
            && fields[1].typeCode == 0x02 && fields[1].payload == record.group
            && fields[2].typeCode == 0x03 && fields[2].payload == record.title
            && fields[3].typeCode == 0x04 && fields[3].payload == record.username
            && fields[4].typeCode == 0x06 && fields[4].payload == record.password
            && fields[5].typeCode == 0x0D && fields[5].payload == record.url
            && fields[6].typeCode == 0xFF && fields[6].payload == []
  {
  }

  /** An accepted command lifts the protection of this record. */
  predicate Lifts(s: State, request: Request, handle: nat) {
    request.Edit? && request.command == On(handle, Unprotect) && Step(s, request).1.Done?
  }

  lemma EditKeepsProtected(s: State, expected: nat, command: Command, handle: nat, fields: seq<RawField>)
    requires WellKept(s) && Numbered(s.document) && Stands(s.document, handle, fields) && Marked(fields)
    requires EditStep(s, expected, command).1.Done? && command != On(handle, Unprotect)
    ensures Stands(EditStep(s, expected, command).0.document, handle, fields)
  {
    hide PlanAction, Fork, NewRecordFields, NewRecordAccepted, Marked, Replay, Stands;
    var q := StandingAt(s.document, handle, fields);
    match command
    case Add(record) =>
      KeptStands(s.document, PlanCommand(s.document, command, s.next).records, s.next, q, q);
    case On(named, action) =>
      var r := FindRecord(s.document.records, named, 0).value;
      if r == q {
        ProtectionForbids(s.document, r, action);
      }
      OthersPlanned(s.document, r, action, q);
      KeptStands(s.document, PlanAction(s.document, r, action).records, s.next, q, LandsAt(action, r, q));
  }

  lemma StandingAt(document: VaultDocument, handle: nat, fields: seq<RawField>) returns (r: nat)
    requires Stands(document, handle, fields)
    ensures r < |document.records| && StandsAt(document, handle, fields, r)
  {
    r :| 0 <= r < |document.records| && StandsAt(document, handle, fields, r);
  }

  lemma StepKeepsProtected(s: State, request: Request, handle: nat, fields: seq<RawField>)
    requires WellKept(s) && Numbered(s.document) && Stands(s.document, handle, fields) && Marked(fields)
    requires !Lifts(s, request, handle)
    ensures Numbered(Step(s, request).0.document) && Stands(Step(s, request).0.document, handle, fields)
  {
    hide PlanCommand, Replay, Adopt, DocumentsEqual, Fork, HandlesDistinct, Stands, Marked, Numbered;
    match request
    case Edit(expected, command) =>
      if Step(s, request).1.Done? {
        EditKeepsProtected(s, expected, command, handle, fields);
        ForkIsNumbered(s.document, PlanCommand(s.document, command, s.next).records, s.next);
      }
    case FinishSave(reread) =>
      if Step(s, request).1.Done? {
        FinishSaveKeepsView(s, reread);
      }
    case _ =>
  }

  /** No request of the run lifts the protection of this record. */
  predicate NeverLifted(s: State, requests: seq<Request>, handle: nat)
    decreases |requests|
  {
    requests != [] ==> !Lifts(s, requests[0], handle) && NeverLifted(Step(s, requests[0]).0, requests[1..], handle)
  }

  /** Over every run, a protected record stays in the document, field for field, until its protection is lifted. */
  lemma {:induction false} RunKeepsProtected(
    s: State, requests: seq<Request>, handle: nat, fields: seq<RawField>)
    requires WellKept(s) && Numbered(s.document) && Stands(s.document, handle, fields) && Marked(fields)
    requires NeverLifted(s, requests, handle)
    ensures Stands(Run(s, requests).document, handle, fields)
    decreases |requests|
  {
    hide WellKept, Numbered, Stands, Marked, Step, Lifts;
    if requests != [] {
      StepKeepsWell(s, requests[0]);
      StepKeepsProtected(s, requests[0], handle, fields);
      RunKeepsProtected(Step(s, requests[0]).0, requests[1..], handle, fields);
    }
  }
}
