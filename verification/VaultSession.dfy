/**
 The session object itself: its fields, the loops that rebuild a revision and remap warning
 coordinates through dictionaries, and one method per request, each tied to `Sessions.Step`.
 */
module VaultSessions {
  import opened Basics
  import opened Schema
  import opened Documents
  import opened Validation
  import opened Revisions
  import opened Edits
  import opened Commands
  import opened Histories
  import opened Sessions
  import opened Guards
  import opened Views

  /** No field object of a record is planned twice. */
  ghost predicate OriginsDistinct(fields: seq<PlannedField>) {
    forall k, l :: 0 <= k < l < |fields| && fields[k].origin.Some? ==> fields[k].origin != fields[l].origin
  }

  ghost predicate Forkable(planned: seq<PlannedRecord>) {
    DistinctSources(planned) && forall r :: 0 <= r < |planned| ==> OriginsDistinct(planned[r].fields)
  }

  // ---------------------------------------------------------------- the fork, as its loops build it

  /** The dictionary from old field coordinates to new ones, for the first `n` records and `m` fields of the next. */
  ghost predicate Locates(planned: seq<PlannedRecord>, n: nat, m: nat, remapped: map<(nat, nat), (nat, nat)>)
    requires n <= |planned| && (m > 0 ==> n < |planned| && m <= |planned[n].fields|)
  {
    && (forall r, k :: 0 <= r < n && 0 <= k < |planned[r].fields| ==> Located(planned, r, k, remapped))
    && (forall k :: 0 <= k < m ==> Located(planned, n, k, remapped))
    && (forall at :: at in remapped ==> Explains(planned, n, m, at, remapped[at]))
  }

  predicate Located(planned: seq<PlannedRecord>, r: nat, k: nat, remapped: map<(nat, nat), (nat, nat)>)
    requires r < |planned| && k < |planned[r].fields|
  {
    planned[r].source.Some? && planned[r].fields[k].origin.Some? ==>
      var at := (planned[r].source.value, planned[r].fields[k].origin.value);
      at in remapped && remapped[at] == (r, k)
  }

  predicate Explains(planned: seq<PlannedRecord>, n: nat, m: nat, at: (nat, nat), to: (nat, nat)) {
    && to.0 < |planned| && to.1 < |planned[to.0].fields|
    && (to.0 < n || (to.0 == n && to.1 < m))
    && planned[to.0].source == Some(at.0) && planned[to.0].fields[to.1].origin == Some(at.1)
  }

  lemma LocatesAgrees(planned: seq<PlannedRecord>, remapped: map<(nat, nat), (nat, nat)>, record: nat, field: nat)
    requires Forkable(planned) && Locates(planned, |planned|, 0, remapped)
    ensures NewLocation(planned, record, field) == if (record, field) in remapped then Some(remapped[(record, field)])
                                                   else None
  {
    hide OriginIndex, SourceIndex;
    var r := SourceIndex(planned, record, 0);
    if r.Some? {
      var k := OriginIndex(planned[r.value].fields, field, 0);
      assert k.Some? ==> Located(planned, r.value, k.value, remapped);
    }
    if (record, field) in remapped {
      var to := remapped[(record, field)];
      assert Explains(planned, |planned|, 0, (record, field), to);
      assert planned[to.0].source == Some(record);
      assert r.Some? && r.value == to.0;
      assert planned[to.0].fields[to.1].origin == Some(field);
    }
  }

  method ForkDocument(document: VaultDocument, planned: seq<PlannedRecord>, revision: nat) returns (fork: VaultDocument)
    requires Forkable(planned)
    ensures fork == Fork(document, planned, revision)
  {
    hide Locates, Remap;
    var remapped: map<(nat, nat), (nat, nat)> := map[];
    var records: seq<RawRecord> := [];
    var r := 0;
    LocatesNothing(planned);
    while r < |planned|
      invariant 0 <= r <= |planned| && |records| == r
      invariant forall q :: 0 <= q < r ==> records[q] == ForkRecord(planned[q], q)
      invariant Locates(planned, r, 0, remapped)
    {
      var fields;
      fields, remapped := CopyFields(planned, r, remapped);
      records := records + [RawRecord(fields, r, planned[r].handle)];
      r := r + 1;
    }
    var warnings := RemapWarnings(document, planned, remapped);
    fork := VaultDocument(document.version, document.header, records, revision, warnings);
  }

  lemma LocatesNothing(planned: seq<PlannedRecord>)
    ensures Locates(planned, 0, 0, map[])
  {
  }

  method CopyFields(planned: seq<PlannedRecord>, r: nat, known: map<(nat, nat), (nat, nat)>)
    returns (fields: seq<RawField>, remapped: map<(nat, nat), (nat, nat)>)
    requires Forkable(planned) && r < |planned| && Locates(planned, r, 0, known)
    ensures fields == Renumber(planned[r].fields)
    ensures Locates(planned, r + 1, 0, remapped)
  {
    hide Locates, OriginsDistinct;
    fields, remapped := [], known;
    var k := 0;
    while k < |planned[r].fields|
      invariant 0 <= k <= |planned[r].fields|
      invariant |fields| == k && forall l :: 0 <= l < k ==> fields[l] == Renumber(planned[r].fields)[l]
      invariant Locates(planned, r, k, remapped)
    {
      var raw := planned[r].fields[k];
      LocatesOneMore(planned, r, k, remapped);
      if planned[r].source.Some? && raw.origin.Some? {
        remapped := remapped[(planned[r].source.value, raw.origin.value) := (r, k)];
      }
      fields := fields + [RawField(raw.typeCode, raw.payload, k, raw.classification)];
      k := k + 1;
    }
    LocatesNextRecord(planned, r, remapped);
  }

  lemma LocatesOneMore(planned: seq<PlannedRecord>, r: nat, k: nat, remapped: map<(nat, nat), (nat, nat)>)
    requires Forkable(planned) && r < |planned| && k < |planned[r].fields| && Locates(planned, r, k, remapped)
    ensures Locates(planned, r, k + 1,
              if planned[r].source.Some? && planned[r].fields[k].origin.Some?
              then remapped[(planned[r].source.value, planned[r].fields[k].origin.value) := (r, k)] else remapped)
  {
    hide Located, Explains;
    var located := planned[r].source.Some? && planned[r].fields[k].origin.Some?;
    var after := if located
                 then remapped[(planned[r].source.value, planned[r].fields[k].origin.value) := (r, k)] else remapped;
    forall q, l | (0 <= q < r && 0 <= l < |planned[q].fields|) || (q == r && 0 <= l < k)
      ensures Located(planned, q, l, after)
    {
      LocatedStays(planned, r, k, q, l, remapped);
    }
    LocatedNow(planned, r, k, remapped);
    forall at | at in after
      ensures Explains(planned, r, k + 1, at, after[at])
    {
      ExplainsStays(planned, r, k, at, remapped);
    }
  }

  lemma LocatedStays(planned: seq<PlannedRecord>, r: nat, k: nat, q: nat, l: nat, remapped: map<(nat, nat), (nat, nat)>)
    requires Forkable(planned) && r < |planned| && k < |planned[r].fields|
    requires q < |planned| && l < |planned[q].fields| && (q < r || (q == r && l < k))
    requires Located(planned, q, l, remapped)
    ensures Located(planned, q, l,
              if planned[r].source.Some? && planned[r].fields[k].origin.Some?
              then remapped[(planned[r].source.value, planned[r].fields[k].origin.value) := (r, k)] else remapped)
  {
    assert OriginsDistinct(planned[r].fields);
  }

  lemma LocatedNow(planned: seq<PlannedRecord>, r: nat, k: nat, remapped: map<(nat, nat), (nat, nat)>)
    requires r < |planned| && k < |planned[r].fields|
    ensures Located(planned, r, k,
              if planned[r].source.Some? && planned[r].fields[k].origin.Some?
              then remapped[(planned[r].source.value, planned[r].fields[k].origin.value) := (r, k)] else remapped)
  {
  }

  lemma ExplainsStays(
    planned: seq<PlannedRecord>, r: nat, k: nat, at: (nat, nat), remapped: map<(nat, nat), (nat, nat)>)
    requires r < |planned| && k < |planned[r].fields|
    requires at in remapped ==> Explains(planned, r, k, at, remapped[at])
    ensures var after := if planned[r].source.Some? && planned[r].fields[k].origin.Some?
                         then remapped[(planned[r].source.value, planned[r].fields[k].origin.value) := (r, k)]
                         else remapped;
            at in after ==> Explains(planned, r, k + 1, at, after[at])
  {
  }

  lemma LocatesNextRecord(planned: seq<PlannedRecord>, r: nat, remapped: map<(nat, nat), (nat, nat)>)
    requires r < |planned| && Locates(planned, r, |planned[r].fields|, remapped)
    ensures Locates(planned, r + 1, 0, remapped)
  {
    hide Located;
  }

  method RemapWarning(
    document: VaultDocument, planned: seq<PlannedRecord>, remapped: map<(nat, nat), (nat, nat)>, warning: Warning)
    returns (revised: seq<Warning>)
    requires Forkable(planned) && Locates(planned, |planned|, 0, remapped)
    ensures revised == RemapOne(document, planned, warning)
  {
    hide Locates, Forkable, Resolves, NewLocation;
    if warning.recordOrdinal.None? {
      return [warning];
    }
    if Resolves(document, warning) {
      LocatesAgrees(planned, remapped, warning.recordOrdinal.value, warning.fieldOrdinal);
      if (warning.recordOrdinal.value, warning.fieldOrdinal) in remapped {
        var location := remapped[(warning.recordOrdinal.value, warning.fieldOrdinal)];
        return [Warning(warning.code, Some(location.0), location.1, warning.typeCode)];
      }
    }
    return [];
  }

  method RemapWarnings(document: VaultDocument, planned: seq<PlannedRecord>, remapped: map<(nat, nat), (nat, nat)>)
    returns (revised: seq<Warning>)
    requires Forkable(planned) && Locates(planned, |planned|, 0, remapped)
    ensures revised == Remap(document, planned, document.warnings)
  {
    hide Locates, Forkable, RemapOne;
    revised := [];
    var i := 0;
    ghost var whole := Remap(document, planned, document.warnings);
    assert document.warnings[0..] == document.warnings;
    while i < |document.warnings|
      invariant 0 <= i <= |document.warnings|
      invariant whole == revised + Remap(document, planned, document.warnings[i..])
    {
      assert document.warnings[i..][1..] == document.warnings[i + 1..];
      var kept := RemapWarning(document, planned, remapped, document.warnings[i]);
      revised := revised + kept;
      i := i + 1;
    }
    assert Remap(document, planned, document.warnings[i..]) == [];
  }

  // ---------------------------------------------------------------- every plan can be forked

  lemma {:induction false} InPlaceOrigins(fields: seq<RawField>, replacements: seq<Replacement>, n: nat)
    requires n <= |fields|
    ensures OriginsDistinct(InPlace(fields, replacements, n))
    ensures forall k ::
              0 <= k < |InPlace(fields, replacements, n)| && InPlace(fields, replacements, n)[k].origin.Some? ==>
              InPlace(fields, replacements, n)[k].origin.value < n
  {
    hide FindReplacement, Seen;
    if n > 0 {
      InPlaceOrigins(fields, replacements, n - 1);
    }
  }

  lemma {:induction false} ExtrasFresh(fields: seq<RawField>, replacements: seq<Replacement>)
    ensures forall k :: 0 <= k < |Extras(fields, replacements)| ==> Extras(fields, replacements)[k].origin.None?
  {
    hide Has;
    if replacements != [] {
      ExtrasFresh(fields, replacements[1..]);
    }
  }

  lemma EditedOrigins(fields: seq<RawField>, replacements: seq<Replacement>)
    ensures OriginsDistinct(EditedFields(fields, replacements))
  {
    hide InPlace, Extras, FirstEnd;
    InPlaceOrigins(fields, replacements, |fields|);
    ExtrasFresh(fields, replacements);
    var planned, extras := InPlace(fields, replacements, |fields|), Extras(fields, replacements);
    var at := FirstEnd(planned);
    var after := planned[..at] + extras + planned[at..];
    assert forall m :: at <= m < at + |extras| ==> after[m] == extras[m - at];
    forall k, l | 0 <= k < l < |after| && after[k].origin.Some?
      ensures after[k].origin != after[l].origin
    {
      assert after[l].origin.Some? ==> after[l] == planned[if l < at then l else l - |extras|];
      assert after[k] == planned[if k < at then k else k - |extras|];
    }
  }

  lemma KeptForkable(records: seq<RawRecord>)
    ensures Forkable(KeptAll(records))
  {
  }

  lemma NewOrigins(record: NewRecord)
    ensures OriginsDistinct(NewRecordFields(record))
  {
  }

  lemma ActionForkable(document: VaultDocument, r: nat, action: Action)
    requires r < |document.records| && PlanAction(document, r, action).Planned?
    ensures Forkable(PlanAction(document, r, action).records)
  {
    hide CountType, IsProtected, Moved, RecordSpec, EditedFields, EncodeEdits, OriginsDistinct;
    KeptForkable(document.records);
    var kept := KeptAll(document.records);
    var fields := document.records[r].fields;
    match action
    case Patch(edits) =>
      EditedOrigins(fields, EncodeEdits(fields, edits, [], document.version).value);
    case Move(position) =>
      MovedAt(kept, r, position);
    case Delete =>
      var after := kept[..r] + kept[r + 1..];
      assert forall k :: 0 <= k < |after| ==> after[k] == kept[if k < r then k else k + 1];
    case Protect =>
      EditedOrigins(fields, [Replacement(PROTECTED, Some([1]))]);
    case Unprotect =>
      EditedOrigins(fields, [Replacement(PROTECTED, None)]);
  }

  lemma PlanForkable(document: VaultDocument, command: Command, next: nat)
    requires PlanCommand(document, command, next).Planned?
    ensures Forkable(PlanCommand(document, command, next).records)
  {
    hide PlanAction, NewRecordFields, NewRecordAccepted, OriginsDistinct;
    match command
    case Add(record) =>
      KeptForkable(document.records);
      NewOrigins(record);
    case On(handle, action) =>
      ActionForkable(document, FindRecord(document.records, handle, 0).value, action);
  }

  // ---------------------------------------------------------------- the object

  class VaultSession {
    var document: VaultDocument
    var original: VaultDocument
    var changes: seq<Change>
    var saving: Option<VaultDocument>
    var suspended: bool
    var locked: bool
    var next: nat

    function Holds(): State
      reads this
    {
      State(document, original, changes, saving, locked, suspended, next)
    }

    /** Bind one authenticated document as the first revision; `resumed` sessions come from a pending artifact. */
    constructor (source: VaultDocument, resumed: bool, supply: nat)
      requires HandlesDistinct(source.records) && source.revision < supply
      requires forall r :: 0 <= r < |source.records| ==> source.records[r].handle < supply
      ensures Holds() == State(source, source, [], None, false, resumed, supply)
      ensures WellKept(Holds())
    {
      document, original, changes, saving := source, source, [], None;
      suspended, locked, next := resumed, false, supply;
    }

    /** Reject mutation while locked, on a stale revision, or while a save holds the snapshot. */
    method RequireMutable(expected: nat) returns (outcome: Outcome)
      ensures outcome == if locked then Denied(Locked)
                         else if expected != document.revision then Denied(StaleRevision)
                         else if saving.Some? then Denied(SaveInProgress) else Done
    {
      if locked {
        return Denied(Locked);
      }
      if expected != document.revision {
        return Denied(StaleRevision);
      }
      if saving.Some? {
        return Denied(SaveInProgress);
      }
      return Done;
    }

    /** Open, current, not saving, and the document allows the command. */
    ghost predicate Takes(expected: nat, command: Command)
      reads this
    {
      !locked && saving.None? && expected == document.revision && Allowed(document, command)
    }

    method Commit(planned: seq<PlannedRecord>, command: Command)
      requires Forkable(planned)
      modifies this
      ensures Holds() == old(Holds()).(document := Fork(old(document), planned, old(next)),
                                       changes := old(changes) + [Change(command, old(next))], next := old(next) + 1)
    {
      var revised := ForkDocument(document, planned, next);
      document := revised;
      changes := changes + [Change(command, next)];
      next := next + 1;
    }

    method ApplyPatch(handle: nat, expected: nat, edits: seq<Edit>) returns (outcome: Outcome, view: Result<RecordView>)
      modifies this
      ensures (Holds(), outcome) == EditStep(old(Holds()), expected, On(handle, Patch(edits)))
      ensures outcome.Done? <==>
                old(Takes(expected, On(handle, Patch(edits))))
      ensures outcome.Done? ==> view == SessionView(document, handle)
    {
      hide Allowed, EncodeEdits, Fork, EditedFields, KeptAll;
      CommandAcceptedExactly(Holds(), expected, On(handle, Patch(edits)));
      view := Err(InvalidField);
      outcome := RequireMutable(expected);
      if !outcome.Done? {
        return;
      }
      var found := FindRecord(document.records, handle, 0);
      if found.None? {
        return Denied(UnknownHandle), Err(InvalidField);
      }
      var record := document.records[found.value];
      if IsProtected(record.fields) {
        return Denied(ProtectedRecord), Err(InvalidField);
      }
      if edits == [] {
        return Denied(EmptyPatch), Err(InvalidField);
      }
      var replacements := BuildReplacements(record.fields, edits, document.version);
      if replacements.None? {
        return Denied(RefusedEdit), Err(InvalidField);
      }
      var fields := PlanEditedFields(record.fields, replacements.value);
      PlanForkable(document, On(handle, Patch(edits)), next);
      Commit(KeptAll(document.records)[found.value := Rewritten(record, found.value, fields)],
             On(handle, Patch(edits)));
      view := SessionView(document, handle);
    }

    method AddRecord(record: NewRecord, expected: nat) returns (outcome: Outcome, view: Result<RecordView>)
      modifies this
      ensures (Holds(), outcome) == EditStep(old(Holds()), expected, Add(record))
      ensures outcome.Done? <==>
                old(Takes(expected, Add(record)))
      ensures outcome.Done? ==> view == SessionView(document, old(next))
    {
      hide Allowed, Fork, KeptAll, NewRecordFields, NewRecordAccepted;
      CommandAcceptedExactly(Holds(), expected, Add(record));
      view := Err(InvalidField);
      outcome := RequireMutable(expected);
      if !outcome.Done? {
        return;
      }
      if !NewRecordAccepted(record) {
        return Denied(InvalidRecord), Err(InvalidField);
      }
      PlanForkable(document, Add(record), next);
      var handle := next;
      Commit(KeptAll(document.records) + [PlannedRecord(None, NewRecordFields(record), next)], Add(record));
      view := SessionView(document, handle);
    }

    method MoveRecord(handle: nat, expected: nat, position: int) returns (outcome: Outcome, view: Result<RecordView>)
      modifies this
      ensures (Holds(), outcome) == EditStep(old(Holds()), expected, On(handle, Move(position)))
      ensures outcome.Done? <==>
                old(Takes(expected, On(handle, Move(position))))
      ensures outcome.Done? ==> view == SessionView(document, handle)
    {
      hide Allowed, Fork;
      CommandAcceptedExactly(Holds(), expected, On(handle, Move(position)));
      view := Err(InvalidField);
      outcome := RequireMutable(expected);
      if !outcome.Done? {
        return;
      }
      var found := FindRecord(document.records, handle, 0);
      if found.None? {
        return Denied(UnknownHandle), Err(InvalidField);
      }
      if !(0 <= position < |document.records|) {
        return Denied(OrdinalOutOfRange), Err(InvalidField);
      }
      if position == found.value {
        return Denied(SameOrdinal), Err(InvalidField);
      }
      var planned := KeptAll(document.records);
      var moving := planned[found.value];
      planned := planned[..found.value] + planned[found.value + 1..];
      planned := planned[..position] + [moving] + planned[position..];
      PlanForkable(document, On(handle, Move(position)), next);
      Commit(planned, On(handle, Move(position)));
      view := SessionView(document, handle);
    }

    method DeleteRecord(handle: nat, expected: nat) returns (outcome: Outcome)
      modifies this
      ensures (Holds(), outcome) == EditStep(old(Holds()), expected, On(handle, Delete))
      ensures outcome.Done? <==>
                old(Takes(expected, On(handle, Delete)))
    {
      hide Allowed, Fork;
      CommandAcceptedExactly(Holds(), expected, On(handle, Delete));
      outcome := RequireMutable(expected);
      if !outcome.Done? {
        return;
      }
      var found := FindRecord(document.records, handle, 0);
      if found.None? {
        return Denied(UnknownHandle);
      }
      if IsProtected(document.records[found.value].fields) {
        return Denied(ProtectedRecord);
      }
      var kept := KeptAll(document.records);
      PlanForkable(document, On(handle, Delete), next);
      Commit(kept[..found.value] + kept[found.value + 1..], On(handle, Delete));
    }

    method ChangeProtection(handle: nat, expected: nat, on: bool) returns (outcome: Outcome, view: Result<RecordView>)
      modifies this
      ensures (Holds(), outcome) == EditStep(old(Holds()), expected, On(handle, if on then Protect else Unprotect))
      ensures outcome.Done? <==>
                old(Takes(expected, On(handle, if on then Protect else Unprotect)))
      ensures outcome.Done? ==> view == SessionView(document, handle)
    {
      hide Allowed, Fork, EditedFields, KeptAll, CountType;
      CommandAcceptedExactly(Holds(), expected, On(handle, if on then Protect else Unprotect));
      view := Err(InvalidField);
      outcome := RequireMutable(expected);
      if !outcome.Done? {
        return;
      }
      var found := FindRecord(document.records, handle, 0);
      if found.None? {
        return Denied(UnknownHandle), Err(InvalidField);
      }
      var record := document.records[found.value];
      if IsProtected(record.fields) == on {
        return Denied(if on then AlreadyProtected else NotProtected), Err(InvalidField);
      }
      if CountType(record.fields, PROTECTED) > 1 {
        return Denied(AmbiguousProtection), Err(InvalidField);
      }
      if on && RecordSpec(PROTECTED).value.since > document.version {
        return Denied(UnsupportedVersionLevel), Err(InvalidField);
      }
      var fields := PlanEditedFields(record.fields, [Replacement(PROTECTED, if on then Some([1]) else None)]);
      var command := On(handle, if on then Protect else Unprotect);
      PlanForkable(document, command, next);
      Commit(KeptAll(document.records)[found.value := Rewritten(record, found.value, fields)], command);
      view := SessionView(document, handle);
    }

    method BeginSave() returns (outcome: Outcome)
      modifies this
      ensures (Holds(), outcome) == Step(old(Holds()), PrepareSave)
      ensures outcome.Done? <==> old(!locked && saving.None?)
      ensures outcome.Done? ==> saving == Some(document)
    {
      if locked {
        return Denied(Locked);
      }
      if saving.Some? {
        return Denied(SaveInProgress);
      }
      saving := Some(document);
      return Done;
    }

    method CompleteSave(reread: VaultDocument) returns (outcome: Outcome)
      modifies this
      ensures (Holds(), outcome) == Step(old(Holds()), FinishSave(reread))
      ensures outcome.Done? <==> old(!locked && saving.Some? && DocumentsEqual(saving.value, reread))
      ensures outcome.Done? ==> changes == [] && saving.None? && suspended == old(suspended)
      ensures outcome.Done? && old(WellKept(Holds())) ==> document == old(document)
    {
      if locked {
        return Denied(Locked);
      }
      if saving.None? || !DocumentsEqual(saving.value, reread) {
        return Misused;
      }
      AdoptIsIdentity(reread, saving.value);
      var saved := Adopt(reread, saving.value);
      document, original := saved, saved;
      saving := None;
      changes := [];
      return Done;
    }

    method CancelSave() returns (outcome: Outcome)
      modifies this
      ensures (Holds(), outcome) == Step(old(Holds()), AbortSave)
    {
      if locked {
        return Denied(Locked);
      }
      if saving.None? {
        return Misused;
      }
      saving := None;
      return Done;
    }

    method CloseSuspended() returns (outcome: Outcome)
      modifies this
      ensures (Holds(), outcome) == Step(old(Holds()), FinishSuspend)
    {
      if locked {
        return Denied(Locked);
      }
      if saving.None? {
        return Misused;
      }
      saving := None;
      CloseResources();
      return Done;
    }

    method ForgetSuspended() returns (outcome: Outcome)
      modifies this
      ensures (Holds(), outcome) == Step(old(Holds()), ForgetPending)
      ensures !suspended && (outcome.Done? <==> old(suspended))
    {
      if !suspended {
        return Misused;
      }
      suspended := false;
      return Done;
    }

    method LockClean() returns (outcome: Outcome)
      modifies this
      ensures (Holds(), outcome) == Step(old(Holds()), Lock)
      ensures outcome.Done? <==> old(!locked && saving.None? && changes == [])
    {
      if locked {
        return Denied(Locked);
      }
      if saving.Some? {
        return Denied(SaveInProgress);
      }
      if changes != [] {
        return Denied(UnsavedChanges);
      }
      CloseResources();
      return Done;
    }

    method Discard() returns (outcome: Outcome)
      modifies this
      ensures (Holds(), outcome) == Step(old(Holds()), DiscardAndLock)
      ensures outcome.Done? <==> !old(locked)
      ensures locked && document == old(document) && suspended == old(suspended)
    {
      if locked {
        return Denied(Locked);
      }
      saving := None;
      CloseResources();
      return Done;
    }

    method CloseResources()
      modifies this
      ensures Holds() == old(Holds()).(locked := true, changes := [])
    {
      locked := true;
      changes := [];
    }
  }
}
