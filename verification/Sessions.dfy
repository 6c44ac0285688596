/**
 One unlocked vault as a state: the copy-on-write document, the log of unsaved changes, the frozen
 save snapshot and the terminal lock. `Step` answers one request; the lemmas say what every step
 and every run of requests keeps.
 */
module Sessions {
  import opened Basics
  import opened Schema
  import opened Documents
  import opened Validation
  import opened Revisions
  import opened Edits
  import opened Commands
  import opened Histories

  datatype Change = Change(command: Command, revision: nat)

  /** What the session object holds; `next` is the supply of fresh handles and revision tokens. */
  datatype State = State(
    document: VaultDocument, original: VaultDocument, changes: seq<Change>, saving: Option<VaultDocument>,
    locked: bool, suspended: bool, next: nat)
  {
    predicate Dirty() { changes != [] || suspended }
  }

  datatype Request =
    | Edit(expected: nat, command: Command)
    | PrepareSave
    | FinishSave(reread: VaultDocument)
    | AbortSave
    | FinishSuspend
    | ForgetPending
    | Lock
    | DiscardAndLock

  datatype Outcome = Done | Denied(reason: Refusal) | Misused

  predicate HandlesDistinct(records: seq<RawRecord>) {
    forall i, j :: 0 <= i < j < |records| ==> records[i].handle != records[j].handle
  }

  /** Apply a log of accepted commands to a document, each with the token it was given. */
  function Replay(document: VaultDocument, changes: seq<Change>): VaultDocument {
    if changes == [] then document
    else Applied(Replay(document, changes[..|changes| - 1]), changes[|changes| - 1])
  }

  function Applied(before: VaultDocument, change: Change): VaultDocument {
    var plan := PlanCommand(before, change.command, change.revision);
    if plan.Planned? then Fork(before, plan.records, change.revision) else before
  }

  /** The session's own bookkeeping, kept by every request. */
  predicate WellKept(s: State) {
    && HandlesDistinct(s.document.records)
    && (forall r :: 0 <= r < |s.document.records| ==> s.document.records[r].handle < s.next)
    && s.document.revision < s.next
    && (s.saving.Some? ==> s.saving.value == s.document && !s.locked)
    && (forall i, j :: 0 <= i < j < |s.changes| ==> s.changes[i].revision < s.changes[j].revision)
    && (s.changes != [] ==> s.changes[|s.changes| - 1].revision == s.document.revision)
    && (if s.locked then s.changes == [] else s.document == Replay(s.original, s.changes))
  }

  /** The reread document takes over the handles and the revision of the snapshot it was compared with. */
  function Adopt(reread: VaultDocument, snapshot: VaultDocument): VaultDocument
    requires |reread.records| == |snapshot.records|
  {
    VaultDocument(
      reread.version,
      reread.header,
      seq(|reread.records|, i requires 0 <= i < |reread.records| =>
        RawRecord(reread.records[i].fields, reread.records[i].ordinal, snapshot.records[i].handle)),
      snapshot.revision,
      reread.warnings)
  }

  function Ended(s: State): State {
    s.(locked := true, changes := [], saving := None)
  }

  function EditStep(s: State, expected: nat, command: Command): (State, Outcome) {
    if s.locked then (s, Denied(Locked))
    else if expected != s.document.revision then (s, Denied(StaleRevision))
    else if s.saving.Some? then (s, Denied(SaveInProgress))
    else
      var plan := PlanCommand(s.document, command, s.next);
      if plan.Refused? then (s, Denied(plan.reason))
      else
        var fork := Fork(s.document, plan.records, s.next);
        (s.(document := fork, changes := s.changes + [Change(command, s.next)], next := s.next + 1), Done)
  }

  function Step(s: State, request: Request): (State, Outcome) {
    match request
    case Edit(expected, command) => EditStep(s, expected, command)
    case PrepareSave =>
      if s.locked then (s, Denied(Locked))
      else if s.saving.Some? then (s, Denied(SaveInProgress))
      else (s.(saving := Some(s.document)), Done)
    case FinishSave(reread) =>
      if s.locked then (s, Denied(Locked))
      else if s.saving.None? || !DocumentsEqual(s.saving.value, reread) then (s, Misused)
      else
        var saved := Adopt(reread, s.saving.value);
        (s.(document := saved, original := saved, saving := None, changes := []), Done)
    case AbortSave =>
      if s.locked then (s, Denied(Locked)) else if s.saving.None? then (s, Misused) else (s.(saving := None), Done)
    case FinishSuspend =>
      if s.locked then (s, Denied(Locked)) else if s.saving.None? then (s, Misused) else (Ended(s), Done)
    case ForgetPending =>
      if s.suspended then (s.(suspended := false), Done) else (s, Misused)
    case Lock =>
      if s.locked then (s, Denied(Locked))
      else if s.saving.Some? then (s, Denied(SaveInProgress))
      else if s.changes != [] then (s, Denied(UnsavedChanges))
      else (Ended(s), Done)
    case DiscardAndLock =>
      if s.locked then (s, Denied(Locked)) else (Ended(s), Done)
  }

  // ---------------------------------------------------------------- one request

  predicate PlanHandlesDistinct(planned: seq<PlannedRecord>) {
    forall i, j :: 0 <= i < j < |planned| ==> planned[i].handle != planned[j].handle
  }

  predicate PlanHandlesWithin(planned: seq<PlannedRecord>, bound: nat) {
    forall i :: 0 <= i < |planned| ==> planned[i].handle < bound
  }

  lemma MovedHandles(kept: seq<PlannedRecord>, from: nat, to: nat, bound: nat)
    requires PlanHandlesDistinct(kept) && PlanHandlesWithin(kept, bound) && from < |kept| && to < |kept|
    ensures PlanHandlesDistinct(Moved(kept, from, to)) && PlanHandlesWithin(Moved(kept, from, to), bound)
  {
    hide Moved;
    MovedAt(kept, from, to);
  }

  lemma RemovedHandles(kept: seq<PlannedRecord>, r: nat, bound: nat)
    requires PlanHandlesDistinct(kept) && PlanHandlesWithin(kept, bound) && r < |kept|
    ensures PlanHandlesDistinct(kept[..r] + kept[r + 1..]) && PlanHandlesWithin(kept[..r] + kept[r + 1..], bound)
  {
  }

  lemma RewrittenHandles(kept: seq<PlannedRecord>, r: nat, p: PlannedRecord, bound: nat)
    requires PlanHandlesDistinct(kept) && PlanHandlesWithin(kept, bound) && r < |kept| && p.handle == kept[r].handle
    ensures PlanHandlesDistinct(kept[r := p]) && PlanHandlesWithin(kept[r := p], bound)
  {
  }

  lemma HandlesOfAction(document: VaultDocument, r: nat, action: Action, bound: nat)
    requires HandlesDistinct(document.records) && forall k :: 0 <= k < |document.records| ==>
               document.records[k].handle < bound
    requires r < |document.records| && PlanAction(document, r, action).Planned?
    ensures PlanHandlesDistinct(PlanAction(document, r, action).records)
    ensures PlanHandlesWithin(PlanAction(document, r, action).records, bound)
  {
    hide EditedFields, EncodeEdits, CountType, IsProtected, RecordSpec, RetainAll, Moved, PlanHandlesDistinct,
         PlanHandlesWithin;
    var kept := KeptAll(document.records);
    KeptHandles(document.records, bound);
    match action
    case Move(position) => MovedHandles(kept, r, position, bound);
    case Delete => RemovedHandles(kept, r, bound);
    case _ =>
      var after := PlanAction(document, r, action).records;
      RewrittenHandles(kept, r, after[r], bound);
  }

  lemma KeptHandles(records: seq<RawRecord>, bound: nat)
    requires HandlesDistinct(records) && forall k :: 0 <= k < |records| ==> records[k].handle < bound
    ensures PlanHandlesDistinct(KeptAll(records)) && PlanHandlesWithin(KeptAll(records), bound)
  {
  }

  lemma HandlesOfPlan(document: VaultDocument, command: Command, next: nat)
    requires HandlesDistinct(document.records) && forall r :: 0 <= r < |document.records| ==>
               document.records[r].handle < next
    requires PlanCommand(document, command, next).Planned?
    ensures var planned := PlanCommand(document, command, next).records;
            PlanHandlesDistinct(planned) && PlanHandlesWithin(planned, next + 1)
  {
    hide PlanAction, NewRecordFields, NewRecordAccepted, KeptAll;
    match command
    case Add(record) => KeptHandles(document.records, next);
    case On(handle, action) => HandlesOfAction(document, FindRecord(document.records, handle, 0).value, action, next);
  }

  lemma EditKeepsWell(s: State, expected: nat, command: Command)
    requires WellKept(s)
    ensures WellKept(EditStep(s, expected, command).0)
  {
    hide PlanCommand, Remap, ForkRecord, Replay;
    var (after, outcome) := EditStep(s, expected, command);
    if outcome.Done? {
      HandlesOfPlan(s.document, command, s.next);
      ReplaySnoc(s.original, s.changes, Change(command, s.next));
      assert forall r :: 0 <= r < |after.document.records| ==>
        after.document.records[r].handle
            == PlanCommand(s.document, command, s.next).records[r].handle by { HandleOfFork(); }
    }
  }

  lemma HandleOfFork()
    ensures forall p: PlannedRecord, r: nat :: ForkRecord(p, r).handle == p.handle
  {
  }

  lemma ReplaySnoc(document: VaultDocument, changes: seq<Change>, last: Change)
    ensures Replay(document, changes + [last]) == Applied(Replay(document, changes), last)
  {
    hide Applied;
    assert (changes + [last])[..|changes|] == changes;
  }

  /** Adopting the identities of an exactly equal document gives that document back. */
  lemma AdoptIsIdentity(reread: VaultDocument, snapshot: VaultDocument)
    requires DocumentsEqual(snapshot, reread)
    ensures Adopt(reread, snapshot) == snapshot
  {
    var adopted := Adopt(reread, snapshot);
    forall i | 0 <= i < |adopted.records|
      ensures adopted.records[i] == snapshot.records[i]
    {
    }
  }

  lemma StepKeepsWell(s: State, request: Request)
    requires WellKept(s)
    ensures WellKept(Step(s, request).0)
  {
    hide EditStep, Replay, Adopt, DocumentsEqual;
    match request
    case Edit(expected, command) => EditKeepsWell(s, expected, command);
    case FinishSave(reread) =>
      if !s.locked && s.saving.Some? && DocumentsEqual(s.saving.value, reread) {
        AdoptIsIdentity(reread, s.saving.value);
        ReplayNothing(s.document);
      }
    case _ =>
  }

  lemma ReplayNothing(document: VaultDocument)
    ensures Replay(document, []) == document
  {
  }

  /** Finishing a save shows nothing new: same records, same handles, same revision; only the log empties. */
  lemma FinishSaveKeepsView(s: State, reread: VaultDocument)
    requires WellKept(s) && Step(s, FinishSave(reread)).1.Done?
    ensures Step(s, FinishSave(reread)).0 == s.(original := s.document, saving := None, changes := [])
  {
    hide Replay, HandlesDistinct, Adopt, DocumentsEqual;
    AdoptIsIdentity(reread, s.saving.value);
  }

  /** A refused request changes nothing, and an accepted edit consumes the revision it was based on. */
  lemma RefusalsChangeNothing(s: State, request: Request)
    requires WellKept(s)
    ensures !Step(s, request).1.Done? ==> Step(s, request).0 == s
    ensures request.Edit? && Step(s, request).1.Done? ==>
              && request.expected == s.document.revision < Step(s, request).0.document.revision
              && s.saving.None? && !s.locked
  {
    hide PlanCommand, Replay, Adopt, DocumentsEqual;
  }

  // ---------------------------------------------------------------- runs

  function Run(s: State, requests: seq<Request>): State
    decreases |requests|
  {
    if requests == [] then s else Run(Step(s, requests[0]).0, requests[1..])
  }

  predicate VariantsAccepted(requests: seq<Request>) {
    forall i :: 0 <= i < |requests| && requests[i].Edit? ==> VariantAccepted(requests[i].command)
  }

  lemma StepKeepsFaithful(s: State, request: Request)
    requires WellKept(s) && Faithful(s.document)
    requires request.Edit? ==> VariantAccepted(request.command)
    ensures Faithful(Step(s, request).0.document)
  {
    hide PlanCommand, Replay, Adopt, DocumentsEqual, Faithful, Fork, HandlesDistinct;
    match request
    case Edit(expected, command) =>
      if Step(s, request).1.Done? {
        CommandKeepsFaithful(s.document, command, s.next, s.next);
      }
    case FinishSave(reread) =>
      if Step(s, request).1.Done? {
        FinishSaveKeepsView(s, reread);
      }
    case _ =>
  }

  /**
   Over every run: bookkeeping holds, and stored classifications and warnings match a from-scratch
   pass, record by record.
   */
  lemma {:induction false} RunKeepsFaithful(s: State, requests: seq<Request>)
    requires WellKept(s) && Faithful(s.document) && VariantsAccepted(requests)
    ensures WellKept(Run(s, requests)) && Faithful(Run(s, requests).document)
    decreases |requests|
  {
    hide WellKept, Faithful, Step, VariantAccepted;
    if requests != [] {
      StepKeepsWell(s, requests[0]);
      StepKeepsFaithful(s, requests[0]);
      RunKeepsFaithful(Step(s, requests[0]).0, requests[1..]);
    }
  }

  /** No accepted move of the run crosses two warned records. */
  predicate Uncrossed(s: State, requests: seq<Request>)
    decreases |requests|
  {
    requests != [] ==>
      && UncrossedStep(s, requests[0])
      && Uncrossed(Step(s, requests[0]).0, requests[1..])
  }

  predicate UncrossedStep(s: State, request: Request) {
    request.Edit? && request.command.On? && request.command.action.Move? && Step(s, request).1.Done? ==>
      var from := FindRecord(s.document.records, request.command.handle, 0);
      from.Some? && request.command.action.position >= 0
      && !WarningsCross(s.document.warnings, from.value, request.command.action.position)
  }

  lemma StepKeepsConsistent(s: State, request: Request)
    requires WellKept(s) && Consistent(s.document)
    requires request.Edit? ==> VariantAccepted(request.command)
    requires UncrossedStep(s, request)
    ensures Consistent(Step(s, request).0.document)
  {
    hide Replay, Adopt, DocumentsEqual, Fork, HandlesDistinct, PlanCommand, Structured, WarningsFaithful, Ordered,
         Consistent, WarningsCross;
    ConsistentExactlyWhenOrdered(s.document);
    StepKeepsFaithful(s, request);
    match request
    case Edit(expected, command) =>
      if Step(s, request).1.Done? {
        if command.On? && command.action.Move? {
          MovePlanIgnoresToken(s.document, command, s.next);
          MoveKeepsOrderExactly(s.document, command.handle, command.action.position, s.next);
        } else {
          CommandKeepsOrder(s.document, command, s.next, s.next);
          ConsistentExactlyWhenOrdered(Step(s, request).0.document);
        }
      }
    case FinishSave(reread) =>
      if Step(s, request).1.Done? {
        FinishSaveKeepsView(s, reread);
      }
    case _ =>
  }

  lemma MovePlanIgnoresToken(document: VaultDocument, command: Command, token: nat)
    requires command.On?
    ensures PlanCommand(document, command, token) == PlanCommand(document, command, 0)
  {
    hide PlanAction, FindRecord;
  }

  /**
   A session opened on a valid vault can always save, budgets aside, as long as no move crosses two
   warned records.
   */
  lemma {:induction false} RunStaysSaveable(s: State, requests: seq<Request>, limits: ResourceLimits)
    requires WellKept(s) && Consistent(s.document) && VariantsAccepted(requests) && Uncrossed(s, requests)
    ensures var check := CheckDocument(Run(s, requests).document, limits);
            check.Ok? || IsResourceError(check.error)
    decreases |requests|
  {
    hide WellKept, Consistent, Step, VariantAccepted, CheckDocument, UncrossedStep;
    if requests == [] {
      SaveCheckIsConsistency(s.document, limits);
    } else {
      StepKeepsWell(s, requests[0]);
      StepKeepsConsistent(s, requests[0]);
      RunStaysSaveable(Step(s, requests[0]).0, requests[1..], limits);
    }
  }
}
