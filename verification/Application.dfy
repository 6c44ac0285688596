/**
 The application lifecycle over a service and sessions that may fail at any call, also after they
 have done what they were asked. Snapshots carry a phase and a generation; a ledger follows every
 accepted edit until it is live, committed, stored or given up, and says which commands can cost it.
 What the outside does is a parameter of each command, so every theorem holds for every behaviour of
 the service.
 */
module Application {
  import opened Basics

  datatype Phase = Empty | Busy | UnlockedClean | UnlockedDirty | AwaitingDecision | Locked

  /** The presentation state: what the caller sees, with the decision token when one is required. */
  datatype Snapshot = Snapshot(generation: nat, phase: Phase, dirty: bool, records: set<nat>, failed: bool,
                               token: Option<nat>)

  /**
   One authenticated session. `work` names the accepted edits that are not in the source yet;
   `resumed` says the session came from a suspended artifact that is still stored.
   */
  datatype Session = Session(work: set<nat>, changed: bool, resumed: bool, handles: seq<nat>, revision: nat) {
    predicate Dirty() { changed || resumed }

    ghost predicate Valid() {
      && (!Dirty() ==> work == {})
      && forall i, j :: 0 <= i < j < |handles| ==> handles[i] != handles[j]
    }
  }

  datatype Replacement = Replacement(create: bool, path: nat, passphrase: nat)

  datatype Decision = Decision(token: nat, prior: Snapshot, replacement: Option<Replacement>)

  datatype CloseChoice = Save | Discard | Cancel

  datatype Reply = Rejected | Accepted(snapshot: Snapshot)

  // ---------------------------------------------------------------- what the outside may do

  /**
   Opening, creating or resuming yields a session with these records, or fails before any session
   exists. `projects` says its records can be listed, `shows` that it still answers once adopted,
   and `leaves` that ending it would leave something open.
   */
  datatype OpenOutcome =
    | OpenFails
    | Opens(handles: seq<nat>, revision: nat, projects: bool, shows: bool, leaves: bool)
  {
    predicate Admits() { Opens? && projects && shows }

    /** Adopted, and failing only then. */
    predicate Hides() { Opens? && projects && !shows }

    ghost predicate Valid() {
      Opens? ==> forall i, j :: 0 <= i < j < |handles| ==> handles[i] != handles[j]
    }
  }

  /** A save is refused, published, or published with a failure reported afterwards. */
  datatype SaveOutcome = SaveFails | Saves(pendingCleared: bool) | SaveCommitted(pendingKept: bool)

  /**
   A suspension fails outright; it is published, found outdated and taken back, which also fails but
   leaves no earlier artifact; or it is published, perhaps with a failure reported afterwards.
   */
  datatype SuspendOutcome = SuspendFails | SuspendWithdrawn | Suspends | SuspendCommitted {
    predicate Stores() { Suspends? || SuspendCommitted? }
  }

  /** Ending an old session: its terminal call and the removal of its suspended artifact may each fail. */
  datatype EndOutcome = EndOutcome(terminates: bool, discardsPending: bool)

  /** An edit is refused, applied, or applied by a call that then fails while preparing its answer. */
  datatype EditOutcome =
    | EditFails
    | Edits(handles: seq<nat>, revision: nat, projects: bool)
    | AppliedThenFails(handles: seq<nat>, revision: nat)
  {
    predicate Applies() { !EditFails? }

    ghost predicate Valid() {
      Applies() ==> forall i, j :: 0 <= i < j < |handles| ==> handles[i] != handles[j]
    }
  }

  /** A session after one more applied edit. */
  function EditedSession(live: Session, edit: nat, outcome: EditOutcome): Session
    requires outcome.Applies()
  {
    Session(live.work + {edit}, true, live.resumed, outcome.handles, outcome.revision)
  }

  /**
   What a reference to an ended session remembers: whether it was resumed, and whether ending it
   left something open.
   */
  datatype Ending = Ending(resumed: bool, leftover: bool) {
    /** An ended session that was resumed still reports unsaved work and refuses to end again; another one retries. */
    predicate EndsAgain(retried: bool) { !resumed && leftover && retried }
  }

  /** A gone artifact cannot be removed after a save, so the save is reported as failed once committed. */
  function SaveMet(outcome: SaveOutcome, dangling: bool): SaveOutcome {
    if dangling && !outcome.SaveFails? then SaveCommitted(true) else outcome
  }

  /** Whether the application still names a stored artifact after a save. */
  function KeptAfter(outcome: SaveOutcome): bool {
    match outcome
    case SaveFails => true
    case Saves(pendingCleared) => !pendingCleared
    case SaveCommitted(pendingKept) => pendingKept
  }

  /** A session whose work has reached its source; a stored artifact may outlive the save. */
  function SavedSession(live: Session, outcome: SaveOutcome): Session {
    Session({}, false, live.resumed && KeptAfter(outcome), live.handles, live.revision)
  }

  // ---------------------------------------------------------------- record keys

  ghost predicate Injective(keys: map<nat, nat>) {
    forall a, b :: a in keys && b in keys && keys[a] == keys[b] ==> a == b
  }

  ghost predicate Below(keys: map<nat, nat>, bound: nat) {
    forall h :: h in keys ==> keys[h] < bound
  }

  function HandleSet(handles: seq<nat>): set<nat> {
    set i | 0 <= i < |handles| :: handles[i]
  }

  /** What was given up grew by exactly this. */
  ghost predicate GivenUp(before: set<nat>, lost: set<nat>, after: set<nat>) {
    after == before + lost
  }

  /** Giving up what is neither saved nor stored leaves nothing unaccounted for. */
  lemma WorkIsCovered(accepted: set<nat>, live: set<nat>, committed: set<nat>, stored: set<nat>, forfeited: set<nat>)
    ensures accepted <= live + committed + stored + forfeited ==>
              accepted <= committed + stored + (forfeited + (live - committed - stored))
    ensures live <= committed + stored ==> forfeited + (live - committed - stored) == forfeited
  {
  }

  class VaultApplication {
    var snapshot: Snapshot
    var session: Option<Session>
    var sourcePath: Option<nat>
    var suspended: bool
    var decision: Option<Decision>
    var generation: nat
    var recordKeys: map<nat, nat>
    var nextKey: nat
    var drafts: map<(nat, Option<nat>), nat>

    /** What is left of a session that has been ended while the private reference still names it. */
    var lingering: Option<Ending>

    /** The keys are not those of the session's records, because an edit was applied and never listed. */
    ghost var unlisted: bool

    /** The work the stored artifact holds while `suspended`, and whether that artifact still exists. */
    var artifact: set<nat>
    var intact: bool

    /** Edits the application accepted, those that reached a source file, and those given up. */
    ghost var accepted: set<nat>
    ghost var committed: set<nat>
    ghost var forfeited: set<nat>

    /** Passphrase owners handed over and not closed yet. */
    ghost var openSecrets: set<nat>

    ghost function LiveWork(): set<nat>
      reads this`session
    {
      if session.Some? then session.value.work else {}
    }

    ghost function StoredWork(): set<nat>
      reads this`suspended, this`intact, this`artifact
    {
      if suspended && intact then artifact else {}
    }

    /** The application names a stored artifact that is gone. */
    predicate Dangling()
      reads this
    {
      suspended && !intact
    }

    /** The session holds applied work behind a view that shows it as clean. */
    predicate Hidden()
      reads this
    {
      snapshot.phase.UnlockedClean? && session.Some? && session.value.Dirty()
    }

    /** No accepted edit is ever unaccounted for. */
    ghost predicate Conserved()
      reads this`session, this`suspended, this`intact, this`artifact, this`accepted, this`committed, this`forfeited
    {
      && accepted <= LiveWork() + committed + StoredWork() + forfeited
      && (session.Some? ==>
            && session.value.Valid()
            && (suspended <==> session.value.resumed)
            && (suspended ==> artifact <= session.value.work + committed))
    }

    ghost predicate LingeringAgrees()
      reads this`lingering, this`session, this`sourcePath, this`suspended
    {
      lingering.Some? ==> session.None? && sourcePath.Some? && (suspended ==> lingering.value.resumed)
    }

    /** A clean view may hide a dirty session; a dirty view never shows a clean one. */
    ghost predicate SessionAgrees(phase: Phase)
      reads this`session, this`suspended, this`sourcePath
    {
      match phase
      case Empty => session.None? && !suspended
      case Locked => session.None? && sourcePath.Some?
      case UnlockedClean => session.Some? && sourcePath.Some?
      case UnlockedDirty => session.Some? && sourcePath.Some? && session.value.Dirty()
      case _ => false
    }

    /** An unlocked view lists a record under every key, and says whether work is unsaved; any other view is blank. */
    ghost predicate Shows(view: Snapshot)
      reads this`recordKeys
    {
      match view.phase
      case UnlockedClean => view.records == recordKeys.Values && !view.dirty
      case UnlockedDirty => view.records == recordKeys.Values && view.dirty
      case AwaitingDecision => view.records == recordKeys.Values && view.dirty
      case _ => view.records == {} && !view.dirty
    }

    /** The keys are those of exactly the session's records, unless an edit was applied and never listed. */
    ghost predicate Keyed()
      reads this`recordKeys, this`session, this`unlisted
    {
      session.Some? && !unlisted ==> recordKeys.Keys == HandleSet(session.value.handles)
    }

    /** Phases, decisions, generations, drafts, record keys and listings between commands. */
    ghost predicate Settled()
      reads this
    {
      && snapshot.generation == generation
      && (if decision.Some?
          then && snapshot.phase.AwaitingDecision? && snapshot.token == Some(decision.value.token)
               && decision.value.prior.phase.UnlockedDirty? && SessionAgrees(UnlockedDirty)
          else snapshot.token.None? && SessionAgrees(snapshot.phase))
      && (snapshot.phase.AwaitingDecision? <==> decision.Some?)
      && LingeringAgrees()
      && (forall d :: d in drafts ==> d.0 == generation)
      && Injective(recordKeys) && Below(recordKeys, nextKey)
      && Shows(snapshot) && (decision.Some? ==> Shows(decision.value.prior)) && Keyed()
    }

    /** The passphrase inside a pending replacement. */
    ghost function PendingSecrets(): set<nat>
      reads this
    {
      if decision.Some? && decision.value.replacement.Some? then {decision.value.replacement.value.passphrase} else {}
    }

    ghost predicate Valid()
      reads this
    {
      Settled() && Conserved() && openSecrets == PendingSecrets()
    }

    constructor ()
      ensures Valid() && lingering.None? && snapshot == Snapshot(0, Empty, false, {}, false, None)
      ensures session.None? && !suspended && openSecrets == {} && accepted == {} && committed == {} && forfeited == {}
      ensures sourcePath.None? && !unlisted
    {
      snapshot := Snapshot(0, Empty, false, {}, false, None);
      lingering, intact, unlisted := None, false, false;
      session, sourcePath, suspended, decision := None, None, false, None;
      generation, recordKeys, nextKey, drafts := 0, map[], 1, map[];
      accepted, committed, artifact, forfeited, openSecrets := {}, {}, {}, {}, {};
    }

    // -------------------------------------------------------------- publication

    /** Publish one snapshot, consume the next generation, and void every draft. */
    method Publish(
      phase: Phase, dirty: bool, records: set<nat>, failed: bool, token: Option<nat>)
      returns (published: Snapshot)
      modifies this`drafts, this`generation, this`snapshot
      ensures drafts == map[] && generation == old(generation) + 1
      ensures published == snapshot == Snapshot(generation, phase, dirty, records, failed, token)
    {
      drafts := map[];
      generation := generation + 1;
      snapshot := Snapshot(generation, phase, dirty, records, failed, token);
      published := snapshot;
    }

    lemma ResumedIsSuspended()
      requires Valid()
      ensures session.Some? ==> (suspended <==> session.value.resumed)
    {
    }

    lemma SnapshotIsCurrent()
      requires Valid()
      ensures snapshot.generation == generation
    {
    }

    lemma LockedIsEmpty()
      requires Valid()
      ensures snapshot.phase.Locked? ==> session.None?
    {
    }

    lemma DecisionIsShown()
      requires Valid()
      ensures snapshot.phase.AwaitingDecision? ==> decision.Some? && snapshot.token == Some(decision.value.token)
    {
    }

    lemma NeverBusy()
      requires Valid()
      ensures !snapshot.phase.Busy?
    {
    }

    /**
     Every unlocked view lists exactly one record per key, and unless an applied edit was never listed the
     keys are those of exactly the session's records; a decision shows what the view before it showed.
     */
    lemma ViewListsRecords()
      requires Valid() && session.Some?
      ensures snapshot.records == recordKeys.Values && (snapshot.dirty <==> !snapshot.phase.UnlockedClean?)
      ensures !unlisted ==> forall h: nat :: h in recordKeys <==> h in session.value.handles
      ensures forall a, b :: a in recordKeys && b in recordKeys && recordKeys[a] == recordKeys[b] ==> a == b
      ensures decision.Some? ==> decision.value.prior.records == snapshot.records
    {
      if !unlisted {
        forall h: nat
          ensures h in recordKeys <==> h in session.value.handles
        {
          assert h in recordKeys <==> h in HandleSet(session.value.handles);
        }
      }
    }

    method EnterBusy(previous: Snapshot)
      modifies this`snapshot
      ensures snapshot == Snapshot(previous.generation, Busy, previous.dirty, previous.records, false, None)
    {
      snapshot := Snapshot(previous.generation, Busy, previous.dirty, previous.records, false, None);
    }

    method Restore(previous: Snapshot, failed: bool) returns (published: Snapshot)
      modifies this`drafts, this`generation, this`snapshot
      ensures drafts == map[] && generation == old(generation) + 1
      ensures published == snapshot
                == Snapshot(generation, previous.phase, previous.dirty, previous.records, failed, None)
    {
      published := Publish(previous.phase, previous.dirty, previous.records, failed, None);
    }

    /**
     Lock without a projection; with `failed`, the session is disposed of because its state can no
     longer be shown.
     */
    method EndLocked(failed: bool) returns (published: Snapshot)
      requires accepted <= LiveWork() + committed + StoredWork() + forfeited
      modifies this`forfeited, this`session, this`lingering, this`unlisted, this`recordKeys, this`drafts,
               this`generation, this`snapshot
      ensures Conserved()
      ensures session.None? && lingering.None? && recordKeys == map[] && drafts == map[] && !unlisted
      ensures generation == old(generation) + 1
      ensures Injective(recordKeys) && Below(recordKeys, nextKey)
      ensures published == snapshot == Snapshot(generation, Locked, false, {}, failed, None)
      ensures GivenUp(old(forfeited), old(LiveWork()) - committed - old(StoredWork()), forfeited)
      ensures old(LiveWork()) <= committed + old(StoredWork()) ==> forfeited == old(forfeited)
    {
      WorkIsCovered(accepted, LiveWork(), committed, StoredWork(), forfeited);
      forfeited := forfeited + (LiveWork() - committed - StoredWork());
      session, lingering, unlisted := None, None, false;
      recordKeys := map[];
      published := Publish(Locked, false, {}, failed, None);
    }

    // -------------------------------------------------------------- projections

    /** Fresh keys for every record of a candidate session; the supply advances only when it is committed. */
    method ProjectSession(handles: seq<nat>) returns (keys: map<nat, nat>)
      requires forall i, j :: 0 <= i < j < |handles| ==> handles[i] != handles[j]
      ensures keys.Keys == HandleSet(handles) && forall h :: h in keys ==> nextKey <= keys[h]
      ensures forall i :: 0 <= i < |handles| ==> handles[i] in keys && keys[handles[i]] == nextKey + i
      ensures Injective(keys) && Below(keys, nextKey + |handles|)
    {
      keys := map[];
      var index := 0;
      while index < |handles|
        invariant 0 <= index <= |handles|
        invariant keys.Keys == (set i | 0 <= i < index :: handles[i])
        invariant forall i :: 0 <= i < index ==> handles[i] in keys && keys[handles[i]] == nextKey + i
      {
        keys := keys[handles[index] := nextKey + index];
        index := index + 1;
      }
    }

    /** Known handles keep their key, new ones draw the next, removed ones disappear. */
    method RefreshProjection(handles: seq<nat>)
      requires Injective(recordKeys) && Below(recordKeys, nextKey)
      requires forall i, j :: 0 <= i < j < |handles| ==> handles[i] != handles[j]
      modifies this`recordKeys, this`nextKey
      ensures recordKeys.Keys == HandleSet(handles)
      ensures forall h :: h in recordKeys ==>
                if h in old(recordKeys) then recordKeys[h] == old(recordKeys)[h] else old(nextKey) <= recordKeys[h]
      ensures Injective(recordKeys) && Below(recordKeys, nextKey) && old(nextKey) <= nextKey
    {
      var keys: map<nat, nat> := map[];
      var index := 0;
      while index < |handles|
        invariant 0 <= index <= |handles| && old(nextKey) <= nextKey && recordKeys == old(recordKeys)
        invariant keys.Keys == (set i | 0 <= i < index :: handles[i])
        invariant forall h :: h in keys ==>
                    if h in old(recordKeys) then keys[h] == old(recordKeys)[h] else old(nextKey) <= keys[h]
        invariant Injective(keys) && Below(keys, nextKey)
      {
        var handle := handles[index];
        var key := nextKey;
        if handle in recordKeys {
          key := recordKeys[handle];
        } else {
          nextKey := nextKey + 1;
        }
        keys := keys[handle := key];
        index := index + 1;
      }
      recordKeys := keys;
    }

    /** A passphrase or password is handed over for one command. */
    method TakeSecret(secret: nat)
      requires Settled() && Conserved()
      modifies this`openSecrets
      ensures Settled() && Conserved() && openSecrets == old(openSecrets) + {secret}
    {
      openSecrets := openSecrets + {secret};
    }

    method CloseSecret(secret: nat)
      requires Settled() && Conserved()
      modifies this`openSecrets
      ensures Settled() && Conserved() && openSecrets == old(openSecrets) - {secret}
    {
      openSecrets := openSecrets - {secret};
    }

    /** Give the session's records their keys again. */
    method Relist()
      requires session.Some? && session.value.Valid() && Injective(recordKeys) && Below(recordKeys, nextKey)
      modifies this`recordKeys, this`nextKey, this`unlisted
      ensures Keyed() && !unlisted && Injective(recordKeys) && Below(recordKeys, nextKey)
      ensures KeysNeverReissued()
    {
      hide Injective, Below, HandleSet;
      RefreshProjection(session.value.handles);
      unlisted := false;
    }

    /** List the session's records again and show the session as what it is. */
    method ShowLive() returns (published: Snapshot)
      requires session.Some? && sourcePath.Some? && decision.None? && lingering.None? && Conserved()
      requires Injective(recordKeys) && Below(recordKeys, nextKey)
      modifies this`recordKeys, this`nextKey, this`drafts, this`generation, this`snapshot, this`unlisted
      ensures Settled() && Conserved() && !Hidden() && drafts == map[] && published == snapshot && Moved()
      ensures snapshot.phase == (if session.value.Dirty() then UnlockedDirty else UnlockedClean) && !snapshot.failed
      ensures !unlisted
    {
      hide Injective, Below, HandleSet, Keyed;
      Relist();
      var dirty := session.value.Dirty();
      published := Publish(if dirty then UnlockedDirty else UnlockedClean, dirty, recordKeys.Values, false, None);
    }

    /** End in the locked phase; with `failed`, because the session can no longer be shown. */
    method Shut(failed: bool) returns (published: Snapshot)
      requires sourcePath.Some? && decision.None? && Conserved()
      requires Injective(recordKeys) && Below(recordKeys, nextKey)
      modifies this
      ensures Settled() && Conserved() && !Hidden() && drafts == map[] && published == snapshot && Moved()
      ensures session.None? && lingering.None? && snapshot.phase.Locked? && snapshot.failed == failed && decision.None?
      ensures sourcePath == old(sourcePath) && !unlisted
      ensures suspended == old(suspended) && artifact == old(artifact) && intact == old(intact)
      ensures accepted == old(accepted) && committed == old(committed) && openSecrets == old(openSecrets)
      ensures GivenUp(old(forfeited), old(LiveWork()) - committed - old(StoredWork()), forfeited)
      ensures old(LiveWork()) <= committed + old(StoredWork()) ==> forfeited == old(forfeited)
    {
      hide Injective, Below, GivenUp;
      published := EndLocked(failed);
    }

    /** Make a projected candidate the active session under new keys and publish it. */
    method AdmitSession(candidate: Session) returns (published: Snapshot)
      requires candidate.Valid()
      modifies this`session, this`lingering, this`recordKeys, this`nextKey, this`drafts, this`generation,
               this`snapshot, this`unlisted
      ensures session == Some(candidate) && lingering.None? && drafts == map[] && generation == old(generation) + 1
      ensures published == snapshot && snapshot.generation == generation && snapshot.token.None? && !snapshot.failed
      ensures snapshot.phase == (if candidate.Dirty() then UnlockedDirty else UnlockedClean)
      ensures Injective(recordKeys) && Below(recordKeys, nextKey) && old(nextKey) <= nextKey
      ensures forall h :: h in recordKeys ==> old(nextKey) <= recordKeys[h]
      ensures !unlisted && Keyed() && Shows(snapshot)
    {
      hide HandleSet;
      var keys := ProjectSession(candidate.handles);
      session, lingering, unlisted := Some(candidate), None, false;
      recordKeys := keys;
      nextKey := nextKey + |candidate.handles|;
      published := Publish(if candidate.Dirty() then UnlockedDirty else UnlockedClean, candidate.Dirty(), keys.Values,
                           false, None);
    }

    /**
     A candidate that fails once adopted is ended and the prior view restored, but the private
     reference and the keys issued for it stay.
     */
    method Linger(previous: Snapshot, handles: seq<nat>, ending: Ending) returns (published: Snapshot)
      requires session.None? && forall i, j :: 0 <= i < j < |handles| ==> handles[i] != handles[j]
      modifies this`lingering, this`recordKeys, this`nextKey, this`drafts, this`generation, this`snapshot
      ensures lingering == Some(ending) && drafts == map[] && generation == old(generation) + 1
      ensures published == snapshot
                == Snapshot(generation, previous.phase, previous.dirty, previous.records, true, None)
      ensures Injective(recordKeys) && Below(recordKeys, nextKey) && old(nextKey) <= nextKey
      ensures forall h :: h in recordKeys ==> old(nextKey) <= recordKeys[h]
    {
      var keys := ProjectSession(handles);
      lingering := Some(ending);
      recordKeys := keys;
      nextKey := nextKey + |handles|;
      published := Restore(previous, true);
    }

    // -------------------------------------------------------------- guards

    predicate ActiveAt(expected: nat)
      reads this
    {
      (snapshot.phase.UnlockedClean? || snapshot.phase.UnlockedDirty?) && expected == snapshot.generation
    }

    /** The ledger of edits did not move. */
    twostate predicate LedgerKept()
      reads this
    {
      accepted == old(accepted) && committed == old(committed) && forfeited == old(forfeited)
    }

    /** A key that is shown was already this record's, or was never issued before. */
    twostate predicate KeysNeverReissued()
      reads this
    {
      && old(nextKey) <= nextKey
      && forall h :: h in recordKeys ==>
           old(nextKey) <= recordKeys[h] || (h in old(recordKeys) && recordKeys[h] == old(recordKeys)[h])
    }

    /** One more generation was consumed, and record keys only ever move forward. */
    twostate predicate Moved()
      reads this
    {
      generation == old(generation) + 1 && KeysNeverReissued()
    }

    /** Nothing that names a gone artifact ever lets go of it. */
    twostate predicate DanglingKept()
      reads this
    {
      old(Dangling()) ==> Dangling()
    }

    /** A refused command leaves everything as it was. */
    twostate predicate Untouched()
      reads this
    {
      && snapshot == old(snapshot) && session == old(session) && sourcePath == old(sourcePath)
      && suspended == old(suspended)
      && decision == old(decision) && generation == old(generation) && recordKeys == old(recordKeys)
      && nextKey == old(nextKey)
      && accepted == old(accepted) && committed == old(committed) && artifact == old(artifact)
      && forfeited == old(forfeited)
      && openSecrets == old(openSecrets) && lingering == old(lingering) && intact == old(intact)
      && unlisted == old(unlisted)
    }

    // -------------------------------------------------------------- edits

    /** Bind a draft to this generation and to the session's current revision. */
    method BeginEdit(key: Option<nat>, expected: nat) returns (reply: Reply)
      requires Valid()
      modifies this`drafts
      ensures Valid() && Untouched()
      ensures reply.Accepted? <==> ActiveAt(expected) && (key.Some? ==> key.value in recordKeys.Values)
      ensures drafts == if reply.Accepted? then old(drafts)[(generation, key) := session.value.revision]
                        else old(drafts)
    {
      if !ActiveAt(expected) || (key.Some? && key.value !in recordKeys.Values) {
        return Rejected;
      }
      drafts := drafts[(snapshot.generation, key) := session.value.revision];
      return Accepted(snapshot);
    }

    /** What a draft must bring to reach the session: its own generation, an unused entry, the current revision. */
    predicate DraftLive(draftGeneration: nat, key: Option<nat>)
      reads this
    {
      && ActiveAt(draftGeneration) && session.Some?
      && (draftGeneration, key) in drafts && drafts[(draftGeneration, key)] == session.value.revision
    }

    /**
     Apply one confirmed draft. `edit` names the accepted edit and `secret` the transferred password
     owner; `agrees` says the draft still matches the record's protection, `empty` that it changes
     nothing. A draft is used up by its first commit, and only a mutation whose projection then
     fails can cost unsaved work.
     */
    method CommitEdit(
      draftGeneration: nat, key: Option<nat>, admissible: bool, agrees: bool, empty: bool, secret: nat, edit: nat,
      outcome: EditOutcome)
      returns (reply: Reply)
      requires Valid() && outcome.Valid() && edit !in accepted && secret !in openSecrets
      modifies this
      ensures openSecrets <= old(openSecrets)
      ensures Valid() && committed == old(committed)
      ensures old(ActiveAt(draftGeneration)) && admissible && (key.Some? ==> key.value in old(recordKeys).Values) ==>
                (draftGeneration, key) !in drafts
      ensures reply.Rejected? ==> Untouched()
      ensures reply.Accepted? <==>
                && old(DraftLive(draftGeneration, key)) && admissible && agrees
                && (key.Some? ==> key.value in old(recordKeys).Values)
      ensures accepted == if reply.Accepted? && !empty && outcome.Applies() then old(accepted) + {edit}
                          else old(accepted)
      ensures forfeited != old(forfeited) ==>
                outcome.Edits? && !outcome.projects && snapshot.phase.Locked? && snapshot.failed
      ensures reply.Accepted? ==> if empty then Untouched() else Moved()
      ensures lingering.Some? ==> old(lingering).Some?
      ensures DanglingKept() && artifact == old(artifact) && suspended == old(suspended) && intact == old(intact)
      ensures Hidden() ==> old(Hidden()) || outcome.AppliedThenFails?
      ensures reply.Accepted? && !empty && outcome.Applies() && session.Some? ==>
                old(session).Some? && session == Some(EditedSession(old(session).value, edit, outcome))
      ensures reply.Accepted? && !empty && !outcome.Edits? ==>
                session.Some? && snapshot.phase == old(snapshot).phase && snapshot.failed
      ensures reply.Accepted? && !empty && outcome.EditFails? ==> session == old(session)
      ensures reply.Accepted? && !empty && !outcome.Edits? ==>
                && recordKeys == old(recordKeys) && snapshot.records == old(snapshot).records
                && (outcome.Applies() ==> session == Some(EditedSession(old(session).value, edit, outcome)))
      ensures reply.Accepted? && !empty && outcome.Edits? ==>
                snapshot.phase == if outcome.projects then UnlockedDirty else Locked
      ensures reply.Accepted? && !empty && outcome.Edits? && !outcome.projects ==>
                GivenUp(old(forfeited), old(LiveWork()) + {edit} - committed - old(StoredWork()), forfeited)
      ensures reply.Accepted? && !empty && outcome.Edits? ==> (session.Some? <==> outcome.projects)
      ensures sourcePath == old(sourcePath)
      ensures reply.Accepted? && !empty ==>
                && unlisted == (outcome.AppliedThenFails? || (outcome.EditFails? && old(unlisted)))
                && snapshot.failed == !(outcome.Edits? && outcome.projects)
    {
      hide Settled, Conserved, EditedSession;
      TakeSecret(secret);
      if !ActiveAt(draftGeneration) || !admissible || (key.Some? && key.value !in recordKeys.Values) {
        reply := Rejected;
      } else {
        reply := CommitDraft(draftGeneration, key, agrees, empty, edit, outcome);
      }
      CloseSecret(secret);
      assert openSecrets == old(openSecrets);
    }

    method CommitDraft(
      draftGeneration: nat, key: Option<nat>, agrees: bool, empty: bool, edit: nat, outcome: EditOutcome)
      returns (reply: Reply)
      requires Settled() && Conserved() && ActiveAt(draftGeneration) && outcome.Valid() && edit !in accepted
      modifies this
      ensures Settled() && Conserved() && openSecrets == old(openSecrets) && decision == old(decision)
      ensures committed == old(committed) && (draftGeneration, key) !in drafts
      ensures reply.Rejected? ==> Untouched()
      ensures reply.Accepted? <==> old(DraftLive(draftGeneration, key)) && agrees
      ensures accepted == if reply.Accepted? && !empty && outcome.Applies() then old(accepted) + {edit}
                          else old(accepted)
      ensures forfeited != old(forfeited) ==>
                outcome.Edits? && !outcome.projects && snapshot.phase.Locked? && snapshot.failed
      ensures reply.Accepted? ==> if empty then Untouched() else Moved()
      ensures lingering.Some? ==> old(lingering).Some?
      ensures DanglingKept() && artifact == old(artifact) && suspended == old(suspended) && intact == old(intact)
      ensures Hidden() ==> old(Hidden()) || outcome.AppliedThenFails?
      ensures reply.Accepted? && !empty && outcome.Applies() && session.Some? ==>
                old(session).Some? && session == Some(EditedSession(old(session).value, edit, outcome))
      ensures reply.Accepted? && !empty && !outcome.Edits? ==>
                session.Some? && snapshot.phase == old(snapshot).phase && snapshot.failed
      ensures reply.Accepted? && !empty && outcome.EditFails? ==> session == old(session)
      ensures reply.Accepted? && !empty && !outcome.Edits? ==>
                && recordKeys == old(recordKeys) && snapshot.records == old(snapshot).records
                && (outcome.Applies() ==> session == Some(EditedSession(old(session).value, edit, outcome)))
      ensures reply.Accepted? && !empty && outcome.Edits? ==>
                snapshot.phase == if outcome.projects then UnlockedDirty else Locked
      ensures reply.Accepted? && !empty && outcome.Edits? && !outcome.projects ==>
                GivenUp(old(forfeited), old(LiveWork()) + {edit} - committed - old(StoredWork()), forfeited)
      ensures reply.Accepted? && !empty && outcome.Edits? ==> (session.Some? <==> outcome.projects)
      ensures sourcePath == old(sourcePath)
      ensures reply.Accepted? && !empty ==>
                && unlisted == (outcome.AppliedThenFails? || (outcome.EditFails? && old(unlisted)))
                && snapshot.failed == !(outcome.Edits? && outcome.projects)
    {
      hide Injective, Below, GivenUp;
      if (draftGeneration, key) !in drafts {
        return Rejected;
      }
      var revision := drafts[(draftGeneration, key)];
      drafts := drafts - {(draftGeneration, key)};
      if session.value.revision != revision || !agrees {
        return Rejected;
      }
      if empty {
        return Accepted(snapshot);
      }
      var published := Mutate(edit, outcome);
      return Accepted(published);
    }

    /** The session mutation itself and its projection. */
    method Mutate(edit: nat, outcome: EditOutcome) returns (published: Snapshot)
      requires Settled() && Conserved() && outcome.Valid() && edit !in accepted && ActiveAt(generation)
      modifies this
      ensures Settled() && Conserved() && openSecrets == old(openSecrets) && decision == old(decision)
      ensures committed == old(committed) && drafts == map[] && published == snapshot && Moved()
      ensures accepted == if outcome.Applies() then old(accepted) + {edit} else old(accepted)
      ensures forfeited != old(forfeited) ==>
                outcome.Edits? && !outcome.projects && snapshot.phase.Locked? && snapshot.failed
      ensures lingering.Some? ==> old(lingering).Some?
      ensures DanglingKept() && artifact == old(artifact) && suspended == old(suspended) && intact == old(intact)
      ensures Hidden() ==> old(Hidden()) || outcome.AppliedThenFails?
      ensures outcome.Applies() && session.Some? ==>
                old(session).Some? && session == Some(EditedSession(old(session).value, edit, outcome))
      ensures !outcome.Edits? ==> session.Some? && snapshot.phase == old(snapshot).phase && snapshot.failed
      ensures outcome.EditFails? ==> session == old(session)
      ensures !outcome.Edits? ==>
                && recordKeys == old(recordKeys) && snapshot.records == old(snapshot).records
                && (outcome.Applies() ==> session == Some(EditedSession(old(session).value, edit, outcome)))
      ensures outcome.Edits? ==> snapshot.phase == if outcome.projects then UnlockedDirty else Locked
      ensures outcome.Edits? && !outcome.projects ==>
                GivenUp(old(forfeited), old(LiveWork()) + {edit} - committed - old(StoredWork()), forfeited)
      ensures outcome.Edits? ==> (session.Some? <==> outcome.projects)
      ensures sourcePath == old(sourcePath)
      ensures unlisted == (outcome.AppliedThenFails? || (outcome.EditFails? && old(unlisted)))
      ensures snapshot.failed == !(outcome.Edits? && outcome.projects)
    {
      hide Injective, Below, GivenUp, HandleSet, Shows, Keyed;
      if outcome.Edits? {
        EnterBusy(snapshot);
        published := ShowMutation(edit, outcome);
      } else {
        published := FailMutation(edit, outcome);
      }
    }

    /** The call fails, whether or not the session has changed: the view stays as it was. */
    method FailMutation(edit: nat, outcome: EditOutcome) returns (published: Snapshot)
      requires Settled() && Conserved() && outcome.Valid() && edit !in accepted && ActiveAt(generation)
      requires !outcome.Edits?
      modifies this`session, this`accepted, this`unlisted, this`snapshot, this`drafts, this`generation
      ensures Settled() && Conserved() && drafts == map[] && published == snapshot && Moved()
      ensures accepted == if outcome.Applies() then old(accepted) + {edit} else old(accepted)
      ensures Hidden() ==> old(Hidden()) || outcome.AppliedThenFails?
      ensures session.Some? && snapshot.phase == old(snapshot).phase && snapshot.failed
      ensures session == if outcome.Applies() then Some(EditedSession(old(session).value, edit, outcome))
                         else old(session)
      ensures unlisted == (outcome.AppliedThenFails? || old(unlisted)) && snapshot.records == old(snapshot).records
    {
      hide Injective, Below, HandleSet;
      var previous := snapshot;
      EnterBusy(previous);
      if outcome.AppliedThenFails? {
        TakeEdit(edit, outcome);
      }
      published := Restore(previous, true);
    }

    /** The session has one more edit, which is not listed yet. */
    method TakeEdit(edit: nat, outcome: EditOutcome)
      requires Conserved() && session.Some? && outcome.Applies() && outcome.Valid()
      modifies this`session, this`accepted, this`unlisted
      ensures Conserved() && accepted == old(accepted) + {edit} && unlisted
      ensures session == Some(EditedSession(old(session).value, edit, outcome))
    {
      session := Some(EditedSession(session.value, edit, outcome));
      accepted := accepted + {edit};
      unlisted := true;
    }

    /** The session has the edit: project it, or lock because the state can no longer be shown. */
    method ShowMutation(edit: nat, outcome: EditOutcome) returns (published: Snapshot)
      requires outcome.Edits? && outcome.Valid() && session.Some? && sourcePath.Some? && Conserved() && decision.None?
      requires Injective(recordKeys) && Below(recordKeys, nextKey)
      requires lingering.None?
      modifies this
      ensures Settled() && Conserved() && openSecrets == old(openSecrets) && decision.None?
      ensures committed == old(committed) && drafts == map[] && published == snapshot && Moved()
      ensures accepted == old(accepted) + {edit}
      ensures outcome.projects ==> forfeited == old(forfeited)
      ensures !outcome.projects ==> snapshot.phase.Locked? && snapshot.failed
      ensures lingering.None?
      ensures artifact == old(artifact) && suspended == old(suspended) && intact == old(intact) && !Hidden()
      ensures session.Some? ==> session == Some(EditedSession(old(session).value, edit, outcome))
      ensures snapshot.phase == if outcome.projects then UnlockedDirty else Locked
      ensures outcome.Edits? && !outcome.projects ==>
                GivenUp(old(forfeited), old(LiveWork()) + {edit} - committed - old(StoredWork()), forfeited)
      ensures session.Some? <==> outcome.projects
      ensures sourcePath == old(sourcePath) && !unlisted && snapshot.failed == !outcome.projects
    {
      hide Injective, Below, GivenUp;
      TakeEdit(edit, outcome);
      if outcome.projects {
        published := ShowLive();
      } else {
        published := Shut(true);
      }
    }

    // -------------------------------------------------------------- saving

    /** What a published save does to the session and to the stored artifact. */
    method FinishSave(outcome: SaveOutcome)
      requires session.Some? && Conserved() && !outcome.SaveFails? && outcome == SaveMet(outcome, Dangling())
      modifies this`session, this`suspended, this`committed
      ensures DanglingKept()
      ensures session.Some? && Conserved() && session.value.work == {} && !session.value.changed
      ensures committed == old(committed) + old(session).value.work
      ensures session.value.handles == old(session).value.handles && (suspended ==> old(suspended))
      ensures session == Some(SavedSession(old(session).value, outcome))
      ensures suspended == (old(suspended) && KeptAfter(outcome))
    {
      var live := session.value;
      var kept := suspended && KeptAfter(outcome);
      committed := committed + live.work;
      session := Some(Session({}, false, kept, live.handles, live.revision));
      suspended := kept;
    }

    method SaveVault(expected: nat, outcome: SaveOutcome, projects: bool) returns (reply: Reply)
      requires Valid()
      modifies this
      ensures openSecrets <= old(openSecrets)
      ensures Valid() && accepted == old(accepted) && forfeited == old(forfeited)
      ensures reply.Accepted? <==> old(ActiveAt(expected))
      ensures reply.Rejected? ==> Untouched()
      ensures reply.Accepted? ==> Moved()
      ensures reply.Accepted? && !outcome.SaveFails? ==> old(LiveWork()) <= committed
      ensures reply.Accepted? && outcome.SaveFails? ==>
                session == old(session) && snapshot.phase == old(snapshot).phase && snapshot.failed
      ensures lingering.Some? ==> old(lingering).Some?
      ensures reply.Accepted? && !outcome.SaveFails? && session.Some? ==>
                old(session).Some? && session == Some(SavedSession(old(session).value, outcome))
      ensures outcome.SaveFails? ==> committed == old(committed)
      ensures committed == if reply.Accepted? && !outcome.SaveFails? then old(committed) + old(LiveWork())
                           else old(committed)
      ensures artifact == old(artifact) && intact == old(intact) && DanglingKept()
      ensures Hidden() ==> old(Hidden())
      ensures reply.Accepted? && !outcome.SaveFails? ==>
                && !Hidden() && suspended == (old(suspended) && KeptAfter(SaveMet(outcome, old(Dangling()))))
                && (session.Some? <==> SaveMet(outcome, old(Dangling())).Saves? && projects)
                && (session.None? ==> snapshot.phase.Locked?)
      ensures reply.Rejected? || outcome.SaveFails? ==> suspended == old(suspended) && session == old(session)
      ensures sourcePath == old(sourcePath)
      ensures reply.Accepted? ==>
                && unlisted == (outcome.SaveFails? && old(unlisted))
                && snapshot.failed == (outcome.SaveFails? || session.None?)
    {
      hide Injective, Below, GivenUp, SavedSession, HandleSet;
      if !ActiveAt(expected) {
        return Rejected;
      }
      var previous := snapshot;
      EnterBusy(previous);
      var published: Snapshot;
      if outcome.SaveFails? {
        published := Restore(previous, true);
        return Accepted(published);
      }
      published := PublishSaved(SaveMet(outcome, Dangling()), projects);
      return Accepted(published);
    }

    /** The source now holds the session's work: show the session again, or lock if that cannot be done faithfully. */
    method PublishSaved(outcome: SaveOutcome, projects: bool) returns (published: Snapshot)
      requires session.Some? && sourcePath.Some? && Conserved() && !outcome.SaveFails? && decision.None?
      requires Injective(recordKeys) && Below(recordKeys, nextKey)
      requires lingering.None? && outcome == SaveMet(outcome, Dangling())
      modifies this
      ensures artifact == old(artifact) && intact == old(intact) && DanglingKept() && !Hidden()
      ensures Settled() && Conserved() && decision.None? && published == snapshot && Moved()
      ensures openSecrets == old(openSecrets)
      ensures accepted == old(accepted) && forfeited == old(forfeited) && committed == old(committed) + old(LiveWork())
      ensures lingering.None?
      ensures session.Some? ==> session == Some(SavedSession(old(session).value, outcome))
      ensures outcome.SaveCommitted? ==> session.None?
      ensures suspended == (old(suspended) && KeptAfter(outcome))
      ensures session.None? ==> snapshot.phase.Locked?
      ensures session.Some? <==> outcome.Saves? && projects
      ensures sourcePath == old(sourcePath) && !unlisted && snapshot.failed == session.None?
    {
      hide Injective, Below, GivenUp, SavedSession, HandleSet;
      FinishSave(outcome);
      if outcome.SaveCommitted? || !projects {
        published := Shut(true);
      } else {
        published := ShowLive();
      }
    }

    // -------------------------------------------------------------- locking

    /** A clean session locks directly; a dirty one is first suspended into a stored artifact. */
    method LockVault(expected: nat, outcome: SuspendOutcome, terminates: bool) returns (reply: Reply)
      requires Valid()
      modifies this
      ensures openSecrets <= old(openSecrets)
      ensures Valid() && accepted == old(accepted) && committed == old(committed) && DanglingKept()
      ensures !old(Hidden()) ==> forfeited == old(forfeited)
      ensures reply.Accepted? <==> old(ActiveAt(expected))
      ensures reply.Rejected? ==> Untouched()
      ensures reply.Accepted? ==> Moved()
      ensures reply.Accepted? && old(snapshot).phase.UnlockedDirty? && (!outcome.Stores() || old(Dangling())) ==>
                session == old(session) && snapshot.phase.UnlockedDirty? && snapshot.failed
      ensures reply.Accepted? && old(snapshot).phase.UnlockedDirty? && outcome.Stores() && !old(Dangling()) ==>
                snapshot.phase.Locked? && suspended && intact && artifact == old(LiveWork())
      ensures reply.Accepted? && old(snapshot).phase.UnlockedDirty? && (!outcome.Stores() || old(Dangling())) ==>
                && suspended == old(suspended) && artifact == old(artifact)
                && intact == (old(intact) && !outcome.SuspendWithdrawn?)
      ensures lingering.Some? ==> old(lingering).Some?
      ensures reply.Accepted? && old(snapshot).phase.UnlockedClean? ==>
                && snapshot.phase.Locked? && suspended == old(suspended) && artifact == old(artifact)
                && intact == old(intact)
                && GivenUp(old(forfeited), old(LiveWork()) - committed - old(StoredWork()), forfeited)
      ensures reply.Accepted? ==> !Hidden()
      ensures sourcePath == old(sourcePath) && (unlisted ==> old(unlisted))
      ensures reply.Accepted? && old(snapshot).phase.UnlockedClean? ==>
                snapshot.failed == (old(Hidden()) || !terminates)
      ensures reply.Accepted? && old(snapshot).phase.UnlockedDirty? && outcome.Stores() && !old(Dangling()) ==>
                snapshot.failed == outcome.SuspendCommitted?
    {
      hide Injective, Below, GivenUp, HandleSet;
      if !ActiveAt(expected) {
        return Rejected;
      }
      var published: Snapshot;
      if snapshot.phase.UnlockedDirty? {
        published := LockDirty(outcome);
        return Accepted(published);
      }
      var clean := !session.value.Dirty();
      EnterBusy(snapshot);
      published := Shut(!(clean && terminates));
      return Accepted(published);
    }

    /**
     Suspend the live work; a suspension taken back has cost the earlier artifact, and one over a
     gone artifact fails.
     */
    method LockDirty(outcome: SuspendOutcome) returns (published: Snapshot)
      requires Settled() && Conserved() && snapshot.phase.UnlockedDirty?
      modifies this
      ensures Settled() && Conserved() && LedgerKept() && DanglingKept() && Moved() && published == snapshot
      ensures openSecrets == old(openSecrets) && decision.None? && lingering.None?
      ensures !outcome.Stores() || old(Dangling()) ==>
                && session == old(session) && snapshot.phase.UnlockedDirty? && snapshot.failed
                && suspended == old(suspended) && artifact == old(artifact)
                && intact == (old(intact) && !outcome.SuspendWithdrawn?)
      ensures outcome.Stores() && !old(Dangling()) ==>
                && snapshot.phase.Locked? && suspended && intact && artifact == old(LiveWork())
                && snapshot.failed == outcome.SuspendCommitted?
      ensures sourcePath == old(sourcePath) && (unlisted ==> old(unlisted))
    {
      hide Injective, Below, GivenUp, HandleSet;
      var previous := snapshot;
      EnterBusy(previous);
      if !outcome.Stores() || Dangling() {
        published := KeepLive(previous, outcome.SuspendWithdrawn?);
      } else {
        StoreWork();
        published := Shut(outcome.SuspendCommitted?);
      }
    }

    /** Nothing was stored; if a publication was taken back, the earlier artifact is gone as well. */
    method KeepLive(previous: Snapshot, withdrawn: bool) returns (published: Snapshot)
      requires previous.phase.UnlockedDirty? && SessionAgrees(UnlockedDirty) && decision.None? && Conserved()
      requires Shows(previous) && Keyed()
      requires lingering.None? && Injective(recordKeys) && Below(recordKeys, nextKey)
      modifies this`intact, this`drafts, this`generation, this`snapshot
      ensures Settled() && Conserved() && DanglingKept() && Moved() && published == snapshot
      ensures snapshot.phase.UnlockedDirty? && snapshot.failed && intact == (old(intact) && !withdrawn)
    {
      hide Injective, Below, HandleSet;
      intact := intact && !withdrawn;
      published := Restore(previous, true);
    }

    /** The live work is now in the stored artifact. */
    method StoreWork()
      requires session.Some? && Conserved()
      modifies this`artifact, this`suspended, this`intact, this`session
      ensures Conserved() && suspended && intact && session.Some? && LiveWork() == old(LiveWork()) == artifact
    {
      artifact, suspended, intact := session.value.work, true, true;
      session := Some(session.value.(resumed := true));
    }

    /** A gone artifact cannot be resumed. */
    function Met(outcome: OpenOutcome): OpenOutcome
      reads this
    {
      if Dangling() then OpenFails else outcome
    }

    /** Reauthenticate; a stored artifact comes back as a dirty session with all its work. */
    method UnlockVault(secret: nat, outcome: OpenOutcome) returns (reply: Reply)
      requires Valid() && outcome.Valid() && secret !in openSecrets
      modifies this
      ensures openSecrets <= old(openSecrets)
      ensures Valid() && LedgerKept()
      ensures reply.Accepted? <==> old(snapshot).phase.Locked?
      ensures reply.Rejected? ==> Untouched()
      ensures reply.Accepted? ==> Moved()
      ensures suspended == old(suspended) && artifact == old(artifact) && intact == old(intact)
      ensures reply.Accepted? && Met(outcome).Admits() ==>
                && session == Some(Session(old(StoredWork()), false, suspended, outcome.handles, outcome.revision))
                && (suspended <==> snapshot.phase.UnlockedDirty?)
      ensures reply.Accepted? && !Met(outcome).Admits() ==> snapshot.phase.Locked?
      ensures reply.Accepted? ==>
                (lingering.Some? <==> Met(outcome).Hides() || (!Met(outcome).Admits() && old(lingering).Some?))
      ensures reply.Accepted? ==> !Hidden()
      ensures sourcePath == old(sourcePath) && (unlisted ==> old(unlisted))
      ensures reply.Accepted? ==> snapshot.failed == !Met(outcome).Admits()
      ensures reply.Accepted? && Met(outcome).Admits() ==> !unlisted
    {
      hide Settled, Conserved, EditedSession;
      TakeSecret(secret);
      if !snapshot.phase.Locked? {
        CloseSecret(secret);
        assert openSecrets == old(openSecrets);
        return Rejected;
      }
      var published := Reauthenticate(Met(outcome));
      CloseSecret(secret);
      assert openSecrets == old(openSecrets);
      return Accepted(published);
    }

    method Reauthenticate(outcome: OpenOutcome) returns (published: Snapshot)
      requires Settled() && Conserved() && snapshot.phase.Locked? && outcome.Valid() && outcome == Met(outcome)
      modifies this
      ensures Settled() && Conserved() && LedgerKept() && Moved() && openSecrets == old(openSecrets) && decision.None?
      ensures published == snapshot
      ensures suspended == old(suspended) && artifact == old(artifact) && intact == old(intact) && !Hidden()
      ensures outcome.Admits() ==>
                && session == Some(Session(old(StoredWork()), false, suspended, outcome.handles, outcome.revision))
                && (suspended <==> snapshot.phase.UnlockedDirty?)
      ensures !outcome.Admits() ==> snapshot.phase.Locked?
      ensures lingering.Some? <==> outcome.Hides() || (!outcome.Admits() && old(lingering).Some?)
      ensures sourcePath == old(sourcePath) && (unlisted ==> old(unlisted))
      ensures snapshot.failed == !outcome.Admits() && (outcome.Admits() ==> !unlisted)
    {
      hide Injective, Below, GivenUp, HandleSet, Conserved;
      var previous := snapshot;
      EnterBusy(previous);
      if outcome.OpenFails? || !outcome.projects {
        published := Restore(previous, true);
      } else if !outcome.shows {
        published := Linger(previous, outcome.handles, Ending(suspended, outcome.leaves));
      } else {
        published := AdmitReopened(outcome);
      }
    }

    /** The reopened session takes its place, with the work the stored artifact holds. */
    method AdmitReopened(outcome: OpenOutcome) returns (published: Snapshot)
      requires Conserved() && session.None? && sourcePath.Some? && decision.None?
      requires outcome.Admits() && outcome.Valid() && outcome == Met(outcome)
      requires Injective(recordKeys) && Below(recordKeys, nextKey)
      modifies this
      ensures Settled() && Conserved() && LedgerKept() && Moved() && openSecrets == old(openSecrets) && decision.None?
      ensures published == snapshot && lingering.None? && !Hidden()
      ensures suspended == old(suspended) && artifact == old(artifact) && intact == old(intact)
      ensures session == Some(Session(old(StoredWork()), false, suspended, outcome.handles, outcome.revision))
      ensures if suspended then snapshot.phase.UnlockedDirty? else snapshot.phase.UnlockedClean?
      ensures sourcePath == old(sourcePath) && !unlisted && !snapshot.failed
    {
      hide Injective, Below, HandleSet, Shows, Keyed;
      var work := if suspended then artifact else {};
      published := AdmitSession(Session(work, false, suspended, outcome.handles, outcome.revision));
    }

    method DropArtifact()
      requires session.None? && suspended && Conserved()
      modifies this`forfeited, this`suspended
      ensures session.None? && !suspended && Conserved()
      ensures GivenUp(old(forfeited), artifact - committed, forfeited)
    {
      forfeited := forfeited + (artifact - committed);
      suspended := false;
    }

    /** The user gives up the stored artifact of a locked vault. */
    method DiscardSuspended(expected: nat, discards: bool) returns (reply: Reply)
      requires Valid()
      modifies this
      ensures openSecrets <= old(openSecrets)
      ensures Valid() && accepted == old(accepted) && committed == old(committed)
      ensures reply.Accepted? <==> old(snapshot.phase.Locked? && expected == snapshot.generation && suspended)
      ensures reply.Rejected? ==> Untouched()
      ensures reply.Accepted? ==> Moved() && snapshot.phase.Locked? && suspended == !(discards && intact)
      ensures !(reply.Accepted? && discards) ==> forfeited == old(forfeited)
      ensures artifact == old(artifact) && intact == old(intact) && DanglingKept()
      ensures lingering.Some? ==> old(lingering).Some?
      ensures sourcePath == old(sourcePath) && session == old(session) && unlisted == old(unlisted)
      ensures reply.Accepted? ==>
                && snapshot.failed == !(discards && intact)
                && (if discards && intact then GivenUp(old(forfeited), artifact - committed, forfeited)
                    else forfeited == old(forfeited))
    {
      hide Injective, Below, GivenUp, HandleSet;
      if !snapshot.phase.Locked? || expected != snapshot.generation || !suspended {
        return Rejected;
      }
      var previous := snapshot;
      EnterBusy(previous);
      var published: Snapshot;
      if discards && intact {
        published := FinishDiscard();
      } else {
        published := Restore(previous, true);
      }
      return Accepted(published);
    }

    /** The stored artifact is gone by the user's choice; the vault stays locked. */
    method FinishDiscard() returns (published: Snapshot)
      requires session.None? && suspended && Conserved() && sourcePath.Some? && decision.None? && LingeringAgrees()
      requires Injective(recordKeys) && Below(recordKeys, nextKey)
      modifies this`forfeited, this`suspended, this`drafts, this`generation, this`snapshot
      ensures Settled() && Conserved() && !suspended && Moved() && published == snapshot && snapshot.phase.Locked?
      ensures !snapshot.failed && GivenUp(old(forfeited), artifact - committed, forfeited)
    {
      hide Injective, Below, HandleSet, GivenUp;
      DropArtifact();
      published := Publish(Locked, false, {}, false, None);
    }

    // -------------------------------------------------------------- replacement

    /** Whether what there is of an old session can be ended, so that a replacement may take its place. */
    predicate Ends(end: EndOutcome)
      reads this
    {
      if session.Some? then end.terminates && (suspended ==> end.discardsPending && intact)
      else lingering.None? || lingering.value.EndsAgain(end.terminates)
    }

    /**
     End the old session: its terminal call, then the removal of its stored artifact. Work stored
     nowhere is given up.
     */
    method EndOldSession(end: EndOutcome) returns (ok: bool)
      requires session.Some? && Conserved()
      modifies this`forfeited, this`suspended
      ensures ok == old(Ends(end))
      ensures !ok ==> forfeited == old(forfeited) && suspended == old(suspended)
      ensures ok ==> !suspended && accepted <= committed + forfeited
      ensures ok ==> forfeited == old(forfeited) + (session.value.work - committed)
    {
      if !end.terminates {
        return false;
      }
      if suspended && !(end.discardsPending && intact) {
        return false;
      }
      forfeited := forfeited + (session.value.work - committed);
      suspended := false;
      return true;
    }

    /**
     Authenticate and project the candidate before the old session ends. A candidate that fails
     leaves the old session, its work and its phase as they were.
     */
    method RunReplacement(
      replacement: Replacement, prior: Snapshot, outcome: OpenOutcome, end: EndOutcome)
      returns (published: Snapshot)
      requires Conserved() && outcome.Valid() && decision.None? && SessionAgrees(prior.phase)
      requires (suspended ==> session.Some? || lingering.Some?) && LingeringAgrees()
      requires Injective(recordKeys) && Below(recordKeys, nextKey)
      requires replacement.passphrase in openSecrets && Shows(prior) && Keyed()
      modifies this
      ensures Settled() && Conserved() && decision.None? && published == snapshot && Moved()
      ensures openSecrets == old(openSecrets) - {replacement.passphrase}
      ensures accepted == old(accepted) && committed == old(committed)
      ensures old(LiveWork()) <= committed ==> forfeited == old(forfeited)
      ensures DanglingKept() && (old(Dangling()) && prior.phase.Locked? ==> snapshot.phase.Locked?)
      ensures !(outcome.Opens? && outcome.projects) ==>
                session == old(session) && snapshot.phase == prior.phase && snapshot.failed
                    && forfeited == old(forfeited) && suspended == old(suspended)
      ensures lingering.Some? <==>
                if outcome.Opens? && outcome.projects
                then outcome.Hides() && old(session).None? && old(lingering).None? else old(lingering).Some?
      ensures Hidden() ==> !(outcome.Opens? && outcome.projects)
      ensures outcome.Admits() && old(session).None? && old(lingering).None? ==>
                && session == Some(Session({}, false, false, outcome.handles, outcome.revision))
                && snapshot.phase.UnlockedClean?
      ensures outcome.Opens? && outcome.projects && old(session).None? && old(lingering).None? ==> !suspended
      ensures unlisted ==> old(unlisted)
      ensures !(outcome.Opens? && outcome.projects) ==>
                sourcePath == old(sourcePath) && snapshot.records == prior.records
      ensures outcome.Opens? && outcome.projects ==>
                Superseded(old(sourcePath), replacement.path, old(Ends(end)), outcome,
                           old(session).Some? || old(lingering).Some?)
    {
      hide Injective, Below, GivenUp, HandleSet, Superseded, Conserved;
      EnterBusy(prior);
      if outcome.OpenFails? || !outcome.projects {
        published := Restore(prior, true);
      } else {
        published := Supersede(replacement.path, prior, outcome, end);
      }
      CloseSecret(replacement.passphrase);
    }

    /**
     What a projected candidate leads to: the new session under its own path once the old one has ended
     and it still answers; a locked vault otherwise, still under the old path if the old session would not end.
     */
    ghost predicate Superseded(
      before: Option<nat>, path: nat, ended: bool, outcome: OpenOutcome, replacing: bool)
      requires outcome.Opens?
      reads this`sourcePath, this`snapshot, this`session, this`suspended, this`unlisted
    {
      && sourcePath == (if ended then Some(path) else before)
      && snapshot.failed == !(ended && outcome.shows)
      && (ended && outcome.shows ==>
            && session == Some(Session({}, false, false, outcome.handles, outcome.revision))
            && snapshot.phase.UnlockedClean? && !suspended && !unlisted)
      && (!(ended && outcome.shows) ==> session.None?)
      && (!ended || (!outcome.shows && replacing) ==> snapshot.phase.Locked?)
    }

    /** The candidate is authenticated and projected: end the old session, if any, and take its place. */
    method Supersede(path: nat, prior: Snapshot, outcome: OpenOutcome, end: EndOutcome) returns (published: Snapshot)
      requires Conserved() && decision.None? && outcome.Opens? && outcome.Valid() && SessionAgrees(prior.phase)
      requires Shows(prior)
      requires (suspended ==> session.Some? || lingering.Some?) && LingeringAgrees()
      requires Injective(recordKeys) && Below(recordKeys, nextKey)
      modifies this
      ensures Settled() && Conserved() && decision.None? && published == snapshot && Moved()
      ensures openSecrets == old(openSecrets) && accepted == old(accepted) && committed == old(committed)
      ensures old(LiveWork()) <= committed ==> forfeited == old(forfeited)
      ensures DanglingKept() && (old(Dangling()) && prior.phase.Locked? ==> snapshot.phase.Locked?)
      ensures lingering.Some? <==> !outcome.shows && old(session).None? && old(lingering).None?
      ensures !Hidden()
      ensures outcome.shows && old(session).None? && old(lingering).None? ==>
                && session == Some(Session({}, false, false, outcome.handles, outcome.revision))
                && snapshot.phase.UnlockedClean?
      ensures old(session).None? && old(lingering).None? ==> !suspended
      ensures unlisted ==> old(unlisted)
      ensures Superseded(old(sourcePath), path, old(Ends(end)), outcome, old(session).Some? || old(lingering).Some?)
    {
      hide Injective, Below, GivenUp, HandleSet, Shows;
      var replacing := session.Some? || lingering.Some?;
      var ended := true;
      if session.Some? {
        ended := EndOldSession(end);
      } else if lingering.Some? {
        ended := lingering.value.EndsAgain(end.terminates);
      }
      if !ended {
        published := Shut(true);
        return;
      }
      sourcePath := Some(path);
      published := TakeOver(prior, outcome, replacing);
    }

    /** A candidate that then fails locks the vault, or lingers when there was no session to replace. */
    method TakeOver(prior: Snapshot, outcome: OpenOutcome, replacing: bool) returns (published: Snapshot)
      requires decision.None? && outcome.Opens? && outcome.Valid() && sourcePath.Some? && !suspended
      requires Injective(recordKeys) && Below(recordKeys, nextKey) && accepted <= committed + forfeited
      requires if replacing then session.Some? || lingering.Some?
               else session.None? && lingering.None? && SessionAgrees(prior.phase) && Shows(prior)
      requires LiveWork() <= committed + forfeited
      modifies this
      ensures Settled() && Conserved() && decision.None? && published == snapshot && Moved()
      ensures openSecrets == old(openSecrets) && accepted == old(accepted) && committed == old(committed)
      ensures forfeited == old(forfeited)
      ensures lingering.Some? <==> !outcome.shows && !replacing
      ensures suspended == old(suspended) && !Hidden()
      ensures outcome.shows ==>
                && session == Some(Session({}, false, false, outcome.handles, outcome.revision))
                && snapshot.phase.UnlockedClean?
      ensures !suspended
      ensures sourcePath == old(sourcePath) && (unlisted ==> old(unlisted)) && snapshot.failed == !outcome.shows
      ensures outcome.shows ==> !unlisted
      ensures !outcome.shows ==> session.None? && (replacing ==> snapshot.phase.Locked?)
    {
      hide Injective, Below, GivenUp, HandleSet;
      session := None;
      if outcome.shows {
        published := AdmitSession(Session({}, false, false, outcome.handles, outcome.revision));
      } else if replacing {
        published := Shut(true);
      } else {
        published := Linger(prior, outcome.handles, Ending(false, outcome.leaves));
      }
    }

    /**
     Replacing requires a decision first when unsaved work is shown; a stored artifact must be
     discarded explicitly. Work hidden behind a clean view is given up when the old session ends.
     */
    method OpenOrCreate(
      create: bool, path: nat, secret: nat, token: Option<nat>, outcome: OpenOutcome, end: EndOutcome)
      returns (reply: Reply)
      requires Valid() && outcome.Valid() && secret !in openSecrets
      modifies this
      ensures openSecrets <= old(openSecrets) + {secret}
      ensures Valid() && accepted == old(accepted) && committed == old(committed)
      ensures !old(Hidden()) ==> forfeited == old(forfeited)
      ensures reply.Accepted? && old(session).None? && old(lingering).None? ==> (lingering.Some? <==> outcome.Hides())
      ensures lingering.Some? ==> old(lingering).Some? || outcome.Hides()
      ensures DanglingKept() && (old(Dangling()) && old(snapshot).phase.Locked? ==> snapshot.phase.Locked?)
      ensures Hidden() ==> old(Hidden())
      ensures reply.Rejected? ==> Untouched()
      ensures reply.Accepted? ==> Moved()
      ensures old(snapshot).phase.UnlockedDirty? ==> session == old(session) && suspended == old(suspended)
      ensures old(snapshot).phase.UnlockedDirty? && token.Some? ==>
                snapshot.phase.AwaitingDecision? && openSecrets == {secret}
      ensures old(snapshot).phase.UnlockedDirty? && token.None? ==> snapshot.phase.UnlockedDirty? && openSecrets == {}
      ensures reply.Accepted? && outcome.Admits() && old(session).None? && old(lingering).None? ==>
                && session == Some(Session({}, false, false, outcome.handles, outcome.revision))
                && snapshot.phase.UnlockedClean?
                && !suspended
      ensures old(snapshot).phase.Empty? ==> reply.Accepted?
      ensures reply.Accepted? <==>
                !old(snapshot.phase.AwaitingDecision? || (suspended && session.None? && lingering.None?))
      ensures unlisted ==> old(unlisted)
      ensures reply.Accepted? && !old(snapshot).phase.UnlockedDirty? && outcome.Opens? && outcome.projects ==>
                Superseded(old(sourcePath), path, old(Ends(end)), outcome,
                           old(session).Some? || old(lingering).Some?)
      ensures reply.Accepted? && !old(snapshot).phase.UnlockedDirty? && !(outcome.Opens? && outcome.projects) ==>
                && session == old(session) && sourcePath == old(sourcePath) && snapshot.failed
                && snapshot.phase == old(snapshot).phase && snapshot.records == old(snapshot).records
    {
      hide Injective, Below, GivenUp, HandleSet, Superseded;
      TakeSecret(secret);
      if snapshot.phase.AwaitingDecision? || (suspended && session.None? && lingering.None?) {
        CloseSecret(secret);
        assert openSecrets == old(openSecrets);
        return Rejected;
      }
      var replacement := Replacement(create, path, secret);
      var published: Snapshot;
      if snapshot.phase.UnlockedDirty? {
        published := Await(Some(replacement), token);
      } else {
        published := RunReplacement(replacement, snapshot, outcome, end);
      }
      return Accepted(published);
    }

    /** Issue a single-use token; without randomness nothing is pending and the secret closes. */
    method Await(replacement: Option<Replacement>, token: Option<nat>) returns (published: Snapshot)
      requires Settled() && Conserved() && snapshot.phase.UnlockedDirty?
      requires openSecrets == (if replacement.Some? then {replacement.value.passphrase} else {})
      modifies this
      ensures Valid() && LedgerKept() && Moved() && published == snapshot
      ensures session == old(session) && suspended == old(suspended) && DanglingKept() && !Hidden()
      ensures if token.Some?
              then snapshot.phase.AwaitingDecision?
                     && decision == Some(Decision(token.value, old(snapshot), replacement))
              else snapshot.phase.UnlockedDirty? && decision.None?
      ensures lingering.Some? ==> old(lingering).Some?
      ensures snapshot.records == old(snapshot).records && snapshot.failed == token.None? && snapshot.token == token
      ensures recordKeys == old(recordKeys)
      ensures sourcePath == old(sourcePath) && unlisted == old(unlisted)
    {
      hide Injective, Below, GivenUp, HandleSet;
      var previous := snapshot;
      if token.None? {
        openSecrets := {};
        published := Restore(previous, true);
        return;
      }
      decision := Some(Decision(token.value, previous, replacement));
      published := Publish(AwaitingDecision, true, previous.records, false, token);
    }

    // -------------------------------------------------------------- closing

    /** A session shown as dirty gets a decision; one hidden behind a clean view refuses to lock and is disposed of. */
    method RequestClose(expected: nat, token: Option<nat>, terminates: bool) returns (reply: Reply)
      requires Valid()
      modifies this
      ensures openSecrets <= old(openSecrets)
      ensures Valid() && accepted == old(accepted) && committed == old(committed) && DanglingKept()
      ensures reply.Accepted? ==> !Hidden()
      ensures !old(Hidden()) ==> forfeited == old(forfeited)
      ensures reply.Accepted? && old(snapshot).phase.UnlockedClean? ==>
                && snapshot.phase.Locked?
                && GivenUp(old(forfeited), old(LiveWork()) - committed - old(StoredWork()), forfeited)
      ensures old(snapshot).phase.Locked? ==> snapshot.phase.Locked?
      ensures reply.Accepted? <==> old(ActiveAt(expected))
      ensures reply.Rejected? ==> Untouched()
      ensures reply.Accepted? ==> Moved()
      ensures old(snapshot).phase.UnlockedDirty? ==> session == old(session)
      ensures lingering.Some? ==> old(lingering).Some?
      ensures sourcePath == old(sourcePath) && (unlisted ==> old(unlisted))
      ensures reply.Accepted? && old(snapshot).phase.UnlockedClean? ==>
                snapshot.failed == (old(Hidden()) || !terminates)
      ensures reply.Accepted? && old(snapshot).phase.UnlockedDirty? ==>
                && snapshot.records == old(snapshot).records && recordKeys == old(recordKeys)
                && unlisted == old(unlisted) && snapshot.token == token
                && snapshot.phase == (if token.Some? then AwaitingDecision else UnlockedDirty)
    {
      hide Injective, Below, GivenUp, HandleSet;
      if !ActiveAt(expected) {
        return Rejected;
      }
      var published: Snapshot;
      if snapshot.phase.UnlockedDirty? {
        published := Await(None, token);
        return Accepted(published);
      }
      var clean := !session.value.Dirty();
      EnterBusy(snapshot);
      published := Shut(!(clean && terminates));
      return Accepted(published);
    }

    /** Resolve a close whose token was verified: save and lock, or give the work up and lock. */
    method ResolveCloseOnly(
      prior: Snapshot, saves: bool, save: SaveOutcome, end: EndOutcome)
      returns (published: Snapshot)
      requires Conserved() && decision.None? && SessionAgrees(UnlockedDirty) && prior.phase.UnlockedDirty?
      requires Shows(prior) && Keyed()
      requires Injective(recordKeys) && Below(recordKeys, nextKey) && openSecrets == {}
      requires lingering.None?
      requires save == SaveMet(save, Dangling())
      modifies this
      ensures Valid() && decision.None? && Moved() && published == snapshot && accepted == old(accepted)
      ensures saves ==> forfeited == old(forfeited)
      ensures saves && save.SaveFails? ==> session == old(session) && snapshot.phase.UnlockedDirty? && snapshot.failed
      ensures !(saves && save.SaveFails?) ==> snapshot.phase.Locked? && session.None?
      ensures lingering.None?
      ensures DanglingKept() && !Hidden()
      ensures sourcePath == old(sourcePath) && (unlisted ==> old(unlisted))
      ensures saves && save.SaveFails? ==> committed == old(committed)
      ensures saves && !save.SaveFails? ==>
                && committed == old(committed) + old(LiveWork())
                && snapshot.failed == (save.SaveCommitted? || !end.terminates)
      ensures !saves ==>
                && committed == old(committed) && snapshot.failed == !old(Ends(end))
                && GivenUp(old(forfeited),
                           old(LiveWork()) - committed - (if old(Ends(end)) then {} else old(StoredWork())), forfeited)
    {
      hide Injective, Below, GivenUp, HandleSet;
      EnterBusy(prior);
      if saves && save.SaveFails? {
        published := Restore(prior, true);
      } else if saves {
        FinishSave(save);
        published := Shut(save.SaveCommitted? || !end.terminates);
      } else {
        published := GiveUp(end);
      }
    }

    method GiveUp(end: EndOutcome) returns (published: Snapshot)
      requires session.Some? && sourcePath.Some? && Conserved() && decision.None? && openSecrets == {}
      requires Injective(recordKeys) && Below(recordKeys, nextKey)
      requires lingering.None?
      modifies this
      ensures Valid() && decision.None? && Moved() && published == snapshot && accepted == old(accepted)
      ensures snapshot.phase.Locked?
      ensures lingering.None?
      ensures DanglingKept() && !Hidden()
      ensures sourcePath == old(sourcePath) && !unlisted && committed == old(committed)
      ensures snapshot.failed == !old(Ends(end))
      ensures GivenUp(old(forfeited), old(LiveWork()) - committed - (if old(Ends(end)) then {} else old(StoredWork())),
                      forfeited)
    {
      hide Injective, Below, HandleSet;
      var ended := EndOldSession(end);
      if ended {
        session := None;
      }
      published := Shut(!ended);
    }

    /**
     What replacing a saved session leads to: the candidate's session if everything went through; the vault
     locked if the save was reported as failed, its records could not be listed, or the saved session would
     not end; the saved session as it was if the candidate failed before.
     */
    ghost predicate AfterSave(
      before: Option<nat>, path: nat, save: SaveOutcome, projects: bool, outcome: OpenOutcome, end: EndOutcome,
      wasSuspended: bool, wasIntact: bool)
      reads this`sourcePath, this`snapshot, this`session, this`suspended, this`unlisted, this`recordKeys
    {
      var kept := wasSuspended && KeptAfter(save);
      var ended := end.terminates && (kept ==> end.discardsPending && wasIntact);
      if save.SaveCommitted? || !projects then snapshot.phase.Locked? && snapshot.failed && sourcePath == before
      else if outcome.Opens? && outcome.projects then
        Superseded(before, path, ended, outcome, true)
      else session.Some? && sourcePath == before && snapshot.failed && snapshot.records == recordKeys.Values
    }

    /** Save first, then replace; a failed save keeps the session and closes the deferred secret. */
    method SaveThenReplace(
      pending: Decision, replacement: Replacement, save: SaveOutcome, projects: bool, outcome: OpenOutcome,
      end: EndOutcome)
      returns (published: Snapshot)
      requires Conserved() && decision.None? && SessionAgrees(UnlockedDirty) && pending.prior.phase.UnlockedDirty?
      requires outcome.Valid()
      requires Injective(recordKeys) && Below(recordKeys, nextKey)
      requires openSecrets == {replacement.passphrase} && Shows(pending.prior) && Keyed()
      requires lingering.None?
      requires save == SaveMet(save, Dangling())
      modifies this
      ensures Valid() && decision.None? && Moved() && published == snapshot && accepted == old(accepted)
      ensures forfeited == old(forfeited)
      ensures unlisted ==> old(unlisted)
      ensures save.SaveFails? ==> sourcePath == old(sourcePath) && committed == old(committed)
      ensures !save.SaveFails? ==>
                && committed == old(committed) + old(LiveWork())
                && AfterSave(old(sourcePath), replacement.path, save, projects, outcome, end, old(suspended),
                             old(intact))
      ensures save.SaveFails? ==> session == old(session) && snapshot.phase.UnlockedDirty? && snapshot.failed
      ensures !save.SaveFails? ==> old(LiveWork()) <= committed
      ensures lingering.None?
      ensures DanglingKept() && !Hidden()
    {
      hide Injective, Below, GivenUp;
      EnterBusy(pending.prior);
      if save.SaveFails? {
        openSecrets := {};
        published := Restore(pending.prior, true);
        return;
      }
      published := ContinueReplacing(replacement, pending.prior.generation, save, projects, outcome, end);
    }

    method ContinueReplacing(
      replacement: Replacement, priorGeneration: nat, save: SaveOutcome, projects: bool, outcome: OpenOutcome,
      end: EndOutcome)
      returns (published: Snapshot)
      requires session.Some? && sourcePath.Some? && Conserved() && decision.None? && outcome.Valid() && !save.SaveFails?
      requires Injective(recordKeys) && Below(recordKeys, nextKey) && openSecrets == {replacement.passphrase}
      requires lingering.None?
      requires save == SaveMet(save, Dangling())
      modifies this
      ensures Valid() && decision.None? && Moved() && published == snapshot && accepted == old(accepted)
      ensures forfeited == old(forfeited)
      ensures old(LiveWork()) <= committed
      ensures lingering.None?
      ensures DanglingKept() && !Hidden()
      ensures committed == old(committed) + old(LiveWork()) && !unlisted
      ensures AfterSave(old(sourcePath), replacement.path, save, projects, outcome, end, old(suspended), old(intact))
    {
      hide Injective, Below, GivenUp, HandleSet, Superseded, Keyed, Shows, SavedSession;
      FinishSave(save);
      if save.SaveCommitted? || !projects {
        openSecrets := {};
        published := Shut(true);
        return;
      }
      Relist();
      published := ReplaceSaved(replacement, priorGeneration, outcome, end);
    }

    /** Replace a session whose work has just been saved. */
    method ReplaceSaved(
      replacement: Replacement, priorGeneration: nat, outcome: OpenOutcome, end: EndOutcome)
      returns (published: Snapshot)
      requires Conserved() && decision.None? && session.Some? && sourcePath.Some? && session.value.work == {}
      requires outcome.Valid()
      requires Injective(recordKeys) && Below(recordKeys, nextKey) && openSecrets == {replacement.passphrase}
      requires lingering.None? && Keyed()
      modifies this
      ensures Valid() && decision.None? && Moved() && published == snapshot
      ensures accepted == old(accepted) && committed == old(committed) && forfeited == old(forfeited)
      ensures lingering.None?
      ensures DanglingKept() && !Hidden()
      ensures unlisted ==> old(unlisted)
      ensures if outcome.Opens? && outcome.projects
              then Superseded(old(sourcePath), replacement.path, old(Ends(end)), outcome, true)
              else session == old(session) && sourcePath == old(sourcePath) && snapshot.failed
                     && snapshot.records == recordKeys.Values
    {
      hide Injective, Below, GivenUp, HandleSet, Superseded;
      var dirty := session.value.Dirty();
      var saved := Snapshot(priorGeneration, if dirty then UnlockedDirty else UnlockedClean, dirty, recordKeys.Values,
                            false, None);
      published := RunReplacement(replacement, saved, outcome, end);
      assert openSecrets == {};
    }

    lemma MetFails(save: SaveOutcome, dangling: bool)
      ensures SaveMet(save, dangling).SaveFails? <==> save.SaveFails?
      ensures SaveMet(SaveMet(save, dangling), dangling) == SaveMet(save, dangling)
    {
    }

    /** The pending decision is used up. */
    method TakeDecision() returns (pending: Decision)
      requires Valid() && decision.Some?
      modifies this`decision
      ensures decision.None? && Some(pending) == old(decision)
      ensures Conserved() && SessionAgrees(UnlockedDirty) && pending.prior.phase.UnlockedDirty? && Shows(pending.prior)
      ensures Injective(recordKeys) && Below(recordKeys, nextKey) && lingering.None? && Keyed()
      ensures snapshot.phase.AwaitingDecision?
      ensures openSecrets == if pending.replacement.Some? then {pending.replacement.value.passphrase} else {}
    {
      hide Injective, Below, Keyed, Shows;
      pending := decision.value;
      decision := None;
    }

    method CancelDecision(prior: Snapshot) returns (published: Snapshot)
      requires Conserved() && decision.None? && SessionAgrees(UnlockedDirty) && prior.phase.UnlockedDirty?
      requires Injective(recordKeys) && Below(recordKeys, nextKey) && lingering.None? && Shows(prior) && Keyed()
      modifies this`openSecrets, this`drafts, this`generation, this`snapshot
      ensures Valid() && Moved() && published == snapshot && openSecrets == {}
      ensures snapshot.phase.UnlockedDirty? && !snapshot.failed && snapshot.records == prior.records
    {
      hide Injective, Below, HandleSet;
      openSecrets := {};
      published := Restore(prior, false);
    }

    /** The live work is given up once the replacement is authenticated and projected, and not before. */
    method DiscardThenReplace(
      replacement: Replacement, prior: Snapshot, outcome: OpenOutcome, end: EndOutcome)
      returns (published: Snapshot)
      requires Conserved() && decision.None? && SessionAgrees(UnlockedDirty) && prior.phase.UnlockedDirty?
      requires Injective(recordKeys) && Below(recordKeys, nextKey) && lingering.None? && Shows(prior) && Keyed()
      requires outcome.Valid() && openSecrets == {replacement.passphrase}
      modifies this
      ensures Valid() && decision.None? && Moved() && published == snapshot && openSecrets == {}
      ensures accepted == old(accepted) && lingering.None?
      ensures !(outcome.Opens? && outcome.projects) ==>
                session == old(session) && snapshot.phase.UnlockedDirty? && forfeited == old(forfeited)
      ensures DanglingKept() && !Hidden()
      ensures committed == old(committed) && (unlisted ==> old(unlisted))
      ensures if outcome.Opens? && outcome.projects
              then Superseded(old(sourcePath), replacement.path, old(Ends(end)), outcome, true)
              else sourcePath == old(sourcePath) && snapshot.failed && snapshot.records == prior.records
    {
      hide Injective, Below, HandleSet, Superseded, Shows, Keyed;
      published := RunReplacement(replacement, prior, outcome, end);
      assert openSecrets == {};
    }

    method ResolveReplacement(
      pending: Decision, replacement: Replacement, saves: bool, save: SaveOutcome, projects: bool, outcome: OpenOutcome,
      end: EndOutcome)
      returns (published: Snapshot)
      requires Conserved() && decision.None? && SessionAgrees(UnlockedDirty) && pending.prior.phase.UnlockedDirty?
      requires Injective(recordKeys) && Below(recordKeys, nextKey) && lingering.None?
      requires outcome.Valid() && openSecrets == {replacement.passphrase} && Shows(pending.prior) && Keyed()
      requires save == SaveMet(save, Dangling())
      modifies this
      ensures Valid() && decision.None? && Moved() && published == snapshot
      ensures accepted == old(accepted) && lingering.None? && (unlisted ==> old(unlisted))
      ensures DanglingKept() && !Hidden()
      ensures saves ==> forfeited == old(forfeited)
      ensures committed == if saves && !save.SaveFails? then old(committed) + old(LiveWork()) else old(committed)
      ensures saves && save.SaveFails? ==> session == old(session) && snapshot.phase.UnlockedDirty?
      ensures saves && !save.SaveFails? ==>
                AfterSave(old(sourcePath), replacement.path, save, projects, outcome, end, old(suspended), old(intact))
      ensures !saves && !(outcome.Opens? && outcome.projects) ==>
                session == old(session) && snapshot.phase.UnlockedDirty? && forfeited == old(forfeited)
      ensures !saves && outcome.Opens? && outcome.projects ==>
                Superseded(old(sourcePath), replacement.path, old(Ends(end)), outcome, true)
    {
      hide Settled, Conserved, Injective, Below, Superseded, AfterSave, Keyed, Shows, SessionAgrees, KeysNeverReissued;
      if saves {
        published := SaveThenReplace(pending, replacement, save, projects, outcome, end);
      } else {
        published := DiscardThenReplace(replacement, pending.prior, outcome, end);
      }
    }

    /**
     Resolve the one pending decision. Its token works once; cancelling restores the prior view and
     closes the deferred secret; only an explicit choice to discard gives work up, and not even that
     does when the replacement fails to authenticate.
     */
    method ResolveClose(
      token: Option<nat>, choice: CloseChoice, save: SaveOutcome, projects: bool, outcome: OpenOutcome, end: EndOutcome)
      returns (reply: Reply)
      requires Valid() && outcome.Valid()
      modifies this
      ensures openSecrets <= old(openSecrets)
      ensures Valid() && accepted == old(accepted)
      ensures reply.Accepted? <==> old(decision).Some? && token == Some(old(decision).value.token)
      ensures reply.Rejected? ==> Untouched()
      ensures reply.Accepted? ==> Moved() && decision.None? && openSecrets == {}
      ensures forfeited != old(forfeited) ==> choice.Discard?
      ensures reply.Accepted? && choice.Cancel? ==>
                session == old(session) && snapshot.phase.UnlockedDirty? && !snapshot.failed
      ensures reply.Accepted? && choice.Save? && save.SaveFails? ==>
                session == old(session) && snapshot.phase.UnlockedDirty?
      ensures reply.Accepted? && choice.Discard? && old(decision).value.replacement.Some?
                && !(outcome.Opens? && outcome.projects) ==>
                session == old(session) && snapshot.phase.UnlockedDirty? && forfeited == old(forfeited)
      ensures lingering.Some? ==> old(lingering).Some?
      ensures DanglingKept() && (Hidden() ==> old(Hidden()))
      ensures old(snapshot).phase.Locked? ==> reply.Rejected?
      ensures unlisted ==> old(unlisted)
      ensures committed == if reply.Accepted? && choice.Save? && !save.SaveFails? then old(committed) + old(LiveWork())
                           else old(committed)
      ensures reply.Accepted? && choice.Cancel? ==>
                && snapshot.records == old(decision).value.prior.records && recordKeys == old(recordKeys)
                && sourcePath == old(sourcePath) && unlisted == old(unlisted)
      ensures reply.Accepted? && !choice.Cancel? && old(decision).value.replacement.None?
                && !(choice.Save? && save.SaveFails?) ==>
                && snapshot.phase.Locked? && session.None? && sourcePath == old(sourcePath)
                && (choice.Discard? ==> snapshot.failed == !old(Ends(end)))
      ensures reply.Accepted? && choice.Discard? && old(decision).value.replacement.Some?
                && outcome.Opens? && outcome.projects ==>
                Superseded(old(sourcePath), old(decision).value.replacement.value.path, old(Ends(end)), outcome, true)
      ensures reply.Accepted? && choice.Save? && old(decision).value.replacement.Some? && !save.SaveFails? ==>
                AfterSave(old(sourcePath), old(decision).value.replacement.value.path, SaveMet(save, old(Dangling())),
                          projects, outcome, end, old(suspended), old(intact))
    {
      hide Settled, Conserved, SessionAgrees, Injective, Below, GivenUp, Superseded, AfterSave, Keyed, Shows;
      hide SaveMet;
      if decision.None? || token != Some(decision.value.token) {
        return Rejected;
      }
      var met := SaveMet(save, Dangling());
      MetFails(save, Dangling());
      var pending := TakeDecision();
      var published: Snapshot;
      if choice.Cancel? {
        published := CancelDecision(pending.prior);
      } else if pending.replacement.Some? {
        published := ResolveReplacement(pending, pending.replacement.value, choice.Save?, met, projects, outcome, end);
      } else {
        published := ResolveCloseOnly(pending.prior, choice.Save?, met, end);
      }
      return Accepted(published);
    }
  }

  // ---------------------------------------------------------------- whole runs

  /** One command with everything the outside will do during it. */
  datatype Command =
    | Begin(key: Option<nat>, expected: nat)
    | Commit(draftGeneration: nat, key: Option<nat>, admissible: bool, agrees: bool, empty: bool, edit: EditOutcome)
    | SaveNow(expected: nat, save: SaveOutcome, projects: bool)
    | LockNow(expected: nat, suspend: SuspendOutcome, terminates: bool)
    | Unlock(open: OpenOutcome)
    | DropPending(expected: nat, discards: bool)
    | Replace(create: bool, path: nat, token: Option<nat>, open: OpenOutcome, end: EndOutcome)
    | Close(expected: nat, token: Option<nat>, terminates: bool)
    | Resolve(token: Option<nat>, choice: CloseChoice, save: SaveOutcome, projects: bool, open: OpenOutcome,
              end: EndOutcome)
  {
    ghost predicate Valid() {
      match this
      case Commit(_, _, _, _, _, edit) => edit.Valid()
      case Unlock(open) => open.Valid()
      case Replace(_, _, _, open, _) => open.Valid()
      case Resolve(_, _, _, _, open, _) => open.Valid()
      case _ => true
    }

    /** A candidate is adopted and fails only then, with no session to replace. */
    predicate MayLinger() {
      match this
      case Unlock(open) => open.Hides()
      case Replace(_, _, _, open, _) => open.Hides()
      case _ => false
    }

    /** An edit is applied by a call that then fails. */
    predicate MayHide() {
      Commit? && edit.AppliedThenFails?
    }

    /** A command that ends the session without a decision when the view is clean. */
    predicate EndsClean() {
      LockNow? || Replace? || Close?
    }

    /** The three ways unsaved work can end: the user discards it, twice over, or an applied edit cannot be shown. */
    predicate MayForfeit() {
      match this
      case Commit(_, _, _, _, _, edit) => edit.Edits? && !edit.projects
      case DropPending(_, _) => true
      case Resolve(_, choice, _, _, _, _) => choice.Discard?
      case _ => false
    }
  }

  /** One command of a run, with what the view hid when it was issued. */
  datatype Entry = Entry(command: Command, hidden: bool) {
    /** The ways unsaved work can end, the view's silence about it included. */
    predicate MayCost() {
      command.MayForfeit() || (hidden && command.EndsClean())
    }
  }

  /** The commands of a run so far. */
  class Journal {
    ghost var log: seq<Entry>

    constructor ()
      ensures log == []
    {
      log := [];
    }
  }

  /** Run one command; `id` names the edit or the secret it brings. */
  method Perform(app: VaultApplication, journal: Journal, command: Command, id: nat) returns (reply: Reply)
    requires app.Valid() && command.Valid() && id !in app.accepted && id !in app.openSecrets
    modifies app, journal
    ensures app.Valid() && !app.snapshot.phase.Busy?
    ensures old(app.accepted) <= app.accepted <= old(app.accepted) + {id}
    ensures app.openSecrets <= old(app.openSecrets) + {id}
    ensures journal.log == old(journal.log) + [Entry(command, old(app.Hidden()))]
    ensures app.forfeited != old(app.forfeited) ==> Entry(command, old(app.Hidden())).MayCost()
    ensures app.Hidden() ==> old(app.Hidden()) || command.MayHide()
    ensures app.lingering.Some? ==> old(app.lingering).Some? || command.MayLinger()
    ensures app.unlisted ==> old(app.unlisted) || command.MayHide()
    ensures app.DanglingKept()
    ensures old(app.Dangling()) && old(app.snapshot).phase.Locked? ==> app.snapshot.phase.Locked?
    ensures old(app.generation) <= app.generation <= old(app.generation) + 1 && app.KeysNeverReissued()
  {
    hide app.Conserved, app.Settled, GivenUp;
    journal.log := journal.log + [Entry(command, app.Hidden())];
    match command {
      case Begin(key, expected) =>
        reply := app.BeginEdit(key, expected);
      case Commit(draftGeneration, key, admissible, agrees, empty, edit) =>
        reply := app.CommitEdit(draftGeneration, key, admissible, agrees, empty, id, id, edit);
      case SaveNow(expected, save, projects) =>
        reply := app.SaveVault(expected, save, projects);
      case LockNow(expected, suspend, terminates) =>
        reply := app.LockVault(expected, suspend, terminates);
      case Unlock(open) =>
        reply := app.UnlockVault(id, open);
      case DropPending(expected, discards) =>
        reply := app.DiscardSuspended(expected, discards);
      case Replace(create, path, token, open, end) =>
        reply := app.OpenOrCreate(create, path, id, token, open, end);
      case Close(expected, token, terminates) =>
        reply := app.RequestClose(expected, token, terminates);
      case Resolve(token, choice, save, projects, open, end) =>
        reply := app.ResolveClose(token, choice, save, projects, open, end);
    }
    app.NeverBusy();
  }

  /**
   Over every run and every behaviour of the service, each accepted edit is in the live session, in
   a source file, in an artifact that still exists, or was given up. None is given up unless some
   command of the run discards work, applies an edit that cannot be shown, or ends a session whose
   work a clean view hides; and a view hides work only after an edit was applied by a call that failed.
   */
  method Drive(app: VaultApplication, journal: Journal, commands: seq<Command>, first: nat)
    requires app.Valid() && (forall i :: 0 <= i < |commands| ==> commands[i].Valid())
    requires forall e :: e in app.accepted || e in app.openSecrets ==> e < first
    modifies app, journal
    ensures app.Valid() && !app.snapshot.phase.Busy?
    ensures old(app.accepted) <= app.accepted <= app.LiveWork() + app.committed + app.StoredWork() + app.forfeited
    ensures |journal.log| == |old(journal.log)| + |commands| && old(journal.log) <= journal.log
    ensures forall i :: 0 <= i < |commands| ==> journal.log[|old(journal.log)| + i].command == commands[i]
    ensures (forall i :: |old(journal.log)| <= i < |journal.log| ==> !journal.log[i].MayCost()) ==>
              app.forfeited == old(app.forfeited)
    ensures !old(app.unlisted) && (forall i :: 0 <= i < |commands| ==> !commands[i].MayHide()) ==> !app.unlisted
    ensures !old(app.Hidden()) && (forall i :: 0 <= i < |commands| ==> !commands[i].MayHide()) ==>
              !app.Hidden() && forall i :: |old(journal.log)| <= i < |journal.log| ==> !journal.log[i].hidden
    ensures app.DanglingKept()
    ensures old(app.Dangling()) && old(app.snapshot).phase.Locked? ==> app.snapshot.phase.Locked?
    ensures old(app.generation) <= app.generation && app.KeysNeverReissued()
  {
    hide app.Settled;
    app.NeverBusy();
    var i := 0;
    while i < |commands|
      invariant 0 <= i <= |commands| && app.Valid() && !app.snapshot.phase.Busy?
      invariant forall e :: e in app.accepted || e in app.openSecrets ==> e < first + i
      invariant old(app.accepted) <= app.accepted
      invariant |journal.log| == |old(journal.log)| + i && old(journal.log) <= journal.log
      invariant forall j :: 0 <= j < i ==> journal.log[|old(journal.log)| + j].command == commands[j]
      invariant (forall j :: |old(journal.log)| <= j < |journal.log| ==> !journal.log[j].MayCost()) ==>
                  app.forfeited == old(app.forfeited)
      invariant !old(app.unlisted) && (forall j :: 0 <= j < i ==> !commands[j].MayHide()) ==> !app.unlisted
      invariant !old(app.Hidden()) && (forall j :: 0 <= j < i ==> !commands[j].MayHide()) ==>
                  !app.Hidden() && forall j :: |old(journal.log)| <= j < |journal.log| ==> !journal.log[j].hidden
      invariant app.DanglingKept()
      invariant old(app.Dangling()) && old(app.snapshot).phase.Locked? ==> app.snapshot.phase.Locked?
      invariant old(app.generation) <= app.generation && app.KeysNeverReissued()
    {
      ghost var earlier := journal.log;
      var _ := Perform(app, journal, commands[i], first + i);
      assert forall j :: 0 <= j < |earlier| ==> journal.log[j] == earlier[j];
      assert |journal.log| == |earlier| + 1;
      i := i + 1;
    }
    assert app.Conserved();
  }

  // ---------------------------------------------------------------- two runs that cost work

  const ONE_RECORD: seq<nat> := [7]

  /** Open a vault and start to edit. */
  method Started() returns (app: VaultApplication)
    ensures fresh(app) && app.Valid() && app.snapshot.phase.UnlockedClean? && app.DraftLive(app.generation, None)
    ensures app.session == Some(Session({}, false, false, ONE_RECORD, 0)) && !app.suspended
    ensures app.accepted == {} && app.committed == {} && app.forfeited == {} && app.openSecrets == {}
  {
    app := new VaultApplication();
    var _ := app.OpenOrCreate(false, 0, 100, None, Opens(ONE_RECORD, 0, true, true, false), EndOutcome(true, true));
    var _ := app.BeginEdit(None, app.generation);
  }

  /**
   An edit is applied by a call that then fails, so the view stays clean; closing the vault then asks
   for no decision and the edit is given up.
   */
  method HiddenWorkIsGivenUp() returns (app: VaultApplication)
    ensures app.Valid() && app.snapshot.phase.Locked? && app.accepted == app.forfeited == {0}
  {
    app := Started();
    var _ := app.CommitEdit(app.generation, None, true, true, false, 101, 0, AppliedThenFails(ONE_RECORD, 1));
    assert app.Hidden() && app.LiveWork() == {0};
    var _ := app.RequestClose(app.generation, None, true);
  }

  /**
   A record is added by a call that then fails, over a view that is dirty already. Cancelling a close then
   shows that view again, without a failure and without the record.
   */
  method CancelShowsOutdated() returns (app: VaultApplication)
    ensures app.Valid() && app.snapshot.phase.UnlockedDirty? && !app.snapshot.failed && app.unlisted
    ensures app.session.Some? && 8 in app.session.value.handles && 8 !in app.recordKeys
    ensures app.snapshot.records == app.recordKeys.Values
  {
    app := Started();
    hide app.Valid, app.Settled, app.Conserved;
    var _ := app.CommitEdit(app.generation, None, true, true, false, 101, 0, Edits(ONE_RECORD, 1, true));
    app.SnapshotIsCurrent();
    app.ViewListsRecords();
    var _ := app.BeginEdit(None, app.generation);
    var _ := app.CommitEdit(app.generation, None, true, true, false, 102, 1, AppliedThenFails([7, 8], 2));
    app.SnapshotIsCurrent();
    var _ := app.RequestClose(app.generation, Some(5), true);
    app.DecisionIsShown();
    var _ := app.ResolveClose(Some(5), Cancel, SaveFails, true, OpenFails, EndOutcome(true, true));
    app.ViewListsRecords();
  }

  /** One edit is suspended and comes back in a resumed session. */
  method Resumed() returns (app: VaultApplication)
    ensures fresh(app) && app.Valid() && app.snapshot.phase.UnlockedDirty? && app.suspended && app.intact
    ensures app.session == Some(Session({0}, false, true, ONE_RECORD, 0)) && app.artifact == {0}
    ensures app.accepted == {0} && app.committed == {} && app.forfeited == {} && app.openSecrets == {}
  {
    app := Started();
    hide app.Valid, app.Settled, app.Conserved;
    var _ := app.CommitEdit(app.generation, None, true, true, false, 101, 0, Edits(ONE_RECORD, 1, true));
    app.SnapshotIsCurrent();
    var _ := app.LockVault(app.generation, Suspends, true);
    assert app.StoredWork() == {0};
    var _ := app.UnlockVault(102, Opens(ONE_RECORD, 0, true, true, false));
  }

  /**
   Locking it again publishes, finds the source changed, and takes the publication back together
   with the earlier artifact. An edit that cannot be shown then costs both, and the vault is locked
   over an artifact that is gone.
   */
  method LostArtifactCostsWork() returns (app: VaultApplication)
    ensures app.Valid() && app.snapshot.phase.Locked? && app.Dangling() && app.accepted == app.forfeited == {0, 1}
  {
    app := Resumed();
    hide app.Valid, app.Settled, app.Conserved;
    app.SnapshotIsCurrent();
    var _ := app.LockVault(app.generation, SuspendWithdrawn, true);
    app.SnapshotIsCurrent();
    var _ := app.BeginEdit(None, app.generation);
    var _ := app.CommitEdit(app.generation, None, true, true, false, 103, 1, Edits(ONE_RECORD, 1, false));
  }
}
