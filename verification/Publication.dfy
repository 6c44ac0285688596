/**
 One publication as a step protocol over a small filesystem: stage, validate, lock, recheck,
 preserve the previous revision, announce it in the slot, replace, verify and clean up. A one-shot
 fault may hit any stage; every intermediate disk state is recorded and proved safe.
 */
module Publication {
  import opened Basics

  type Id = nat

  const MAX_SLOT_IDENTIFIERS: nat := 64
  const NAME_ATTEMPTS: nat := 32

  /** The durable association of a vault with its prior revision, and older ones not yet removed. */
  datatype Slot = Slot(current: Id, obsolete: seq<Id>) {
    function Ids(): seq<Id> { [current] + obsolete }
  }

  /** What is durable: the destination, the recovery slot, the recovery artifacts and the staged file. */
  datatype Disk = Disk(destination: Option<Bytes>, slot: Option<Slot>, artifacts: map<Id, Bytes>, staged: Option<Bytes>)

  datatype Stage =
    | Create | Write | FileSync | Reopen | Compare | LockFile | BaselineRecheck | ReadSlot
    | RecoveryWrite | RecoverySync | RecoveryLinked | SlotWrite | SlotSynchronized | SecondRecheck
    | Replace | DirectorySync | PublishedVerification | CommitRemove(index: nat) | CommitSlot | Cleanup

  datatype Reason = PreparationFailed | VerificationFailed | PublicationFailed | ExternallyModified

  datatype Outcome = Published(recovery: Option<Id>) | CommittedFailure(recovery: Option<Id>) | Refused(reason: Reason)

  predicate SlotNamesArtifact(d: Disk) {
    d.slot.Some? ==> d.slot.value.current in d.artifacts
  }

  /** Every artifact the old slot listed and that still exists is still listed. */
  predicate NothingForgotten(before: Disk, d: Disk) {
    before.slot.Some? ==>
      forall id :: id in before.slot.value.Ids() && id in d.artifacts ==> d.slot.Some? && id in d.slot.value.Ids()
  }

  /**
   Safety of one disk state on the way from `before` to holding `candidate`. The destination is
   whole, old or new; the slot is absent or names an existing artifact; once the new content is
   in place that artifact holds the old one.
   */
  predicate Safe(before: Disk, candidate: Bytes, d: Disk) {
    && (d.destination == before.destination || d.destination == Some(candidate))
    && SlotNamesArtifact(d)
    && NothingForgotten(before, d)
    && (d.slot.Some? ==> |d.slot.value.Ids()| <= MAX_SLOT_IDENTIFIERS)
    && (before.destination.Some? && d.destination != before.destination ==>
          d.slot.Some? && d.artifacts[d.slot.value.current] == before.destination.value)
  }

  ghost predicate Extends(small: map<Id, Bytes>, large: map<Id, Bytes>) {
    forall id :: id in small ==> id in large && large[id] == small[id]
  }

  predicate Sound(d: Disk) {
    && SlotNamesArtifact(d)
    && (d.slot.Some? ==> |d.slot.value.Ids()| <= MAX_SLOT_IDENTIFIERS)
    && d.staged.None?
  }

  // ---------------------------------------------------------------- the transaction slot

  /** Insert in order without repeats, as an ordered dictionary does. */
  function Inserted(ids: seq<Id>, id: Id): seq<Id> {
    if id in ids then ids else ids + [id]
  }

  function Collected(current: Id, source: seq<Id>, n: nat): (r: seq<Id>)
    requires n <= |source|
    ensures forall id :: id in r <==> id in source[..n] && id != current
    ensures |r| <= n
  {
    if n == 0 then []
    else
      var earlier := Collected(current, source, n - 1);
      assert source[..n] == source[..n - 1] + [source[n - 1]];
      if source[n - 1] == current then earlier else Inserted(earlier, source[n - 1])
  }

  function PreviousIds(previous: Option<Slot>): seq<Id> {
    if previous.None? then [] else previous.value.Ids()
  }

  /** The new current artifact first, every older one behind it; too many is a refusal. */
  function TransactionSlot(current: Id, previous: Option<Slot>): (r: Option<Slot>)
    ensures r.Some? ==> r.value.current == current && |r.value.Ids()| <= 64
    ensures r.Some? ==> forall id :: id in r.value.Ids() <==> id == current || id in PreviousIds(previous)
  {
    var ids := PreviousIds(previous);
    assert ids[..|ids|] == ids;
    var obsolete := Collected(current, ids, |ids|);
    if |obsolete| + 1 > MAX_SLOT_IDENTIFIERS then None else Some(Slot(current, obsolete))
  }

  /** The first of the drawn identifiers that is not taken, within the allowed attempts. */
  function FirstFresh(ids: seq<Id>, taken: map<Id, Bytes>, from: nat): Option<Id>
    decreases |ids| - from
  {
    if from >= |ids| || from >= NAME_ATTEMPTS then None
    else if ids[from] !in taken then Some(ids[from])
    else FirstFresh(ids, taken, from + 1)
  }

  /** The first of at most 32 identifiers drawn that is not taken, if there is one. */
  lemma {:induction false} FirstFreshExactly(ids: seq<Id>, taken: map<Id, Bytes>, from: nat)
    requires from <= 32
    ensures match FirstFresh(ids, taken, from)
            case None => forall i :: from <= i < |ids| && i < 32 ==> ids[i] in taken
            case Some(id) =>
              exists i :: from <= i < |ids| && i < 32 && ids[i] == id && id !in taken
                          && forall j :: from <= j < i ==> ids[j] in taken
    decreases |ids| - from
  {
    if from < |ids| && from < 32 {
      if ids[from] in taken {
        FirstFreshExactly(ids, taken, from + 1);
      } else {
        assert ids[from] == FirstFresh(ids, taken, from).value;
      }
    }
  }

  /** When a publication that meets no fault goes through. */
  predicate Publishable(before: Disk, accepted: bool, baseline: Option<Bytes>, ids: seq<Id>) {
    && accepted && before.destination == baseline
    && (baseline.Some? ==>
          var id := FirstFresh(ids, before.artifacts, 0);
          id.Some? && TransactionSlot(id.value, before.slot).Some?)
  }

  // ---------------------------------------------------------------- the store

  class LocalVaultStore {
    var disk: Disk
    var fault: Option<Stage>
    ghost var history: seq<Disk>

    constructor (initial: Disk, injected: Option<Stage>)
      ensures disk == initial && fault == injected && history == []
    {
      disk, fault, history := initial, injected, [];
    }

    /** The fault, if armed for this stage, fires once. */
    method Hit(stage: Stage) returns (failed: bool)
      modifies this`fault
      ensures failed == (old(fault) == Some(stage))
      ensures fault == if failed then None else old(fault)
    {
      failed := fault == Some(stage);
      if failed {
        fault := None;
      }
    }

    /** Every change of the disk is an observable crash point. */
    method Put(next: Disk)
      modifies this`disk, this`history
      ensures disk == next && history == old(history) + [next]
    {
      disk := next;
      history := history + [next];
    }

    ghost predicate AllSafe(from: nat, before: Disk, candidate: Bytes)
      reads this
    {
      from <= |history| && forall k :: from <= k < |history| ==> Safe(before, candidate, history[k])
    }

    /** Copy the source into a staged file beside the destination; a failure leaves no staged file. */
    method StageCandidate(candidate: Bytes, ghost before: Disk, ghost from: nat) returns (ok: bool)
      requires disk == before && Sound(before) && AllSafe(from, before, candidate)
      modifies this
      ensures AllSafe(from, before, candidate) && Safe(before, candidate, disk)
      ensures old(history) <= history
      ensures old(fault).None? ==> fault.None?
      ensures disk == if ok then before.(staged := Some(candidate)) else before
      ensures if ok then fault == old(fault) else old(fault).Some?
    {
      var failed := Hit(Create);
      if failed {
        return false;
      }
      Put(disk.(staged := Some([])));
      failed := Hit(Write);
      if !failed {
        Put(disk.(staged := Some(candidate)));
        failed := Hit(FileSync);
      }
      if failed {
        Put(disk.(staged := None));
        return false;
      }
      return true;
    }

    /** Preserve the destination under the first unused identifier. */
    method CreateRecovery(
      content: Bytes, ids: seq<Id>, candidate: Bytes, ghost before: Disk, ghost from: nat)
      returns (created: Option<Id>)
      requires disk == before.(staged := Some(candidate)) && Sound(before) && AllSafe(from, before, candidate)
      modifies this
      ensures AllSafe(from, before, candidate) && Safe(before, candidate, disk)
      ensures old(history) <= history
      ensures old(fault).None? ==> fault.None?
      ensures disk == before.(staged := Some(candidate), artifacts := disk.artifacts)
      ensures created.Some? ==> fault == old(fault) && created.value !in before.artifacts
                                && disk.artifacts == before.artifacts[created.value := content]
      ensures created.None? ==> Extends(before.artifacts, disk.artifacts)
                                && (old(fault) != Some(RecoveryLinked) ==> disk.artifacts == before.artifacts)
      ensures old(fault).None? ==> created == FirstFresh(ids, before.artifacts, 0)
    {
      var attempt := 0;
      while attempt < |ids| && attempt < NAME_ATTEMPTS
        invariant 0 <= attempt && disk == before.(staged := Some(candidate)) && AllSafe(from, before, candidate)
        invariant fault == old(fault) && old(history) <= history
        invariant FirstFresh(ids, before.artifacts, 0) == FirstFresh(ids, before.artifacts, attempt)
      {
        var failed := Hit(RecoveryWrite);
        if !failed {
          failed := Hit(RecoverySync);
        }
        if failed {
          return None;
        }
        if ids[attempt] !in disk.artifacts {
          Put(disk.(artifacts := disk.artifacts[ids[attempt] := content]));
          failed := Hit(RecoveryLinked);
          return if failed then None else Some(ids[attempt]);
        }
        attempt := attempt + 1;
      }
      return None;
    }

    /**
     Recheck the destination, preserve it, announce the artifact, and recheck again. The returned
     identifier is set once the artifact is this transaction's to remove.
     */
    method Preserve(baseline: Bytes, ids: seq<Id>, candidate: Bytes, ghost before: Disk, ghost from: nat)
      returns (created: Option<Id>, previous: Option<Slot>, failure: Option<Reason>)
      requires disk == before.(staged := Some(candidate)) && Sound(before) && AllSafe(from, before, candidate)
      modifies this
      ensures AllSafe(from, before, candidate) && Safe(before, candidate, disk)
      ensures old(history) <= history
      ensures old(fault).None? ==> fault.None?
      ensures disk == before.(staged := Some(candidate), slot := disk.slot, artifacts := disk.artifacts)
      ensures created.None? ==> failure.Some? && disk.slot == before.slot && Extends(before.artifacts, disk.artifacts)
                                && (old(fault) != Some(RecoveryLinked) ==> disk.artifacts == before.artifacts)
      ensures created.Some? ==>
                created.value !in before.artifacts && disk.artifacts == before.artifacts[created.value := baseline]
      ensures failure.None? ==> created.Some? && before.destination == Some(baseline)
                                && disk.slot.Some? && disk.slot == TransactionSlot(created.value, before.slot)
      ensures previous == before.slot
      ensures failure.None? ==> fault == old(fault)
      ensures before.destination != Some(baseline) && old(fault).None? ==> failure == Some(ExternallyModified)
      ensures old(fault).None? ==> (failure.None? <==> Publishable(before, true, Some(baseline), ids))
    {
      previous := disk.slot;
      if disk.destination != Some(baseline) {
        return None, previous, Some(ExternallyModified);
      }
      var failed := Hit(ReadSlot);
      if failed {
        return None, previous, Some(Reason.VerificationFailed);
      }
      created := CreateRecovery(baseline, ids, candidate, before, from);
      if created.None? {
        return None, previous, Some(PublicationFailed);
      }
      var announced := TransactionSlot(created.value, previous);
      if announced.None? {
        return created, previous, Some(PublicationFailed);
      }
      failed := Hit(SlotWrite);
      if failed {
        return created, previous, Some(PublicationFailed);
      }
      Put(disk.(slot := announced));
      failed := Hit(SlotSynchronized);
      if !failed {
        failed := Hit(SecondRecheck);
      }
      failure := if failed then Some(PublicationFailed) else None;
    }

    /**
     Remove every superseded artifact, then shrink the slot to the new one; one failed removal keeps
     the slot long.
     */
    method CommitRecovery(created: Id, candidate: Bytes, ghost before: Disk, ghost from: nat) returns (ok: bool)
      requires AllSafe(from, before, candidate) && Safe(before, candidate, disk)
      requires disk.slot.Some? && disk.slot.value.current == created
      requires before.slot.Some? ==> forall id :: id in before.slot.value.Ids() ==> id in disk.slot.value.Ids()
      requires created !in disk.slot.value.obsolete
      modifies this
      ensures AllSafe(from, before, candidate) && Safe(before, candidate, disk)
      ensures old(history) <= history
      ensures old(fault).None? ==> fault.None?
      ensures disk == old(disk).(slot := disk.slot, artifacts := disk.artifacts)
      ensures disk.slot.Some? && disk.slot.value.current == created
      ensures created in disk.artifacts && disk.artifacts[created] == old(disk).artifacts[created]
      ensures ok ==> disk.slot == Some(Slot(created, []))
                     && disk.artifacts == old(disk).artifacts - (set id | id in old(disk).slot.value.obsolete)
      ensures !ok ==> old(fault).Some?
    {
      var obsolete := disk.slot.value.obsolete;
      var cleanupFailed := false;
      var i := 0;
      assert old(disk).artifacts - {} == old(disk).artifacts;
      while i < |obsolete|
        invariant 0 <= i <= |obsolete| && AllSafe(from, before, candidate) && Safe(before, candidate, disk)
        invariant disk == old(disk).(artifacts := disk.artifacts) && old(history) <= history
        invariant created in disk.artifacts && disk.artifacts[created] == old(disk).artifacts[created]
        invariant !cleanupFailed ==> fault == old(fault)
        invariant !cleanupFailed ==> disk.artifacts == old(disk).artifacts - (set k | 0 <= k < i :: obsolete[k])
        invariant cleanupFailed ==> old(fault).Some?
      {
        assert (set k | 0 <= k < i + 1 :: obsolete[k]) == (set k | 0 <= k < i :: obsolete[k]) + {obsolete[i]};
        if obsolete[i] in disk.artifacts {
          var failed := Hit(CommitRemove(i));
          if failed {
            cleanupFailed := true;
          } else {
            Put(disk.(artifacts := disk.artifacts - {obsolete[i]}));
          }
        }
        i := i + 1;
      }
      assert (set id | id in obsolete) == (set k | 0 <= k < i :: obsolete[k]);
      if cleanupFailed {
        return false;
      }
      var failed := Hit(CommitSlot);
      if failed {
        return false;
      }
      Put(disk.(slot := Some(Slot(created, []))));
      return true;
    }

    /**
     Everything under the destination lock. `created` is set while the new artifact must be rolled
     back on failure.
     */
    method LockedTransaction(
      candidate: Bytes, baseline: Option<Bytes>, ids: seq<Id>, ghost before: Disk, ghost from: nat)
      returns (replaced: bool, created: Option<Id>, previous: Option<Slot>, failure: Option<Reason>)
      requires disk == before.(staged := Some(candidate)) && Sound(before) && AllSafe(from, before, candidate)
      modifies this
      ensures AllSafe(from, before, candidate) && Safe(before, candidate, disk)
      ensures old(history) <= history
      ensures old(fault).None? ==> fault.None?
      ensures replaced ==> before.destination == baseline && disk.destination == Some(candidate) && disk.staged.None?
      ensures replaced && baseline.Some? ==>
                && created.Some? && created.value !in before.artifacts
                && disk.slot.Some? && disk.slot.value.current == created.value
                && created.value in disk.artifacts && disk.artifacts[created.value] == baseline.value
      ensures replaced && baseline.Some? && failure.None? ==>
                && disk.slot == Some(Slot(created.value, []))
                && disk.artifacts == before.artifacts[created.value := baseline.value]
                                     - (set id | id in PreviousIds(before.slot) && id != created.value)
      ensures baseline.None? ==> created.None? && disk.slot == before.slot && disk.artifacts == before.artifacts
      ensures !replaced ==>
                && failure.Some?
                && disk == before.(staged := Some(candidate), slot := disk.slot, artifacts := disk.artifacts)
      ensures !replaced && created.None? ==>
                && disk.slot == before.slot && Extends(before.artifacts, disk.artifacts)
                && (old(fault) != Some(RecoveryLinked) ==> disk.artifacts == before.artifacts)
      ensures !replaced && created.Some? ==>
                baseline.Some? && created.value !in before.artifacts
                    && disk.artifacts == before.artifacts[created.value := baseline.value]
      ensures created.Some? ==> previous == before.slot
      ensures old(fault).None? && before.destination != baseline ==> failure == Some(ExternallyModified) && !replaced
      ensures old(fault).None? && replaced ==> failure.None?
      ensures old(fault).None? ==> (replaced <==> Publishable(before, true, baseline, ids))
    {
      replaced, created, previous, failure := false, None, None, None;
      var failed := Hit(BaselineRecheck);
      if failed {
        return false, None, None, Some(Reason.PublicationFailed);
      }
      if baseline.Some? {
        created, previous, failure := Preserve(baseline.value, ids, candidate, before, from);
        if failure.Some? {
          return false, created, previous, failure;
        }
      }
      failed := Hit(Replace);
      if failed {
        return false, created, previous, Some(Reason.PublicationFailed);
      }
      if baseline.None? && disk.destination.Some? {
        return false, None, None, Some(ExternallyModified);
      }
      Put(disk.(destination := Some(candidate), staged := None));
      replaced := true;
      failure := FinishReplacement(candidate, baseline, created, before, from);
    }

    /** The rename has happened: synchronize, verify, and clean up what the new recovery supersedes. */
    method FinishReplacement(
      candidate: Bytes, baseline: Option<Bytes>, created: Option<Id>, ghost before: Disk, ghost from: nat)
      returns (failure: Option<Reason>)
      requires AllSafe(from, before, candidate) && Safe(before, candidate, disk)
      requires disk.destination == Some(candidate) && disk.staged.None? && (created.Some? <==> baseline.Some?)
      requires created.None? ==> disk.slot == before.slot && disk.artifacts == before.artifacts
      requires created.Some? ==>
                 && created.value !in before.artifacts && disk.slot.Some?
                 && disk.slot == TransactionSlot(created.value, before.slot)
                 && disk.artifacts == before.artifacts[created.value := baseline.value]
      modifies this
      ensures AllSafe(from, before, candidate) && Safe(before, candidate, disk) && old(history) <= history
      ensures disk == old(disk).(slot := disk.slot, artifacts := disk.artifacts)
      ensures old(fault).None? ==> fault.None? && failure.None?
      ensures created.None? ==> disk == old(disk)
      ensures created.Some? ==>
                && disk.slot.Some? && disk.slot.value.current == created.value
                && created.value in disk.artifacts && disk.artifacts[created.value] == baseline.value
      ensures created.Some? && failure.None? ==>
                && disk.slot == Some(Slot(created.value, []))
                && disk.artifacts == before.artifacts[created.value := baseline.value]
                                     - (set id | id in PreviousIds(before.slot) && id != created.value)
    {
      var failed := Hit(DirectorySync);
      if !failed {
        failed := Hit(PublishedVerification);
      }
      if failed {
        return Some(Reason.PublicationFailed);
      }
      failure := None;
      if created.Some? {
        var committed := CommitRecovery(created.value, candidate, before, from);
        if !committed {
          failure := Some(Reason.PublicationFailed);
        }
      }
    }

    /** Undo what a failed transaction left: the staged file, the announced slot, the new artifact. */
    method RollBack(created: Option<Id>, previous: Option<Slot>, candidate: Bytes, ghost before: Disk, ghost from: nat)
      requires AllSafe(from, before, candidate) && Sound(before)
      requires disk == before.(staged := Some(candidate), slot := disk.slot, artifacts := disk.artifacts)
      requires created.None? ==> disk.slot == before.slot && Extends(before.artifacts, disk.artifacts)
      requires created.Some? ==>
                 previous == before.slot && created.value !in before.artifacts && created.value in disk.artifacts
                                 && disk.artifacts - {created.value} == before.artifacts
      requires Safe(before, candidate, disk)
      modifies this
      ensures AllSafe(from, before, candidate) && fault == old(fault) && old(history) <= history
      ensures disk == before.(artifacts := disk.artifacts)
      ensures disk.artifacts == if created.Some? then before.artifacts else old(disk).artifacts
    {
      Put(disk.(staged := None));
      if created.Some? {
        Put(disk.(slot := previous));
        Put(disk.(artifacts := disk.artifacts - {created.value}));
      }
    }

    /**
     One publication. It replaces exactly the content its baseline describes, every intermediate
     disk is safe, and the disk afterwards is the complete new state or the complete old one.
     `accepted` is the verdict of the injected candidate validator.
     */
    method PublishSource(candidate: Bytes, accepted: bool, baseline: Option<Bytes>, ids: seq<Id>, consume: bool)
      returns (outcome: Outcome)
      requires Sound(disk)
      modifies this
      ensures old(history) <= history && (old(fault).None? ==> fault.None?)
      ensures forall k :: |old(history)| <= k < |history| ==> Safe(old(disk), candidate, history[k])
      ensures Sound(disk) && Safe(old(disk), candidate, disk)
      ensures outcome.Refused? ==>
                && disk == old(disk).(artifacts := disk.artifacts) && Extends(old(disk).artifacts, disk.artifacts)
                && (old(fault) != Some(RecoveryLinked) ==> disk == old(disk))
      ensures !outcome.Refused? ==>
                && old(disk).destination == baseline && accepted && disk.destination == Some(candidate)
                && (baseline.None? ==> outcome.recovery.None? && disk == old(disk).(destination := Some(candidate)))
                && (baseline.Some? ==>
                      && outcome.recovery.Some? && outcome.recovery.value !in old(disk).artifacts
                      && disk.slot.Some? && disk.slot.value.current == outcome.recovery.value
                      && outcome.recovery.value in disk.artifacts
                      && disk.artifacts[outcome.recovery.value] == baseline.value)
      ensures outcome.Published? && baseline.Some? ==>
                Replaces(old(disk), baseline.value, candidate, outcome.recovery.value, disk)
      ensures old(fault).None? ==>
                (outcome.Published? <==> Publishable(old(disk), accepted, baseline, ids)) && !outcome.CommittedFailure?
      ensures old(fault).None? && accepted && old(disk).destination != baseline ==>
                outcome == Refused(ExternallyModified)
    {
      ghost var before, from := disk, |history|;
      var staged := StageCandidate(candidate, before, from);
      if !staged {
        return Refused(Reason.PreparationFailed);
      }
      var created: Option<Id>, previous: Option<Slot>, failure: Option<Reason> := None, None, None;
      var replaced := false;
      var failed := Hit(Reopen);
      if failed || !accepted {
        failure := Some(if failed then Reason.PublicationFailed else Reason.VerificationFailed);
      } else {
        failed := Hit(Compare);
        if !failed {
          failed := Hit(LockFile);
        }
        if failed {
          failure := Some(Reason.PublicationFailed);
        } else {
          replaced, created, previous, failure := LockedTransaction(candidate, baseline, ids, before, from);
        }
      }
      if !replaced {
        RollBack(created, previous, candidate, before, from);
      }
      var cleanupFailed := false;
      if consume {
        cleanupFailed := Hit(Cleanup);
      }
      if !replaced {
        return Refused(failure.value);
      }
      return if failure.Some? || cleanupFailed then CommittedFailure(created) else Published(created);
    }

    /** Republish the recovery the slot advertises; the present content becomes the next recovery. */
    method Restore(recovery: Id, accepted: bool, baseline: Bytes, ids: seq<Id>) returns (outcome: Outcome)
      requires Sound(disk)
      modifies this
      ensures old(history) <= history && Sound(disk) && (old(fault).None? ==> fault.None? && !outcome.CommittedFailure?)
      ensures !outcome.Refused? ==> old(disk).slot.Some? && old(disk).slot.value.current == recovery
      ensures outcome.Refused? ==>
                disk == old(disk).(artifacts := disk.artifacts) && Extends(old(disk).artifacts, disk.artifacts)
      ensures outcome.Published? ==>
                outcome.recovery.Some? && outcome.recovery.value !in old(disk).artifacts
                && Replaces(old(disk), baseline, old(disk).artifacts[recovery], outcome.recovery.value, disk)
      ensures old(fault).None? ==>
                (outcome.Published? <==>
                   && old(disk).slot.Some? && old(disk).slot.value.current == recovery
                   && Publishable(old(disk), accepted, Some(baseline), ids))
    {
      if disk.slot.None? || disk.slot.value.current != recovery {
        return Refused(Reason.VerificationFailed);
      }
      outcome := PublishSource(disk.artifacts[recovery], accepted, Some(baseline), ids, false);
    }
  }

  /**
   The disk after a clean replacement: the new content, one slot entry, its artifact, and nothing
   the old slot listed.
   */
  predicate Replaces(before: Disk, baseline: Bytes, candidate: Bytes, created: Id, after: Disk) {
    && before.destination == Some(baseline) && after.destination == Some(candidate)
    && after.slot == Some(Slot(created, []))
    && after.artifacts
          == before.artifacts[created := baseline] - (set id | id in PreviousIds(before.slot) && id != created)
    && after.staged.None?
  }

  /** Restoring twice brings destination and recovery content back; only the identifiers differ. */
  method RestoreTwice(store: LocalVaultStore, firstIds: seq<Id>, secondIds: seq<Id>) returns (both: bool)
    requires Sound(store.disk) && store.disk.slot.Some? && store.disk.destination.Some?
    modifies store
    ensures both ==>
              && store.disk.destination == old(store.disk).destination
              && store.disk.slot.Some? && store.disk.slot.value.current in store.disk.artifacts
              && store.disk.artifacts[store.disk.slot.value.current]
                    == old(store.disk).artifacts[old(store.disk).slot.value.current]
    ensures old(store.fault).None? && Publishable(old(store.disk), true, old(store.disk).destination, firstIds)
              && !both ==>
              store.disk.destination == Some(old(store.disk).artifacts[old(store.disk).slot.value.current])
  {
    var outcome := store.Restore(store.disk.slot.value.current, true, store.disk.destination.value, firstIds);
    if !outcome.Published? {
      return false;
    }
    outcome := store.Restore(store.disk.slot.value.current, true, store.disk.destination.value, secondIds);
    both := outcome.Published?;
  }
}
