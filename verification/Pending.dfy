/**
 Suspended sessions on disk: one private slot per source naming one encrypted artifact. Publishing
 swaps the slot in two renames and rolls back on a one-shot fault; the visible state afterwards is
 the complete old one or the complete new one. Slots never alias the same source file.
 */
module Pending {
  import opened Basics

  type Id = nat
  type Locator = nat

  const NAME_ATTEMPTS: nat := 32

  /** The evidence of a source file: its content and, where the platform has one, its file identity. */
  datatype Source = Source(content: Bytes, identity: Option<nat>)

  datatype Stored = Stored(identifier: Id, content: Bytes, source: Source)

  /** The private directory: visible slots, slots set aside under private names, artifacts, an unpublished file. */
  datatype Files = Files(slots: map<Locator, Stored>, aside: multiset<Stored>, artifacts: map<Id, Bytes>,
                         temporary: bool)

  datatype Stage =
    | Preparation | Write | FileSync | Authentication | Compare | ArtifactPublication | SlotWrite | SlotPublication
    | PreviousMove | SlotRename | DirectorySync | PostPublicationValidation
    | PreviousCleanup | AsideCleanup | CandidateCleanup

  datatype Reason = PreparationFailed | VerificationFailed | PublicationFailed | ExternallyModified

  datatype Outcome = Suspended(stored: Stored) | Committed(stored: Stored) | Refused(reason: Reason)

  /** Equal file identities; without one on either side the question has no answer. */
  function SameSource(a: Source, b: Source): Option<bool> {
    if a.identity.None? || b.identity.None? then None else Some(a.identity == b.identity)
  }

  predicate Intact(f: Files, stored: Stored) {
    stored.identifier in f.artifacts && f.artifacts[stored.identifier] == stored.content
  }

  /**
   Every visible slot resolves to its artifact, no two share one, and no two stand for the same
   source. Slots set aside and artifacts no slot names may be left over; an unpublished file is not.
   */
  ghost predicate Healthy(f: Files) {
    && !f.temporary
    && (forall l :: l in f.slots ==> Intact(f, f.slots[l]))
    && (forall l, m :: l in f.slots && m in f.slots && l != m ==>
          SameSource(f.slots[l].source, f.slots[m].source) == Some(false)
              && f.slots[l].identifier != f.slots[m].identifier)
  }

  /**
   One state on the way: other sources untouched, and the slot of this one old, absent, or new, with
   an intact artifact.
   */
  ghost predicate Between(before: Files, locator: Locator, f: Files) {
    && (forall l :: l != locator ==>
          (l in f.slots <==> l in before.slots) && (l in f.slots ==> f.slots[l] == before.slots[l]))
    && (forall l :: l in before.slots && l != locator ==> Intact(f, before.slots[l]))
    && (locator in before.slots ==>
          Intact(f, before.slots[locator]) || (locator in f.slots && f.slots[locator] != before.slots[locator]))
    && (locator in f.slots ==> Intact(f, f.slots[locator]))
    && (locator in before.slots && locator !in f.slots ==> before.slots[locator] in f.aside)
  }

  // ---------------------------------------------------------------- who may publish

  /** The answer of the directory scan: refuse, publish fresh, or replace the one expected slot. */
  datatype Previous = Ambiguous | Fresh | Replaces(stored: Stored)

  ghost predicate Comparable(f: Files, source: Source) {
    forall l :: l in f.slots ==> Intact(f, f.slots[l]) && SameSource(f.slots[l].source, source).Some?
  }

  /** When the scan selects a slot, that slot alone stands for the source; when it finds none, no slot does. */
  ghost predicate Selects(f: Files, locator: Locator, source: Source, expected: Option<Stored>, previous: Previous) {
    match previous
    case Ambiguous => true
    case Fresh =>
      && expected.None? && locator !in f.slots
      && forall l :: l in f.slots ==> SameSource(f.slots[l].source, source) == Some(false)
    case Replaces(stored) =>
      && expected == Some(stored) && locator in f.slots && f.slots[locator] == stored
      && SameSource(stored.source, source) == Some(true)
      && forall l :: l in f.slots && l != locator ==> SameSource(f.slots[l].source, source) == Some(false)
  }

  /** The caller's expectation holds: no slot for this source or at this place, or exactly the expected one. */
  ghost predicate Expects(f: Files, locator: Locator, source: Source, expected: Option<Stored>) {
    match expected
    case None =>
      locator !in f.slots && forall l :: l in f.slots ==> SameSource(f.slots[l].source, source) == Some(false)
    case Some(stored) =>
      locator in f.slots && f.slots[locator] == stored && SameSource(stored.source, source) == Some(true)
  }

  /** An unused identifier is among those that will be tried. */
  predicate SomeFresh(f: Files, ids: seq<Id>) {
    exists i :: 0 <= i < |ids| && i < NAME_ATTEMPTS && ids[i] !in f.artifacts
  }

  /** The files once `stored` is visible, with what a failed cleanup leaves behind. */
  function Swapped(before: Files, locator: Locator, stored: Stored, fault: Option<Stage>): Files {
    var keepsArtifact := fault == Some(PreviousCleanup);
    var keepsSlot := keepsArtifact || fault == Some(AsideCleanup);
    var known := before.artifacts[stored.identifier := stored.content];
    if locator !in before.slots then before.(slots := before.slots[locator := stored], artifacts := known)
    else
      var previous := before.slots[locator];
      before.(slots := before.slots[locator := stored],
              artifacts := if keepsArtifact then known else known - {previous.identifier},
              aside := if keepsSlot then before.aside + multiset{previous} else before.aside)
  }

  predicate CleanupStage(fault: Option<Stage>) {
    fault == Some(PreviousCleanup) || fault == Some(AsideCleanup) || fault == Some(CandidateCleanup)
  }

  /** No visible slot is without its artifact. */
  ghost predicate VisibleIntact(f: Files) {
    forall l :: l in f.slots ==> Intact(f, f.slots[l])
  }

  lemma BetweenVisible(before: Files, locator: Locator, f: Files)
    requires Between(before, locator, f)
    ensures VisibleIntact(f)
  {
  }

  /** What a publication sets aside. */
  function Moved(previous: Previous): multiset<Stored> {
    if previous.Replaces? then multiset{previous.stored} else multiset{}
  }

  ghost predicate OthersDiffer(f: Files, locator: Locator, source: Source) {
    forall l :: l in f.slots && l != locator ==> SameSource(f.slots[l].source, source) == Some(false)
  }

  lemma BaseUnmarked(before: Files)
    requires Healthy(before)
    ensures !before.temporary
  {
  }

  lemma SwapIntact(before: Files, locator: Locator, stored: Stored, f: Files)
    requires f.slots == before.slots[locator := stored]
    requires f.artifacts == before.artifacts[stored.identifier := stored.content]
    ensures Intact(f, stored)
  {
  }

  /** The three states of a slot swap, each with the new artifact already in place. */
  lemma SwapStates(before: Files, locator: Locator, stored: Stored, f: Files)
    requires Healthy(before) && stored.identifier !in before.artifacts
    requires f.artifacts == before.artifacts[stored.identifier := stored.content]
    requires f.slots == before.slots || f.slots == before.slots[locator := stored]
             || (f.slots == before.slots - {locator} && (locator in before.slots ==> before.slots[locator] in f.aside))
    ensures Between(before, locator, f)
  {
  }

  /** Before the slot swap only the unpublished file and the new artifact come and go. */
  lemma ArtifactStates(before: Files, locator: Locator, identifier: Id, content: Bytes)
    requires Healthy(before) && identifier !in before.artifacts
    ensures Between(before, locator, before.(temporary := true)) && Between(before, locator, before)
    ensures Between(before, locator, before.(artifacts := before.artifacts[identifier := content]))
  {
  }

  /** The slot is swapped, the new artifact is there, and at most the previous one is gone. */
  ghost predicate SwappedOver(before: Files, locator: Locator, stored: Stored, f: Files) {
    && stored.identifier !in before.artifacts && f.slots == before.slots[locator := stored]
    && (|| f.artifacts == before.artifacts[stored.identifier := stored.content]
        || (locator in before.slots
            && f.artifacts
                  == before.artifacts[stored.identifier := stored.content] - {before.slots[locator].identifier}))
  }

  lemma SwapKeepsOthers(before: Files, locator: Locator, stored: Stored, f: Files, l: Locator)
    requires Healthy(before) && SwappedOver(before, locator, stored, f) && l in before.slots && l != locator
    ensures l in f.slots && f.slots[l] == before.slots[l] && Intact(f, before.slots[l])
    ensures before.slots[l].identifier != stored.identifier
  {
    assert Intact(before, before.slots[l]);
    assert locator in before.slots ==> before.slots[l].identifier != before.slots[locator].identifier;
  }

  lemma SwapHasNew(before: Files, locator: Locator, stored: Stored, f: Files)
    requires Healthy(before) && SwappedOver(before, locator, stored, f)
    ensures locator in f.slots && f.slots[locator] == stored && Intact(f, stored)
    ensures locator in before.slots ==> f.slots[locator] != before.slots[locator]
  {
    assert locator in before.slots ==> Intact(before, before.slots[locator]);
  }

  /** Everything visible is intact then, whether or not the previous artifact is gone. */
  lemma SwapCleaned(before: Files, locator: Locator, stored: Stored, f: Files)
    requires Healthy(before) && SwappedOver(before, locator, stored, f)
    ensures Between(before, locator, f) && Intact(f, stored)
    ensures !f.temporary && OthersDiffer(before, locator, stored.source) ==> Healthy(f)
  {
    hide Intact;
    SwapHasNew(before, locator, stored, f);
    forall l | l in before.slots && l != locator
      ensures f.slots[l] == before.slots[l] && Intact(f, before.slots[l])
      ensures before.slots[l].identifier != stored.identifier
    {
      SwapKeepsOthers(before, locator, stored, f, l);
    }
    assert forall l :: l in f.slots ==> l == locator || (l in before.slots && f.slots[l] == before.slots[l]);
  }

  /** No visible slot is without its artifact, and the others are still visible. */
  ghost predicate OthersVisible(before: Files, locator: Locator, f: Files) {
    && VisibleIntact(f)
    && forall l :: l in before.slots && l != locator ==> l in f.slots && f.slots[l] == before.slots[l]
  }

  lemma HealthyVisible(f: Files, locator: Locator)
    requires Healthy(f)
    ensures OthersVisible(f, locator, f)
  {
  }

  /** Taking one slot away, with or without its artifact, leaves the others as they were. */
  lemma WithoutSlot(before: Files, locator: Locator, f: Files)
    requires Healthy(before) && locator in before.slots && f.slots == before.slots - {locator} && !f.temporary
    requires f.artifacts == before.artifacts || f.artifacts == before.artifacts - {before.slots[locator].identifier}
    ensures Healthy(f) && OthersVisible(before, locator, f)
  {
    forall l | l in f.slots
      ensures l in before.slots && f.slots[l] == before.slots[l] && Intact(f, f.slots[l])
    {
      assert Intact(before, before.slots[l]);
    }
  }

  class PendingSessionStore {
    var files: Files
    var fault: Option<Stage>
    ghost var history: seq<Files>

    constructor (initial: Files, injected: Option<Stage>)
      ensures files == initial && fault == injected && history == []
    {
      files, fault, history := initial, injected, [];
    }

    method Hit(stage: Stage) returns (failed: bool)
      modifies this`fault
      ensures failed == (old(fault) == Some(stage))
      ensures fault == if failed then None else old(fault)
    {
      failed := fault == Some(stage);
      if failed {
        fault := None;
      }
    }

    method Put(next: Files)
      modifies this`files, this`history
      ensures files == next && history == old(history) + [next]
    {
      files := next;
      history := history + [next];
    }

    ghost predicate AllBetween(from: nat, before: Files, locator: Locator)
      reads this
    {
      from <= |history| && forall k :: from <= k < |history| ==> Between(before, locator, history[k])
    }

    /** A change on the way of one transaction, recorded as such. */
    method Record(next: Files, ghost before: Files, locator: Locator, ghost from: nat)
      requires AllBetween(from, before, locator) && Between(before, locator, next)
      modifies this`files, this`history
      ensures files == next && AllBetween(from, before, locator) && old(history) <= history
    {
      Put(next);
    }

    /** Scan every slot: each must resolve and be comparable, and at most the expected one may stand for the source. */
    method PublicationPrevious(locator: Locator, source: Source, expected: Option<Stored>) returns (previous: Previous)
      ensures Selects(files, locator, source, expected, previous)
      ensures Healthy(files) && Comparable(files, source) && previous.Ambiguous? ==>
                !Expects(files, locator, source, expected)
    {
      hide Intact;
      var names := files.slots.Keys;
      var found: Option<Locator> := None;
      var unseen := names;
      while unseen != {}
        invariant unseen <= names
        invariant forall l :: l in names - unseen ==>
                    Intact(files, files.slots[l]) && SameSource(files.slots[l].source, source).Some?
        invariant found.Some? ==>
                    found.value in names - unseen && SameSource(files.slots[found.value].source, source) == Some(true)
        invariant forall l :: l in names - unseen && found != Some(l) ==>
                    SameSource(files.slots[l].source, source) == Some(false)
        decreases |unseen|
      {
        var name :| name in unseen;
        var located := files.slots[name];
        var same := SameSource(located.source, source);
        if !Intact(files, located) || same.None? {
          return Ambiguous;
        }
        if same.value {
          if found.Some? {
            assert SameSource(files.slots[found.value].source, located.source) == Some(true);
            return Ambiguous;
          }
          found := Some(name);
        }
        unseen := unseen - {name};
      }
      if expected.None? {
        return if locator in names || found.Some? then Ambiguous else Fresh;
      }
      if found != Some(locator) || files.slots[locator] != expected.value {
        return Ambiguous;
      }
      return Replaces(expected.value);
    }

    method NewIdentifier(ids: seq<Id>) returns (identifier: Option<Id>)
      ensures identifier.Some? ==> identifier.value !in files.artifacts
      ensures identifier.Some? <==> SomeFresh(files, ids)
    {
      var attempt := 0;
      while attempt < |ids| && attempt < NAME_ATTEMPTS
        invariant attempt >= 0 && forall i :: 0 <= i < attempt && i < |ids| ==> ids[i] in files.artifacts
      {
        if ids[attempt] !in files.artifacts {
          return Some(ids[attempt]);
        }
        attempt := attempt + 1;
      }
      return None;
    }

    /** Write, synchronize, authenticate and publish the artifact; a failure leaves nothing behind. */
    method PublishArtifact(
      identifier: Id, content: Bytes, accepted: bool, locator: Locator, ghost before: Files, ghost from: nat)
      returns (ok: bool)
      requires files == before && Healthy(before) && AllBetween(from, before, locator)
      requires identifier !in before.artifacts
      modifies this
      ensures AllBetween(from, before, locator) && old(history) <= history
      ensures files == if ok then before.(artifacts := before.artifacts[identifier := content]) else before
      ensures if ok then accepted && fault == old(fault) else !accepted || old(fault).Some?
      ensures old(fault).None? ==> fault.None?
    {
      hide Healthy, Between;
      BaseUnmarked(before);
      ArtifactStates(before, locator, identifier, content);
      Record(files.(temporary := true), before, locator, from);
      var failed := Hit(Write);
      if !failed {
        failed := Hit(FileSync);
      }
      if !failed {
        failed := Hit(Authentication);
      }
      if !failed && accepted {
        failed := Hit(Compare);
        if !failed {
          failed := Hit(ArtifactPublication);
        }
      }
      ok := !failed && accepted;
      if ok {
        Record(files.(temporary := false, artifacts := files.artifacts[identifier := content]), before, locator, from);
      } else {
        Record(files.(temporary := false), before, locator, from);
      }
    }

    /** Swap the slot in two renames; a failure on the way puts the previous slot back. */
    method SwapSlot(
      stored: Stored, previous: Previous, locator: Locator, ghost before: Files, ghost from: nat)
      returns (ok: bool)
      requires Healthy(before) && AllBetween(from, before, locator) && stored.identifier !in before.artifacts
      requires !previous.Ambiguous?
      requires files == before.(artifacts := before.artifacts[stored.identifier := stored.content])
      requires if previous.Replaces? then locator in before.slots && before.slots[locator] == previous.stored
               else locator !in before.slots
      modifies this
      ensures AllBetween(from, before, locator) && old(history) <= history
      ensures ok ==> fault == old(fault)
      ensures ok ==>
                files == old(files).(slots := before.slots[locator := stored], aside := before.aside + Moved(previous))
      ensures !ok ==> files == old(files) && old(fault).Some?
    {
      hide Healthy, Between;
      BaseUnmarked(before);
      var moved, published := false, false;
      var failed := Hit(SlotPublication);
      if !failed && previous.Replaces? {
        failed := Hit(PreviousMove);
        if !failed {
          var aside := files.(slots := files.slots - {locator}, aside := files.aside + Moved(previous));
          SwapStates(before, locator, stored, aside);
          Record(aside, before, locator, from);
          moved := true;
        }
      }
      if !failed {
        failed := Hit(SlotRename);
        if !failed {
          var swapped := files.(slots := files.slots[locator := stored]);
          assert swapped.slots == before.slots[locator := stored];
          SwapStates(before, locator, stored, swapped);
          Record(swapped, before, locator, from);
          published := true;
          failed := Hit(DirectorySync);
          if !failed {
            failed := Hit(PostPublicationValidation);
          }
        }
      }
      ok := !failed;
      if failed {
        RestorePreviousSlot(stored, previous, moved, published, locator, before, from);
      }
    }

    /** Take back whatever of the two renames happened. */
    method RestorePreviousSlot(
      stored: Stored, previous: Previous, moved: bool, published: bool, locator: Locator, ghost before: Files,
      ghost from: nat)
      requires Healthy(before) && AllBetween(from, before, locator) && stored.identifier !in before.artifacts
      requires if previous.Replaces? then locator in before.slots && before.slots[locator] == previous.stored
               else locator !in before.slots
      requires moved ==> previous.Replaces?
      requires published && previous.Replaces? ==> moved
      requires files == before.(artifacts := before.artifacts[stored.identifier := stored.content],
                                slots := if published then before.slots[locator := stored]
                                    else if moved then before.slots - {locator} else before.slots,
                                aside := if moved then before.aside + Moved(previous) else before.aside)
      modifies this`files, this`history
      ensures AllBetween(from, before, locator) && old(history) <= history
      ensures files == before.(artifacts := before.artifacts[stored.identifier := stored.content])
    {
      hide Healthy, Between;
      BaseUnmarked(before);
      if published {
        var withdrawn := files.(slots := files.slots - {locator});
        assert withdrawn.slots == before.slots - {locator};
        SwapStates(before, locator, stored, withdrawn);
        Record(withdrawn, before, locator, from);
      }
      if moved {
        var restored := files.(slots := files.slots[locator := previous.stored],
                               aside := files.aside - Moved(previous));
        assert restored.slots == before.slots;
        SwapStates(before, locator, stored, restored);
        Record(restored, before, locator, from);
      }
      assert files.slots == before.slots;
    }

    /**
     Publish one suspended revision. With one fault anywhere, the outcome is the complete new state
     or the complete old one, and the caller is told which.
     */
    method Publish(
      locator: Locator, source: Source, captured: Source, recaptured: Source, content: Bytes, accepted: bool,
      expected: Option<Stored>, ids: seq<Id>)
      returns (outcome: Outcome)
      requires Healthy(files)
      modifies this
      ensures old(history) <= history && Healthy(files) && (old(fault).None? ==> fault.None?)
      ensures forall k :: |old(history)| <= k < |history| ==> Between(old(files), locator, history[k])
      ensures outcome.Refused? ==> files == old(files)
      ensures !outcome.Refused? ==>
                && outcome.stored == Stored(outcome.stored.identifier, content, source)
                && outcome.stored.identifier !in old(files).artifacts
                && files == Swapped(old(files), locator, outcome.stored, old(fault)) && Intact(files, outcome.stored)
      ensures !outcome.Refused? ==>
                && accepted && captured == source && recaptured == source
                && Expects(old(files), locator, source, expected) && OthersDiffer(old(files), locator, source)
      ensures !outcome.Refused? ==> forall l :: l in old(files).slots && l != locator ==>
                && old(files).slots[l].source.identity.Some? && source.identity.Some?
                && old(files).slots[l].source.identity != source.identity
      ensures !outcome.Refused? && expected.Some? ==>
                expected.value.source.identity.Some? && expected.value.source.identity == source.identity
      ensures outcome.Suspended? ==> files == Swapped(old(files), locator, outcome.stored, None)
      ensures outcome.Committed? ==> CleanupStage(old(fault))
      ensures old(fault).None? && Comparable(old(files), source) ==>
                (outcome.Suspended? <==>
                   && accepted && captured == source && recaptured == source
                   && Expects(old(files), locator, source, expected) && SomeFresh(old(files), ids))
    {
      ghost var before, from := files, |history|;
      var failed := Hit(Preparation);
      if failed {
        return Refused(PublicationFailed);
      }
      if captured != source {
        return Refused(ExternallyModified);
      }
      var previous := PublicationPrevious(locator, source, expected);
      if previous.Ambiguous? {
        return Refused(Reason.VerificationFailed);
      }
      var identifier := NewIdentifier(ids);
      if identifier.None? {
        return Refused(Reason.PreparationFailed);
      }
      var ok := PublishArtifact(identifier.value, content, accepted, locator, before, from);
      if !ok {
        return Refused(Reason.VerificationFailed);
      }
      var stored := Stored(identifier.value, content, source);
      var failure: Option<Reason> := None;
      failed := Hit(SlotWrite);
      if failed {
        failure := Some(Reason.PreparationFailed);
      } else if recaptured != source {
        failure := Some(ExternallyModified);
      } else {
        ok := SwapSlot(stored, previous, locator, before, from);
        if !ok {
          failure := Some(PublicationFailed);
        }
      }
      if failure.Some? {
        Put(files.(artifacts := files.artifacts - {stored.identifier}));
        assert files.artifacts == before.artifacts;
        return Refused(failure.value);
      }
      var cleanupFailed := Clean(stored, previous, locator, before, from);
      return if cleanupFailed then Committed(stored) else Suspended(stored);
    }

    /** Remove the superseded artifact and slot, then the candidate; failures here no longer undo anything. */
    method Clean(
      stored: Stored, previous: Previous, locator: Locator, ghost before: Files, ghost from: nat)
      returns (cleanupFailed: bool)
      requires Healthy(before) && AllBetween(from, before, locator) && stored.identifier !in before.artifacts
      requires !previous.Ambiguous?
      requires if previous.Replaces? then locator in before.slots && before.slots[locator] == previous.stored
               else locator !in before.slots
      requires OthersDiffer(before, locator, stored.source)
      requires files == before.(artifacts := before.artifacts[stored.identifier := stored.content],
                 slots := before.slots[locator := stored],
                                aside := before.aside + Moved(previous))
      modifies this
      ensures AllBetween(from, before, locator) && old(history) <= history && (old(fault).None? ==> fault.None?)
      ensures files == Swapped(before, locator, stored, old(fault)) && Healthy(files) && Intact(files, stored)
      ensures cleanupFailed ==> CleanupStage(old(fault))
      ensures !cleanupFailed ==> files == Swapped(before, locator, stored, None)
    {
      hide Healthy, Between;
      cleanupFailed := false;
      BaseUnmarked(before);
      if previous.Replaces? {
        cleanupFailed := Hit(PreviousCleanup);
        if !cleanupFailed {
          var removed := files.(artifacts := files.artifacts - {previous.stored.identifier});
          SwapCleaned(before, locator, stored, removed);
          Record(removed, before, locator, from);
          cleanupFailed := Hit(AsideCleanup);
          if !cleanupFailed {
            SwapCleaned(before, locator, stored, files.(aside := files.aside - Moved(previous)));
            Record(files.(aside := files.aside - Moved(previous)), before, locator, from);
          }
        }
      }
      SwapCleaned(before, locator, stored, files);
      var failed := Hit(CandidateCleanup);
      cleanupFailed := cleanupFailed || failed;
    }

    ghost predicate AllVisible(from: nat, before: Files, locator: Locator)
      reads this
    {
      from <= |history| && forall k :: from <= k < |history| ==> OthersVisible(before, locator, history[k])
    }

    /** A change on the way of a discard, recorded as such. */
    method Expose(next: Files, ghost before: Files, locator: Locator, ghost from: nat)
      requires AllVisible(from, before, locator) && OthersVisible(before, locator, next)
      modifies this`files, this`history
      ensures files == next && AllVisible(from, before, locator) && old(history) <= history
    {
      Put(next);
    }

    /**
     Remove one selected slot and its artifact. The artifact's removal is the commit point: a fault
     before it restores the slot, one after it leaves the moved slot behind and is not reported.
     */
    method DiscardPending(locator: Locator, expected: Stored) returns (done: bool)
      requires Healthy(files)
      modifies this
      ensures old(history) <= history && Healthy(files) && (old(fault).None? ==> fault.None?)
      ensures forall k :: |old(history)| <= k < |history| ==> OthersVisible(old(files), locator, history[k])
      ensures done ==> locator in old(files).slots && old(files).slots[locator] == expected
      ensures files == if done then Discarded(old(files), locator, expected, old(fault)) else old(files)
      ensures locator in old(files).slots && old(files).slots[locator] == expected ==>
                (done <==> old(fault) != Some(PreviousMove) && old(fault) != Some(PreviousCleanup))
    {
      hide Intact, Healthy, OthersVisible;
      ghost var from := |history|;
      if locator !in files.slots || files.slots[locator] != expected {
        return false;
      }
      ghost var before := files;
      BaseUnmarked(before);
      HealthyVisible(before, locator);
      var failed := Hit(PreviousMove);
      if failed {
        return false;
      }
      var moved := files.(slots := files.slots - {locator}, aside := files.aside + multiset{expected});
      WithoutSlot(before, locator, moved);
      Expose(moved, before, locator, from);
      failed := Hit(PreviousCleanup);
      if failed {
        assert moved.slots[locator := expected] == before.slots && moved.aside - multiset{expected} == before.aside;
        Expose(files.(slots := files.slots[locator := expected], aside := files.aside - multiset{expected}),
               before, locator, from);
        return false;
      }
      var removed := files.(artifacts := files.artifacts - {expected.identifier});
      WithoutSlot(before, locator, removed);
      Expose(removed, before, locator, from);
      failed := Hit(AsideCleanup);
      if !failed {
        assert removed.aside - multiset{expected} == before.aside;
        WithoutSlot(before, locator, removed.(aside := before.aside));
        Expose(files.(aside := files.aside - multiset{expected}), before, locator, from);
      }
      return true;
    }
  }

  /** The files once a slot and its artifact are gone, with the slot a late fault leaves aside. */
  function Discarded(before: Files, locator: Locator, stored: Stored, fault: Option<Stage>): Files {
    before.(slots := before.slots - {locator}, artifacts := before.artifacts - {stored.identifier},
            aside := if fault == Some(AsideCleanup) then before.aside + multiset{stored} else before.aside)
  }

  // ---------------------------------------------------------------- over whole runs

  datatype Request =
    | Suspend(locator: Locator, source: Source, captured: Source, recaptured: Source, content: Bytes, accepted: bool,
              expected: Option<Stored>, ids: seq<Id>)
    | Drop(locator: Locator, selected: Stored)

  /** One request and the fault, if any, that strikes it. */
  datatype Attempt = Attempt(request: Request, fault: Option<Stage>)

  /**
   Over every run of publications and discards with a fault in any of them, the slots keep pairwise
   distinct sources and intact artifacts, and at no step of any request is a visible slot without
   its artifact.
   */
  method Drive(store: PendingSessionStore, attempts: seq<Attempt>)
    requires Healthy(store.files)
    modifies store
    ensures Healthy(store.files) && old(store.history) <= store.history
    ensures forall l, m :: l in store.files.slots && m in store.files.slots && l != m ==>
              && store.files.slots[l].source.identity.Some? && store.files.slots[m].source.identity.Some?
              && store.files.slots[l].source.identity != store.files.slots[m].source.identity
    ensures forall k :: |old(store.history)| <= k < |store.history| ==> VisibleIntact(store.history[k])
  {
    hide VisibleIntact, Between, Expects, Swapped, Discarded, OthersDiffer, Comparable, Intact;
    var i := 0;
    while i < |attempts|
      invariant 0 <= i <= |attempts| && Healthy(store.files) && old(store.history) <= store.history
      invariant forall k :: |old(store.history)| <= k < |store.history| ==> VisibleIntact(store.history[k])
    {
      Serve(store, attempts[i]);
      i := i + 1;
    }
  }

  method Serve(store: PendingSessionStore, attempt: Attempt)
    requires Healthy(store.files)
    modifies store
    ensures Healthy(store.files) && old(store.history) <= store.history
    ensures forall k :: |old(store.history)| <= k < |store.history| ==> VisibleIntact(store.history[k])
  {
    hide VisibleIntact, Between, Healthy, Expects, Swapped, Discarded, OthersDiffer, Comparable, Intact;
    store.fault := attempt.fault;
    ghost var before, from := store.files, |store.history|;
    match attempt.request {
      case Suspend(locator, source, captured, recaptured, content, accepted, expected, ids) =>
        var _ := store.Publish(locator, source, captured, recaptured, content, accepted, expected, ids);
        forall k | from <= k < |store.history|
          ensures VisibleIntact(store.history[k])
        {
          BetweenVisible(before, locator, store.history[k]);
        }
      case Drop(locator, selected) =>
        var _ := store.DiscardPending(locator, selected);
    }
  }
}
