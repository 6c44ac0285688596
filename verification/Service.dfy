/**
 The service that joins session, writer, reader and stores. A save publishes exactly what the
 session holds, in bytes the reader gives back, or changes neither session nor destination; a
 suspension does the same into the private store.
 */
module Service {
  import opened Basics
  import opened Crypto
  import opened Documents
  import opened Validation
  import opened Commands
  import opened Sessions
  import opened VaultSessions
  import opened Writer
  import opened Vaults
  import Reader
  import Publication
  import Pending

  /** Reopen a candidate under the retained derived key instead of a passphrase. */
  function ReopenCandidate(p: Primitives, file: Bytes, material: Material, limits: ResourceLimits): Result<Opened> {
    if |file| > limits.maxEncryptedFile then Err(MaxEncryptedFile)
    else
      var envelope :- ReadEnvelope(file, limits);
      if envelope.salt != material.salt || envelope.iterations != material.iterations then Err(InvalidEnvelope)
      else if p.sha256(material.derived) != envelope.check then Err(HmacMismatch)
      else PublishSnapshot(p, file, envelope, material.derived, limits)
  }

  /**
   Under the key derived from the passphrase, reopening accepts exactly the files that open with the
   passphrase and carry the expected salt and iterations, and gives the same result for them.
   */
  lemma ReopenAgrees(p: Primitives, file: Bytes, passphrase: Bytes, material: Material, limits: ResourceLimits)
    requires material.derived == Stretched(p, passphrase, material.salt, material.iterations)
    ensures var result, plain := ReopenCandidate(p, file, material, limits), OpenVault(p, file, passphrase, limits);
            && (result.Ok? <==>
                  && plain.Ok? && plain.value.envelope.salt == material.salt
                  && plain.value.envelope.iterations == material.iterations)
            && (result.Ok? ==> result == plain)
  {
    hide ReadEnvelope, Stretched, CbcDecrypt, Reader.ParseFrom, PublishDocument, UnwrappedKeys;
  }

  /** The session's cryptographic state, with the passphrase it was derived from. */
  ghost predicate Unlocked(p: Primitives, material: Material, passphrase: Bytes, limits: ResourceLimits) {
    && p.Inverse() && limits.Valid() && material.iterations >= 1
    && material.derived == Stretched(p, passphrase, material.salt, material.iterations)
  }

  /** What the random source and the payload iterators contribute to one candidate. */
  predicate Supplied(document: VaultDocument, chunks: seq<seq<Bytes>>, paddings: seq<Bytes>) {
    var fields := AllFields(document);
    && |chunks| == |fields| == |paddings|
    && (forall i :: 0 <= i < |fields| ==> Flatten(chunks[i]) == fields[i].payload)
  }

  /** A file that opens under the passphrase as exactly this document. */
  ghost predicate Holds(
    p: Primitives, file: Bytes, passphrase: Bytes, limits: ResourceLimits, document: VaultDocument) {
    var reread := OpenVault(p, file, passphrase, limits);
    reread.Ok? && DocumentsEqual(document, reread.value.document)
  }

  /** Validate, write, reopen and compare; what comes out holds the document. */
  method WriteVerified(
    p: Primitives, document: VaultDocument, chunks: seq<seq<Bytes>>, paddings: seq<Bytes>, material: Material,
    keys: VaultKeys, iv: Block,
    ghost passphrase: Bytes, limits: ResourceLimits)
    returns (candidate: Option<(Bytes, VaultDocument)>)
    requires Unlocked(p, material, passphrase, limits) && Supplied(document, chunks, paddings)
    ensures candidate.Some? ==>
              Holds(p, candidate.value.0, passphrase, limits, document) && DocumentsEqual(document, candidate.value.1)
    ensures candidate.Some? <==>
              && CheckCandidate(document, material.iterations, limits).Ok?
              && Writable(AllFields(document), chunks, paddings)
  {
    hide CheckCandidate, CandidateBytes, OpenVault, ReopenCandidate, DocumentsEqual, AllFields, Writable, Stretched,
         PaddingsFit;
    var checked := ValidateDocument(document, material.iterations, limits);
    if checked.Err? {
      return None;
    }
    var written := WriteCandidate(p, AllFields(document), chunks, paddings, material, keys, iv);
    if written.Err? {
      return None;
    }
    WholeFileRoundTrip(p, document, paddings, material, keys, iv, passphrase, limits);
    ReopenAgrees(p, written.value, passphrase, material, limits);
    var reread := ReopenCandidate(p, written.value, material, limits);
    assert reread.Ok? && DocumentsEqual(document, reread.value.document);
    return Some((written.value, reread.value.document));
  }

  datatype SaveResult = Saved | CommittedSave | NotSaved

  /** Freeze, write, verify, publish, and only then make the session clean. */
  method SaveSession(
    p: Primitives, session: VaultSession, store: Publication.LocalVaultStore, baseline: Bytes,
    chunks: seq<seq<Bytes>>, paddings: seq<Bytes>, material: Material, keys: VaultKeys, iv: Block,
    ghost passphrase: Bytes, limits: ResourceLimits, ids: seq<Publication.Id>)
    returns (result: SaveResult)
    requires Unlocked(p, material, passphrase, limits) && Supplied(session.document, chunks, paddings)
    requires Publication.Sound(store.disk) && WellKept(session.Holds())
    modifies session, store
    ensures WellKept(session.Holds()) && Publication.Sound(store.disk) && session.suspended == old(session.suspended)
    ensures result.NotSaved? ==>
              session.Holds() == old(session.Holds()) && store.disk.destination == old(store.disk).destination
    ensures !result.NotSaved? ==>
              && session.document == old(session.document) && session.changes == [] && session.saving.None?
              && !session.locked
              && old(store.disk).destination == Some(baseline) && store.disk.destination.Some?
              && Holds(p, store.disk.destination.value, passphrase, limits, session.document)
              && store.disk.slot.Some? && store.disk.slot.value.current in store.disk.artifacts
              && store.disk.artifacts[store.disk.slot.value.current] == baseline
    ensures old(store.fault).None? && !old(session.locked) && old(session.saving).None? ==>
              (result.Saved? <==>
                 && CheckCandidate(old(session.document), material.iterations, limits).Ok?
                 && Writable(AllFields(old(session.document)), chunks, paddings)
                 && Publication.Publishable(old(store.disk), true, Some(baseline), ids))
    ensures old(session.locked) || old(session.saving).Some? ==> result.NotSaved?
    ensures old(store.fault).None? ==> !result.CommittedSave?
  {
    hide CheckCandidate, Writable, Holds, DocumentsEqual, Adopt, Replay, Publication.Safe, Publication.Publishable,
         Publication.Replaces;
    ghost var s0 := session.Holds();
    StepKeepsWell(s0, PrepareSave);
    var begun := session.BeginSave();
    if !begun.Done? {
      return NotSaved;
    }
    ghost var s1 := session.Holds();
    StepKeepsWell(s1, AbortSave);
    var snapshot := session.saving.value;
    var candidate := WriteVerified(p, snapshot, chunks, paddings, material, keys, iv, passphrase, limits);
    if candidate.None? {
      var _ := session.CancelSave();
      return NotSaved;
    }
    var outcome := store.PublishSource(candidate.value.0, true, Some(baseline), ids, true);
    if outcome.Refused? {
      var _ := session.CancelSave();
      return NotSaved;
    }
    StepKeepsWell(s1, FinishSave(candidate.value.1));
    FinishSaveKeepsView(s1, candidate.value.1);
    var finished := session.CompleteSave(candidate.value.1);
    return if outcome.Published? then Saved else CommittedSave;
  }

  /**
   Save, and when the session came from a stored artifact remove that artifact afterwards. A failure
   there is reported as a committed save: the source file already holds the document.
   */
  method SaveAndForget(
    p: Primitives, session: VaultSession, store: Publication.LocalVaultStore, baseline: Bytes,
    pending: Pending.PendingSessionStore, locator: Pending.Locator, resumed: Pending.Stored,
    chunks: seq<seq<Bytes>>, paddings: seq<Bytes>, material: Material, keys: VaultKeys, iv: Block,
    ghost passphrase: Bytes, limits: ResourceLimits, ids: seq<Publication.Id>)
    returns (result: SaveResult)
    requires Unlocked(p, material, passphrase, limits) && Supplied(session.document, chunks, paddings)
    requires Publication.Sound(store.disk) && WellKept(session.Holds()) && Pending.Healthy(pending.files)
    modifies session, store, pending
    ensures WellKept(session.Holds()) && Publication.Sound(store.disk) && Pending.Healthy(pending.files)
    ensures result.NotSaved? ==>
              && session.Holds() == old(session.Holds()) && pending.files == old(pending.files)
              && store.disk.destination == old(store.disk).destination
    ensures !result.NotSaved? ==>
              && session.document == old(session.document) && session.changes == [] && session.saving.None?
              && !session.locked
              && store.disk.destination.Some?
              && Holds(p, store.disk.destination.value, passphrase, limits, session.document)
    ensures result.Saved? ==>
              && !session.suspended
              && (old(session.suspended) ==>
                    && locator !in pending.files.slots
                    && locator in old(pending.files).slots && old(pending.files).slots[locator] == resumed)
    ensures session.suspended ==> old(session.suspended) && pending.files == old(pending.files)
    ensures old(session.suspended) && !session.suspended ==>
              locator in old(pending.files).slots && old(pending.files).slots[locator] == resumed
    ensures old(store.fault).None? && old(pending.fault).None? && !old(session.locked) && old(session.saving).None? ==>
              (result.Saved? <==>
                 && CheckCandidate(old(session.document), material.iterations, limits).Ok?
                 && Writable(AllFields(old(session.document)), chunks, paddings)
                 && Publication.Publishable(old(store.disk), true, Some(baseline), ids)
                 && (old(session.suspended) ==>
                       locator in old(pending.files).slots && old(pending.files).slots[locator] == resumed))
    ensures old(session.locked) || old(session.saving).Some? ==> result.NotSaved?
    ensures old(store.fault).None? && !old(session.locked) && old(session.saving).None? ==>
              (!result.NotSaved? <==>
                 && CheckCandidate(old(session.document), material.iterations, limits).Ok?
                 && Writable(AllFields(old(session.document)), chunks, paddings)
                 && Publication.Publishable(old(store.disk), true, Some(baseline), ids))
  {
    hide EditStep, Adopt, DocumentsEqual, AllFields, Holds, Supplied, Unlocked, Replay, WellKept, Pending.Healthy,
         Publication.Sound, Publication.Publishable;
    hide Pending.Intact, Pending.VisibleIntact, HandlesDistinct, CheckCandidate, Writable;
    result := SaveSession(p, session, store, baseline, chunks, paddings, material, keys, iv, passphrase, limits, ids);
    if result.NotSaved? || !session.suspended {
      return;
    }
    var removed := pending.DiscardPending(locator, resumed);
    if !removed {
      return CommittedSave;
    }
    StepKeepsWell(session.Holds(), ForgetPending);
    var forgotten := session.ForgetSuspended();
  }

  // ---------------------------------------------------------------- suspending and resuming

  /** What the service and the store find at the source path, in the order they look. */
  datatype Captures = Captures(
    before: Pending.Source, entering: Pending.Source, writing: Pending.Source, after: Pending.Source)
  {
    /** Unchanged until the artifact has been published. */
    predicate Until(source: Pending.Source) {
      before == source && entering == source && writing == source
    }
  }

  /** `Withdrawn`: published, then taken back because the source had changed; the earlier artifact is gone with it. */
  datatype SuspendResult =
    | SuspendedAs(stored: Pending.Stored) | CommittedSuspend(stored: Pending.Stored) | NotSuspended | Withdrawn
  {
    predicate Stores() { SuspendedAs? || CommittedSuspend? }
  }

  /** When a suspension that meets no fault is published. */
  ghost predicate Suspendable(
    document: VaultDocument, files: Pending.Files, locator: Pending.Locator, source: Pending.Source, seen: Captures,
    expected: Option<Pending.Stored>, chunks: seq<seq<Bytes>>, paddings: seq<Bytes>, iterations: nat,
    limits: ResourceLimits, ids: seq<Pending.Id>)
    requires Supplied(document, chunks, paddings) && limits.Valid()
  {
    && seen.Until(source) && CheckCandidate(document, iterations, limits).Ok?
    && Writable(AllFields(document), chunks, paddings)
    && Pending.Expects(files, locator, source, expected) && Pending.SomeFresh(files, ids)
  }

  /** Freeze, write, verify and store privately; the source file is not touched. */
  method SuspendSession(
    p: Primitives, session: VaultSession, store: Pending.PendingSessionStore, locator: Pending.Locator,
    source: Pending.Source, seen: Captures, expected: Option<Pending.Stored>, closes: bool,
    chunks: seq<seq<Bytes>>, paddings: seq<Bytes>, material: Material, keys: VaultKeys, iv: Block,
    ghost passphrase: Bytes, limits: ResourceLimits, ids: seq<Pending.Id>)
    returns (result: SuspendResult)
    requires Unlocked(p, material, passphrase, limits) && Supplied(session.document, chunks, paddings)
    requires Pending.Healthy(store.files) && WellKept(session.Holds())
    modifies session, store
    ensures WellKept(session.Holds()) && Pending.Healthy(store.files)
    ensures !result.Stores() ==> session.Holds() == old(session.Holds())
    ensures result.NotSuspended? ==> store.files == old(store.files)
    ensures result.Withdrawn? ==>
              && seen.Until(source) && seen.after != source
              && Pending.Expects(old(store.files), locator, source, expected)
              && store.files.slots == old(store.files).slots - {locator}
    ensures result.Stores() ==> seen.Until(source) && Pending.Expects(old(store.files), locator, source, expected)
    ensures result.Stores() ==> result.stored == Pending.Stored(result.stored.identifier, result.stored.content, source)
    ensures result.Stores() ==>
              && old(session.changes != [] || session.suspended) && session.locked && session.changes == []
              && locator in store.files.slots && store.files.slots[locator] == result.stored
              && Pending.Intact(store.files, result.stored)
              && Holds(p, result.stored.content, passphrase, limits, old(session.document))
    ensures result.SuspendedAs? ==> seen.after == source
    ensures old(store.fault).None? && Pending.Comparable(old(store.files), source) && closes
            && old(session.changes != [] || session.suspended) && !old(session.locked) && old(session.saving).None? ==>
              var published := Suspendable(old(session.document), old(store.files), locator, source, seen, expected,
                                           chunks, paddings, material.iterations, limits, ids);
              && (result.SuspendedAs? <==> published && seen.after == source)
              && (result.Withdrawn? <==> published && seen.after != source)
              && !result.CommittedSuspend?
  {
    hide CheckCandidate, Writable, Holds, DocumentsEqual, Replay, Supplied, Unlocked, AllFields, EditStep, Adopt,
         WellKept;
    hide Pending.Expects, Pending.SomeFresh, Pending.Healthy, Pending.Between, Pending.Intact, Pending.Comparable,
         Pending.OthersDiffer, Pending.Swapped;
    ghost var s0 := session.Holds();
    StepKeepsWell(s0, PrepareSave);
    if (session.changes == [] && !session.suspended) || seen.before != source {
      return NotSuspended;
    }
    var begun := session.BeginSave();
    if !begun.Done? {
      return NotSuspended;
    }
    ghost var s1 := session.Holds();
    StepKeepsWell(s1, AbortSave);
    StepKeepsWell(s1, FinishSuspend);
    var candidate := WriteVerified(p, session.saving.value, chunks, paddings, material, keys, iv, passphrase, limits);
    if candidate.None? {
      var _ := session.CancelSave();
      return NotSuspended;
    }
    var outcome := store.Publish(locator, source, seen.entering, seen.writing, candidate.value.0, true, expected, ids);
    if outcome.Refused? {
      var _ := session.CancelSave();
      return NotSuspended;
    }
    SwappedSlot(old(store.files), locator, outcome.stored, old(store.fault));
    result := ConfirmSuspension(session, store, locator, outcome.stored, seen.after == source, closes);
    assert old(store.files).slots[locator := outcome.stored] - {locator} == old(store.files).slots - {locator};
  }

  /** The artifact is stored: end the session, or take the artifact back because the source has changed. */
  method ConfirmSuspension(
    session: VaultSession, store: Pending.PendingSessionStore, locator: Pending.Locator, stored: Pending.Stored,
    current: bool, closes: bool)
    returns (result: SuspendResult)
    requires Pending.Healthy(store.files) && locator in store.files.slots && store.files.slots[locator] == stored
    requires session.saving.Some? && !session.locked
    modifies session, store
    ensures Pending.Healthy(store.files) && !result.NotSuspended?
    ensures result.Withdrawn? ==>
              && !current && session.Holds() == Step(old(session.Holds()), AbortSave).0
              && store.files.slots == old(store.files).slots - {locator}
    ensures result.Stores() ==>
              && result.stored == stored && store.files == old(store.files)
              && session.Holds() == Step(old(session.Holds()), FinishSuspend).0
    ensures result.SuspendedAs? <==> current && closes
    ensures old(store.fault).None? ==> (result.Withdrawn? <==> !current)
  {
    hide Pending.Healthy, Pending.Intact;
    if !current {
      var discarded := store.DiscardPending(locator, stored);
      if discarded {
        var _ := session.CancelSave();
        return Withdrawn;
      }
    }
    var _ := session.CloseSuspended();
    return if current && closes then SuspendedAs(stored) else CommittedSuspend(stored);
  }

  lemma SwappedSlot(
    before: Pending.Files, locator: Pending.Locator, stored: Pending.Stored, fault: Option<Pending.Stage>)
    ensures var after := Pending.Swapped(before, locator, stored, fault);
            after.slots == before.slots[locator := stored] && after.slots[locator] == stored
  {
  }

  lemma OpenedStartsSession(p: Primitives, file: Bytes, passphrase: Bytes, limits: ResourceLimits)
    requires OpenVault(p, file, passphrase, limits).Ok?
    ensures var document := OpenVault(p, file, passphrase, limits).value.document;
            && Consistent(document) && HandlesDistinct(document.records) && document.revision == 0
            && forall r :: 0 <= r < |document.records| ==> document.records[r].handle == r
  {
    hide ReadEnvelope, Stretched, CbcDecrypt, UnwrappedKeys, Reader.ParseFrom, Consistent, CheckSchema, CheckVersion,
         RawOf;
    var envelope := ReadEnvelope(file, limits).value;
    var keys := UnwrappedKeys(p, Stretched(p, passphrase, envelope.salt, envelope.iterations), envelope.wrapped);
    var plain := CbcDecrypt(p, keys.content, envelope.iv,
                            file[Reader.PREFIX_BYTES..Reader.PREFIX_BYTES + envelope.length]);
    PublishedIsConsistent(Reader.ParseFrom(plain, Reader.Start(), limits).value.builder, limits);
  }

  /** Open a file as a clean session, unless the private store has something for this source. */
  method OpenSession(
    p: Primitives, store: Pending.PendingSessionStore, locator: Pending.Locator, file: Bytes, passphrase: Bytes,
    limits: ResourceLimits)
    returns (session: Option<VaultSession>)
    requires limits.Valid()
    ensures session.Some? <==> locator !in store.files.slots && OpenVault(p, file, passphrase, limits).Ok?
    ensures session.Some? ==>
              && fresh(session.value) && !session.value.suspended && !session.value.locked
              && WellKept(session.value.Holds())
              && session.value.changes == [] && session.value.saving.None? && Consistent(session.value.document)
              && session.value.document == OpenVault(p, file, passphrase, limits).value.document
  {
    hide OpenVault, Consistent, DocumentsEqual, WellKept;
    if locator in store.files.slots {
      return None;
    }
    var reread := OpenSnapshot(p, file, passphrase, limits);
    if reread.Err? {
      return None;
    }
    OpenedStartsSession(p, file, passphrase, limits);
    var document := reread.value.document;
    var started := new VaultSession(document, false, |document.records| + 1);
    return Some(started);
  }

  /**
   The stored artifact is still selected and intact, and the source is what it was bound to whenever
   it is looked at.
   */
  ghost predicate Resumable(
    files: Pending.Files, locator: Pending.Locator, selected: Pending.Stored, seen: seq<Pending.Source>) {
    && locator in files.slots && files.slots[locator] == selected && Pending.Intact(files, selected)
    && forall i :: 0 <= i < |seen| ==> seen[i] == selected.source
  }

  /**
   Open the stored artifact under the passphrase as a dirty session, provided the source file is
   unchanged and opens under the same passphrase.
   */
  method ResumeSession(
    p: Primitives, store: Pending.PendingSessionStore, locator: Pending.Locator, selected: Pending.Stored,
    seen: seq<Pending.Source>, passphrase: Bytes, limits: ResourceLimits)
    returns (session: Option<VaultSession>)
    requires limits.Valid() && |seen| == 3
    ensures session.Some? <==>
              && Resumable(store.files, locator, selected, seen)
              && OpenVault(p, selected.source.content, passphrase, limits).Ok?
              && OpenVault(p, selected.content, passphrase, limits).Ok?
    ensures session.Some? ==>
              && fresh(session.value) && session.value.suspended && !session.value.locked
              && WellKept(session.value.Holds())
              && session.value.changes == [] && session.value.saving.None? && Consistent(session.value.document)
              && session.value.document == OpenVault(p, selected.content, passphrase, limits).value.document
              && forall document :: Holds(p, selected.content, passphrase, limits, document) ==>
                   DocumentsEqual(document, session.value.document)
  {
    hide OpenVault, Consistent, DocumentsEqual, WellKept;
    if locator !in store.files.slots || store.files.slots[locator] != selected
         || !Pending.Intact(store.files, selected) {
      return None;
    }
    if seen[0] != selected.source {
      return None;
    }
    var source := OpenSnapshot(p, selected.source.content, passphrase, limits);
    if source.Err? || seen[1] != selected.source {
      return None;
    }
    var reread := OpenSnapshot(p, selected.content, passphrase, limits);
    if reread.Err? || seen[2] != selected.source {
      return None;
    }
    OpenedStartsSession(p, selected.content, passphrase, limits);
    var document := reread.value.document;
    var resumed := new VaultSession(document, true, |document.records| + 1);
    return Some(resumed);
  }
}
