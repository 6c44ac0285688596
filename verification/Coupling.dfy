/**
 The application over the real service, on one vault. What the service does with the session is one
 of the outcomes the application allows for; the view of the session stays the session's own; and
 over every run the document as the last applied edit left it is live, in the stored artifact, or
 in the file, unless the ledger says that something was given up.
 */
module Coupling {
  import opened Basics
  import opened Crypto
  import opened Documents
  import opened Validation
  import opened Edits
  import opened Commands
  import opened Sessions
  import opened VaultSessions
  import opened Views
  import opened Writer
  import opened Vaults
  import opened Service
  import Application
  import Publication
  import Pending

  /** The application's session stands for the service's one. */
  ghost predicate Couples(live: Application.Session, session: VaultSession)
    reads session
  {
    && (live.changed <==> session.changes != []) && (live.resumed <==> session.suspended)
    && live.revision == session.document.revision && live.handles == HandlesOf(session.document)
    && !session.locked && session.saving.None?
  }

  function HandlesOf(document: VaultDocument): seq<nat> {
    seq(|document.records|, r requires 0 <= r < |document.records| => document.records[r].handle)
  }

  function AsSave(result: SaveResult, suspended: bool): Application.SaveOutcome {
    match result
    case NotSaved => Application.SaveFails
    case Saved => Application.Saves(!suspended)
    case CommittedSave => Application.SaveCommitted(suspended)
  }

  function AsSuspend(result: SuspendResult): Application.SuspendOutcome {
    match result
    case NotSuspended => Application.SuspendFails
    case Withdrawn => Application.SuspendWithdrawn
    case SuspendedAs(_) => Application.Suspends
    case CommittedSuspend(_) => Application.SuspendCommitted
  }

  /** What an edit of the session is to the application: refused, applied, or applied by a call whose answer fails. */
  function AsEdit(outcome: Outcome, view: Result<RecordView>, document: VaultDocument): Application.EditOutcome {
    if !outcome.Done? then Application.EditFails
    else if view.Err? then Application.AppliedThenFails(HandlesOf(document), document.revision)
    else Application.Edits(HandlesOf(document), document.revision, Listable(document))
  }

  /** The random material of one candidate, and one chunk for every payload. */
  datatype Supply = Supply(paddings: seq<Bytes>, keys: VaultKeys, iv: Block)

  function WholeChunks(fields: seq<RawField>): (chunks: seq<seq<Bytes>>)
    ensures |chunks| == |fields|
  {
    seq(|fields|, i requires 0 <= i < |fields| => if fields[i].payload == [] then [] else [fields[i].payload])
  }

  function FittedTo(paddings: seq<Bytes>, n: nat): (fitted: seq<Bytes>)
    ensures |fitted| == n
  {
    seq(n, i requires 0 <= i < n => if i < |paddings| then paddings[i] else [])
  }

  lemma WholeIsSupplied(document: VaultDocument, paddings: seq<Bytes>)
    ensures Supplied(document, WholeChunks(AllFields(document)), FittedTo(paddings, |AllFields(document)|))
  {
    hide AllFields;
    var fields := AllFields(document);
    forall i | 0 <= i < |fields|
      ensures Flatten(WholeChunks(fields)[i]) == fields[i].payload
    {
      assert fields[i].payload != [] ==> Flatten([fields[i].payload]) == fields[i].payload;
    }
  }

  /** What somebody else may write over the source file before each look at it. */
  datatype Moves = Moves(before: Option<Bytes>, entering: Option<Bytes>, writing: Option<Bytes>, after: Option<Bytes>)

  function Over(content: Bytes, move: Option<Bytes>): Bytes {
    if move.Some? then move.value else content
  }

  lemma EqualTransitive(a: VaultDocument, b: VaultDocument, c: VaultDocument)
    requires DocumentsEqual(a, b) && DocumentsEqual(b, c)
    ensures DocumentsEqual(a, c)
  {
  }

  lemma HoldsOther(
    p: Primitives, file: Bytes, passphrase: Bytes, limits: ResourceLimits, a: VaultDocument, b: VaultDocument)
    requires Holds(p, file, passphrase, limits, b) && DocumentsEqual(a, b)
    ensures Holds(p, file, passphrase, limits, a)
  {
    hide OpenVault, DocumentsEqual;
    EqualTransitive(a, b, OpenVault(p, file, passphrase, limits).value.document);
  }

  /** Nothing is counted that was not accepted; unsaved changes include work that is neither saved nor stored. */
  ghost predicate Tallied(
    session: Option<Application.Session>, stored: set<nat>, accepted: set<nat>, committed: set<nat>, hidden: bool)
  {
    && committed <= accepted && stored <= accepted && (hidden ==> session.Some? && session.value.changed)
    && (session.Some? ==>
          && session.value.work <= accepted
          && (session.value.changed ==> exists e :: e in session.value.work && e !in committed && e !in stored))
  }

  lemma TallyEdit(
    live: Application.Session, edited: Application.Session, stored: set<nat>, accepted: set<nat>, committed: set<nat>,
    edit: nat, before: bool, hidden: bool)
    requires Tallied(Some(live), stored, accepted, committed, before) && edit !in accepted
    requires edited.work == live.work + {edit}
    ensures Tallied(Some(edited), stored, accepted + {edit}, committed, hidden && edited.changed)
  {
    assert edit in edited.work;
  }

  /** Whatever a save leaves of the session and of the artifact, the ledger stays in order. */
  lemma TallySaves(
    live: Application.Session, saved: Application.Session, stored: set<nat>, kept: set<nat>, accepted: set<nat>,
    committed: set<nat>, hidden: bool)
    requires Tallied(Some(live), stored, accepted, committed, hidden)
    requires kept <= stored && saved.work == {} && !saved.changed
    ensures Tallied(None, kept, accepted, committed + live.work, false)
    ensures Tallied(Some(saved), kept, accepted, committed + live.work, false)
  {
  }

  /** Work that is now in the stored artifact, or an artifact that is gone. */
  lemma TallyStored(
    session: Option<Application.Session>, stored: set<nat>, accepted: set<nat>, committed: set<nat>, hidden: bool)
    requires Tallied(session, stored, accepted, committed, hidden)
    ensures session.Some? ==> Tallied(None, session.value.work, accepted, committed, false)
    ensures Tallied(session, {}, accepted, committed, hidden) && Tallied(None, {}, accepted, committed, false)
  {
  }

  /** A session just opened or resumed has the stored work and no changes. */
  lemma TallyOpened(begun: Application.Session, stored: set<nat>, accepted: set<nat>, committed: set<nat>)
    requires Tallied(None, stored, accepted, committed, false) && begun.work == stored && !begun.changed
    ensures Tallied(Some(begun), stored, accepted, committed, false)
  {
  }

  lemma TallyShown(
    session: Option<Application.Session>, stored: set<nat>, accepted: set<nat>, committed: set<nat>, hidden: bool,
    now: bool)
    requires Tallied(session, stored, accepted, committed, hidden) && (now ==> hidden)
    ensures Tallied(session, stored, accepted, committed, now)
  {
  }

  lemma TallyHides(
    session: Option<Application.Session>, stored: set<nat>, accepted: set<nat>, committed: set<nat>, hidden: bool)
    requires Tallied(session, stored, accepted, committed, hidden)
    ensures hidden ==> session.Some? && session.value.work - committed - stored != {}
  {
    if hidden {
      var e :| e in session.value.work && e !in committed && e !in stored;
      assert e in session.value.work - committed - stored;
    }
  }

  lemma TallyEnds(
    session: Option<Application.Session>, stored: set<nat>, accepted: set<nat>, committed: set<nat>, hidden: bool)
    requires Tallied(session, stored, accepted, committed, hidden)
    ensures Tallied(None, stored, accepted, committed, false) && committed <= accepted && stored <= accepted
  {
  }

  /** One vault: the application, the session behind it, both stores, and what they remember of the source. */
  class Deployment {
    const p: Primitives
    const limits: ResourceLimits
    const passphrase: Bytes
    const material: Material
    const locator: Pending.Locator
    const identity: Option<nat>
    const app: Application.VaultApplication
    const store: Publication.LocalVaultStore
    const pending: Pending.PendingSessionStore

    var live: Option<VaultSession>

    /** The stored artifact the application and the session name, if any. */
    var selected: Option<Pending.Stored>

    /** The content of the source the session was opened on or has saved. */
    var baseline: Bytes

    /** The document as the last applied edit left it. */
    ghost var latest: VaultDocument

    /** Somebody else wrote the source file, or a save published the very bytes it replaced. */
    ghost var disturbed: bool

    ghost function Objects(): set<object>
      reads this
    {
      {app, store, pending} + (if live.Some? then {live.value} else {})
    }

    ghost predicate InFile()
      reads this`latest, store`disk
    {
      store.disk.destination.Some? && Holds(p, store.disk.destination.value, passphrase, limits, latest)
    }

    ghost predicate InStore()
      reads this`latest, this`selected, app`intact
    {
      selected.Some? && app.intact && Holds(p, selected.value.content, passphrase, limits, latest)
    }

    /** The stored artifact the application names is there. */
    ghost predicate Present()
      reads this`selected, pending`files
    {
      selected.Some? && locator in pending.files.slots && pending.files.slots[locator] == selected.value
    }

    /** Both stores are in order, and there is a source file. */
    ghost predicate Ready()
      reads store, pending
    {
      && Publication.Sound(store.disk) && Pending.Healthy(pending.files)
      && Unlocked(p, material, passphrase, limits) && store.disk.destination.Some?
    }

    /** The application's session is the session behind it, and there is one unless the vault is locked. */
    ghost predicate SessionLinked()
      reads this, Objects()
    {
      match live
      case Some(session) => app.session.Some? && Couples(app.session.value, session) && WellKept(session.Holds())
      case None => app.session.None? && app.snapshot.phase.Locked?
    }

    /** The application names an artifact when one is selected, and knows whether it is there. */
    ghost predicate StoredLinked()
      reads this, app, pending
    {
      (app.suspended <==> selected.Some?) && (selected.Some? ==> (app.intact <==> Present()))
    }

    /** The parts are in order and agree with each other. */
    ghost predicate Linked()
      reads this, Objects()
    {
      app.Valid() && Ready() && SessionLinked() && StoredLinked()
    }

    /** The ledger: nothing is counted that was not accepted, and unsaved changes are counted as such. */
    ghost predicate Counted()
      reads app
    {
      Tallied(app.session, app.StoredWork(), app.accepted, app.committed, app.Hidden())
    }

    /** Nobody interfered and nothing was given up. */
    ghost predicate Good()
      reads this, app
    {
      !disturbed && app.forfeited == {}
    }

    /** The stored artifact belongs to the source as it is, or it cannot be resumed. */
    ghost predicate Bound()
      reads this, store
    {
      && selected.Some? && store.disk.destination.Some?
      && selected.value.source == Pending.Source(store.disk.destination.value, identity)
    }

    /** A live session was opened on the source as it is, and so was the artifact it came from. */
    ghost predicate Sourced()
      reads this, store, app
    {
      store.disk.destination == Some(baseline) && (selected.Some? && app.intact ==> Bound())
    }

    /**
     The live session has the document as the last applied edit left it, and so has what a clean or
     resumed one came from.
     */
    ghost predicate ConservedLive(session: VaultSession)
      reads this, app, store, session
    {
      && DocumentsEqual(latest, session.document) && Sourced()
      && (session.changes == [] && !session.suspended ==> InFile())
      && (selected.Some? && app.intact && session.changes == [] ==> InStore())
    }

    /** A locked vault has it in the file or in the stored artifact; an artifact without it cannot be resumed. */
    ghost predicate ConservedLocked()
      reads this, app, store
    {
      && (InFile() || InStore())
      && (selected.Some? && app.intact && !InStore() ==> Some(selected.value.source.content) != store.disk.destination)
    }

    /** Where the document is, as the last applied edit left it. */
    ghost predicate Conserved()
      reads this, Objects()
    {
      match live
      case Some(session) => ConservedLive(session)
      case None => ConservedLocked()
    }

    ghost predicate Valid()
      reads this, Objects()
    {
      Linked() && Counted() && (Good() ==> Conserved())
    }

    /** A vault just opened: a clean session on the document of the file. */
    constructor (
      p: Primitives, limits: ResourceLimits, passphrase: Bytes, material: Material, locator: Pending.Locator,
      identity: Option<nat>, store: Publication.LocalVaultStore, pending: Pending.PendingSessionStore,
      session: VaultSession)
      requires Publication.Sound(store.disk) && Pending.Healthy(pending.files)
      requires Unlocked(p, material, passphrase, limits)
      requires store.disk.destination.Some?
      requires Holds(p, store.disk.destination.value, passphrase, limits, session.document)
      requires WellKept(session.Holds()) && session.changes == [] && !session.suspended && !session.locked
      requires session.saving.None?
      ensures Valid() && Good() && live == Some(session) && latest == session.document && selected.None?
      ensures this.store == store && this.pending == pending && fresh(app)
    {
      hide Publication.Sound, Pending.Healthy, Unlocked, Holds, WellKept, DocumentsEqual;
      this.p, this.limits, this.passphrase, this.material := p, limits, passphrase, material;
      this.locator, this.identity, this.store, this.pending := locator, identity, store, pending;
      app := new Application.VaultApplication();
      live, selected, baseline := Some(session), None, store.disk.destination.value;
      latest, disturbed := session.document, false;
      new;
      HandlesAreDistinct(session.Holds());
      EqualReflexive(session.document);
      var opening := Application.Opens(HandlesOf(session.document), session.document.revision, true, true, false);
      var _ := app.OpenOrCreate(false, 0, 0, None, opening, Application.EndOutcome(true, true));
    }

    // -------------------------------------------------------------- editing

    /** The commands the application's editor issues. */
    static predicate FromEditor(command: Command) {
      command.Add? || command.action.Patch?
    }

    method ApplyToSession(session: VaultSession, command: Command) returns (outcome: Outcome, view: Result<RecordView>)
      requires FromEditor(command)
      modifies session
      ensures (session.Holds(), outcome) == EditStep(old(session.Holds()), old(session.document.revision), command)
      ensures outcome.Done? ==> view == SessionView(session.document, Answers(command, old(session.next)))
    {
      match command
      case Add(record) => outcome, view := session.AddRecord(record, session.document.revision);
      case On(handle, action) => outcome, view := session.ApplyPatch(handle, session.document.revision, action.edits);
    }

    /** A draft reaches the session. */
    predicate Reaches(draft: nat, key: Option<nat>)
      reads app
    {
      app.DraftLive(draft, key) && (key.Some? ==> key.value in app.recordKeys.Values)
    }

    /** The session behind the application takes this command. */
    ghost predicate Takes(command: Command)
      reads this`live, if live.Some? then {live.value} else {}
    {
      live.Some? && EditStep(live.value.Holds(), live.value.document.revision, command).1.Done?
    }

    /** The document as this command leaves it. */
    ghost function Edited(command: Command): VaultDocument
      reads this`live, if live.Some? then {live.value} else {}
      requires Takes(command)
    {
      EditStep(live.value.Holds(), live.value.document.revision, command).0.document
    }

    /** One confirmed draft, applied to the session; the view and the list decide what the application is told. */
    method EditThrough(
      draft: nat, key: Option<nat>, command: Command, admissible: bool, agrees: bool, empty: bool, secret: nat,
      edit: nat)
      returns (reply: Application.Reply)
      requires Valid() && FromEditor(command) && edit !in app.accepted && secret !in app.openSecrets
      modifies this, Objects()
      ensures Valid() && selected == old(selected) && disturbed == old(disturbed)
      ensures store.disk == old(store.disk) && pending.files == old(pending.files) && Objects() <= old(Objects())
      ensures reply.Accepted? <==> old(Reaches(draft, key)) && admissible && agrees
      ensures app.accepted
                == if reply.Accepted? && !empty && old(Takes(command)) then old(app.accepted) + {edit}
                   else old(app.accepted)
      ensures latest == if reply.Accepted? && !empty && old(Takes(command)) then old(Edited(command)) else old(latest)
      ensures app.DanglingKept()
      ensures app.openSecrets <= old(app.openSecrets)
      ensures old(app.snapshot).phase.Locked? ==> app.snapshot.phase.Locked?
    {
      hide Ready, Present, Service.Holds, WellKept, DocumentsEqual, Tallied;
      hide app.Valid, app.Moved, app.Settled, app.Conserved;
      if admissible && agrees && !empty && Reaches(draft, key) {
        reply := Reach(draft, key, command, secret, edit);
      } else {
        reply := app.CommitEdit(draft, key, admissible, agrees, empty, secret, edit, Application.EditFails);
      }
    }

    method Reach(draft: nat, key: Option<nat>, command: Command, secret: nat, edit: nat)
      returns (reply: Application.Reply)
      requires Valid() && FromEditor(command) && edit !in app.accepted && secret !in app.openSecrets
      requires Reaches(draft, key)
      modifies this, Objects()
      ensures Valid() && selected == old(selected) && disturbed == old(disturbed)
      ensures store.disk == old(store.disk) && pending.files == old(pending.files) && Objects() <= old(Objects())
      ensures reply.Accepted?
      ensures app.accepted == if old(Takes(command)) then old(app.accepted) + {edit} else old(app.accepted)
      ensures latest == if old(Takes(command)) then old(Edited(command)) else old(latest)
      ensures app.DanglingKept()
      ensures app.openSecrets <= old(app.openSecrets)
    {
      hide Ready, Present, Service.Holds, WellKept, DocumentsEqual, EditStep, Listable, SessionView, Tallied;
      hide app.Valid, app.Moved, app.Settled, app.Conserved, HandlesOf;
      var session := live.value;
      StepKeepsWell(session.Holds(), Sessions.Edit(session.document.revision, command));
      EditFacts(session.Holds(), session.document.revision, command);
      var outcome, view := ApplyToSession(session, command);
      if outcome.Done? {
        latest := session.document;
      }
      HandlesAreDistinct(session.Holds());
      reply := Tell(draft, key, session, AsEdit(outcome, view, session.document), secret, edit);
    }

    /**
     The session has done its part; the application takes the outcome, and a session it cannot show
     is disposed of.
     */
    method Tell(
      draft: nat, key: Option<nat>, session: VaultSession, told: Application.EditOutcome, secret: nat, edit: nat)
      returns (reply: Application.Reply)
      requires app.Valid() && Ready() && StoredLinked() && Counted() && live == Some(session) && app.session.Some?
      requires edit !in app.accepted && secret !in app.openSecrets && Reaches(draft, key) && told.Valid()
      requires WellKept(session.Holds()) && !session.locked && session.saving.None?
      requires session.suspended == app.session.value.resumed
      requires if told.Applies()
               then && session.changes != [] && latest == session.document
                    && told.handles == HandlesOf(latest) && told.revision == latest.revision
               else Couples(app.session.value, session)
      requires Good() ==> if told.Applies() then Sourced() else Conserved()
      modifies this, Objects()
      ensures Valid() && selected == old(selected) && disturbed == old(disturbed)
      ensures store.disk == old(store.disk) && pending.files == old(pending.files) && Objects() <= old(Objects())
      ensures reply.Accepted? && latest == old(latest)
      ensures app.accepted == if told.Applies() then old(app.accepted) + {edit} else old(app.accepted)
      ensures app.DanglingKept()
      ensures app.openSecrets <= old(app.openSecrets)
    {
      hide Ready, Present, InFile, InStore, Service.Holds, WellKept, DocumentsEqual, Tallied;
      hide app.Valid, app.Moved, app.Settled, app.Conserved, HandlesOf;
      EqualReflexive(latest);
      if told.Applies() {
        ghost var edited := Application.EditedSession(app.session.value, edit, told);
        TallyEdit(app.session.value, edited, app.StoredWork(), app.accepted, app.committed, edit, app.Hidden(), true);
        TallyEdit(app.session.value, edited, app.StoredWork(), app.accepted, app.committed, edit, app.Hidden(), false);
        TallyEnds(Some(edited), app.StoredWork(), app.accepted + {edit}, app.committed, false);
      }
      TallyEnds(app.session, app.StoredWork(), app.accepted, app.committed, app.Hidden());
      assert edit !in app.committed && edit !in app.StoredWork();
      reply := app.CommitEdit(draft, key, true, true, false, secret, edit, told);
      if app.session.None? {
        assert edit in app.forfeited;
        Dispose(session);
      }
    }

    /** The application has let go of the session. */
    method Dispose(session: VaultSession)
      requires app.Valid() && Ready() && StoredLinked() && Counted() && live == Some(session)
      requires app.session.None? && app.snapshot.phase.Locked? && (Good() ==> ConservedLocked())
      modifies this`live, session
      ensures Valid() && live.None?
    {
      hide Ready, Present, InFile, InStore, DocumentsEqual, Tallied;
      hide app.Valid, app.Settled, app.Conserved;
      var _ := session.Discard();
      live := None;
    }

    // -------------------------------------------------------------- saving

    /** When a save that meets no fault publishes the session's document. */
    ghost predicate Saveable(document: VaultDocument, supply: Supply, ids: seq<Publication.Id>)
      reads this`baseline, store`disk
    {
      var fields := AllFields(document);
      && CheckCandidate(document, material.iterations, limits).Ok?
      && Writable(fields, WholeChunks(fields), FittedTo(supply.paddings, |fields|))
      && Publication.Publishable(store.disk, true, Some(baseline), ids)
    }

    /** The service's save, with the material the random source supplies. */
    method RunSave(session: VaultSession, supply: Supply, ids: seq<Publication.Id>) returns (result: SaveResult)
      requires Ready() && live == Some(session) && WellKept(session.Holds())
      modifies session, store, pending
      ensures Ready() && WellKept(session.Holds()) && session.document == old(session.document)
      ensures result.NotSaved? ==>
                && session.Holds() == old(session.Holds()) && pending.files == old(pending.files)
                && store.disk.destination == old(store.disk).destination
      ensures !result.NotSaved? ==>
                && session.changes == [] && session.saving.None? && !session.locked && store.disk.destination.Some?
                && Holds(p, store.disk.destination.value, passphrase, limits, session.document)
      ensures result.Saved? ==> !session.suspended
      ensures session.suspended ==> old(session.suspended) && pending.files == old(pending.files)
      ensures old(session.suspended) && !session.suspended && selected.Some? ==> old(Present())
      ensures old(store.fault).None? && !old(session.locked) && old(session.saving).None? ==>
                (!result.NotSaved? <==> old(Saveable(session.document, supply, ids)))
    {
      hide Publication.Sound, Pending.Healthy, Unlocked, Service.Holds, WellKept, Supplied, AllFields;
      WholeIsSupplied(session.document, supply.paddings);
      var fields := AllFields(session.document);
      var resumed := if selected.Some? then selected.value else Pending.Stored(0, [], Pending.Source([], None));
      result := SaveAndForget(
        p, session, store, baseline, pending, locator, resumed, WholeChunks(fields),
        FittedTo(supply.paddings, |fields|),
        material, supply.keys, supply.iv, passphrase, limits, ids);
    }

    /** Saving: work counted as committed is in a file that opens as the document. */
    method SaveThrough(expected: nat, supply: Supply, ids: seq<Publication.Id>) returns (reply: Application.Reply)
      requires Valid()
      modifies this, Objects()
      ensures Valid() && latest == old(latest) && Objects() <= old(Objects())
      ensures app.accepted == old(app.accepted) && app.forfeited == old(app.forfeited) && app.DanglingKept()
      ensures app.committed != old(app.committed) ==>
                && store.disk.destination.Some? && old(live).Some?
                && Holds(p, store.disk.destination.value, passphrase, limits, old(live.value.document))
      ensures app.openSecrets <= old(app.openSecrets)
      ensures old(app.snapshot).phase.Locked? ==> app.snapshot.phase.Locked?
      ensures reply.Accepted? <==> old(app.ActiveAt(expected))
      ensures reply.Accepted? && old(store.fault).None? ==>
                if old(live.Some? && Saveable(live.value.document, supply, ids))
                then app.committed == old(app.committed) + old(app.LiveWork()) && store.disk.destination.Some?
                       && Holds(p, store.disk.destination.value, passphrase, limits, old(live.value.document))
                else store.disk.destination == old(store.disk).destination && app.committed == old(app.committed)
                       && live == old(live) && app.snapshot.failed
    {
      hide Ready, Service.Holds, WellKept, DocumentsEqual, Tallied, HandlesOf, Listable, Saveable;
      hide app.Moved, app.Conserved;
      if !app.ActiveAt(expected) {
        return Application.Rejected;
      }
      var session := live.value;
      app.ResumedIsSuspended();
      var result := RunSave(session, supply, ids);
      if result.NotSaved? {
        reply := FinishUnsaved(expected);
      } else {
        reply := FinishSaved(expected, session, result);
      }
    }

    /** The session still is the one the application knows, save for what it has saved. */
    ghost predicate SameSession(session: VaultSession)
      reads this, app, session
    {
      && app.session.Some? && app.session.value.handles == HandlesOf(session.document)
      && app.session.value.revision == session.document.revision && !session.locked && session.saving.None?
    }

    /** What a published save has left for the application to take note of. */
    ghost predicate Published(session: VaultSession, result: SaveResult)
      reads this, Objects(), session
    {
      && SameSession(session) && session.changes == [] && store.disk.destination.Some? && !result.NotSaved?
      && Holds(p, store.disk.destination.value, passphrase, limits, session.document)
      && (result.Saved? ==> !session.suspended) && (app.Dangling() ==> session.suspended)
      && (session.suspended ==> app.suspended && StoredLinked())
    }

    /** The application takes note of a save that was refused. */
    method FinishUnsaved(expected: nat) returns (reply: Application.Reply)
      requires Valid() && app.ActiveAt(expected)
      modifies app
      ensures Valid()
      ensures app.accepted == old(app.accepted) && app.forfeited == old(app.forfeited) && app.DanglingKept()
      ensures app.committed == old(app.committed)
      ensures app.openSecrets <= old(app.openSecrets)
      ensures reply.Accepted? && app.snapshot.failed
    {
      hide Ready, Present, Service.Holds, WellKept, DocumentsEqual, Tallied, HandlesOf;
      hide app.Moved, app.Conserved, app.Settled;
      ghost var hidden := app.Hidden();
      reply := app.SaveVault(expected, Application.SaveFails, true);
      TallyShown(app.session, app.StoredWork(), app.accepted, app.committed, hidden, app.Hidden());
    }

    /** The application takes note of a published save; a session it cannot show is disposed of. */
    method FinishSaved(expected: nat, session: VaultSession, result: SaveResult) returns (reply: Application.Reply)
      requires app.Valid() && Ready() && Counted() && live == Some(session) && WellKept(session.Holds())
      requires Published(session, result) && app.ActiveAt(expected) && (app.suspended <==> selected.Some?)
      requires Good() ==>
                 && DocumentsEqual(latest, session.document)
                 && (selected.Some? && app.intact ==> selected.value.source.content == baseline)
      modifies this, app, session
      ensures Valid() && latest == old(latest) && (live == Some(session) || live.None?)
      ensures reply.Accepted? && app.committed == old(app.committed) + old(app.LiveWork())
      ensures app.accepted == old(app.accepted) && app.forfeited == old(app.forfeited) && app.DanglingKept()
      ensures app.openSecrets <= old(app.openSecrets)
    {
      hide Ready, Present, InFile, InStore, Service.Holds, WellKept, DocumentsEqual, Tallied, HandlesOf, Listable;
      hide app.Valid, app.Moved, app.Conserved, app.Settled;
      HoldsLatest(session.document);
      disturbed := disturbed || store.disk.destination == Some(baseline);
      baseline := store.disk.destination.value;
      selected := if session.suspended then selected else None;
      ghost var before, stored, committed, hidden := app.session.value, app.StoredWork(), app.committed, app.Hidden();
      reply := app.SaveVault(expected, AsSave(result, session.suspended), Listable(session.document));
      app.ResumedIsSuspended();
      ghost var saved := if app.session.Some? then app.session.value else Application.Session({}, false, false, [], 0);
      TallySaves(before, saved, stored, app.StoredWork(), app.accepted, committed, hidden);
      if app.session.None? {
        Dispose(session);
      }
    }

    lemma HoldsLatest(document: VaultDocument)
      ensures (store.disk.destination.Some? && DocumentsEqual(latest, document)
               && Holds(p, store.disk.destination.value, passphrase, limits, document)) ==> InFile()
    {
      hide Service.Holds, DocumentsEqual;
      if store.disk.destination.Some? && DocumentsEqual(latest, document)
         && Holds(p, store.disk.destination.value, passphrase, limits, document) {
        HoldsOther(p, store.disk.destination.value, passphrase, limits, latest, document);
      }
    }

    // -------------------------------------------------------------- locking

    function SourceOf(content: Bytes): Pending.Source {
      Pending.Source(content, identity)
    }

    /** What is found at the source path in four looks, with what others write in between. */
    static function Contents(content: Bytes, moves: Moves): seq<Bytes> {
      var before := Over(content, moves.before);
      var entering := Over(before, moves.entering);
      var writing := Over(entering, moves.writing);
      [before, entering, writing, Over(writing, moves.after)]
    }

    function Looks(content: Bytes, moves: Moves): Captures {
      var seen := Contents(content, moves);
      Captures(SourceOf(seen[0]), SourceOf(seen[1]), SourceOf(seen[2]), SourceOf(seen[3]))
    }

    /** When the session's document would be published into the private store, faults aside. */
    ghost predicate Publishes(document: VaultDocument, seen: Captures, supply: Supply, ids: seq<Pending.Id>)
      reads this`selected, this`baseline, pending
      requires limits.Valid()
    {
      var fields := AllFields(document);
      WholeIsSupplied(document, supply.paddings);
      Suspendable(document, pending.files, locator, SourceOf(baseline), seen, selected, WholeChunks(fields),
              FittedTo(supply.paddings, |fields|), material.iterations, limits, ids)
    }

    /** The service's suspension, with the material the random source supplies. */
    method RunSuspend(session: VaultSession, seen: Captures, closes: bool, supply: Supply, ids: seq<Pending.Id>)
      returns (result: SuspendResult)
      requires Ready() && live == Some(session) && WellKept(session.Holds()) && limits.Valid()
      modifies session, pending
      ensures Ready() && WellKept(session.Holds())
      ensures !result.Stores() ==> session.Holds() == old(session.Holds())
      ensures result.NotSuspended? ==> pending.files == old(pending.files)
      ensures result.Withdrawn? ==>
                && seen.after != SourceOf(baseline) && pending.files.slots == old(pending.files).slots - {locator}
      ensures !result.NotSuspended? && selected.Some? ==> old(Present())
      ensures result.Stores() ==>
                && locator in pending.files.slots && pending.files.slots[locator] == result.stored
                && Holds(p, result.stored.content, passphrase, limits, old(session.document))
      ensures old(pending.fault).None? && Pending.Comparable(old(pending.files), SourceOf(baseline)) && closes
              && old(session.changes != [] || session.suspended) && !old(session.locked)
              && old(session.saving).None? ==>
                && (result.Withdrawn? <==>
                      old(Publishes(session.document, seen, supply, ids)) && seen.after != SourceOf(baseline))
                && (result.Stores() <==>
                      old(Publishes(session.document, seen, supply, ids)) && seen.after == SourceOf(baseline))
    {
      hide Publication.Sound, Pending.Healthy, Unlocked, Service.Holds, WellKept, Supplied, AllFields, Suspendable,
           Pending.Comparable;
      WholeIsSupplied(session.document, supply.paddings);
      var fields := AllFields(session.document);
      result := SuspendSession(
        p, session, pending, locator, SourceOf(baseline), seen, selected, closes, WholeChunks(fields),
        FittedTo(supply.paddings, |fields|), material, supply.keys, supply.iv, passphrase, limits, ids);
    }

    /** Others may have written the source file while the service looked at it. */
    method Disturb(moves: Moves)
      requires Ready() && limits.Valid()
      modifies this`disturbed, store
      ensures Ready() && store.disk.destination == Some(Contents(old(store.disk).destination.value, moves)[3])
      ensures disturbed == (old(disturbed) || moves != Moves(None, None, None, None))
      ensures moves == Moves(None, None, None, None) ==> store.disk == old(store.disk)
    {
      hide Unlocked, Pending.Healthy;
      store.disk := store.disk.(destination := Some(Contents(store.disk.destination.value, moves)[3]));
      disturbed := disturbed || moves != Moves(None, None, None, None);
    }

    /**
     Locking. Work counted as stored is in a slot whose artifact opens as the document. The one way to
     lose an artifact that was there is stated exactly: the session came from it, the new one was
     published, and the source had changed by the last look.
     */
    method LockThrough(expected: nat, moves: Moves, closes: bool, supply: Supply, ids: seq<Pending.Id>)
      returns (reply: Application.Reply)
      requires Valid() && limits.Valid()
      modifies this, Objects()
      ensures Valid() && latest == old(latest) && Objects() <= old(Objects())
      ensures app.accepted == old(app.accepted) && app.committed == old(app.committed) && app.DanglingKept()
      ensures !old(app.Hidden()) ==> app.forfeited == old(app.forfeited)
      ensures reply.Rejected? ==> app.Dangling() == old(app.Dangling())
      ensures live.None? && old(app.snapshot).phase.UnlockedDirty? ==>
                && app.suspended && app.intact && app.artifact == old(app.LiveWork())
                && locator in pending.files.slots
                && Holds(p, pending.files.slots[locator].content, passphrase, limits, old(live.value.document))
      ensures old(pending.fault).None? && Pending.Comparable(old(pending.files), SourceOf(old(baseline))) && closes
              && old(app.ActiveAt(expected)) && old(app.snapshot).phase.UnlockedDirty? && !old(app.Dangling()) ==>
                && (app.Dangling() <==>
                      && old(app.suspended)
                      && old(Publishes(live.value.document, Looks(store.disk.destination.value, moves), supply, ids))
                      && Contents(old(store.disk).destination.value, moves)[3] != old(baseline))
                && (live.None? <==>
                      && old(Publishes(live.value.document, Looks(store.disk.destination.value, moves), supply, ids))
                      && Contents(old(store.disk).destination.value, moves)[3] == old(baseline))
      ensures reply.Accepted? <==> old(app.ActiveAt(expected))
      ensures reply.Accepted? && old(app.snapshot).phase.UnlockedClean? ==> live.None? && app.snapshot.phase.Locked?
      ensures app.openSecrets <= old(app.openSecrets)
      ensures old(app.snapshot).phase.Locked? ==> app.snapshot.phase.Locked?
    {
      hide Ready, Present, InFile, InStore, Service.Holds, WellKept, DocumentsEqual, Tallied, HandlesOf, Publishes;
      hide app.Valid, app.Moved, app.Settled, app.Conserved, Pending.Comparable, Contents;
      if !app.ActiveAt(expected) {
        return Application.Rejected;
      }
      LiveWhenActive();
      var session := live.value;
      if app.snapshot.phase.UnlockedDirty? {
        reply := StoreThrough(expected, session, moves, closes, supply, ids);
      } else {
        reply := LeaveThrough(expected, session);
      }
    }

    /** A session shown as dirty goes into the private store, or stays. */
    method StoreThrough(
      expected: nat, session: VaultSession, moves: Moves, closes: bool, supply: Supply, ids: seq<Pending.Id>)
      returns (reply: Application.Reply)
      requires Valid() && limits.Valid() && live == Some(session) && app.ActiveAt(expected) && app.session.Some?
      requires app.snapshot.phase.UnlockedDirty? && app.session.value.Dirty()
      modifies this, Objects()
      ensures Valid() && latest == old(latest) && (live == Some(session) || live.None?) && reply.Accepted?
      ensures app.accepted == old(app.accepted) && app.committed == old(app.committed) && app.DanglingKept()
      ensures app.forfeited == old(app.forfeited)
      ensures live.None? ==>
                && app.suspended && app.intact && app.artifact == old(app.LiveWork())
                && locator in pending.files.slots
                && Holds(p, pending.files.slots[locator].content, passphrase, limits, old(session.document))
      ensures old(pending.fault).None? && Pending.Comparable(old(pending.files), SourceOf(old(baseline))) && closes
              && !old(app.Dangling()) ==>
                && (app.Dangling() <==>
                      && old(app.suspended)
                      && old(Publishes(session.document, Looks(store.disk.destination.value, moves), supply, ids))
                      && Contents(old(store.disk).destination.value, moves)[3] != old(baseline))
                && (live.None? <==>
                      && old(Publishes(session.document, Looks(store.disk.destination.value, moves), supply, ids))
                      && Contents(old(store.disk).destination.value, moves)[3] == old(baseline))
      ensures app.openSecrets <= old(app.openSecrets)
    {
      hide Ready, InFile, InStore, Service.Holds, WellKept, DocumentsEqual, Tallied, HandlesOf, Publishes;
      hide app.Valid, app.Moved, app.Settled, app.Conserved, Pending.Comparable;
      SourceIsThere();
      var seen := Looks(store.disk.destination.value, moves);
      app.ResumedIsSuspended();
      var result := RunSuspend(session, seen, closes, supply, ids);
      Disturb(moves);
      if result.Stores() {
        StoresLatest(result.stored.content, old(session.document));
        reply := TellStored(expected, session, result);
      } else {
        reply := TellKept(expected, session, result.Withdrawn?);
      }
    }

    /** The application is told that the artifact is stored. */
    method TellStored(expected: nat, session: VaultSession, result: SuspendResult) returns (reply: Application.Reply)
      requires app.Valid() && Ready() && Counted() && live == Some(session) && app.ActiveAt(expected)
      requires app.session.Some?
      requires app.snapshot.phase.UnlockedDirty? && !app.Dangling() && result.Stores()
      requires locator in pending.files.slots && pending.files.slots[locator] == result.stored
      requires Good() ==> Holds(p, result.stored.content, passphrase, limits, latest)
      modifies this`live, this`selected, app, session
      ensures Valid() && live.None? && reply.Accepted? && app.suspended && app.intact
      ensures app.artifact == old(app.LiveWork())
      ensures app.accepted == old(app.accepted) && app.committed == old(app.committed)
      ensures app.forfeited == old(app.forfeited)
      ensures app.openSecrets <= old(app.openSecrets)
    {
      hide Ready, InFile, Service.Holds, DocumentsEqual, Tallied;
      hide app.Valid, app.Moved, app.Settled, app.Conserved;
      TallyStored(app.session, app.StoredWork(), app.accepted, app.committed, app.Hidden());
      selected := Some(result.stored);
      reply := app.LockVault(expected, AsSuspend(result), true);
      app.LockedIsEmpty();
      Dispose(session);
    }

    /**
     The application is told that nothing is stored, and whether an earlier artifact went with what
     was taken back.
     */
    method TellKept(expected: nat, session: VaultSession, withdrawn: bool) returns (reply: Application.Reply)
      requires app.Valid() && Ready() && Counted() && SessionLinked() && live == Some(session) && app.ActiveAt(expected)
      requires app.snapshot.phase.UnlockedDirty? && (app.suspended <==> selected.Some?)
      requires if withdrawn then !Good() && !Present() else StoredLinked() && (Good() ==> Conserved())
      modifies app
      ensures Valid() && reply.Accepted? && app.DanglingKept()
      ensures app.accepted == old(app.accepted) && app.committed == old(app.committed)
      ensures app.forfeited == old(app.forfeited)
      ensures app.Dangling() <==> app.suspended && (withdrawn || old(app.Dangling()))
      ensures app.suspended == old(app.suspended)
      ensures app.openSecrets <= old(app.openSecrets)
    {
      hide Ready, Present, InFile, InStore, Service.Holds, WellKept, DocumentsEqual, Tallied, HandlesOf;
      hide app.Valid, app.Moved, app.Settled, app.Conserved;
      TallyStored(app.session, app.StoredWork(), app.accepted, app.committed, app.Hidden());
      var outcome := if withdrawn then Application.SuspendWithdrawn else Application.SuspendFails;
      reply := app.LockVault(expected, outcome, true);
    }

    /** A session shown as clean is locked; one that hides changes refuses and is disposed of. */
    method LeaveThrough(expected: nat, session: VaultSession) returns (reply: Application.Reply)
      requires Valid() && live == Some(session) && app.ActiveAt(expected) && app.snapshot.phase.UnlockedClean?
      modifies this`live, app, session
      ensures Valid() && live.None? && reply.Accepted? && app.DanglingKept() && app.Dangling() == old(app.Dangling())
      ensures app.accepted == old(app.accepted) && app.committed == old(app.committed)
      ensures !old(app.Hidden()) ==> app.forfeited == old(app.forfeited)
      ensures app.openSecrets <= old(app.openSecrets)
    {
      hide Ready, Present, InFile, InStore, Service.Holds, WellKept, DocumentsEqual, HandlesOf;
      hide app.Valid, app.Moved, app.Settled, app.Conserved;
      app.ResumedIsSuspended();
      StepKeepsWell(session.Holds(), Sessions.Lock);
      var outcome := session.LockClean();
      ghost var hidden := app.Hidden();
      ghost var work := if app.session.Some? then app.session.value.work - app.committed - app.StoredWork() else {};
      TallyHides(app.session, app.StoredWork(), app.accepted, app.committed, hidden);
      assert Good() && !hidden ==> ConservedLocked();
      reply := app.LockVault(expected, Application.SuspendFails, outcome.Done?);
      app.LockedIsEmpty();
      assert work <= app.forfeited;
      Dispose(session);
    }

    lemma SourceIsThere()
      requires Ready()
      ensures store.disk.destination.Some?
    {
    }

    lemma StoresLatest(content: Bytes, document: VaultDocument)
      ensures (DocumentsEqual(latest, document) && Holds(p, content, passphrase, limits, document)) ==>
                Holds(p, content, passphrase, limits, latest)
    {
      hide Service.Holds, DocumentsEqual;
      if DocumentsEqual(latest, document) && Holds(p, content, passphrase, limits, document) {
        HoldsOther(p, content, passphrase, limits, latest, document);
      }
    }

    lemma LiveWhenActive()
      requires Valid() && (app.snapshot.phase.UnlockedClean? || app.snapshot.phase.UnlockedDirty?)
      ensures live.Some? && app.session.Some? && (app.snapshot.phase.UnlockedDirty? ==> app.session.value.Dirty())
    {
    }

    // -------------------------------------------------------------- unlocking

    /** A session that has the stored or the saved document, when there is reason to think so. */
    ghost predicate Reopened(session: VaultSession)
      reads this, app, store, session
    {
      && WellKept(session.Holds()) && session.changes == [] && session.saving.None? && !session.locked
      && session.suspended == app.suspended && !app.Dangling()
      && (Good() ==>
            && DocumentsEqual(latest, session.document) && store.disk.destination.Some?
            && (selected.Some? ==> Bound() && InStore()) && (selected.None? ==> InFile()))
    }

    /**
     The passphrase brings a session back: the selected artifact is there, belongs to the file as it is, and
     both open; or nothing is stored and the file opens; and every record can be listed.
     */
    ghost predicate Reopens()
      reads this, store, pending
    {
      && store.disk.destination.Some? && OpenVault(p, store.disk.destination.value, passphrase, limits).Ok?
      && match selected
         case None =>
           && locator !in pending.files.slots
           && Listable(OpenVault(p, store.disk.destination.value, passphrase, limits).value.document)
         case Some(stored) =>
           && Present() && Bound() && OpenVault(p, stored.content, passphrase, limits).Ok?
           && Listable(OpenVault(p, stored.content, passphrase, limits).value.document)
    }

    /** Unlocking: the document as the last applied edit left it comes back in a session. */
    method UnlockThrough(secret: nat, typed: bool, moves: Moves, shows: bool, leaves: bool)
      returns (reply: Application.Reply)
      requires Valid() && limits.Valid() && secret !in app.openSecrets
      modifies this, Objects()
      ensures Valid() && latest == old(latest) && fresh(Objects() - old(Objects())) && app.DanglingKept()
      ensures app.accepted == old(app.accepted) && app.committed == old(app.committed)
      ensures app.forfeited == old(app.forfeited)
      ensures reply.Accepted? <==> old(app.snapshot).phase.Locked?
      ensures old(app.Dangling()) && old(app.snapshot).phase.Locked? ==> app.snapshot.phase.Locked? && live.None?
      ensures Good() && live.Some? ==> DocumentsEqual(latest, live.value.document)
      ensures reply.Accepted? && typed && shows && moves == Moves(None, None, None, None) ==>
                (live.Some? <==> old(Reopens()))
      ensures app.openSecrets <= old(app.openSecrets)
    {
      hide Ready, Present, InFile, InStore, WellKept, DocumentsEqual, Tallied, HandlesOf, Reopened;
      hide app.Valid, app.Moved, app.Settled, app.Conserved;
      if !app.snapshot.phase.Locked? {
        reply := app.UnlockVault(secret, Application.OpenFails);
        return;
      }
      app.LockedIsEmpty();
      var session := Reopen(typed, moves);
      reply := TellUnlock(secret, session, shows, leaves);
    }

    /** Resume the selected artifact or open the file, under the passphrase if that is what was typed. */
    method Reopen(typed: bool, moves: Moves) returns (session: Option<VaultSession>)
      requires Valid() && limits.Valid() && live.None?
      modifies this`disturbed, store
      ensures Valid() && live.None? && (session.Some? ==> fresh(session.value) && Reopened(session.value))
      ensures typed && moves == Moves(None, None, None, None) ==>
                (session.Some? && Listable(session.value.document) <==> old(Reopens()))
    {
      hide Ready, Present, InFile, InStore, WellKept, DocumentsEqual, Tallied, Reopened;
      hide app.Valid, app.Settled, app.Conserved;
      SourceIsThere();
      var seen := Contents(store.disk.destination.value, moves);
      Disturb(moves);
      session := None;
      if typed && selected.Some? {
        session := ResumeStored(seen);
      } else if typed {
        session := OpenPlain(seen[0]);
      }
    }

    method ResumeStored(seen: seq<Bytes>) returns (session: Option<VaultSession>)
      requires Linked() && limits.Valid() && live.None? && selected.Some? && |seen| == 4
      requires Good() ==> ConservedLocked() && store.disk.destination == Some(seen[0])
      ensures session.Some? ==> fresh(session.value) && Reopened(session.value)
      ensures store.disk.destination == Some(seen[0]) && seen[1] == seen[0] && seen[2] == seen[0] ==>
                (session.Some? && Listable(session.value.document) <==> Reopens())
    {
      hide Publication.Sound, Unlocked, WellKept, DocumentsEqual, Service.Holds, OpenVault, Consistent, Listable;
      hide app.Valid, app.Settled, app.Conserved;
      var looks := [SourceOf(seen[0]), SourceOf(seen[1]), SourceOf(seen[2])];
      session := ResumeSession(p, pending, locator, selected.value, looks, passphrase, limits);
      assert session.Some? ==> looks[0] == selected.value.source;
      assert Present() ==> Pending.Intact(pending.files, selected.value);
    }

    method OpenPlain(content: Bytes) returns (session: Option<VaultSession>)
      requires Linked() && limits.Valid() && live.None? && selected.None?
      requires Good() ==> ConservedLocked() && store.disk.destination == Some(content)
      ensures session.Some? ==> fresh(session.value) && Reopened(session.value)
      ensures store.disk.destination == Some(content) ==>
                (session.Some? && Listable(session.value.document) <==> Reopens())
    {
      hide Ready, WellKept, DocumentsEqual, OpenVault, Consistent, Listable;
      hide app.Valid, app.Settled, app.Conserved;
      session := OpenSession(p, pending, locator, content, passphrase, limits);
    }

    /** The application takes the candidate over, or leaves the vault locked. */
    method TellUnlock(secret: nat, session: Option<VaultSession>, shows: bool, leaves: bool)
      returns (reply: Application.Reply)
      requires Valid() && live.None? && app.snapshot.phase.Locked? && secret !in app.openSecrets
      requires session.Some? ==> Reopened(session.value)
      modifies this`live, this`baseline, app
      ensures Valid() && (live.None? || live == session) && reply.Accepted? && app.DanglingKept()
      ensures shows && !old(app.Dangling()) ==>
                (live.Some? <==> session.Some? && Listable(session.value.document))
      ensures app.accepted == old(app.accepted) && app.committed == old(app.committed)
      ensures app.forfeited == old(app.forfeited)
      ensures old(app.Dangling()) ==> app.snapshot.phase.Locked? && live.None?
      ensures app.openSecrets <= old(app.openSecrets)
    {
      hide Ready, Present, InFile, InStore, WellKept, DocumentsEqual, Tallied, HandlesOf, Listable;
      hide app.Valid, app.Moved, app.Settled, app.Conserved;
      var outcome := Application.OpenFails;
      if session.Some? {
        var document := session.value.document;
        HandlesAreDistinct(session.value.Holds());
        outcome := Application.Opens(HandlesOf(document), document.revision, Listable(document), shows, leaves);
      }
      ghost var stored, hidden := app.StoredWork(), app.Hidden();
      TallyEnds(app.session, stored, app.accepted, app.committed, hidden);
      reply := app.UnlockVault(secret, outcome);
      app.LockedIsEmpty();
      if app.session.Some? {
        TallyOpened(app.session.value, stored, app.accepted, app.committed);
        SourceIsThere();
        live, baseline := session, store.disk.destination.value;
      }
    }

    /** Faults may be waiting in either store. */
    method Arm(fileFault: Option<Publication.Stage>, storeFault: Option<Pending.Stage>)
      requires Valid()
      modifies store`fault, pending`fault
      ensures Valid()
    {
      hide Unlocked, InFile, InStore, WellKept, DocumentsEqual, Tallied, HandlesOf;
      hide app.Valid, app.Settled, app.Conserved;
      store.fault := fileFault;
      pending.fault := storeFault;
    }

    /** A draft is begun, bound to the session's revision. */
    method BeginThrough(key: Option<nat>, expected: nat) returns (reply: Application.Reply)
      requires Valid()
      modifies app
      ensures Valid() && app.Untouched()
      ensures reply.Accepted? <==> app.ActiveAt(expected) && (key.Some? ==> key.value in app.recordKeys.Values)
      ensures reply.Accepted? ==> Reaches(expected, key)
    {
      hide Ready, Present, InFile, InStore, WellKept, DocumentsEqual, Tallied, HandlesOf;
      hide app.Settled, app.Conserved;
      if app.ActiveAt(expected) {
        LiveWhenActive();
      }
      app.SnapshotIsCurrent();
      reply := app.BeginEdit(key, expected);
    }
  }

  /** A refused edit changes nothing; an applied one is logged and keeps the session open. */
  lemma EditFacts(s: State, expected: nat, command: Command)
    ensures var (after, outcome) := EditStep(s, expected, command);
            if outcome.Done?
            then after.changes != [] && after.suspended == s.suspended && !after.locked && after.saving.None?
            else after == s
  {
    hide PlanCommand;
  }

  lemma HandlesAreDistinct(s: State)
    requires WellKept(s)
    ensures var handles := HandlesOf(s.document);
            forall i, j :: 0 <= i < j < |handles| ==> handles[i] != handles[j]
  {
    hide Replay;
  }

  lemma EqualReflexive(document: VaultDocument)
    ensures DocumentsEqual(document, document)
  {
  }

  // ---------------------------------------------------------------- whole runs

  datatype Request =
    | Begin(key: Option<nat>, expected: nat)
    | Commit(draft: nat, key: Option<nat>, command: Command, admissible: bool, agrees: bool, empty: bool)
    | Save(expected: nat, supply: Supply, fileIds: seq<Publication.Id>)
    | Lock(expected: nat, moves: Moves, closes: bool, supply: Supply, ids: seq<Pending.Id>)
    | Unlock(typed: bool, moves: Moves, shows: bool, leaves: bool)

  /** One request, and the fault that strikes each store during it, if any. */
  datatype Attempt = Attempt(request: Request, fileFault: Option<Publication.Stage>, storeFault: Option<Pending.Stage>)
  {
    predicate Sensible() {
      request.Commit? ==> Deployment.FromEditor(request.command)
    }
  }

  method Serve(d: Deployment, attempt: Attempt, id: nat)
    requires d.Valid() && d.limits.Valid() && attempt.Sensible() && id !in d.app.accepted && id !in d.app.openSecrets
    modifies d, d.Objects()
    ensures d.Valid() && fresh(d.Objects() - old(d.Objects()))
    ensures old(d.app.accepted) <= d.app.accepted <= old(d.app.accepted) + {id}
    ensures d.app.openSecrets <= old(d.app.openSecrets)
    ensures d.app.DanglingKept()
    ensures old(d.app.Dangling()) && old(d.app.snapshot).phase.Locked? ==> d.app.snapshot.phase.Locked?
  {
    hide d.Valid, d.Linked, d.Counted, d.Conserved, d.Good, d.Publishes, Pending.Comparable, Service.Holds;
    d.Arm(attempt.fileFault, attempt.storeFault);
    match attempt.request {
      case Begin(key, expected) =>
        var _ := d.BeginThrough(key, expected);
      case Commit(draft, key, command, admissible, agrees, empty) =>
        var _ := d.EditThrough(draft, key, command, admissible, agrees, empty, id, id);
      case Save(expected, supply, fileIds) =>
        var _ := d.SaveThrough(expected, supply, fileIds);
      case Lock(expected, moves, closes, supply, ids) =>
        var _ := d.LockThrough(expected, moves, closes, supply, ids);
      case Unlock(typed, moves, shows, leaves) =>
        var _ := d.UnlockThrough(id, typed, moves, shows, leaves);
    }
  }

  /**
   Over every run of edits, saves, locks and unlocks, with a fault in either store during any of
   them: as long as nobody else wrote the file and nothing was given up, the document as the last
   applied edit left it is live, or opens from the file, or opens from the stored artifact. An
   artifact that is gone stays gone, and a vault locked over one stays locked.
   */
  method Drive(d: Deployment, attempts: seq<Attempt>, first: nat)
    requires d.Valid() && d.limits.Valid() && forall i :: 0 <= i < |attempts| ==> attempts[i].Sensible()
    requires forall e :: e in d.app.accepted || e in d.app.openSecrets ==> e < first
    modifies d, d.Objects()
    ensures d.Valid()
    ensures d.Good() ==> match d.live
                         case Some(session) => DocumentsEqual(d.latest, session.document)
                         case None => d.InFile() || d.InStore()
    ensures d.app.DanglingKept()
    ensures old(d.app.Dangling()) && old(d.app.snapshot).phase.Locked? ==> d.app.snapshot.phase.Locked?
  {
    hide d.Linked, d.Counted, d.InFile, d.InStore, DocumentsEqual;
    var i := 0;
    while i < |attempts|
      invariant 0 <= i <= |attempts| && d.Valid() && fresh(d.Objects() - old(d.Objects()))
      invariant forall e :: e in d.app.accepted || e in d.app.openSecrets ==> e < first + i
      invariant d.app.DanglingKept()
      invariant old(d.app.Dangling()) && old(d.app.snapshot).phase.Locked? ==> d.app.snapshot.phase.Locked?
    {
      Serve(d, attempts[i], first + i);
      i := i + 1;
    }
  }

  /**
   The run that loses an artifact: a session resumed from it is locked again, somebody writes the
   source after the new artifact is published, and the publication is taken back. From then on the
   application names an artifact that is gone, whatever follows, and once it locks it stays locked.
   */
  method LoseArtifact(
    d: Deployment, content: Bytes, supply: Supply, ids: seq<Pending.Id>, attempts: seq<Attempt>, first: nat)
    requires d.Valid() && d.limits.Valid() && d.live.Some? && d.app.snapshot.phase.UnlockedDirty?
    requires d.app.suspended && !d.app.Dangling() && d.pending.fault.None?
    requires d.store.disk.destination.Some? && content != d.baseline
    requires Pending.Comparable(d.pending.files, d.SourceOf(d.baseline))
    requires d.Publishes(d.live.value.document,
                         d.Looks(d.store.disk.destination.value, Moves(None, None, None, Some(content))), supply, ids)
    requires forall i :: 0 <= i < |attempts| ==> attempts[i].Sensible()
    requires forall e :: e in d.app.accepted || e in d.app.openSecrets ==> e < first
    modifies d, d.Objects()
    ensures d.Valid() && d.app.Dangling()
  {
    hide d.Valid, d.Linked, d.Counted, d.Conserved, d.InFile, d.InStore, d.Publishes, Pending.Comparable, Service.Holds;
    var _ := d.LockThrough(d.app.snapshot.generation, Moves(None, None, None, Some(content)), true, supply, ids);
    assert d.app.Dangling();
    Drive(d, attempts, first);
  }
}
