/**
 When cooperating writers leave the recovery slot right. Rollback runs after the lock is released,
 so it can come late. What a run does to the slot and to the artifacts is read off as events, and
 two properties of every state of a run are each shown to hold exactly when the order of its
 events is of a stated shape: the slot names an existing artifact, and that artifact is the one
 the publications call for.
 */
module LateRollbacks {
  import opened Basics
  import opened Publication
  import opened CooperatingWriters

  /**
   What a run does to slot and artifacts. `Draws`, `Names`, `Publishes` and `PutsBack` carry the
   identifier the acting transaction drew; `saved` is the current artifact of the slot put back.
   */
  datatype Event =
    | Draws(id: Id)
    | Names(id: Id)
    | Publishes(id: Id)
    | PutsBack(id: Id, saved: Option<Id>)
    | Removes(id: Id)

  function CurrentOf(slot: Option<Slot>): Option<Id> {
    if slot.None? then None else Some(slot.value.current)
  }

  function Emitted(world: World, move: Move): seq<Event> {
    if !Enabled(world, move) then []
    else
      var writer := world.writers[move.w];
      match move
      case Recover(_, id) => [Draws(id)]
      case Announce(_) => [Names(writer.created)]
      case Settle(_) => [Names(writer.created)]
      case Replace(_) => [Publishes(writer.created)]
      case RestoreSlot(_) => [PutsBack(writer.created, CurrentOf(writer.previous))]
      case RemoveObsolete(_, id) => [Removes(id)]
      case DropArtifact(_) => [Removes(writer.created)]
      case _ => []
  }

  function Events(world: World, moves: seq<Move>): seq<Event>
    decreases |moves|
  {
    if moves == [] then [] else Emitted(world, moves[0]) + Events(Step(world, moves[0]), moves[1..])
  }

  /** No transaction is active and the slot names what the last publication preserved. */
  ghost predicate Rested(world: World) {
    && (forall w :: 0 <= w < |world.writers| ==> !Active(world.writers[w].phase))
    && world.lock.None? && world.artifacts.Keys <= world.used && IdsUsed(world, world.slot)
    && world.kept == CurrentOf(world.slot) && Preserves(world, world.slot)
  }

  // ---------------------------------------------------------------- the slot names an existing artifact

  /** Every state of the run, the first and the last included. */
  predicate SafeThroughout(world: World, moves: seq<Move>)
    decreases |moves|
  {
    SlotSafe(world) && (moves != [] ==> SafeThroughout(Step(world, moves[0]), moves[1..]))
  }

  predicate WritesSlot(e: Event) {
    e.Names? || e.PutsBack?
  }

  /** The last event that wrote the slot was a rollback, and it put `id` back. */
  ghost predicate Reverted(events: seq<Event>, id: Id) {
    exists i :: 0 <= i < |events| && RevertedAt(events, i, id)
  }

  ghost predicate RevertedAt(events: seq<Event>, i: nat, id: Id)
    requires i < |events|
  {
    events[i].PutsBack? && events[i].saved == Some(id) && forall k :: i < k < |events| ==> !WritesSlot(events[k])
  }

  lemma RestedRuled(world: World)
    requires Rested(world)
    ensures Ruled(world)
  {
    hide Preserves, IdsUsed;
  }

  /** No rollback puts back an artifact already removed, and nothing removes the artifact a rollback has put back. */
  ghost predicate Orderly(events: seq<Event>) {
    forall j :: 0 <= j < |events| ==> OrderlyAt(events, j)
  }

  ghost predicate OrderlyAt(events: seq<Event>, j: nat)
    requires j < |events|
  {
    && (events[j].PutsBack? && events[j].saved.Some? ==> Removes(events[j].saved.value) !in events[..j])
    && (events[j].Removes? ==> !Reverted(events[..j], events[j].id))
  }

  lemma OrderlyGrows(events: seq<Event>, e: Event)
    ensures Orderly(events + [e]) <==> Orderly(events) && OrderlyAt(events + [e], |events|)
  {
    hide OrderlyAt;
    var all := events + [e];
    forall j | 0 <= j < |events|
      ensures OrderlyAt(all, j) <==> OrderlyAt(events, j)
    {
      SameBefore(events, [e], j);
    }
  }

  lemma SameBefore(events: seq<Event>, more: seq<Event>, j: nat)
    requires j < |events|
    ensures OrderlyAt(events + more, j) <==> OrderlyAt(events, j)
  {
    assert (events + more)[..j] == events[..j];
  }

  lemma OrderlyPrefix(events: seq<Event>, more: seq<Event>)
    requires Orderly(events + more)
    ensures Orderly(events)
  {
    hide OrderlyAt;
    forall j | 0 <= j < |events|
      ensures OrderlyAt(events, j)
    {
      assert OrderlyAt(events + more, j);
      SameBefore(events, more, j);
    }
  }

  lemma RevertedGrows(events: seq<Event>, e: Event, id: Id)
    ensures Reverted(events + [e], id) <==>
              (e.PutsBack? && e.saved == Some(id)) || (Reverted(events, id) && !WritesSlot(e))
  {
    var all := events + [e];
    assert all[|events|] == e;
    if e.PutsBack? && e.saved == Some(id) {
      assert RevertedAt(all, |events|, id);
    } else if Reverted(all, id) {
      var i :| 0 <= i < |all| && RevertedAt(all, i, id);
      assert forall k :: i < k < |events| ==> all[k] == events[k];
      assert RevertedAt(events, i, id);
    }
    if Reverted(events, id) && !WritesSlot(e) {
      var i :| 0 <= i < |events| && RevertedAt(events, i, id);
      assert RevertedAt(all, i, id);
    }
  }

  /** A transaction that may still have to put back the slot it found. */
  predicate MayPutBack(phase: Phase) {
    phase.Recovered? || phase.Announced? || phase.Confirmed? || phase.UndoSlot?
  }

  predicate Announcing(phase: Phase) {
    phase.Announced? || phase.Confirmed?
  }

  predicate Publishing(phase: Phase) {
    phase.Replaced? || phase.Settled?
  }

  // ---------------------------------------------------------------- what one step does

  /** How one writer's phase moves on: it only advances or fails. */
  predicate PhaseTurned(before: Phase, after: Phase, move: Move) {
    && (Owns(after) && !move.Recover? ==> Owns(before))
    && (MayPutBack(after) && !move.Recover? ==> MayPutBack(before))
    && (after.Recovered? ==> move.Recover? || before.Recovered?)
    && (Announcing(after) ==> Announcing(before) || (move.Announce? && before.Recovered?))
    && (Publishing(after) ==> Publishing(before) || (move.Replace? && before.Confirmed?))
    && (Publishing(before) && Owns(after) ==> Publishing(after))
    && (after.Replaced? ==> before.Replaced? || move.Replace?)
    && (after.UndoSlot? ==> before.UndoSlot? || before.Recovered? || Announcing(before))
    && (before.UndoSlot? ==> after.UndoSlot? || move.RestoreSlot?)
    && (after.UndoArtifact? ==> before.UndoArtifact? || move.RestoreSlot?)
    && (move.Replace? ==> before.Confirmed? && after.Replaced?)
    && (move.RestoreSlot? ==> before.UndoSlot? && after.UndoArtifact?)
  }

  /** A writer that owns an artifact drew it just now or keeps what it drew. */
  predicate Turned(before: Writer, after: Writer, move: Move) {
    && PhaseTurned(before.phase, after.phase, move)
    && (Owns(after.phase) && !move.Recover? ==>
          && after.created == before.created && after.kept == before.kept
          && after.previous == before.previous && after.baseline == before.baseline)
  }

  lemma PhaseTurns(world: World, move: Move)
    requires Enabled(world, move)
    ensures var after := Step(world, move);
            move.w < |after.writers| && PhaseTurned(world.writers[move.w].phase, after.writers[move.w].phase, move)
  {
    hide TransactionSlot, PreviousIds;
    if MayFail(move) {
      hide Step, PhaseTurned;
      FailingTurns(world, move);
    } else {
      hide Step, PhaseTurned;
      OnwardTurns(world, move);
    }
  }

  predicate MayFail(move: Move) {
    move.Fail? || move.Recheck? || move.Confirm? || move.Create?
  }

  lemma FailingTurns(world: World, move: Move)
    requires Enabled(world, move) && MayFail(move)
    ensures var after := Step(world, move);
            move.w < |after.writers| && PhaseTurned(world.writers[move.w].phase, after.writers[move.w].phase, move)
  {
    hide TransactionSlot, PreviousIds;
  }

  lemma OnwardTurns(world: World, move: Move)
    requires Enabled(world, move) && !MayFail(move)
    ensures var after := Step(world, move);
            move.w < |after.writers| && PhaseTurned(world.writers[move.w].phase, after.writers[move.w].phase, move)
  {
    hide TransactionSlot, PreviousIds;
  }

  lemma WriterTurns(world: World, move: Move)
    requires Enabled(world, move)
    ensures var after := Step(world, move);
            move.w < |after.writers| && Turned(world.writers[move.w], after.writers[move.w], move)
  {
    hide TransactionSlot, PreviousIds, PhaseTurned;
    PhaseTurns(world, move);
  }

  lemma SharedTurns(world: World, move: Move)
    requires Enabled(world, move)
    ensures var after := Step(world, move);
            && after.kept == (if move.Replace? then Some(world.writers[move.w].created) else world.kept)
            && world.used <= after.used
            && (move.Replace? || move.RestoreSlot? ==> after.artifacts == world.artifacts)
  {
    hide TransactionSlot, PreviousIds;
  }

  lemma StepTurns(world: World, move: Move)
    requires Enabled(world, move)
    ensures var w, writer, after := move.w, world.writers[move.w], Step(world, move);
            && |after.writers| == |world.writers| && Turned(writer, after.writers[w], move)
            && (forall v :: 0 <= v < |world.writers| && v != w ==> after.writers[v] == world.writers[v])
            && after.kept == (if move.Replace? then Some(writer.created) else world.kept)
            && world.used <= after.used
            && (move.Replace? || move.RestoreSlot? ==> after.artifacts == world.artifacts)
  {
    hide Step, Turned;
    WriterTurns(world, move);
    SharedTurns(world, move);
    OthersStay(world, move);
  }

  /** What a draw brings in. */
  lemma StepDraws(world: World, move: Move)
    requires Enabled(world, move) && move.Recover?
    ensures var after := Step(world, move);
            && move.w < |after.writers|
            && after.writers[move.w].phase.Recovered? && after.writers[move.w].created == move.id
            && move.id !in world.used
            && after.writers[move.w].kept == world.kept && after.writers[move.w].previous == world.slot
  {
  }

  lemma StepSlots(world: World, move: Move)
    requires Enabled(world, move)
    ensures var writer, after := world.writers[move.w], Step(world, move);
            CurrentOf(after.slot) == if move.Announce? || move.Settle? then Some(writer.created)
                                     else if move.RestoreSlot? then CurrentOf(writer.previous)
                                          else CurrentOf(world.slot)
  {
    hide PreviousIds;
  }

  /** The artifact the writer would put back exists, unless an event removed it. */
  predicate SavedTraced(world: World, events: seq<Event>, writer: Writer) {
    MayPutBack(writer.phase) && writer.previous.Some? ==>
      writer.previous.value.current in world.artifacts || Removes(writer.previous.value.current) in events
  }

  /** Unless a rollback wrote the slot last, it names the announcer's artifact and none that is about to be dropped. */
  ghost predicate SlotTraced(world: World, events: seq<Event>, writer: Writer) {
    world.slot.Some? && !Reverted(events, world.slot.value.current) ==>
      && (writer.phase.UndoArtifact? ==> world.slot.value.current != writer.created)
      && (writer.phase.Announced? || writer.phase.Confirmed? || writer.phase.Replaced? ==>
            world.slot.value.current == writer.created)
  }

  ghost predicate Ruled(world: World) {
    && LockKept(world) && BaselineKept(world) && ArtifactsOwned(world) && world.artifacts.Keys <= world.used
    && IdsUsed(world, world.slot)
    && forall v :: 0 <= v < |world.writers| ==> PreviousUsed(world, world.writers[v])
  }

  /** The slot a transaction found lists identifiers drawn before its own. */
  ghost predicate PreviousUsed(world: World, writer: Writer) {
    Owns(writer.phase) ==> OwnApart(world, writer)
  }

  /** What the events so far say about slot and artifacts. */
  ghost predicate Traced(world: World, events: seq<Event>) {
    && Ruled(world) && SlotSafe(world)
    && (forall id: Id :: Removes(id) in events ==> id in world.used && id !in world.artifacts)
    && (forall id: Id :: Reverted(events, id) ==> CurrentOf(world.slot) == Some(id))
    && (forall v :: 0 <= v < |world.writers| ==> SavedTraced(world, events, world.writers[v]))
    && (forall v :: 0 <= v < |world.writers| ==> SlotTraced(world, events, world.writers[v]))
  }

  lemma ArtifactsUsed(world: World, move: Move)
    requires world.artifacts.Keys <= world.used
    ensures Step(world, move).artifacts.Keys <= Step(world, move).used
  {
    hide TransactionSlot, PreviousIds;
  }

  lemma StepRuled(world: World, move: Move)
    requires Ruled(world)
    ensures Ruled(Step(world, move))
  {
    hide ArtifactsOwned, LockKept, BaselineKept, Step, IdsUsed, PreviousUsed;
    StepLocks(world, move);
    StepOwns(world, move);
    ArtifactsUsed(world, move);
    StepIds(world, move);
  }

  lemma StepIds(world: World, move: Move)
    requires Ruled(world)
    ensures var after := Step(world, move);
            IdsUsed(after, after.slot) && forall v :: 0 <= v < |after.writers| ==> PreviousUsed(after, after.writers[v])
  {
    hide Ruled, Step, IdsUsed, PreviousUsed;
    WritersStay(world, move);
    if Enabled(world, move) {
      SlotIdsUsed(world, move);
      forall v | 0 <= v < |world.writers|
        ensures PreviousUsed(Step(world, move), Step(world, move).writers[v])
      {
        SavedIdsUsed(world, move, v);
      }
    } else {
      DisabledStep(world, move);
      RuledIds(world);
    }
  }

  lemma RuledIds(world: World)
    requires Ruled(world)
    ensures IdsUsed(world, world.slot) && forall v :: 0 <= v < |world.writers| ==> PreviousUsed(world, world.writers[v])
  {
  }

  lemma SlotIdsUsed(world: World, move: Move)
    requires Ruled(world) && Enabled(world, move)
    ensures IdsUsed(Step(world, move), Step(world, move).slot)
  {
    hide LockKept, BaselineKept;
    assert ArtifactOwned(world, world.writers[move.w]) && PreviousUsed(world, world.writers[move.w]);
  }

  lemma SavedIdsUsed(world: World, move: Move, v: nat)
    requires Ruled(world) && Enabled(world, move) && v < |world.writers|
    ensures v < |Step(world, move).writers| && PreviousUsed(Step(world, move), Step(world, move).writers[v])
  {
    hide Step, LockKept, BaselineKept, PreviousIds, ArtifactsOwned;
    StepTurns(world, move);
    assert PreviousUsed(world, world.writers[v]);
    if v == move.w && move.Recover? {
      StepDraws(world, move);
    }
  }

  /** One step keeps the slot safe exactly when the event it emits is in order. */
  lemma StepSafeExactly(world: World, events: seq<Event>, move: Move)
    requires Traced(world, events) && Enabled(world, move)
    ensures var more := Emitted(world, move);
            SlotSafe(Step(world, move)) <==> (more != [] ==> OrderlyAt(events + more, |events|))
  {
    hide PreviousIds, Reverted, BaselineKept, LockKept;
    var w, writer := move.w, world.writers[move.w];
    assert ArtifactOwned(world, writer) && SavedTraced(world, events, writer) && SlotTraced(world, events, writer);
    var more := Emitted(world, move);
    assert (events + more)[..|events|] == events;
    assert more != [] ==> (events + more)[|events|] == more[0];
  }

  /** And then what the events say stays true. */
  lemma StepTraced(world: World, events: seq<Event>, move: Move)
    requires Traced(world, events) && Enabled(world, move) && SlotSafe(Step(world, move))
    ensures Traced(Step(world, move), events + Emitted(world, move))
  {
    hide Ruled, Reverted, SavedTraced, SlotTraced, Step, Emitted;
    StepRuled(world, move);
    OthersStay(world, move);
    EventFacts(world, events, move);
    var after, all := Step(world, move), events + Emitted(world, move);
    forall v | 0 <= v < |after.writers|
      ensures SavedTraced(after, all, after.writers[v]) && SlotTraced(after, all, after.writers[v])
    {
      StepSaved(world, events, move, v);
      StepSlot(world, events, move, v);
    }
  }

  lemma EventFacts(world: World, events: seq<Event>, move: Move)
    requires Traced(world, events) && Enabled(world, move)
    ensures var after, all := Step(world, move), events + Emitted(world, move);
            && (forall id: Id :: Removes(id) in all ==> id in after.used && id !in after.artifacts)
            && (forall id: Id :: Reverted(all, id) ==> CurrentOf(after.slot) == Some(id))
  {
    hide Reverted, PreviousIds, TransactionSlot, BaselineKept, LockKept, SavedTraced, SlotTraced;
    assert ArtifactOwned(world, world.writers[move.w]) && PreviousUsed(world, world.writers[move.w]);
    var more := Emitted(world, move);
    if more == [] {
      assert events + more == events;
    } else {
      assert more == [more[0]];
      assert forall id: Id :: Removes(id) in events + more ==> Removes(id) in events || more[0] == Removes(id);
      forall id: Id
        ensures Reverted(events + more, id) <==>
                  (more[0].PutsBack? && more[0].saved == Some(id)) || (Reverted(events, id) && !WritesSlot(more[0]))
      {
        RevertedGrows(events, more[0], id);
      }
    }
  }

  /** An artifact disappears only with an event, and only a draw saves the slot. */
  lemma StepRemoves(world: World, move: Move)
    requires Enabled(world, move)
    ensures forall id: Id :: id in world.artifacts ==>
              id in Step(world, move).artifacts || Removes(id) in Emitted(world, move)
  {
    hide TransactionSlot, PreviousIds;
  }

  lemma StepSaved(world: World, events: seq<Event>, move: Move, v: nat)
    requires Traced(world, events) && Enabled(world, move) && v < |world.writers|
    ensures var after := Step(world, move);
            |after.writers| == |world.writers| && SavedTraced(after, events + Emitted(world, move), after.writers[v])
  {
    hide Reverted, Ruled, SlotTraced, Step, Emitted;
    assert SavedTraced(world, events, world.writers[v]);
    StepTurns(world, move);
    StepRemoves(world, move);
    if move.Recover? {
      StepDraws(world, move);
    }
  }

  lemma RevertedAfter(world: World, events: seq<Event>, move: Move, id: Id)
    requires Enabled(world, move)
    ensures Reverted(events + Emitted(world, move), id) <==>
              if move.RestoreSlot? then CurrentOf(world.writers[move.w].previous) == Some(id)
              else Reverted(events, id) && !move.Announce? && !move.Settle?
  {
    hide Reverted, Enabled;
    var more := Emitted(world, move);
    if more == [] {
      assert events + more == events;
    } else {
      assert more == [more[0]];
      RevertedGrows(events, more[0], id);
    }
  }

  lemma StepSlot(world: World, events: seq<Event>, move: Move, v: nat)
    requires Traced(world, events) && Enabled(world, move) && v < |world.writers|
    ensures var after := Step(world, move);
            |after.writers| == |world.writers| && SlotTraced(after, events + Emitted(world, move), after.writers[v])
  {
    hide Reverted, BaselineKept, SavedTraced, Step, Emitted, IdsUsed, PreviousUsed;
    var w, after := move.w, Step(world, move);
    StepTurns(world, move);
    StepSlots(world, move);
    assert SlotTraced(world, events, world.writers[v]);
    assert ArtifactOwned(world, world.writers[v]) && ArtifactOwned(world, world.writers[w]);
    assert Holding(world.writers[v].phase) <==> world.lock == Some(v);
    assert Holding(world.writers[w].phase) <==> world.lock == Some(w);
    if after.slot.Some? {
      RevertedAfter(world, events, move, after.slot.value.current);
    }
  }

  /**
   Over every interleaving, from any state at rest: every state of the run has a slot that names an
   existing artifact exactly when its events are orderly.
   */
  lemma SafeExactly(world: World, moves: seq<Move>)
    requires Rested(world)
    ensures SafeThroughout(world, moves) <==> Orderly(Events(world, moves))
  {
    hide Events, SafeThroughout;
    RestedRuled(world);
    assert [] + Events(world, moves) == Events(world, moves);
    SafeFromHere(world, [], moves);
  }

  lemma {:induction false} SafeFromHere(world: World, before: seq<Event>, moves: seq<Move>)
    requires Traced(world, before) && Orderly(before)
    ensures SafeThroughout(world, moves) <==> Orderly(before + Events(world, moves))
    decreases |moves|
  {
    hide Traced, Orderly, OrderlyAt, Step, Emitted;
    TracedSafe(world, before);
    if moves == [] {
      assert before + Events(world, moves) == before;
      return;
    }
    var next, more, rest := Step(world, moves[0]), Emitted(world, moves[0]), Events(Step(world, moves[0]), moves[1..]);
    assert before + Events(world, moves) == before + more + rest;
    if !Enabled(world, moves[0]) {
      DisabledStep(world, moves[0]);
      NothingEmitted(world, moves[0]);
      assert before + more == before;
      SafeFromHere(world, before, moves[1..]);
      return;
    }
    StepSafeExactly(world, before, moves[0]);
    AtMostOne(world, before, moves[0]);
    if SlotSafe(next) {
      StepTraced(world, before, moves[0]);
      SafeFromHere(next, before + more, moves[1..]);
    } else if Orderly(before + more + rest) {
      OrderlyPrefix(before + more, rest);
    }
  }

  lemma TracedSafe(world: World, events: seq<Event>)
    requires Traced(world, events)
    ensures SlotSafe(world)
  {
  }

  lemma NothingEmitted(world: World, move: Move)
    requires !Enabled(world, move)
    ensures Emitted(world, move) == []
  {
  }

  lemma AtMostOne(world: World, before: seq<Event>, move: Move)
    ensures var more := Emitted(world, move);
            Orderly(before + more) <==> Orderly(before) && (more != [] ==> OrderlyAt(before + more, |before|))
  {
    hide Orderly, OrderlyAt, Enabled;
    var more := Emitted(world, move);
    if more == [] {
      assert before + more == before;
    } else {
      assert more == [more[0]];
      OrderlyGrows(before, more[0]);
    }
  }

  // ---------------------------------------------------------------- the slot names the right artifact

  /** A transaction that drew its artifact since the last replacement and may still put its slot back. */
  ghost predicate UnderWay(world: World, u: nat) {
    u < |world.writers| && MayPutBack(world.writers[u].phase) && world.writers[u].kept == world.kept
  }

  ghost predicate NamesUnderWay(world: World, id: Option<Id>) {
    exists u: nat :: UnderWay(world, u) && id == Some(world.writers[u].created)
  }

  /**
   The slot names what the last replacement preserved or, while a later transaction is under way,
   that transaction's copy of the destination; and the artifact it names exists.
   */
  ghost predicate Recoverable(world: World) {
    SlotSafe(world) && (CurrentOf(world.slot) == world.kept || NamesUnderWay(world, CurrentOf(world.slot)))
  }

  ghost predicate RecoverableThroughout(world: World, moves: seq<Move>)
    decreases |moves|
  {
    Recoverable(world) && (moves != [] ==> RecoverableThroughout(Step(world, moves[0]), moves[1..]))
  }

  /** A replacement happened, and the transaction `id` has not preserved the destination since. */
  ghost predicate Late(events: seq<Event>, id: Id) {
    exists k :: 0 <= k < |events| && LateAt(events, k, Draws(id))
  }

  ghost predicate LateAt(events: seq<Event>, k: nat, draw: Event)
    requires k < |events|
  {
    events[k].Publishes? && draw !in events[k + 1..]
  }

  /** The transaction `id` has been rolled back. */
  ghost predicate Withdrawn(events: seq<Event>, id: Id) {
    exists k :: 0 <= k < |events| && events[k].PutsBack? && events[k].id == id
  }

  /** Some rollback wrote the slot, and the transaction `id` has not announced itself since. */
  ghost predicate Overwritten(events: seq<Event>, id: Id) {
    exists k :: 0 <= k < |events| && OverwrittenAt(events, k, Names(id))
  }

  ghost predicate OverwrittenAt(events: seq<Event>, k: nat, name: Event)
    requires k < |events|
  {
    events[k].PutsBack? && name !in events[k + 1..]
  }

  /**
   No rollback after a replacement that followed its own draw, none that puts back the artifact of a
   transaction itself rolled back, and none between a transaction's announcement and its replacement.
   */
  ghost predicate Timely(events: seq<Event>) {
    forall j :: 0 <= j < |events| ==> TimelyAt(events, j)
  }

  ghost predicate TimelyAt(events: seq<Event>, j: nat)
    requires j < |events|
  {
    && (events[j].PutsBack? ==>
          && !Late(events[..j], events[j].id)
          && (events[j].saved.Some? ==> !Withdrawn(events[..j], events[j].saved.value)))
    && (events[j].Publishes? ==> !Overwritten(events[..j], events[j].id))
  }

  lemma TimelySame(events: seq<Event>, more: seq<Event>, j: nat)
    requires j < |events|
    ensures TimelyAt(events + more, j) <==> TimelyAt(events, j)
  {
    hide Late, Withdrawn, Overwritten;
    assert (events + more)[..j] == events[..j];
  }

  lemma TimelyGrows(events: seq<Event>, e: Event)
    ensures Timely(events + [e]) <==> Timely(events) && TimelyAt(events + [e], |events|)
  {
    hide TimelyAt;
    var all := events + [e];
    forall j | 0 <= j < |events|
      ensures TimelyAt(all, j) <==> TimelyAt(events, j)
    {
      TimelySame(events, [e], j);
    }
  }

  lemma TimelyPrefix(events: seq<Event>, more: seq<Event>)
    requires Timely(events + more)
    ensures Timely(events)
  {
    hide TimelyAt;
    forall j | 0 <= j < |events|
      ensures TimelyAt(events, j)
    {
      assert TimelyAt(events + more, j);
      TimelySame(events, more, j);
    }
  }

  lemma LateGrows(events: seq<Event>, e: Event, id: Id)
    ensures Late(events + [e], id) <==> e.Publishes? || (Late(events, id) && e != Draws(id))
  {
    var all := events + [e];
    assert all[|events|] == e;
    assert forall k :: 0 <= k < |events| ==> all[k] == events[k] && all[k + 1..] == events[k + 1..] + [e];
    if e.Publishes? {
      assert LateAt(all, |events|, Draws(id));
    } else if Late(all, id) {
      var k :| 0 <= k < |all| && LateAt(all, k, Draws(id));
      assert all[k + 1..] == events[k + 1..] + [e];
      assert LateAt(events, k, Draws(id));
    } else if Late(events, id) && e != Draws(id) {
      var k :| 0 <= k < |events| && LateAt(events, k, Draws(id));
      assert LateAt(all, k, Draws(id));
    }
  }

  lemma OverwrittenGrows(events: seq<Event>, e: Event, id: Id)
    ensures Overwritten(events + [e], id) <==> e.PutsBack? || (Overwritten(events, id) && e != Names(id))
  {
    var all := events + [e];
    assert all[|events|] == e;
    assert forall k :: 0 <= k < |events| ==> all[k] == events[k] && all[k + 1..] == events[k + 1..] + [e];
    if e.PutsBack? {
      assert OverwrittenAt(all, |events|, Names(id));
    } else if Overwritten(all, id) {
      var k :| 0 <= k < |all| && OverwrittenAt(all, k, Names(id));
      assert all[k + 1..] == events[k + 1..] + [e];
      assert OverwrittenAt(events, k, Names(id));
    } else if Overwritten(events, id) && e != Names(id) {
      var k :| 0 <= k < |events| && OverwrittenAt(events, k, Names(id));
      assert OverwrittenAt(all, k, Names(id));
    }
  }

  lemma WithdrawnGrows(events: seq<Event>, e: Event, id: Id)
    ensures Withdrawn(events + [e], id) <==> (e.PutsBack? && e.id == id) || Withdrawn(events, id)
  {
    var all := events + [e];
    assert all[|events|] == e;
    assert forall k :: 0 <= k < |events| ==> all[k] == events[k];
  }

  /** The events tell whether a replacement overtook the writer, and the kept artifact is its own once it replaced. */
  ghost predicate DrawTracked(world: World, events: seq<Event>, writer: Writer) {
    Owns(writer.phase) ==>
      && (Late(events, writer.created) <==> writer.kept != world.kept)
      && (world.kept == Some(writer.created) <==> Publishing(writer.phase))
      && (writer.kept.Some? ==> writer.kept.value in world.used)
  }

  ghost predicate SavedUnderWay(world: World, writer: Writer) {
    exists u: nat :: u < |world.writers| && SavedBy(writer, world.writers[u])
  }

  predicate SavedBy(writer: Writer, failed: Writer) {
    failed.phase.UndoSlot? && failed.kept == writer.kept && CurrentOf(writer.previous) == Some(failed.created)
  }

  /**
   The slot a writer saved named what was kept then, or the artifact of one that had failed and not
   yet put its slot back.
   */
  ghost predicate SavedTracked(world: World, events: seq<Event>, writer: Writer) {
    MayPutBack(writer.phase) ==>
      && !Withdrawn(events, writer.created)
      && (|| CurrentOf(writer.previous) == writer.kept
          || (writer.previous.Some? && Withdrawn(events, writer.previous.value.current))
          || SavedUnderWay(world, writer))
  }

  /**
   No replacement overtakes the holder of the lock, and the slot names its artifact unless a
   rollback overwrote it.
   */
  ghost predicate HolderTracked(world: World, events: seq<Event>, writer: Writer) {
    && (writer.phase.Recovered? || Announcing(writer.phase) ==> writer.kept == world.kept)
    && (writer.phase.UndoSlot? && writer.kept == world.kept ==> writer.created in world.artifacts)
    && (Announcing(writer.phase) ==>
          (Overwritten(events, writer.created) <==> CurrentOf(world.slot) != Some(writer.created)))
  }

  /** An artifact drawn later is neither what an earlier transaction found kept nor what it saved. */
  predicate DrawnApart(earlier: Writer, writer: Writer) {
    && (Owns(earlier.phase) && Owns(writer.phase) ==> earlier.kept != Some(writer.created))
    && (MayPutBack(earlier.phase) && (writer.phase.Recovered? || Announcing(writer.phase)) ==>
          CurrentOf(earlier.previous) != Some(writer.created))
  }

  ghost predicate KeptTracked(world: World, events: seq<Event>) {
    && (world.kept.Some? ==> world.kept.value in world.artifacts && !Withdrawn(events, world.kept.value))
    && (forall id: Id :: Withdrawn(events, id) ==> id in world.used)
  }

  ghost predicate WritersTracked(world: World, events: seq<Event>) {
    && (forall v :: 0 <= v < |world.writers| ==> WriterTracked(world, events, world.writers[v]))
    && (forall u, v :: 0 <= u < |world.writers| && 0 <= v < |world.writers| ==>
          DrawnApart(world.writers[u], world.writers[v]))
  }

  ghost predicate WriterTracked(world: World, events: seq<Event>, writer: Writer) {
    DrawTracked(world, events, writer) && SavedTracked(world, events, writer) && HolderTracked(world, events, writer)
  }

  /** What the events so far say about the kept artifact and the transactions. */
  ghost predicate Tracked(world: World, events: seq<Event>) {
    Ruled(world) && Recoverable(world) && KeptTracked(world, events) && WritersTracked(world, events)
  }

  // ---------------------------------------------------------------- one step, seen from the events

  /** Putting the slot back is right exactly when it is timely. */
  lemma RestoreExactly(world: World, events: seq<Event>, w: nat)
    requires Tracked(world, events) && Enabled(world, RestoreSlot(w))
    ensures Recoverable(Step(world, RestoreSlot(w))) <==>
              var writer := world.writers[w];
              && !Late(events, writer.created)
              && (writer.previous.Some? ==> !Withdrawn(events, writer.previous.value.current))
  {
    hide Late, Withdrawn, Ruled, Overwritten;
    var writer, after := world.writers[w], Step(world, RestoreSlot(w));
    assert WriterTracked(world, events, writer);
    if Recoverable(after) {
      RestoreNeeds(world, events, w);
    }
    if !Late(events, writer.created) && (writer.previous.Some? ==> !Withdrawn(events, writer.previous.value.current)) {
      RestoreSuffices(world, events, w);
    }
  }

  lemma RestoreNeeds(world: World, events: seq<Event>, w: nat)
    requires Tracked(world, events) && Enabled(world, RestoreSlot(w))
    requires Recoverable(Step(world, RestoreSlot(w)))
    ensures var writer := world.writers[w];
            && writer.kept == world.kept
            && (writer.previous.Some? ==> !Withdrawn(events, writer.previous.value.current))
  {
    hide Late, Withdrawn, Overwritten, IdsUsed, LockKept, BaselineKept;
    var writer, after := world.writers[w], Step(world, RestoreSlot(w));
    assert WriterTracked(world, events, writer);
    if CurrentOf(after.slot) != after.kept {
      var u: nat :| UnderWay(after, u) && CurrentOf(after.slot) == Some(after.writers[u].created);
      assert after.writers[u] == world.writers[u];
      assert WriterTracked(world, events, world.writers[u]) && DrawnApart(writer, world.writers[u]);
      if SavedUnderWay(world, writer) {
        var f: nat :| f < |world.writers| && SavedBy(writer, world.writers[f]);
        assert f == u;
      }
    } else {
      assert forall f: nat :: f < |world.writers| && SavedBy(writer, world.writers[f]) ==>
          WriterTracked(world, events, world.writers[f]);
    }
  }

  lemma RestoreSuffices(world: World, events: seq<Event>, w: nat)
    requires Tracked(world, events) && Enabled(world, RestoreSlot(w))
    requires world.writers[w].kept == world.kept
    requires world.writers[w].previous.Some? ==> !Withdrawn(events, world.writers[w].previous.value.current)
    ensures Recoverable(Step(world, RestoreSlot(w)))
  {
    hide Late, Withdrawn, Overwritten, IdsUsed, LockKept, BaselineKept;
    var writer, after := world.writers[w], Step(world, RestoreSlot(w));
    assert WriterTracked(world, events, writer);
    if CurrentOf(writer.previous) != writer.kept {
      var f: nat :| f < |world.writers| && SavedBy(writer, world.writers[f]);
      assert WriterTracked(world, events, world.writers[f]) && PreviousUsed(world, writer);
      assert writer.previous.value.current in PreviousIds(writer.previous);
      assert f != w;
      assert after.writers[f] == world.writers[f];
      assert UnderWay(after, f);
    }
  }

  /** A replacement leaves the slot right exactly when no rollback overwrote its announcement. */
  lemma ReplaceExactly(world: World, events: seq<Event>, w: nat)
    requires Tracked(world, events) && Enabled(world, Move.Replace(w))
    ensures Recoverable(Step(world, Move.Replace(w))) <==> !Overwritten(events, world.writers[w].created)
  {
    hide Late, Withdrawn, Overwritten, IdsUsed, LockKept, BaselineKept;
    var writer, after := world.writers[w], Step(world, Move.Replace(w));
    assert WriterTracked(world, events, writer) && ArtifactOwned(world, writer);
    forall u: nat | u < |after.writers|
      ensures !UnderWay(after, u)
    {
      assert u != w ==> after.writers[u] == world.writers[u] && DrawnApart(world.writers[u], writer);
    }
  }

  lemma UnderWayStays(world: World, move: Move, u: nat)
    requires Enabled(world, move) && !move.RestoreSlot? && !move.Replace? && UnderWay(world, u)
    ensures UnderWay(Step(world, move), u) && Step(world, move).writers[u].created == world.writers[u].created
    ensures Step(world, move).kept == world.kept
  {
    hide TransactionSlot, PreviousIds;
  }

  /** What is kept, and the artifact of every transaction under way, is never removed. */
  lemma NamedStays(world: World, events: seq<Event>, move: Move, id: Id)
    requires Tracked(world, events) && Enabled(world, move) && !move.RestoreSlot? && !move.Replace?
    requires world.kept == Some(id) || NamesUnderWay(world, Some(id))
    requires id in world.artifacts
    ensures id in Step(world, move).artifacts
  {
    hide Late, Withdrawn, Overwritten, IdsUsed, BaselineKept, TransactionSlot, PreviousIds, LockKept, SavedUnderWay;
    assert WriterTracked(world, events, world.writers[move.w]);
    if world.kept != Some(id) {
      var u: nat :| UnderWay(world, u) && Some(id) == Some(world.writers[u].created);
      assert WriterTracked(world, events, world.writers[u]) && DrawnApart(world.writers[u], world.writers[move.w]);
    }
  }

  /** Every other step leaves the slot right. */
  lemma OthersRecoverable(world: World, events: seq<Event>, move: Move)
    requires Tracked(world, events) && Enabled(world, move) && !move.RestoreSlot? && !move.Replace?
    ensures Recoverable(Step(world, move))
  {
    hide Late, Withdrawn, Overwritten, IdsUsed, BaselineKept, PreviousIds, LockKept, PreviousUsed, DrawnApart;
    var w, writer, after := move.w, world.writers[move.w], Step(world, move);
    assert WriterTracked(world, events, writer) && ArtifactOwned(world, writer);
    if move.Announce? {
      AnnouncerUnderWay(world, events, w);
    } else if !move.Settle? && world.slot.Some? {
      NamedStays(world, events, move, world.slot.value.current);
      if CurrentOf(world.slot) != world.kept {
        var u: nat :| UnderWay(world, u) && CurrentOf(world.slot) == Some(world.writers[u].created);
        UnderWayStays(world, move, u);
      }
    }
  }

  lemma AnnouncerUnderWay(world: World, events: seq<Event>, w: nat)
    requires Tracked(world, events) && Enabled(world, Announce(w))
    ensures UnderWay(Step(world, Announce(w)), w)
  {
    hide Late, Withdrawn, Overwritten, Ruled, SavedUnderWay;
    assert WriterTracked(world, events, world.writers[w]);
  }

  /** One step leaves the slot right exactly when the event it emits is timely. */
  lemma StepRecoverableExactly(world: World, events: seq<Event>, move: Move)
    requires Tracked(world, events) && Enabled(world, move)
    ensures var more := Emitted(world, move);
            Recoverable(Step(world, move)) <==> (more != [] ==> TimelyAt(events + more, |events|))
  {
    hide Tracked, Recoverable, Late, Withdrawn, Overwritten, Step, PreviousIds;
    var more := Emitted(world, move);
    assert (events + more)[..|events|] == events;
    assert more != [] ==> (events + more)[|events|] == more[0];
    if move.RestoreSlot? {
      RestoreExactly(world, events, move.w);
    } else if move.Replace? {
      ReplaceExactly(world, events, move.w);
    } else {
      OthersRecoverable(world, events, move);
    }
  }

  // ---------------------------------------------------------------- the account stays true

  lemma StepKept(world: World, events: seq<Event>, move: Move)
    requires Tracked(world, events) && Enabled(world, move)
    ensures KeptTracked(Step(world, move), events + Emitted(world, move))
  {
    hide Late, Withdrawn, Overwritten, IdsUsed, BaselineKept, PreviousIds, TransactionSlot, LockKept, PreviousUsed,
         DrawnApart, SavedUnderWay;
    assert WriterTracked(world, events, world.writers[move.w]) && ArtifactOwned(world, world.writers[move.w]);
    WithdrawnAfter(world, events, move);
    if world.kept.Some? && !move.RestoreSlot? && !move.Replace? {
      NamedStays(world, events, move, world.kept.value);
    }
  }

  lemma WithdrawnAfter(world: World, events: seq<Event>, move: Move)
    requires Enabled(world, move)
    ensures forall id: Id :: Withdrawn(events + Emitted(world, move), id) <==>
              Withdrawn(events, id) || (move.RestoreSlot? && id == world.writers[move.w].created)
  {
    hide Withdrawn, Enabled;
    var more := Emitted(world, move);
    if more == [] {
      assert events + more == events;
    } else {
      assert more == [more[0]];
      forall id: Id
        ensures Withdrawn(events + more, id) <==> (more[0].PutsBack? && more[0].id == id) || Withdrawn(events, id)
      {
        WithdrawnGrows(events, more[0], id);
      }
    }
  }

  lemma LateAfter(world: World, events: seq<Event>, move: Move, id: Id)
    requires Enabled(world, move)
    ensures Late(events + Emitted(world, move), id) <==>
              move.Replace? || (Late(events, id) && !(move.Recover? && move.id == id))
  {
    hide Late, Enabled;
    var more := Emitted(world, move);
    if more == [] {
      assert events + more == events;
    } else {
      assert more == [more[0]];
      LateGrows(events, more[0], id);
    }
  }

  lemma OverwrittenAfter(world: World, events: seq<Event>, move: Move, id: Id)
    requires Enabled(world, move)
    ensures Overwritten(events + Emitted(world, move), id) <==>
              move.RestoreSlot?
              || (Overwritten(events, id) && !((move.Announce? || move.Settle?) && world.writers[move.w].created == id))
  {
    hide Overwritten, Enabled;
    var more := Emitted(world, move);
    if more == [] {
      assert events + more == events;
    } else {
      assert more == [more[0]];
      OverwrittenGrows(events, more[0], id);
    }
  }

  lemma StepDraw(world: World, events: seq<Event>, move: Move, v: nat)
    requires Tracked(world, events) && Enabled(world, move) && v < |world.writers|
    ensures var after := Step(world, move);
            v < |after.writers| && DrawTracked(after, events + Emitted(world, move), after.writers[v])
  {
    hide Late, Withdrawn, Overwritten, IdsUsed, BaselineKept, PreviousUsed, SavedTracked, HolderTracked, Step, Emitted;
    var w, after := move.w, Step(world, move);
    StepTurns(world, move);
    assert Holding(world.writers[v].phase) <==> world.lock == Some(v);
    assert Holding(world.writers[w].phase) <==> world.lock == Some(w);
    assert WriterTracked(world, events, world.writers[v]) && WriterTracked(world, events, world.writers[w]);
    assert ArtifactOwned(world, world.writers[v]) && ArtifactOwned(world, world.writers[w]);
    assert DrawnApart(world.writers[v], world.writers[w]);
    LateAfter(world, events, move, after.writers[v].created);
    if move.Recover? && v == w {
      StepDraws(world, move);
    }
  }

  lemma StepHolder(world: World, events: seq<Event>, move: Move, v: nat)
    requires Tracked(world, events) && Enabled(world, move) && v < |world.writers|
    ensures var after := Step(world, move);
            v < |after.writers| && HolderTracked(after, events + Emitted(world, move), after.writers[v])
  {
    hide Late, Withdrawn, Overwritten, IdsUsed, BaselineKept, PreviousUsed, SavedTracked, Step, Emitted;
    var w, after := move.w, Step(world, move);
    StepTurns(world, move);
    StepSlots(world, move);
    assert WriterTracked(world, events, world.writers[v]) && WriterTracked(world, events, world.writers[w]);
    assert ArtifactOwned(world, world.writers[v]) && ArtifactOwned(world, world.writers[w]);
    assert DrawnApart(world.writers[w], world.writers[v]) && DrawnApart(world.writers[v], world.writers[w]);
    assert Holding(world.writers[v].phase) <==> world.lock == Some(v);
    assert Holding(world.writers[w].phase) <==> world.lock == Some(w);
    OverwrittenAfter(world, events, move, after.writers[v].created);
    if move.Recover? && v == w {
      StepDraws(world, move);
    }
    if after.writers[v].phase.UndoSlot? && after.writers[v].kept == after.kept && !move.Replace? && !move.RestoreSlot? {
      assert UnderWay(world, v);
      NamedStays(world, events, move, world.writers[v].created);
    }
  }

  lemma StepApart(world: World, events: seq<Event>, move: Move, u: nat, v: nat)
    requires Tracked(world, events) && Enabled(world, move) && u < |world.writers| && v < |world.writers|
    ensures var after := Step(world, move);
            u < |after.writers| && v < |after.writers| && DrawnApart(after.writers[u], after.writers[v])
  {
    hide Late, Withdrawn, Overwritten, IdsUsed, BaselineKept, SavedTracked, HolderTracked, Step;
    StepTurns(world, move);
    assert WriterTracked(world, events, world.writers[u]) && WriterTracked(world, events, world.writers[v]);
    assert DrawnApart(world.writers[u], world.writers[v]);
    assert Holding(world.writers[v].phase) <==> world.lock == Some(v);
    assert Holding(world.writers[move.w].phase) <==> world.lock == Some(move.w);
    CurrentsUsed(world, u);
    if move.Recover? {
      StepDraws(world, move);
    }
  }

  lemma CurrentsUsed(world: World, u: nat)
    requires Ruled(world) && u < |world.writers|
    ensures world.slot.Some? ==> world.slot.value.current in world.used
    ensures Owns(world.writers[u].phase) && world.writers[u].previous.Some? ==>
              world.writers[u].previous.value.current in world.used
    ensures Owns(world.writers[u].phase) ==> world.writers[u].created in world.used
  {
    hide BaselineKept, LockKept;
    assert ArtifactOwned(world, world.writers[u]) && PreviousUsed(world, world.writers[u]);
    assert world.slot.Some? ==> world.slot.value.current in PreviousIds(world.slot);
    assert world.writers[u].previous.Some? ==>
             world.writers[u].previous.value.current in PreviousIds(world.writers[u].previous);
  }

  lemma StepSaves(world: World, events: seq<Event>, move: Move, v: nat)
    requires Tracked(world, events) && Enabled(world, move) && v < |world.writers|
    ensures var after := Step(world, move);
            v < |after.writers| && SavedTracked(after, events + Emitted(world, move), after.writers[v])
  {
    hide Late, Withdrawn, Overwritten, IdsUsed, BaselineKept, LockKept, DrawnApart, PreviousUsed, HolderTracked,
         DrawTracked, Step, Emitted;
    var w, after := move.w, Step(world, move);
    StepTurns(world, move);
    assert WriterTracked(world, events, world.writers[v]);
    assert ArtifactOwned(world, world.writers[v]) && ArtifactOwned(world, world.writers[w]);
    WithdrawnAfter(world, events, move);
    if move.Recover? && v == w {
      StepDraws(world, move);
      SavedAtDraw(world, events, move);
    } else if MayPutBack(after.writers[v].phase) && SavedUnderWay(world, world.writers[v]) {
      var f: nat :| f < |world.writers| && SavedBy(world.writers[v], world.writers[f]);
      if !(move.RestoreSlot? && f == w) {
        assert SavedBy(after.writers[v], after.writers[f]);
      }
    }
  }

  /** When a transaction draws its artifact it holds the lock, so whoever else is under way has failed. */
  lemma SavedAtDraw(world: World, events: seq<Event>, move: Move)
    requires Tracked(world, events) && Enabled(world, move) && move.Recover?
    ensures var after := Step(world, move);
            && move.w < |after.writers|
            && var writer := after.writers[move.w];
               CurrentOf(writer.previous) == writer.kept || SavedUnderWay(after, writer)
  {
    hide Late, Withdrawn, Overwritten, IdsUsed, BaselineKept, TransactionSlot, PreviousIds, DrawnApart, PreviousUsed,
         SavedUnderWay;
    var after := Step(world, move);
    if CurrentOf(world.slot) != world.kept {
      var u: nat :| UnderWay(world, u) && CurrentOf(world.slot) == Some(world.writers[u].created);
      assert Holding(world.writers[u].phase) <==> world.lock == Some(u);
      assert Holding(world.writers[move.w].phase) <==> world.lock == Some(move.w);
      assert SavedBy(after.writers[move.w], after.writers[u]);
      SavedByOne(after, move.w, u);
    }
  }

  lemma SavedByOne(world: World, v: nat, f: nat)
    requires v < |world.writers| && f < |world.writers| && SavedBy(world.writers[v], world.writers[f])
    ensures SavedUnderWay(world, world.writers[v])
  {
  }

  lemma StepTracked(world: World, events: seq<Event>, move: Move)
    requires Tracked(world, events) && Enabled(world, move) && Recoverable(Step(world, move))
    ensures Tracked(Step(world, move), events + Emitted(world, move))
  {
    hide Ruled, Recoverable, KeptTracked, DrawTracked, SavedTracked, HolderTracked, DrawnApart, Step, Emitted;
    StepRuled(world, move);
    OthersStay(world, move);
    StepKept(world, events, move);
    var after, all := Step(world, move), events + Emitted(world, move);
    forall v | 0 <= v < |after.writers|
      ensures WriterTracked(after, all, after.writers[v])
    {
      StepDraw(world, events, move, v);
      StepSaves(world, events, move, v);
      StepHolder(world, events, move, v);
    }
    forall u, v | 0 <= u < |after.writers| && 0 <= v < |after.writers|
      ensures DrawnApart(after.writers[u], after.writers[v])
    {
      StepApart(world, events, move, u, v);
    }
  }

  // ---------------------------------------------------------------- over whole runs

  /**
   Over every interleaving, from any state at rest: every state of the run has a slot that names
   the right artifact exactly when no rollback of the run comes late.
   */
  lemma RecoverableExactly(world: World, moves: seq<Move>)
    requires Rested(world)
    ensures RecoverableThroughout(world, moves) <==> Timely(Events(world, moves))
  {
    hide Events, RecoverableThroughout;
    RestedRuled(world);
    assert [] + Events(world, moves) == Events(world, moves);
    RecoverableFromHere(world, [], moves);
  }

  lemma {:induction false} RecoverableFromHere(world: World, before: seq<Event>, moves: seq<Move>)
    requires Tracked(world, before) && Timely(before)
    ensures RecoverableThroughout(world, moves) <==> Timely(before + Events(world, moves))
    decreases |moves|
  {
    hide Tracked, Timely, TimelyAt, Step, Emitted;
    TrackedRecoverable(world, before);
    if moves == [] {
      assert before + Events(world, moves) == before;
      return;
    }
    var next, more, rest := Step(world, moves[0]), Emitted(world, moves[0]), Events(Step(world, moves[0]), moves[1..]);
    assert before + Events(world, moves) == before + more + rest;
    if !Enabled(world, moves[0]) {
      DisabledStep(world, moves[0]);
      NothingEmitted(world, moves[0]);
      assert before + more == before;
      RecoverableFromHere(world, before, moves[1..]);
      return;
    }
    StepRecoverableExactly(world, before, moves[0]);
    AtMostOneTimely(world, before, moves[0]);
    if Recoverable(next) {
      StepTracked(world, before, moves[0]);
      RecoverableFromHere(next, before + more, moves[1..]);
    } else if Timely(before + more + rest) {
      TimelyPrefix(before + more, rest);
    }
  }

  lemma TrackedRecoverable(world: World, events: seq<Event>)
    requires Tracked(world, events)
    ensures Recoverable(world)
  {
    hide Ruled, Recoverable, KeptTracked, WritersTracked;
  }

  lemma AtMostOneTimely(world: World, before: seq<Event>, move: Move)
    ensures var more := Emitted(world, move);
            Timely(before + more) <==> Timely(before) && (more != [] ==> TimelyAt(before + more, |before|))
  {
    hide Timely, TimelyAt, Enabled;
    var more := Emitted(world, move);
    if more == [] {
      assert before + more == before;
    } else {
      assert more == [more[0]];
      TimelyGrows(before, more[0]);
    }
  }

  /** A slot that names the right artifact names an existing one, so a timely run is orderly. */
  lemma TimelyIsOrderly(world: World, moves: seq<Move>)
    requires Rested(world) && Timely(Events(world, moves))
    ensures Orderly(Events(world, moves))
  {
    hide Timely, Orderly, Events;
    RecoverableExactly(world, moves);
    RecoverableIsSafe(world, moves);
    SafeExactly(world, moves);
  }

  lemma {:induction false} RecoverableIsSafe(world: World, moves: seq<Move>)
    requires RecoverableThroughout(world, moves)
    ensures SafeThroughout(world, moves)
    decreases |moves|
  {
    hide Step, NamesUnderWay;
    if moves != [] {
      RecoverableIsSafe(Step(world, moves[0]), moves[1..]);
    }
  }

  // ---------------------------------------------------------------- what the right artifact holds

  ghost predicate KeptHolds(world: World) {
    world.log != [] && world.log[|world.log| - 1].baseline.Some? ==>
      && world.kept.Some?
      && (world.kept.value in world.artifacts ==>
            Some(world.artifacts[world.kept.value]) == world.log[|world.log| - 1].baseline)
  }

  /** A transaction under way has preserved the present content of the destination. */
  ghost predicate CopyHolds(world: World, u: nat) {
    UnderWay(world, u) ==>
      && world.destination.Some? && world.destination == world.writers[u].baseline
      && (world.writers[u].created in world.artifacts ==>
            Some(world.artifacts[world.writers[u].created]) == world.destination)
  }

  ghost predicate Contents(world: World) {
    KeptHolds(world) && forall u :: 0 <= u < |world.writers| ==> CopyHolds(world, u)
  }

  lemma StepKeptHolds(world: World, events: seq<Event>, move: Move)
    requires Tracked(world, events) && Enabled(world, move) && KeptHolds(world)
    ensures KeptHolds(Step(world, move))
  {
    hide Late, Withdrawn, Overwritten, IdsUsed, LockKept, TransactionSlot, PreviousIds, WritersTracked, Recoverable;
    assert ArtifactOwned(world, world.writers[move.w]) && BaselineKeptBy(world, world.writers[move.w]);
  }

  /** What one step does to the contents: a draw copies the destination, and only a publication changes that. */
  lemma StepCopies(world: World, move: Move)
    requires Enabled(world, move)
    ensures var after := Step(world, move);
            && (!move.Replace? && world.destination.Some? ==> after.destination == world.destination)
            && (forall id :: id in after.artifacts && id in world.artifacts ==>
                  after.artifacts[id] == world.artifacts[id] || (move.Recover? && id == move.id))
            && (forall id :: id in after.artifacts && id !in world.artifacts ==> move.Recover? && id == move.id)
  {
    hide TransactionSlot, PreviousIds;
  }

  lemma DrawCopies(world: World, move: Move)
    requires Enabled(world, move) && move.Recover? && BaselineKept(world)
    ensures var after := Step(world, move);
            && move.w < |after.writers| && after.destination.Some?
            && after.destination == after.writers[move.w].baseline
            && move.id in after.artifacts && Some(after.artifacts[move.id]) == after.destination
  {
    assert BaselineKeptBy(world, world.writers[move.w]);
  }

  lemma StepCopyHolds(world: World, events: seq<Event>, move: Move, u: nat)
    requires Tracked(world, events) && Enabled(world, move) && u < |world.writers| && CopyHolds(world, u)
    ensures CopyHolds(Step(world, move), u)
  {
    hide Late, Withdrawn, Overwritten, IdsUsed, SavedTracked, HolderTracked, Recoverable, Step;
    var writer := world.writers[u];
    assert WriterTracked(world, events, writer) && DrawnApart(writer, world.writers[move.w]);
    assert ArtifactOwned(world, writer) && ArtifactOwned(world, world.writers[move.w]);
    StepTurns(world, move);
    StepCopies(world, move);
    if move.Recover? {
      StepDraws(world, move);
      DrawCopies(world, move);
    }
  }

  lemma StepContents(world: World, events: seq<Event>, move: Move)
    requires Tracked(world, events) && Enabled(world, move) && Contents(world)
    ensures Contents(Step(world, move))
  {
    hide Tracked, KeptHolds, CopyHolds, Step;
    StepKeptHolds(world, events, move);
    OthersStay(world, move);
    forall u | 0 <= u < |world.writers|
      ensures CopyHolds(Step(world, move), u)
    {
      StepCopyHolds(world, events, move, u);
    }
  }

  /** The slot names an artifact that holds what the last replacement replaced, or the present content. */
  ghost predicate NamesRecovery(world: World) {
    && SlotSafe(world)
    && (world.log != [] && world.log[|world.log| - 1].baseline.Some? ==>
          && world.slot.Some?
          && (|| Some(world.artifacts[world.slot.value.current]) == world.log[|world.log| - 1].baseline
              || Some(world.artifacts[world.slot.value.current]) == world.destination))
  }

  lemma RecoverableHolds(world: World)
    requires Recoverable(world) && Contents(world)
    ensures NamesRecovery(world)
    ensures (forall w :: 0 <= w < |world.writers| ==> !Active(world.writers[w].phase)) ==> Preserves(world, world.slot)
  {
    if CurrentOf(world.slot) != world.kept {
      var u: nat :| UnderWay(world, u) && CurrentOf(world.slot) == Some(world.writers[u].created);
      assert CopyHolds(world, u);
    }
  }

  /**
   After a run without late rollbacks the slot names an artifact with the content the last
   replacement replaced or, during a later transaction, with the present content; at rest it is the
   former.
   */
  lemma TimelyRunsRecover(world: World, moves: seq<Move>)
    requires Rested(world) && Timely(Events(world, moves))
    ensures var after := Run(world, moves);
            && NamesRecovery(after)
            && ((forall w :: 0 <= w < |after.writers| ==> !Active(after.writers[w].phase)) ==>
                 Preserves(after, after.slot))
  {
    hide Events, Run, Timely;
    RestedRuled(world);
    assert [] + Events(world, moves) == Events(world, moves);
    TimelyFromHere(world, [], moves);
  }

  lemma {:induction false} TimelyFromHere(world: World, before: seq<Event>, moves: seq<Move>)
    requires Tracked(world, before) && Contents(world) && Timely(before + Events(world, moves))
    ensures var after := Run(world, moves);
            && NamesRecovery(after)
            && ((forall w :: 0 <= w < |after.writers| ==> !Active(after.writers[w].phase)) ==>
                 Preserves(after, after.slot))
    decreases |moves|
  {
    hide Tracked, Contents, Timely, TimelyAt, Step, Emitted, NamesRecovery, Preserves, Active;
    if moves == [] {
      TrackedRecoverable(world, before);
      RecoverableHolds(world);
      return;
    }
    var next, more, rest := Step(world, moves[0]), Emitted(world, moves[0]), Events(Step(world, moves[0]), moves[1..]);
    assert before + Events(world, moves) == before + more + rest;
    if !Enabled(world, moves[0]) {
      DisabledStep(world, moves[0]);
      NothingEmitted(world, moves[0]);
      assert before + more == before;
      TimelyFromHere(world, before, moves[1..]);
    } else {
      TimelyPrefix(before + more, rest);
      AtMostOneTimely(world, before, moves[0]);
      StepRecoverableExactly(world, before, moves[0]);
      StepTracked(world, before, moves[0]);
      StepContents(world, before, moves[0]);
      TimelyFromHere(next, before + more, moves[1..]);
    }
  }

  // ---------------------------------------------------------------- runs with a late rollback

  const OLDEST: Content := [1]
  const FIRST: Content := [2]
  const SECOND: Content := [3]
  const THIRD: Content := [4]

  /** The first writer saves the slot it found; the second one saves the first one's. */
  function FirstWriter(phase: Phase): Writer {
    Writer(phase, Some(FIRST), SECOND, Some(Slot(0, [])), 1, Some(0))
  }

  function SecondWriter(phase: Phase): Writer {
    Writer(phase, Some(FIRST), THIRD, Some(Slot(1, [0])), 2, Some(0))
  }

  function Starting(phase: Phase, candidate: Content): Writer {
    Writer(phase, Some(FIRST), candidate, None, 0, None)
  }

  /** Two writers, one prior revision. */
  function TwoWriters(): World {
    var idle := Writer(Idle, None, [], None, 0, None);
    World(Some(FIRST), Some(Slot(0, [])), map[0 := OLDEST], {0}, None, [idle, idle], [], Some(0))
  }

  /** The first writer fails after announcing its artifact and has released the lock; the second is waiting. */
  function AfterFailure(): World {
    World(Some(FIRST), Some(Slot(1, [0])), map[0 := OLDEST, 1 := FIRST], {0, 1}, None,
          [FirstWriter(UndoSlot), Starting(Waiting, THIRD)], [], Some(0))
  }

  /** The second writer has then replaced the destination. */
  function SecondReplaced(): World {
    World(Some(THIRD), Some(Slot(2, [1, 0])), map[0 := OLDEST, 1 := FIRST, 2 := FIRST], {0, 1, 2}, Some(1),
          [FirstWriter(UndoSlot), SecondWriter(Replaced)], [Swap(Some(FIRST), THIRD)], Some(2))
  }

  /** A listed execution is a run. */
  lemma {:induction false} ExecutionIsRun(worlds: seq<World>, moves: seq<Move>)
    requires |worlds| == |moves| + 1
    requires forall i :: 0 <= i < |moves| ==> Step(worlds[i], moves[i]) == worlds[i + 1]
    ensures Run(worlds[0], moves) == worlds[|moves|]
    decreases |moves|
  {
    hide Step;
    if moves != [] {
      ExecutionIsRun(worlds[1..], moves[1..]);
    }
  }

  lemma ThreeSteps(a: World, b: World, c: World, d: World, first: Move, second: Move, third: Move)
    requires Step(a, first) == b && Step(b, second) == c && Step(c, third) == d
    ensures Run(a, [first, second, third]) == d
  {
    hide Step;
    assert [first, second, third][1..] == [second, third] && [second, third][1..] == [third];
    assert [third][1..] == [];
    assert Run(d, []) == d;
    assert Run(c, [third]) == d;
    assert Run(b, [second, third]) == d;
  }

  lemma {:induction false} RunAppend(world: World, left: seq<Move>, right: seq<Move>)
    ensures Run(world, left + right) == Run(Run(world, left), right)
    decreases |left|
  {
    hide Step;
    if left == [] {
      assert left + right == right;
    } else {
      assert (left + right)[1..] == left[1..] + right;
      RunAppend(Step(world, left[0]), left[1..], right);
    }
  }

  lemma OneOlder(current: Id, older: Id)
    requires current != older
    ensures TransactionSlot(current, Some(Slot(older, []))) == Some(Slot(current, [older]))
  {
    assert Slot(older, []).Ids() == [older];
    assert Collected(current, [older], 0) == [];
    assert Collected(current, [older], 1) == [older];
  }

  lemma TwoOlder(current: Id, first: Id, second: Id)
    requires current != first && current != second && first != second
    ensures TransactionSlot(current, Some(Slot(first, [second]))) == Some(Slot(current, [first, second]))
  {
    var ids := [first, second];
    assert Slot(first, [second]).Ids() == ids;
    assert Collected(current, ids, 0) == [];
    assert Collected(current, ids, 1) == [first];
    assert Collected(current, ids, 2) == [first, second];
  }

  lemma ListedIds(first: Id, second: Id)
    ensures PreviousIds(Some(Slot(first, [second]))) == [first, second]
  {
  }

  function FailingMoves(): seq<Move> {
    [Begin(0, Some(FIRST), SECOND), Begin(1, Some(FIRST), THIRD), Acquire(0), Recheck(0),
     Recover(0, 1), Announce(0), Fail(0)]
  }

  function ReplacingMoves(): seq<Move> {
    [Acquire(1), Recheck(1), Recover(1, 2), Announce(1), Confirm(1), Move.Replace(1)]
  }

  /** The first writer holds the lock, and the second one waits. */
  function FirstLocked(): World {
    TwoWriters().(lock := Some(0), writers := [Starting(Locked, SECOND), Starting(Waiting, THIRD)])
  }

  function FirstAnnounced(): World {
    AfterFailure().(lock := Some(0), writers := [FirstWriter(Announced), Starting(Waiting, THIRD)])
  }

  lemma FirstLocks()
    ensures Run(TwoWriters(), [Begin(0, Some(FIRST), SECOND), Begin(1, Some(FIRST), THIRD), Acquire(0)])
              == FirstLocked()
  {
    hide TransactionSlot, Run;
    var w1 := TwoWriters().(writers := [Starting(Waiting, SECOND), TwoWriters().writers[1]]);
    var w2 := w1.(writers := [Starting(Waiting, SECOND), Starting(Waiting, THIRD)]);
    ThreeSteps(TwoWriters(), w1, w2, FirstLocked(), Begin(0, Some(FIRST), SECOND), Begin(1, Some(FIRST), THIRD),
               Acquire(0));
  }

  lemma FirstAnnounces()
    ensures Run(FirstLocked(), [Recheck(0), Recover(0, 1), Announce(0)]) == FirstAnnounced()
  {
    hide TransactionSlot, Run;
    OneOlder(1, 0);
    var waiting := Starting(Waiting, THIRD);
    var w1 := FirstLocked().(writers := [Starting(Checked, SECOND), waiting]);
    var w2 := w1.(artifacts := map[0 := OLDEST, 1 := FIRST], used := {0, 1},
                  writers := [FirstWriter(Recovered), waiting]);
    ThreeSteps(FirstLocked(), w1, w2, FirstAnnounced(), Recheck(0), Recover(0, 1), Announce(0));
  }

  lemma FirstFails()
    ensures Run(TwoWriters(), FailingMoves()) == AfterFailure()
  {
    hide Run, Step, FirstLocked, FirstAnnounced;
    var lock, announce := [Begin(0, Some(FIRST), SECOND), Begin(1, Some(FIRST), THIRD), Acquire(0)],
                          [Recheck(0), Recover(0, 1), Announce(0)];
    FirstLocks();
    FirstAnnounces();
    FailsAnnounced();
    assert FailingMoves() == lock + (announce + [Fail(0)]);
    RunAppend(TwoWriters(), lock, announce + [Fail(0)]);
    RunAppend(FirstLocked(), announce, [Fail(0)]);
  }

  lemma FailsAnnounced()
    ensures Run(FirstAnnounced(), [Fail(0)]) == AfterFailure()
  {
    assert [Fail(0)][1..] == [];
    assert Step(FirstAnnounced(), Fail(0)) == AfterFailure();
  }

  function SecondDrawn(): World {
    AfterFailure().(lock := Some(1), artifacts := map[0 := OLDEST, 1 := FIRST, 2 := FIRST], used := {0, 1, 2},
                    writers := [FirstWriter(UndoSlot), SecondWriter(Recovered)])
  }

  lemma SecondDraws()
    ensures Run(AfterFailure(), [Acquire(1), Recheck(1), Recover(1, 2)]) == SecondDrawn()
  {
    hide TransactionSlot, Run;
    var undo := FirstWriter(UndoSlot);
    var w1 := AfterFailure().(lock := Some(1), writers := [undo, Starting(Locked, THIRD)]);
    var w2 := w1.(writers := [undo, Starting(Checked, THIRD)]);
    ThreeSteps(AfterFailure(), w1, w2, SecondDrawn(), Acquire(1), Recheck(1), Recover(1, 2));
  }

  lemma SecondSwaps()
    ensures Run(SecondDrawn(), [Announce(1), Confirm(1), Move.Replace(1)]) == SecondReplaced()
  {
    hide TransactionSlot, Run;
    var undo := FirstWriter(UndoSlot);
    TwoOlder(2, 1, 0);
    var w1 := SecondDrawn().(slot := Some(Slot(2, [1, 0])), writers := [undo, SecondWriter(Announced)]);
    var w2 := w1.(writers := [undo, SecondWriter(Confirmed)]);
    ThreeSteps(SecondDrawn(), w1, w2, SecondReplaced(), Announce(1), Confirm(1), Move.Replace(1));
  }

  lemma SecondReplaces()
    ensures Run(AfterFailure(), ReplacingMoves()) == SecondReplaced()
  {
    hide Run, Step, SecondDrawn;
    SecondDraws();
    SecondSwaps();
    var draw, swap := [Acquire(1), Recheck(1), Recover(1, 2)], [Announce(1), Confirm(1), Move.Replace(1)];
    assert ReplacingMoves() == draw + swap;
    RunAppend(AfterFailure(), draw, swap);
  }

  /** Everything up to the second writer's replacement, then `more`. */
  lemma BothThen(more: seq<Move>)
    ensures Run(TwoWriters(), FailingMoves() + ReplacingMoves() + more) == Run(SecondReplaced(), more)
  {
    hide Run;
    FirstFails();
    SecondReplaces();
    RunAppend(TwoWriters(), FailingMoves(), ReplacingMoves());
    RunAppend(TwoWriters(), FailingMoves() + ReplacingMoves(), more);
  }

  lemma TwoWritersRest()
    ensures Rested(TwoWriters())
  {
  }

  /** The second writer has cleaned up: only its own artifact is left, and the slot still lists the others. */
  function SecondCleaned(): World {
    SecondReplaced().(artifacts := map[2 := FIRST])
  }

  /** And has left, after which the first one put back the slot it had saved. */
  function FirstPutBack(): World {
    World(Some(THIRD), Some(Slot(0, [])), map[2 := FIRST], {0, 1, 2}, None,
          [FirstWriter(UndoArtifact), SecondWriter(Idle)], [Swap(Some(FIRST), THIRD)], Some(2))
  }

  lemma SecondCleans()
    ensures Run(SecondReplaced(), [RemoveObsolete(1, 1), RemoveObsolete(1, 0)]) == SecondCleaned()
  {
    hide Run, TransactionSlot, PreviousIds;
    ListedIds(1, 0);
    var w1 := SecondReplaced().(artifacts := map[0 := OLDEST, 2 := FIRST]);
    assert Step(SecondReplaced(), RemoveObsolete(1, 1)) == w1;
    assert Step(w1, RemoveObsolete(1, 0)) == SecondCleaned();
    ExecutionIsRun([SecondReplaced(), w1, SecondCleaned()], [RemoveObsolete(1, 1), RemoveObsolete(1, 0)]);
  }

  lemma SecondSettles(settled: World)
    requires settled
               == SecondCleaned().(slot := Some(Slot(2, [])), writers := [FirstWriter(UndoSlot), SecondWriter(Settled)])
    ensures Step(SecondCleaned(), Settle(1)) == settled
  {
    hide TransactionSlot, PreviousIds;
    ListedIds(1, 0);
  }

  lemma FirstPutsBack()
    ensures Run(SecondCleaned(), [Settle(1), Release(1), RestoreSlot(0)]) == FirstPutBack()
  {
    hide Run, TransactionSlot, PreviousIds;
    var w1 := SecondCleaned().(slot := Some(Slot(2, [])), writers := [FirstWriter(UndoSlot), SecondWriter(Settled)]);
    var w2 := w1.(lock := None, writers := [FirstWriter(UndoSlot), SecondWriter(Idle)]);
    SecondSettles(w1);
    assert Step(w1, Release(1)) == w2;
    assert Step(w2, RestoreSlot(0)) == FirstPutBack();
    ThreeSteps(SecondCleaned(), w1, w2, FirstPutBack(), Settle(1), Release(1), RestoreSlot(0));
  }

  /**
   A run of two cooperating writers after which the slot names an artifact that no longer exists:
   the second one cleans up, then the first one puts back the slot it had saved.
   */
  lemma LateRollbackLosesRecovery()
    ensures Rested(TwoWriters()) && exists moves :: !SlotSafe(Run(TwoWriters(), moves))
  {
    hide Run, Step, Rested, SecondReplaced, SecondCleaned;
    TwoWritersRest();
    SecondCleans();
    FirstPutsBack();
    var clean, leave := [RemoveObsolete(1, 1), RemoveObsolete(1, 0)], [Settle(1), Release(1), RestoreSlot(0)];
    BothThen(clean + leave);
    RunAppend(SecondReplaced(), clean, leave);
    assert !SlotSafe(Run(TwoWriters(), FailingMoves() + ReplacingMoves() + (clean + leave)));
  }

  /** The second writer fails right after its replacement, and then the first one rolls back in full. */
  function FirstRolledBack(): World {
    World(Some(THIRD), Some(Slot(0, [])), map[0 := OLDEST, 2 := FIRST], {0, 1, 2}, None,
          [FirstWriter(Idle), SecondWriter(Idle)], [Swap(Some(FIRST), THIRD)], Some(2))
  }

  lemma FirstRollsBack()
    ensures Run(SecondReplaced(), [Fail(1), RestoreSlot(0), DropArtifact(0)]) == FirstRolledBack()
  {
    hide Run, TransactionSlot, PreviousIds;
    var w1 := SecondReplaced().(lock := None, writers := [FirstWriter(UndoSlot), SecondWriter(Idle)]);
    var w2 := w1.(slot := Some(Slot(0, [])), writers := [FirstWriter(UndoArtifact), SecondWriter(Idle)]);
    assert Step(SecondReplaced(), Fail(1)) == w1;
    assert Step(w1, RestoreSlot(0)) == w2;
    assert Step(w2, DropArtifact(0)) == FirstRolledBack();
    ThreeSteps(SecondReplaced(), w1, w2, FirstRolledBack(), Fail(1), RestoreSlot(0), DropArtifact(0));
  }

  /**
   And a run after which, with nobody active, the slot names an existing artifact that holds an
   older revision than the one last replaced: the second writer fails before it cleans up.
   */
  lemma LateRollbackForgetsRecovery()
    ensures Rested(TwoWriters())
    ensures exists moves ::
              var after := Run(TwoWriters(), moves);
              && SlotSafe(after) && !Preserves(after, after.slot)
              && forall w :: 0 <= w < |after.writers| ==> !Active(after.writers[w].phase)
  {
    hide Run, Step, Rested, SecondReplaced;
    TwoWritersRest();
    FirstRollsBack();
    var more := [Fail(1), RestoreSlot(0), DropArtifact(0)];
    BothThen(more);
    assert SlotSafe(FirstRolledBack()) && !Preserves(FirstRolledBack(), FirstRolledBack().slot);
    assert Run(TwoWriters(), FailingMoves() + ReplacingMoves() + more) == FirstRolledBack();
  }
}
