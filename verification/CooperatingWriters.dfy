/**
 Any number of cooperating writers of one destination, as interleaved atomic steps under the named
 destination lock. Publication is a compare-and-swap over every interleaving. Rollback runs after
 the lock is released, so the recovery slot is only safe under a condition, which is given exactly.
 */
module CooperatingWriters {
  import opened Basics
  import opened Publication

  type Content = Bytes

  /**
   `Waiting` writers have staged and validated; `Locked` to `Created` writers hold the lock, those
   without a baseline only in `Creating` and `Created`; `UndoSlot` and `UndoArtifact` writers have
   failed, released the lock, and still roll back.
   */
  datatype Phase =
    | Idle | Waiting | Locked | Checked | Recovered | Announced | Confirmed | Replaced | Settled
    | Creating | Created | UndoSlot | UndoArtifact

  /** `kept` is the recovery in force when the writer preserved the destination. */
  datatype Writer = Writer(
    phase: Phase, baseline: Option<Content>, candidate: Content, previous: Option<Slot>, created: Id, kept: Option<Id>)

  datatype Swap = Swap(baseline: Option<Content>, candidate: Content)

  /**
   `used` holds every identifier ever drawn: they come from random nonces and never repeat. `kept`
   is the artifact that preserves what the last replacement replaced.
   */
  datatype World = World(
    destination: Option<Content>, slot: Option<Slot>, artifacts: map<Id, Content>, used: set<Id>,
    lock: Option<nat>, writers: seq<Writer>, log: seq<Swap>, kept: Option<Id>)

  datatype Move =
    | Begin(w: nat, baseline: Option<Content>, candidate: Content)
    | Acquire(w: nat)
    | Recheck(w: nat)
    | Recover(w: nat, id: Id)
    | Announce(w: nat)
    | Confirm(w: nat)
    | Replace(w: nat)
    | Create(w: nat)
    | RemoveObsolete(w: nat, id: Id)
    | Settle(w: nat)
    | Release(w: nat)
    | Fail(w: nat)
    | RestoreSlot(w: nat)
    | DropArtifact(w: nat)

  predicate Holding(phase: Phase) {
    || phase.Locked? || phase.Checked? || phase.Recovered? || phase.Announced? || phase.Confirmed?
    || phase.Replaced? || phase.Settled? || phase.Creating? || phase.Created?
  }

  predicate RollingBack(phase: Phase) {
    phase.UndoSlot? || phase.UndoArtifact?
  }

  function Next(world: World, w: nat, phase: Phase): World
    requires w < |world.writers|
  {
    world.(writers := world.writers[w := world.writers[w].(phase := phase)])
  }

  /**
   A failed step: before the rename it leads to rollback if an artifact was made, afterwards it is a
   committed failure.
   */
  function Failed(world: World, w: nat): World
    requires w < |world.writers|
  {
    var phase := world.writers[w].phase;
    if phase.Recovered? || phase.Announced? || phase.Confirmed? then Next(world, w, UndoSlot).(lock := None)
    else if Holding(phase) then Next(world, w, Idle).(lock := None)
    else Next(world, w, Idle)
  }

  predicate Enabled(world: World, move: Move) {
    && move.w < |world.writers|
    && var phase := world.writers[move.w].phase;
       match move
       case Begin(_, _, _) => phase.Idle?
       case Acquire(_) => phase.Waiting? && world.lock.None?
       case Recheck(_) => phase.Locked?
       case Recover(_, id) => phase.Checked? && world.destination.Some? && id !in world.used
       case Announce(w) => phase.Recovered?
              && TransactionSlot(world.writers[w].created, world.writers[w].previous).Some?
       case Confirm(_) => phase.Announced?
       case Replace(_) => phase.Confirmed?
       case Create(_) => phase.Creating?
       case RemoveObsolete(w, id) => phase.Replaced? && id != world.writers[w].created
              && id in PreviousIds(world.writers[w].previous)
       case Settle(w) =>
         phase.Replaced? && forall id :: id in PreviousIds(world.writers[w].previous) && id in world.artifacts ==>
             id == world.writers[w].created
       case Release(_) => phase.Settled? || phase.Created?
       case Fail(_) => phase.Waiting? || Holding(phase)
       case RestoreSlot(_) => phase.UndoSlot?
       case DropArtifact(_) => phase.UndoArtifact?
  }

  /** One atomic step; a disabled move changes nothing. */
  function Step(world: World, move: Move): World {
    if !Enabled(world, move) then world
    else
      var w := move.w;
      var writer := world.writers[w];
      match move
      case Begin(_, baseline, candidate) =>
        world.(writers := world.writers[w := Writer(Waiting, baseline, candidate, None, 0, None)])
      case Acquire(_) => Next(world, w, Locked).(lock := Some(w))
      case Recheck(_) =>
        if writer.baseline.None? then Next(world, w, Creating)
        else if world.destination == writer.baseline then Next(world, w, Checked)
        else Failed(world, w)
      case Recover(_, id) =>
        var drawn := writer.(phase := Recovered, previous := world.slot, created := id, kept := world.kept);
        world.(artifacts := world.artifacts[id := world.destination.value], used := world.used + {id},
               writers := world.writers[w := drawn])
      case Announce(_) => Next(world, w, Announced).(slot := TransactionSlot(writer.created, writer.previous))
      case Confirm(_) => if world.destination == writer.baseline then Next(world, w, Confirmed) else Failed(world, w)
      case Replace(_) =>
        Next(world, w, Replaced).(destination := Some(writer.candidate), kept := Some(writer.created),
                                  log := world.log + [Swap(world.destination, writer.candidate)])
      case Create(_) =>
        if world.destination.Some? then Failed(world, w)
        else Next(world, w, Created).(destination := Some(writer.candidate),
                                      log := world.log + [Swap(None, writer.candidate)])
      case RemoveObsolete(_, id) => world.(artifacts := world.artifacts - {id})
      case Settle(_) => Next(world, w, Settled).(slot := Some(Slot(writer.created, [])))
      case Release(_) => Next(world, w, Idle).(lock := None)
      case Fail(_) => Failed(world, w)
      case RestoreSlot(_) => Next(world, w, UndoArtifact).(slot := writer.previous)
      case DropArtifact(_) => Next(world, w, Idle).(artifacts := world.artifacts - {writer.created})
  }

  function Run(world: World, moves: seq<Move>): World
    decreases |moves|
  {
    if moves == [] then world else Run(Step(world, moves[0]), moves[1..])
  }

  // ---------------------------------------------------------------- compare and swap

  /** The lock is held by exactly the writers in a locked phase, so by at most one. */
  ghost predicate LockKept(world: World) {
    forall w :: 0 <= w < |world.writers| ==> (Holding(world.writers[w].phase) <==> world.lock == Some(w))
  }

  /** A writer past its recheck still finds the content it checked. */
  ghost predicate BaselineKept(world: World) {
    forall w :: 0 <= w < |world.writers| ==> BaselineKeptBy(world, world.writers[w])
  }

  predicate BaselineKeptBy(world: World, writer: Writer) {
    match writer.phase
    case Checked => world.destination == writer.baseline
    case Recovered => world.destination == writer.baseline
    case Announced => world.destination == writer.baseline
    case Confirmed => world.destination == writer.baseline
    case Creating => writer.baseline.None?
    case _ => true
  }

  /** The successful swaps chain from the first content to the present one. */
  predicate Chained(initial: Option<Content>, log: seq<Swap>, destination: Option<Content>) {
    && (if log == [] then destination == initial
        else log[0].baseline == initial && Some(log[|log| - 1].candidate) == destination)
    && forall i :: 0 <= i < |log| - 1 ==> Some(log[i].candidate) == log[i + 1].baseline
  }

  ghost predicate Swapping(initial: Option<Content>, world: World) {
    LockKept(world) && BaselineKept(world) && Chained(initial, world.log, world.destination)
  }

  lemma StepLocks(world: World, move: Move)
    requires LockKept(world) && BaselineKept(world)
    ensures LockKept(Step(world, move)) && BaselineKept(Step(world, move))
  {
    hide TransactionSlot, PreviousIds;
    if Enabled(world, move) {
      var after := Step(world, move);
      assert BaselineKeptBy(world, world.writers[move.w]);
      forall v | 0 <= v < |after.writers|
        ensures Holding(after.writers[v].phase) <==> after.lock == Some(v)
        ensures BaselineKeptBy(after, after.writers[v])
      {
        assert BaselineKeptBy(world, world.writers[v]);
      }
    }
  }

  /** Both looks at the destination compare it with the baseline, in any world, whoever has written it. */
  lemma LooksCompare(world: World, move: Move)
    requires Enabled(world, move)
    ensures var writer, after := world.writers[move.w], Step(world, move).writers[move.w].phase;
            && (move.Recheck? && writer.baseline.Some? ==> (after.Checked? <==> world.destination == writer.baseline))
            && (move.Confirm? ==> (after.Confirmed? <==> world.destination == writer.baseline))
            && (move.Create? ==> (after.Created? <==> world.destination.None?))
  {
    hide TransactionSlot, PreviousIds;
  }

  lemma StepSwaps(initial: Option<Content>, world: World, move: Move)
    requires Swapping(initial, world)
    ensures Swapping(initial, Step(world, move))
    ensures var after := Step(world, move);
            if Enabled(world, move) && (move.Replace? || (move.Create? && world.destination.None?))
            then after.log == world.log + [Swap(world.writers[move.w].baseline, world.writers[move.w].candidate)]
            else after.log == world.log && after.destination == world.destination
  {
    hide TransactionSlot, PreviousIds, LockKept;
    StepLocks(world, move);
    if Enabled(world, move) {
      assert BaselineKeptBy(world, world.writers[move.w]);
    }
  }

  /**
   Over every interleaving, each successful publication replaced exactly the content its baseline
   describes, so the publications form a chain and none is lost.
   */
  lemma {:induction false} RunSwaps(initial: Option<Content>, world: World, moves: seq<Move>)
    requires Swapping(initial, world)
    ensures Swapping(initial, Run(world, moves))
    ensures world.log <= Run(world, moves).log
    decreases |moves|
  {
    hide Swapping, Step;
    if moves != [] {
      StepSwaps(initial, world, moves[0]);
      RunSwaps(initial, Step(world, moves[0]), moves[1..]);
    }
  }

  // ---------------------------------------------------------------- the recovery slot

  predicate SlotSafe(world: World) {
    world.slot.Some? ==> world.slot.value.current in world.artifacts
  }

  predicate HasArtifact(phase: Phase) {
    phase.Recovered? || phase.Announced? || phase.Confirmed? || phase.Replaced? || phase.Settled?
  }

  predicate Owns(phase: Phase) {
    HasArtifact(phase) || RollingBack(phase)
  }

  /** A transaction's artifact exists and holds its baseline while it has the lock; no two transactions share one. */
  ghost predicate ArtifactsOwned(world: World) {
    && (forall w :: 0 <= w < |world.writers| ==> ArtifactOwned(world, world.writers[w]))
    && (forall v, w :: 0 <= v < w < |world.writers| && Owns(world.writers[v].phase) && Owns(world.writers[w].phase) ==>
          world.writers[v].created != world.writers[w].created)
  }

  predicate ArtifactOwned(world: World, writer: Writer) {
    && (HasArtifact(writer.phase) ==>
          writer.created in world.artifacts && Some(world.artifacts[writer.created]) == writer.baseline)
    && (Owns(writer.phase) ==> writer.created in world.used)
  }

  /** A step is one writer's. */
  lemma OthersStay(world: World, move: Move)
    requires Enabled(world, move)
    ensures var after := Step(world, move);
            && |after.writers| == |world.writers|
            && forall v :: 0 <= v < |world.writers| && v != move.w ==> after.writers[v] == world.writers[v]
  {
    hide TransactionSlot, PreviousIds;
  }

  lemma ActorOwns(world: World, move: Move)
    requires BaselineKept(world) && ArtifactsOwned(world) && Enabled(world, move)
    ensures var after := Step(world, move); move.w < |after.writers| && ArtifactOwned(after, after.writers[move.w])
  {
    hide TransactionSlot, PreviousIds;
    assert BaselineKeptBy(world, world.writers[move.w]) && ArtifactOwned(world, world.writers[move.w]);
  }

  /** A step leaves the artifacts of the others alone: removals are under the lock, or of one's own. */
  lemma OtherOwns(world: World, move: Move, v: nat)
    requires LockKept(world) && ArtifactsOwned(world) && Enabled(world, move) && v < |world.writers| && v != move.w
    ensures ArtifactOwned(Step(world, move), world.writers[v])
  {
    hide TransactionSlot, PreviousIds;
    assert ArtifactOwned(world, world.writers[v]) && ArtifactOwned(world, world.writers[move.w]);
    assert Holding(world.writers[v].phase) <==> world.lock == Some(v);
    assert Holding(world.writers[move.w].phase) <==> world.lock == Some(move.w);
  }

  lemma StepOwnsEach(world: World, move: Move, v: nat)
    requires LockKept(world) && BaselineKept(world) && ArtifactsOwned(world) && Enabled(world, move)
    requires v < |world.writers|
    ensures var after := Step(world, move); v < |after.writers| && ArtifactOwned(after, after.writers[v])
  {
    hide Step, LockKept, BaselineKept, ArtifactsOwned, ArtifactOwned;
    OthersStay(world, move);
    if v == move.w {
      ActorOwns(world, move);
    } else {
      OtherOwns(world, move, v);
    }
  }

  lemma OwnerByDrawing(world: World, move: Move)
    requires Enabled(world, move)
    ensures var writer, after := world.writers[move.w], Step(world, move);
            && move.w < |after.writers|
            && (Owns(after.writers[move.w].phase) ==>
                  || (move.Recover? && after.writers[move.w].created !in world.used)
                  || (Owns(writer.phase) && after.writers[move.w].created == writer.created))
  {
    hide TransactionSlot, PreviousIds;
  }

  /** Only drawing an identifier makes a writer an owner, and what is drawn is new. */
  lemma OwnersOnlyByDrawing(world: World, move: Move, v: nat)
    requires Enabled(world, move) && v < |world.writers|
    ensures var after := Step(world, move);
            && v < |after.writers|
            && (Owns(after.writers[v].phase) ==>
                  || (move.Recover? && v == move.w && after.writers[v].created !in world.used)
                  || (Owns(world.writers[v].phase) && after.writers[v].created == world.writers[v].created))
  {
    hide Step, Owns;
    OthersStay(world, move);
    if v == move.w {
      OwnerByDrawing(world, move);
    }
  }

  lemma StepOwns(world: World, move: Move)
    requires LockKept(world) && BaselineKept(world) && ArtifactsOwned(world)
    ensures ArtifactsOwned(Step(world, move))
  {
    hide TransactionSlot, PreviousIds, Step, LockKept, BaselineKept, Owns;
    WritersStay(world, move);
    if Enabled(world, move) {
      var after := Step(world, move);
      forall v | 0 <= v < |after.writers|
        ensures ArtifactOwned(after, after.writers[v])
      {
        StepOwnsEach(world, move, v);
      }
      forall v, w | 0 <= v < w < |after.writers| && Owns(after.writers[v].phase) && Owns(after.writers[w].phase)
        ensures after.writers[v].created != after.writers[w].created
      {
        OwnersOnlyByDrawing(world, move, v);
        OwnersOnlyByDrawing(world, move, w);
        assert ArtifactOwned(world, world.writers[v]) && ArtifactOwned(world, world.writers[w]);
      }
    } else {
      DisabledStep(world, move);
    }
  }

  /** The exact condition under which one step keeps the slot naming an existing artifact. */
  predicate KeepsSlotSafe(world: World, move: Move)
    requires move.w < |world.writers|
  {
    var writer := world.writers[move.w];
    match move
    case RestoreSlot(_) => writer.previous.Some? ==> writer.previous.value.current in world.artifacts
    case DropArtifact(_) => world.slot.Some? ==> world.slot.value.current != writer.created
    case RemoveObsolete(_, id) => world.slot.Some? ==> world.slot.value.current != id
    case _ => true
  }

  /** Every other step keeps the slot safe unconditionally; rollback and cleanup do so exactly under the condition. */
  lemma SlotStepExactly(world: World, move: Move)
    requires ArtifactsOwned(world) && SlotSafe(world) && Enabled(world, move)
    ensures SlotSafe(Step(world, move)) <==> KeepsSlotSafe(world, move)
  {
    hide PreviousIds;
    assert ArtifactOwned(world, world.writers[move.w]);
  }

  // ---------------------------------------------------------------- when nobody locks during a rollback

  predicate Active(phase: Phase) {
    Holding(phase) || RollingBack(phase)
  }

  /** No writer takes the lock while another still has to roll back. */
  predicate Exclusive(world: World, moves: seq<Move>)
    decreases |moves|
  {
    moves != [] ==>
      && (moves[0].Acquire? ==> forall w :: 0 <= w < |world.writers| ==> !RollingBack(world.writers[w].phase))
      && Exclusive(Step(world, moves[0]), moves[1..])
  }

  /** The content the last swap replaced is the one the slot names. */
  predicate Preserves(world: World, slot: Option<Slot>) {
    && (slot.Some? ==> slot.value.current in world.artifacts)
    && (world.log != [] && world.log[|world.log| - 1].baseline.Some? ==>
          slot.Some? && Some(world.artifacts[slot.value.current]) == world.log[|world.log| - 1].baseline)
  }

  ghost predicate IdsUsed(world: World, slot: Option<Slot>) {
    forall id :: id in PreviousIds(slot) ==> id in world.used
  }

  /** What the one active writer's phase says about the slot. */
  ghost predicate PhaseFacts(world: World, writer: Writer) {
    match writer.phase
    case Recovered => world.slot == writer.previous && Preserves(world, world.slot) && OwnApart(world, writer)
    case Announced =>
      Preserves(world, writer.previous) && OwnApart(world, writer)
      && world.slot.Some? && world.slot == TransactionSlot(writer.created, writer.previous)
    case Confirmed =>
      Preserves(world, writer.previous) && OwnApart(world, writer)
      && world.slot.Some? && world.slot == TransactionSlot(writer.created, writer.previous)
    case Replaced => world.slot.Some? && world.slot.value.current == writer.created && Preserves(world, world.slot)
    case Settled => Preserves(world, world.slot)
    case UndoSlot => SlotSafe(world) && Preserves(world, writer.previous) && OwnApart(world, writer)
    case UndoArtifact => world.slot == writer.previous && Preserves(world, world.slot) && OwnApart(world, writer)
    case _ => Preserves(world, world.slot)
  }

  ghost predicate OwnApart(world: World, writer: Writer) {
    writer.created !in PreviousIds(writer.previous) && IdsUsed(world, writer.previous)
  }

  /** At most one writer is active, and the slot is what its phase says. */
  ghost predicate Guarded(world: World, active: Option<nat>) {
    && (forall w :: 0 <= w < |world.writers| ==> (Active(world.writers[w].phase) <==> active == Some(w)))
    && IdsUsed(world, world.slot)
    && match active {
         case None => Preserves(world, world.slot)
         case Some(w) => w < |world.writers| && PhaseFacts(world, world.writers[w])
       }
  }

  function ActiveAfter(world: World, active: Option<nat>, move: Move): Option<nat> {
    var after := Step(world, move);
    if move.w >= |world.writers| then active
    else if Active(after.writers[move.w].phase) then Some(move.w)
    else if active == Some(move.w) then None
    else active
  }

  ghost predicate OneActive(world: World, active: Option<nat>) {
    forall w :: 0 <= w < |world.writers| ==> (Active(world.writers[w].phase) <==> active == Some(w))
  }

  /** A writer becomes active only by taking the lock, and then nobody else is. */
  lemma ActiveAlone(world: World, active: Option<nat>, move: Move)
    requires LockKept(world) && OneActive(world, active) && Enabled(world, move)
    requires move.Acquire? ==> forall w :: 0 <= w < |world.writers| ==> !RollingBack(world.writers[w].phase)
    requires move.w < |Step(world, move).writers| && Active(Step(world, move).writers[move.w].phase)
    ensures forall v :: 0 <= v < |world.writers| && v != move.w ==> !Active(world.writers[v].phase)
  {
    hide TransactionSlot, PreviousIds;
    if !move.Acquire? {
      assert Active(world.writers[move.w].phase);
    }
  }

  /** The lock and the exclusion together leave room for one active writer. */
  lemma StepOneActive(world: World, active: Option<nat>, move: Move)
    requires LockKept(world) && OneActive(world, active)
    requires move.Acquire? ==> forall w :: 0 <= w < |world.writers| ==> !RollingBack(world.writers[w].phase)
    ensures OneActive(Step(world, move), ActiveAfter(world, active, move))
  {
    hide Step, Active, LockKept;
    if Enabled(world, move) {
      OthersStay(world, move);
      if Active(Step(world, move).writers[move.w].phase) {
        ActiveAlone(world, active, move);
      }
    } else {
      DisabledStep(world, move);
    }
  }

  /** The facts about the slot move on with the acting writer. */
  lemma StepFacts(world: World, w: nat, move: Move)
    requires LockKept(world) && BaselineKept(world) && ArtifactsOwned(world)
    requires move.w == w < |world.writers| && Enabled(world, move)
    requires IdsUsed(world, world.slot)
    requires if Active(world.writers[w].phase) then PhaseFacts(world, world.writers[w])
             else Preserves(world, world.slot)
    ensures var after := Step(world, move);
            && IdsUsed(after, after.slot)
            && if Active(after.writers[w].phase) then PhaseFacts(after, after.writers[w])
               else Preserves(after, after.slot)
  {
    assert ArtifactOwned(world, world.writers[w]) && BaselineKeptBy(world, world.writers[w]);
  }

  lemma StepGuarded(world: World, active: Option<nat>, move: Move)
    requires LockKept(world) && BaselineKept(world) && ArtifactsOwned(world) && Guarded(world, active)
    requires move.Acquire? ==> forall w :: 0 <= w < |world.writers| ==> !RollingBack(world.writers[w].phase)
    ensures Guarded(Step(world, move), ActiveAfter(world, active, move))
  {
    hide PhaseFacts, Preserves, IdsUsed, LockKept, BaselineKept, ArtifactsOwned, Step;
    StepOneActive(world, active, move);
    WritersStay(world, move);
    if Enabled(world, move) {
      if active.None? || active == Some(move.w) {
        StepFacts(world, move.w, move);
      } else {
        PassiveStep(world, active.value, move);
        assert ActiveAfter(world, active, move) == active;
      }
    } else {
      DisabledStep(world, move);
    }
  }

  lemma DisabledStep(world: World, move: Move)
    requires !Enabled(world, move)
    ensures Step(world, move) == world
  {
  }

  /** While one writer is active, the others can only prepare: nothing shared changes. */
  lemma PassiveStep(world: World, a: nat, move: Move)
    requires OneActive(world, Some(a)) && a < |world.writers| && a != move.w && Enabled(world, move) && LockKept(world)
    requires move.Acquire? ==> forall w :: 0 <= w < |world.writers| ==> !RollingBack(world.writers[w].phase)
    requires PhaseFacts(world, world.writers[a])
    ensures var after := Step(world, move);
            && !Active(after.writers[move.w].phase)
            && after.slot == world.slot && after.used == world.used && after.writers[a] == world.writers[a]
            && PhaseFacts(after, after.writers[a]) && (IdsUsed(world, world.slot) ==> IdsUsed(after, after.slot))
  {
    hide TransactionSlot;
    assert Holding(world.writers[a].phase) ==> world.lock == Some(a);
    assert Active(world.writers[move.w].phase) <==> Some(a) == Some(move.w);
  }

  /**
   As long as nobody takes the lock during another writer's rollback, the slot always names an
   existing artifact, and whenever no writer is active that artifact holds the content the last
   publication replaced.
   */
  lemma {:induction false} RunExclusive(initial: Option<Content>, world: World, active: Option<nat>, moves: seq<Move>)
    requires Swapping(initial, world) && ArtifactsOwned(world) && Guarded(world, active) && Exclusive(world, moves)
    ensures SlotSafe(Run(world, moves)) && |Run(world, moves).writers| == |world.writers|
    ensures (forall w :: 0 <= w < |world.writers| ==> !Active(Run(world, moves).writers[w].phase)) ==>
              Preserves(Run(world, moves), Run(world, moves).slot)
    decreases |moves|
  {
    hide Guarded, Swapping, ArtifactsOwned, Step, Preserves, SlotSafe;
    if moves == [] {
      GuardedSafe(world, active);
    } else {
      SwappingParts(initial, world);
      StepSwaps(initial, world, moves[0]);
      StepOwns(world, moves[0]);
      StepGuarded(world, active, moves[0]);
      WritersStay(world, moves[0]);
      RunExclusive(initial, Step(world, moves[0]), ActiveAfter(world, active, moves[0]), moves[1..]);
    }
  }

  lemma SwappingParts(initial: Option<Content>, world: World)
    requires Swapping(initial, world)
    ensures LockKept(world) && BaselineKept(world)
  {
    hide LockKept, BaselineKept, Chained;
  }

  lemma WritersStay(world: World, move: Move)
    ensures |Step(world, move).writers| == |world.writers|
  {
    hide TransactionSlot, PreviousIds;
  }

  lemma GuardedSafe(world: World, active: Option<nat>)
    requires Guarded(world, active) && ArtifactsOwned(world)
    ensures SlotSafe(world)
    ensures (forall w :: 0 <= w < |world.writers| ==> !Active(world.writers[w].phase)) ==> Preserves(world, world.slot)
  {
    hide IdsUsed, OwnApart;
    if active.Some? {
      assert ArtifactOwned(world, world.writers[active.value]);
    }
  }
}
