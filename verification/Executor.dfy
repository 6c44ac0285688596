/**
 The command executor of the desktop: one worker, an admission guard, a per-task guard, and a
 shutdown that cancels what has not started. Each step below is one critical section or one action
 between critical sections; threads interleave them freely.
 */
module Executor {
  import opened Basics

  /** `settled` says the task has released the executor's ownership. */
  datatype Task = Task(started: bool, canceled: bool, settled: bool)

  /** The sole worker: between tasks, holding a dequeued task, running it, or about to release it. */
  datatype Worker =
    | Resting | Dequeued(task: nat) | Turned(task: nat) | Running(task: nat) | Returned(task: nat) | Cleaning(task: nat)

  /** The thread in `shutdown`: walking the tasks it found, or cleaning up after one it canceled. */
  datatype Closer = NotClosing | Walking(rest: seq<nat>) | Canceling(task: nat, rest: seq<nat>) | Closed

  /**
   `dropped` and `clearing` are tasks the pool refused: their submitter has let go of them and
   still has to cancel them, or has canceled them and still has to settle.
   */
  datatype State = State(
    shutdown: bool, cleaned: bool, active: Option<nat>, owned: seq<nat>, queue: seq<nat>, tasks: map<nat, Task>,
    worker: Worker, closer: Closer, terminal: bool, taken: nat, fired: nat, dropped: set<nat>, clearing: set<nat>)

  datatype Move =
    | Submit(task: nat)
    | SubmitFails(task: nat)
    | SubmitterCancels(task: nat)
    | SubmitterSettles(task: nat)
    | Dequeue
    | TryStart
    | WorkerCancels
    | CommandReturns
    | WorkerSettles
    | BeginShutdown(terminal: bool)
    | CloserCancels
    | CloserSettles
    | CloserCompletes
    | FireTerminal

  function Mark(s: State, task: nat, state: Task): State {
    s.(tasks := s.tasks[task := state])
  }

  function Without(items: seq<nat>, item: nat): seq<nat> {
    if items == [] then []
    else if items[0] == item then Without(items[1..], item)
    else [items[0]] + Without(items[1..], item)
  }

  /** Consume the terminal callback once cleanup is complete and nothing is active. */
  function TakeTerminal(s: State): State {
    if s.cleaned && s.active.None? && s.terminal then s.(terminal := false, taken := s.taken + 1) else s
  }

  /** Release a task under the guard, and take the terminal callback if that made it ready. */
  function Settle(s: State, task: nat): State
    requires task in s.tasks
  {
    var released := Mark(s, task, s.tasks[task].(settled := true));
    var active := if s.active == Some(task) then None else s.active;
    TakeTerminal(released.(active := active, owned := Without(s.owned, task)))
  }

  predicate Enabled(s: State, move: Move) {
    match move
    case Submit(task) => task !in s.tasks
    case SubmitFails(task) => task !in s.tasks && !s.shutdown
    case SubmitterCancels(task) => task in s.dropped && task in s.tasks
    case SubmitterSettles(task) => task in s.clearing && task in s.tasks
    case Dequeue => s.worker.Resting? && s.queue != []
    case TryStart => s.worker.Dequeued? && s.worker.task in s.tasks
    case WorkerCancels => s.worker.Turned? && s.worker.task in s.tasks
    case CommandReturns => s.worker.Running?
    case WorkerSettles => (s.worker.Returned? || s.worker.Cleaning?) && s.worker.task in s.tasks
    case BeginShutdown(_) => !s.shutdown && s.closer.NotClosing?
    case CloserCancels => s.closer.Walking? && s.closer.rest != [] && s.closer.rest[0] in s.tasks
    case CloserSettles => s.closer.Canceling? && s.closer.task in s.tasks
    case CloserCompletes => s.closer.Walking? && s.closer.rest == []
    case FireTerminal => s.taken > 0
  }

  function Step(s: State, move: Move): State {
    if !Enabled(s, move) then s
    else
      match move
      case Submit(task) =>
        if s.shutdown then s
        else Mark(s, task, Task(false, false, false)).(owned := s.owned + [task], queue := s.queue + [task])
      case SubmitFails(task) => Mark(s, task, Task(false, false, false)).(dropped := s.dropped + {task})
      case SubmitterCancels(task) =>
        if s.tasks[task].started || s.tasks[task].canceled then s.(dropped := s.dropped - {task})
        else
          var canceled := Mark(s, task, s.tasks[task].(canceled := true));
          canceled.(dropped := s.dropped - {task}, clearing := s.clearing + {task})
      case SubmitterSettles(task) => Settle(s, task).(clearing := s.clearing - {task})
      case Dequeue => s.(worker := Dequeued(s.queue[0]), queue := s.queue[1..])
      case TryStart =>
        var task := s.worker.task;
        if s.shutdown || s.tasks[task].canceled then s.(worker := Turned(task))
        else Mark(s, task, s.tasks[task].(started := true)).(active := Some(task), worker := Running(task))
      case WorkerCancels =>
        var task := s.worker.task;
        if s.tasks[task].started || s.tasks[task].canceled then s.(worker := Resting)
        else Mark(s, task, s.tasks[task].(canceled := true)).(worker := Cleaning(task))
      case CommandReturns => s.(worker := Returned(s.worker.task))
      case WorkerSettles => Settle(s, s.worker.task).(worker := Resting)
      case BeginShutdown(terminal) =>
        s.(shutdown := true, terminal := terminal, closer := Walking(s.owned), queue := [])
      case CloserCancels =>
        var task, rest := s.closer.rest[0], s.closer.rest[1..];
        if s.tasks[task].started || s.tasks[task].canceled then s.(closer := Walking(rest))
        else Mark(s, task, s.tasks[task].(canceled := true)).(closer := Canceling(task, rest))
      case CloserSettles => Settle(s, s.closer.task).(closer := Walking(s.closer.rest))
      case CloserCompletes => TakeTerminal(s.(cleaned := true, closer := Closed))
      case FireTerminal => s.(taken := s.taken - 1, fired := s.fired + 1)
  }

  function Run(s: State, moves: seq<Move>): State
    decreases |moves|
  {
    if moves == [] then s else Run(Step(s, moves[0]), moves[1..])
  }

  function Fresh(): State {
    State(false, false, None, [], [], map[], Resting, NotClosing, false, 0, 0, {}, {})
  }

  // ---------------------------------------------------------------- invariants

  /** A task in the hands of the worker. */
  predicate WorkerAgrees(s: State) {
    match s.worker
    case Running(task) => s.active == Some(task) && task in s.tasks && s.tasks[task].started && !s.tasks[task].settled
    case Returned(task) => s.active == Some(task) && task in s.tasks && s.tasks[task].started && !s.tasks[task].settled
    case Dequeued(task) => s.active.None? && task in s.tasks && !s.tasks[task].started
    case Turned(task) => s.active.None? && task in s.tasks && !s.tasks[task].started
           && (s.shutdown || s.tasks[task].canceled)
    case Cleaning(task) => s.active.None? && task in s.tasks && s.tasks[task].canceled
    case Resting => s.active.None?
  }

  /** A task is never both started and canceled, and the executor lets go only of one that was either. */
  predicate TaskAgrees(s: State, t: nat)
    requires t in s.tasks
  {
    && !(s.tasks[t].started && s.tasks[t].canceled)
    && (s.tasks[t].settled ==> s.tasks[t].started || s.tasks[t].canceled)
    && (t !in s.owned ==> s.tasks[t].started || s.tasks[t].canceled || t in s.dropped)
  }

  ghost predicate TasksAgree(s: State) {
    && (forall t :: t in s.tasks ==> TaskAgrees(s, t))
    && (forall t :: t in s.owned ==> t in s.tasks)
    && (forall t :: t in s.dropped ==> t in s.tasks)
    && (forall t :: t in s.clearing ==> t in s.tasks && s.tasks[t].canceled)
  }

  predicate NoRepeats(queue: seq<nat>) {
    forall i, j :: 0 <= i < j < |queue| ==> queue[i] != queue[j]
  }

  lemma NoRepeatsEnds(queue: seq<nat>, next: nat)
    requires NoRepeats(queue)
    ensures next !in queue ==> NoRepeats(queue + [next])
    ensures queue != [] ==> NoRepeats(queue[1..]) && queue[0] !in queue[1..]
    ensures NoRepeats([])
  {
  }

  /** Queued tasks have not started, wait once, are not also in the worker's hands, and wait no more after shutdown. */
  ghost predicate QueueAgrees(s: State) {
    && (forall t :: t in s.queue ==> t in s.tasks && !s.tasks[t].started)
    && NoRepeats(s.queue) && (s.shutdown ==> s.queue == [])
    && (s.worker.Dequeued? || s.worker.Turned? ==> s.worker.task !in s.queue)
  }

  /** What remains for the closing thread and for submitters covers every task neither started nor canceled. */
  ghost predicate CloserAgrees(s: State) {
    match s.closer
    case NotClosing => !s.shutdown && !s.cleaned && !s.terminal && s.taken == 0 && s.fired == 0
    case Walking(rest) =>
      && s.shutdown && !s.cleaned && s.taken == 0 && s.fired == 0
      && (forall t :: t in rest ==> t in s.tasks)
      && (forall t :: t in s.tasks && !s.tasks[t].started && !s.tasks[t].canceled ==> t in rest || t in s.dropped)
    case Canceling(task, rest) =>
      && s.shutdown && !s.cleaned && s.taken == 0 && s.fired == 0
      && task in s.tasks && s.tasks[task].canceled
      && (forall t :: t in rest ==> t in s.tasks)
      && (forall t :: t in s.tasks && !s.tasks[t].started && !s.tasks[t].canceled ==> t in rest || t in s.dropped)
    case Closed =>
      && s.shutdown && s.cleaned
      && (forall t :: t in s.tasks ==> s.tasks[t].started || s.tasks[t].canceled || t in s.dropped)
      && s.taken + s.fired + (if s.terminal then 1 else 0) <= 1
      && (s.active.None? ==> !s.terminal)
      && (s.active.Some? ==> s.taken == 0 && s.fired == 0)
  }

  ghost predicate Inv(s: State) {
    WorkerAgrees(s) && TasksAgree(s) && QueueAgrees(s) && CloserAgrees(s)
  }

  lemma {:induction false} WithoutMembers(items: seq<nat>, item: nat)
    ensures forall t :: t in Without(items, item) <==> t in items && t != item
  {
    if items != [] {
      WithoutMembers(items[1..], item);
      assert items == [items[0]] + items[1..];
    }
  }

  lemma SettleFacts(s: State, task: nat)
    requires task in s.tasks
    ensures var after := Settle(s, task);
            && after.tasks == s.tasks[task := s.tasks[task].(settled := true)]
            && after.active == (if s.active == Some(task) then None else s.active)
            && (forall t :: t in after.owned <==> t in s.owned && t != task)
            && after.queue == s.queue && after.worker == s.worker && after.closer == s.closer
            && after.dropped == s.dropped && after.clearing == s.clearing
            && after.shutdown == s.shutdown && after.cleaned == s.cleaned && after.fired == s.fired
            && (if s.cleaned && after.active.None? && s.terminal
                then !after.terminal && after.taken == s.taken + 1
                else after.terminal == s.terminal && after.taken == s.taken)
  {
    WithoutMembers(s.owned, task);
  }

  /** The moves that release a task under the guard. */
  predicate Settles(move: Move) {
    move.WorkerSettles? || move.CloserSettles? || move.SubmitterSettles?
  }

  lemma StepWorkerSettling(s: State, move: Move)
    requires Inv(s) && Settles(move)
    ensures WorkerAgrees(Step(s, move))
  {
    hide Settle;
    assert forall t :: t in s.tasks ==> TaskAgrees(s, t);
    if Enabled(s, move) && move.WorkerSettles? {
      SettleFacts(s, s.worker.task);
    }
    if Enabled(s, move) && move.CloserSettles? {
      SettleFacts(s, s.closer.task);
    }
    if Enabled(s, move) && move.SubmitterSettles? {
      SettleFacts(s, move.task);
    }
  }

  predicate ByWorker(move: Move) {
    move.Dequeue? || move.TryStart? || move.WorkerCancels? || move.CommandReturns?
  }

  /** The other threads start nothing, cancel only what has not started, and leave the worker where it is. */
  ghost predicate LeavesWorker(s: State, after: State) {
    && after.worker == s.worker && after.active == s.active && (s.shutdown ==> after.shutdown)
    && forall t :: t in s.tasks ==>
         && t in after.tasks && after.tasks[t].started == s.tasks[t].started
         && after.tasks[t].settled == s.tasks[t].settled
         && (s.tasks[t].canceled ==> after.tasks[t].canceled)
  }

  predicate ByCloser(move: Move) {
    move.BeginShutdown? || move.CloserCancels? || move.CloserCompletes?
  }

  lemma CloserBesideWorker(s: State, move: Move)
    requires ByCloser(move)
    ensures LeavesWorker(s, Step(s, move))
  {
    hide Settle;
  }

  lemma BesideWorker(s: State, move: Move)
    requires !Settles(move) && !ByWorker(move)
    ensures LeavesWorker(s, Step(s, move))
  {
    hide Settle;
    if ByCloser(move) {
      hide LeavesWorker, Step;
      CloserBesideWorker(s, move);
    }
  }

  lemma WorkerStays(s: State, move: Move)
    requires Inv(s) && !Settles(move) && !ByWorker(move)
    ensures WorkerAgrees(Step(s, move))
  {
    hide Step, CloserAgrees, QueueAgrees, TasksAgree;
    BesideWorker(s, move);
  }

  lemma WorkerTurns(s: State, move: Move)
    requires Inv(s) && ByWorker(move)
    ensures WorkerAgrees(Step(s, move))
  {
    hide Settle, CloserAgrees, NoRepeats;
    assert forall t :: t in s.tasks ==> TaskAgrees(s, t);
  }

  lemma StepWorkerOtherwise(s: State, move: Move)
    requires Inv(s) && !Settles(move)
    ensures WorkerAgrees(Step(s, move))
  {
    hide Inv, Step, WorkerAgrees;
    if ByWorker(move) {
      WorkerTurns(s, move);
    } else {
      WorkerStays(s, move);
    }
  }

  lemma StepWorker(s: State, move: Move)
    requires Inv(s)
    ensures WorkerAgrees(Step(s, move))
  {
    hide Inv, Step, Settle;
    if Settles(move) {
      StepWorkerSettling(s, move);
    } else {
      StepWorkerOtherwise(s, move);
    }
  }

  lemma StepTasksSettling(s: State, move: Move)
    requires Inv(s) && Settles(move)
    ensures TasksAgree(Step(s, move))
  {
    hide Settle, QueueAgrees;
    if Enabled(s, move) && move.WorkerSettles? {
      SettleFacts(s, s.worker.task);
    }
    if Enabled(s, move) && move.CloserSettles? {
      SettleFacts(s, s.closer.task);
    }
    if Enabled(s, move) && move.SubmitterSettles? {
      SettleFacts(s, move.task);
    }
    forall t | t in Step(s, move).tasks
      ensures TaskAgrees(Step(s, move), t)
    {
      assert t in s.tasks ==> TaskAgrees(s, t);
    }
  }

  /** What one step that releases nothing does to the tasks. */
  ghost predicate Touches(s: State, after: State, t: nat, move: Move) {
    && (t in s.tasks ==> t in after.tasks && after.tasks[t].settled == s.tasks[t].settled
                         && (t in s.owned ==> t in after.owned))
    && (t in after.tasks && t !in s.tasks ==>
          after.tasks[t] == Task(false, false, false) && (t in after.owned || t in after.dropped))
    && (t in s.tasks && after.tasks[t] == s.tasks[t] && !(s.tasks[t].started || s.tasks[t].canceled)
         && t in s.dropped ==>
          t in after.dropped)
    && (t in s.tasks && after.tasks[t] != s.tasks[t] ==>
          && !(after.tasks[t].started && after.tasks[t].canceled)
          && (after.tasks[t].started || after.tasks[t].canceled))
  }

  lemma WorkerTouches(s: State, move: Move, t: nat)
    requires TasksAgree(s) && ByWorker(move)
    requires s.worker.Dequeued? && s.worker.task in s.tasks ==> !s.tasks[s.worker.task].started
    ensures Touches(s, Step(s, move), t, move)
  {
    hide Settle, TaskAgrees;
  }

  lemma OthersTouch(s: State, move: Move, t: nat)
    requires TasksAgree(s) && !Settles(move) && !ByWorker(move)
    ensures Touches(s, Step(s, move), t, move)
  {
    hide Settle, TaskAgrees;
  }

  lemma StepTouches(s: State, move: Move, t: nat)
    requires TasksAgree(s) && !Settles(move)
    requires s.worker.Dequeued? && s.worker.task in s.tasks ==> !s.tasks[s.worker.task].started
    ensures Touches(s, Step(s, move), t, move)
  {
    hide Step, TasksAgree, Touches;
    if ByWorker(move) {
      WorkerTouches(s, move, t);
    } else {
      OthersTouch(s, move, t);
    }
  }

  lemma TaskStays(s: State, move: Move, t: nat)
    requires Inv(s) && !Settles(move) && t in Step(s, move).tasks
    ensures TaskAgrees(Step(s, move), t)
  {
    hide Step, QueueAgrees, CloserAgrees;
    assert t in s.tasks ==> TaskAgrees(s, t);
    StepTouches(s, move, t);
  }

  /** Owned, dropped and clearing tasks are known ones, and clearing ones are canceled. */
  ghost predicate SetsAgree(s: State) {
    && (forall t :: t in s.owned ==> t in s.tasks)
    && (forall t :: t in s.dropped ==> t in s.tasks)
    && (forall t :: t in s.clearing ==> t in s.tasks && s.tasks[t].canceled)
  }

  lemma SetsStayWorker(s: State, move: Move)
    requires SetsAgree(s) && ByWorker(move)
    ensures SetsAgree(Step(s, move))
  {
    hide Settle;
  }

  lemma SetsStayOthers(s: State, move: Move)
    requires SetsAgree(s) && !Settles(move) && !ByWorker(move)
    ensures SetsAgree(Step(s, move))
  {
    hide Settle;
  }

  lemma TaskSetsStay(s: State, move: Move)
    requires Inv(s) && !Settles(move)
    ensures SetsAgree(Step(s, move))
  {
    hide Step, WorkerAgrees, QueueAgrees, CloserAgrees, TaskAgrees;
    assert SetsAgree(s);
    if ByWorker(move) {
      SetsStayWorker(s, move);
    } else {
      SetsStayOthers(s, move);
    }
  }

  lemma StepTasksOtherwise(s: State, move: Move)
    requires Inv(s) && !Settles(move)
    ensures TasksAgree(Step(s, move))
  {
    hide Inv, Step, TaskAgrees;
    TaskSetsStay(s, move);
    forall t | t in Step(s, move).tasks
      ensures TaskAgrees(Step(s, move), t)
    {
      TaskStays(s, move, t);
    }
  }

  lemma StepTasks(s: State, move: Move)
    requires Inv(s)
    ensures TasksAgree(Step(s, move))
  {
    hide Inv, Step, Settle;
    if Settles(move) {
      StepTasksSettling(s, move);
    } else {
      StepTasksOtherwise(s, move);
    }
  }

  /** Steps that leave the queue alone keep it agreeing: only the worker's own task can start. */
  lemma QueueUnmoved(s: State, after: State)
    requires QueueAgrees(s) && after.queue == s.queue && (after.shutdown ==> s.shutdown)
    requires forall t :: t in s.tasks ==> t in after.tasks
    requires forall t :: t in s.tasks && after.tasks[t].started ==>
               s.tasks[t].started || (s.worker.Dequeued? && t == s.worker.task)
    requires after.worker.Dequeued? || after.worker.Turned? ==>
               (s.worker.Dequeued? || s.worker.Turned?) && after.worker.task == s.worker.task
    ensures QueueAgrees(after)
  {
    hide NoRepeats;
  }

  lemma QueueGrows(s: State, task: nat)
    requires Inv(s) && task !in s.tasks && !s.shutdown
    ensures QueueAgrees(Step(s, Submit(task)))
  {
    hide NoRepeats, TaskAgrees, CloserAgrees;
    NoRepeatsEnds(s.queue, task);
    assert task !in s.queue;
  }

  lemma QueueShrinks(s: State)
    requires Inv(s) && Enabled(s, Dequeue)
    ensures QueueAgrees(Step(s, Dequeue))
  {
    hide NoRepeats, TaskAgrees, CloserAgrees;
    NoRepeatsEnds(s.queue, 0);
  }

  lemma StepQueue(s: State, move: Move)
    requires Inv(s)
    ensures QueueAgrees(Step(s, move))
  {
    hide Settle, TaskAgrees, CloserAgrees, QueueAgrees, NoRepeats;
    if !Enabled(s, move) || (move.Submit? && s.shutdown) {
      assert Step(s, move) == s;
    } else if move.Submit? {
      QueueGrows(s, move.task);
    } else if move.Dequeue? {
      QueueShrinks(s);
    } else if move.BeginShutdown? {
      QueueEmptied(s, move.terminal);
    } else {
      if move.WorkerSettles? {
        SettleFacts(s, s.worker.task);
      }
      if move.CloserSettles? {
        SettleFacts(s, s.closer.task);
      }
      if move.SubmitterSettles? {
        SettleFacts(s, move.task);
      }
      QueueUnmoved(s, Step(s, move));
    }
  }

  lemma QueueEmptied(s: State, terminal: bool)
    requires Inv(s)
    ensures Enabled(s, BeginShutdown(terminal)) ==> QueueAgrees(Step(s, BeginShutdown(terminal)))
  {
    hide TaskAgrees, CloserAgrees;
  }

  lemma StepCloserSettling(s: State, move: Move)
    requires Inv(s) && Settles(move)
    ensures CloserAgrees(Step(s, move))
  {
    hide Settle, QueueAgrees;
    if Enabled(s, move) && move.WorkerSettles? {
      SettleFacts(s, s.worker.task);
    }
    if Enabled(s, move) && move.CloserSettles? {
      SettleFacts(s, s.closer.task);
    }
    if Enabled(s, move) && move.SubmitterSettles? {
      SettleFacts(s, move.task);
    }
  }

  lemma CloserTurns(s: State, move: Move)
    requires Inv(s) && ByCloser(move)
    ensures CloserAgrees(Step(s, move))
  {
    hide Settle, QueueAgrees;
  }

  lemma WorkerBesideCloser(s: State, move: Move)
    requires Inv(s) && ByWorker(move)
    ensures CloserAgrees(Step(s, move))
  {
    hide Settle, QueueAgrees;
  }

  lemma CloserStays(s: State, move: Move)
    requires Inv(s) && !Settles(move) && !ByCloser(move)
    ensures CloserAgrees(Step(s, move))
  {
    hide Settle, QueueAgrees;
    if ByWorker(move) {
      hide Inv, CloserAgrees, Step;
      WorkerBesideCloser(s, move);
    }
  }

  lemma StepCloserOtherwise(s: State, move: Move)
    requires Inv(s) && !Settles(move)
    ensures CloserAgrees(Step(s, move))
  {
    hide Inv, Step, CloserAgrees;
    if ByCloser(move) {
      CloserTurns(s, move);
    } else {
      CloserStays(s, move);
    }
  }

  lemma StepCloser(s: State, move: Move)
    requires Inv(s)
    ensures CloserAgrees(Step(s, move))
  {
    hide Inv, Step, Settle;
    if Settles(move) {
      StepCloserSettling(s, move);
    } else {
      StepCloserOtherwise(s, move);
    }
  }

  lemma StepKeeps(s: State, move: Move)
    requires Inv(s)
    ensures Inv(Step(s, move))
  {
    hide WorkerAgrees, TasksAgree, QueueAgrees, CloserAgrees, Step;
    StepWorker(s, move);
    StepTasks(s, move);
    StepQueue(s, move);
    StepCloser(s, move);
  }

  lemma {:induction false} RunKeeps(s: State, moves: seq<Move>)
    requires Inv(s)
    ensures Inv(Run(s, moves))
    decreases |moves|
  {
    hide Inv, Step;
    if moves != [] {
      StepKeeps(s, moves[0]);
      RunKeeps(Step(s, moves[0]), moves[1..]);
    }
  }

  // ---------------------------------------------------------------- what every interleaving guarantees

  /** Whether a command is inside the facade at this moment. */
  predicate CommandActive(s: State) {
    s.worker.Running?
  }

  /** Over every interleaving from a fresh executor. */
  lemma ReachableIsSafe(moves: seq<Move>)
    ensures var s := Run(Fresh(), moves);
            && (forall t :: t in s.tasks ==> !(s.tasks[t].started && s.tasks[t].canceled))
            && s.fired + s.taken <= 1
            && (s.fired + s.taken > 0 ==> s.cleaned && !CommandActive(s))
            && (s.cleaned && s.active.None? ==> !s.terminal) && (s.shutdown ==> s.queue == [])
            && (s.cleaned ==> forall t :: t in s.tasks ==> s.tasks[t].started || s.tasks[t].canceled || t in s.dropped)
  {
    hide Run;
    assert Inv(Fresh());
    RunKeeps(Fresh(), moves);
  }

  lemma StepIsMonotoneSettling(s: State, move: Move)
    requires Inv(s) && Settles(move)
    ensures var after := Step(s, move);
            && (s.shutdown ==> after.shutdown)
            && (forall t :: t in s.tasks ==>
                  && t in after.tasks
                  && (s.tasks[t].started ==> after.tasks[t].started)
                  && (s.tasks[t].canceled ==> after.tasks[t].canceled)
                  && (s.shutdown ==> after.tasks[t].started == s.tasks[t].started))
            && (forall t :: t in after.tasks && t !in s.tasks ==> !after.tasks[t].started)
            && (after.fired > s.fired ==> after.fired == s.fired + 1 && !CommandActive(s) && !CommandActive(after))
  {
    hide Settle;
    if Enabled(s, move) && move.WorkerSettles? {
      SettleFacts(s, s.worker.task);
    }
    if Enabled(s, move) && move.CloserSettles? {
      SettleFacts(s, s.closer.task);
    }
    if Enabled(s, move) && move.SubmitterSettles? {
      SettleFacts(s, move.task);
    }
  }

  lemma StepIsMonotoneWorker(s: State, move: Move)
    requires Inv(s) && ByWorker(move)
    ensures var after := Step(s, move);
            && after.shutdown == s.shutdown && after.fired == s.fired && after.tasks.Keys == s.tasks.Keys
            && (forall t :: t in s.tasks ==>
                  && (s.tasks[t].started ==> after.tasks[t].started)
                  && (s.tasks[t].canceled ==> after.tasks[t].canceled)
                  && (s.shutdown ==> after.tasks[t].started == s.tasks[t].started))
  {
    hide Settle, QueueAgrees, TasksAgree;
  }

  lemma StepIsMonotoneOtherwise(s: State, move: Move)
    requires Inv(s) && !Settles(move)
    ensures var after := Step(s, move);
            && (s.shutdown ==> after.shutdown)
            && (forall t :: t in s.tasks ==>
                  && t in after.tasks
                  && (s.tasks[t].started ==> after.tasks[t].started)
                  && (s.tasks[t].canceled ==> after.tasks[t].canceled)
                  && (s.shutdown ==> after.tasks[t].started == s.tasks[t].started))
            && (forall t :: t in after.tasks && t !in s.tasks ==> !after.tasks[t].started)
            && (after.fired > s.fired ==> after.fired == s.fired + 1 && !CommandActive(s) && !CommandActive(after))
  {
    hide Settle, QueueAgrees, TasksAgree;
    if ByWorker(move) {
      hide Inv, Step;
      StepIsMonotoneWorker(s, move);
    }
  }

  /** After shutdown no command starts, a started task stays started, and a canceled one stays canceled. */
  lemma StepIsMonotone(s: State, move: Move)
    requires Inv(s)
    ensures var after := Step(s, move);
            && (s.shutdown ==> after.shutdown)
            && (forall t :: t in s.tasks ==>
                  && t in after.tasks
                  && (s.tasks[t].started ==> after.tasks[t].started)
                  && (s.tasks[t].canceled ==> after.tasks[t].canceled)
                  && (s.shutdown ==> after.tasks[t].started == s.tasks[t].started))
            && (forall t :: t in after.tasks && t !in s.tasks ==> !after.tasks[t].started)
            && (after.fired > s.fired ==> after.fired == s.fired + 1 && !CommandActive(s) && !CommandActive(after))
  {
    hide Inv, Step, Settle;
    if Settles(move) {
      StepIsMonotoneSettling(s, move);
    } else {
      StepIsMonotoneOtherwise(s, move);
    }
  }

  /** A task the pool refused is never started, whatever the others do. */
  lemma {:induction false} DroppedNeverStarts(s: State, moves: seq<Move>, task: nat)
    requires Inv(s) && task in s.tasks && !s.tasks[task].started && Idle(s, task)
    ensures task in Run(s, moves).tasks && !Run(s, moves).tasks[task].started
    decreases |moves|
  {
    hide Inv, Step, Idle;
    if moves != [] {
      StepKeeps(s, moves[0]);
      StaysIdle(s, moves[0], task);
      DroppedNeverStarts(Step(s, moves[0]), moves[1..], task);
    }
  }

  /** Neither waiting nor in the hands of the worker. */
  predicate Idle(s: State, task: nat) {
    task !in s.queue && (s.worker.Resting? || s.worker.task != task)
  }

  lemma StaysIdle(s: State, move: Move, task: nat)
    requires Inv(s) && task in s.tasks && !s.tasks[task].started && Idle(s, task)
    ensures var after := Step(s, move);
            task in after.tasks && !after.tasks[task].started && Idle(after, task)
  {
    hide Inv, Settle;
    GoneStaysGone(s, move, task);
    if Settles(move) && Enabled(s, move) {
      SettlesWhich(s, move);
    }
  }

  lemma SettlesWhich(s: State, move: Move)
    requires Settles(move) && Enabled(s, move)
    ensures var after := Step(s, move);
            && after.queue == s.queue && (after.worker == s.worker || after.worker.Resting?)
            && forall t :: t in s.tasks ==> t in after.tasks && after.tasks[t].started == s.tasks[t].started
  {
  }

  /** The three steps of a refused submission leave its task known, canceled, released and never started. */
  lemma RefusedIsCanceled(s: State, task: nat)
    requires Inv(s) && task !in s.tasks && !s.shutdown
    ensures Idle(Step(s, SubmitFails(task)), task) && task in Step(s, SubmitFails(task)).tasks
    ensures var after := Run(s, [SubmitFails(task), SubmitterCancels(task), SubmitterSettles(task)]);
            && task in after.tasks && after.tasks[task] == Task(false, true, true)
            && task !in after.owned && task !in after.queue && task !in after.dropped && task !in after.clearing
  {
    var moves := [SubmitFails(task), SubmitterCancels(task), SubmitterSettles(task)];
    var s1 := Step(s, moves[0]);
    var s2 := Step(s1, moves[1]);
    assert moves[1..] == [SubmitterCancels(task), SubmitterSettles(task)];
    assert moves[1..][1..] == [SubmitterSettles(task)];
    assert Run(s2, [SubmitterSettles(task)]) == Run(Step(s2, SubmitterSettles(task)), []);
    SettleFacts(s2, task);
  }

  /** Until shutdown every accepted task waits, is in the hands of the worker, has started, or is canceled. */
  ghost predicate NoneLost(s: State) {
    !s.shutdown ==> forall t :: t in s.tasks && !s.tasks[t].started && !s.tasks[t].canceled && t !in s.dropped ==>
                      t in s.queue || (s.worker.Dequeued? && s.worker.task == t)
  }

  lemma StepLosesNone(s: State, move: Move)
    requires Inv(s) && NoneLost(s) && !Settles(move)
    ensures NoneLost(Step(s, move))
  {
    hide CloserAgrees, TasksAgree, NoRepeats, Settle;
    if move.Dequeue? && Enabled(s, move) {
      assert s.queue == [s.queue[0]] + s.queue[1..];
    }
  }

  lemma SettlingLosesNone(s: State, move: Move)
    requires Inv(s) && NoneLost(s) && Settles(move)
    ensures NoneLost(Step(s, move))
  {
    hide CloserAgrees, TasksAgree, NoRepeats, Settle;
    if Enabled(s, move) {
      match move
      case SubmitterSettles(task) => SettleFacts(s, task);
      case WorkerSettles => SettleFacts(s, s.worker.task);
      case CloserSettles => SettleFacts(s, s.closer.task);
    }
  }

  /** No accepted task is ever lost, over every interleaving. */
  lemma {:induction false} RunLosesNone(s: State, moves: seq<Move>)
    requires Inv(s) && NoneLost(s)
    ensures NoneLost(Run(s, moves))
    decreases |moves|
  {
    hide Inv, NoneLost, Step, Settles;
    if moves != [] {
      StepKeeps(s, moves[0]);
      if Settles(moves[0]) {
        SettlingLosesNone(s, moves[0]);
      } else {
        StepLosesNone(s, moves[0]);
      }
      RunLosesNone(Step(s, moves[0]), moves[1..]);
    }
  }

  /** The terminal callback, wherever it is: still to be taken, taken, or fired. */
  function Callbacks(s: State): int {
    s.taken + s.fired + if s.terminal then 1 else 0
  }

  lemma StepCounts(s: State, move: Move)
    requires Inv(s)
    ensures Callbacks(Step(s, move))
         == if move.BeginShutdown? && Enabled(s, move) then (if move.terminal then 1 else 0) else Callbacks(s)
  {
    hide QueueAgrees, TasksAgree, WorkerAgrees, Settle;
    if Settles(move) && Enabled(s, move) {
      match move
      case SubmitterSettles(task) => SettleFacts(s, task);
      case WorkerSettles => SettleFacts(s, s.worker.task);
      case CloserSettles => SettleFacts(s, s.closer.task);
    }
  }

  lemma {:induction false} RunCounts(s: State, moves: seq<Move>)
    requires Inv(s) && s.shutdown
    ensures Callbacks(Run(s, moves)) == Callbacks(s) && Run(s, moves).shutdown
    decreases |moves|
  {
    hide Inv, Step, Callbacks;
    if moves != [] {
      StepKeeps(s, moves[0]);
      StepIsMonotone(s, moves[0]);
      StepCounts(s, moves[0]);
      NoSecondShutdown(s, moves[0]);
      RunCounts(Step(s, moves[0]), moves[1..]);
    }
  }

  lemma NoSecondShutdown(s: State, move: Move)
    requires s.shutdown
    ensures move.BeginShutdown? ==> !Enabled(s, move)
  {
  }

  /**
   The terminal callback of a shutdown is neither lost nor repeated: once cleanup is done, no command is
   active and nothing taken is left to fire, it has been fired exactly once, if there was one.
   */
  lemma TerminalFiresOnce(s: State, terminal: bool, moves: seq<Move>)
    requires Inv(s) && Enabled(s, BeginShutdown(terminal))
    ensures var after := Run(Step(s, BeginShutdown(terminal)), moves);
            after.cleaned && after.active.None? && after.taken == 0 ==> after.fired == (if terminal then 1 else 0)
  {
    hide Inv, Run;
    StepCounts(s, BeginShutdown(terminal));
    StepKeeps(s, BeginShutdown(terminal));
    RunCounts(Step(s, BeginShutdown(terminal)), moves);
    RunKeeps(Step(s, BeginShutdown(terminal)), moves);
    NothingLeftToTake(Run(Step(s, BeginShutdown(terminal)), moves));
  }

  lemma NothingLeftToTake(s: State)
    requires Inv(s)
    ensures s.cleaned && s.active.None? ==> !s.terminal
  {
  }

  /** Two tasks wait in this order. */
  ghost predicate InLine(queue: seq<nat>, first: nat, second: nat) {
    exists i, j :: 0 <= i < j < |queue| && queue[i] == first && queue[j] == second
  }

  lemma StepKeepsLine(s: State, move: Move, first: nat, second: nat)
    requires Inv(s) && InLine(s.queue, first, second)
    ensures first in Step(s, move).queue ==> InLine(Step(s, move).queue, first, second)
  {
    hide CloserAgrees, TasksAgree, WorkerAgrees, Settle;
    var i, j :| 0 <= i < j < |s.queue| && s.queue[i] == first && s.queue[j] == second;
    var after := Step(s, move);
    SettleKeepsQueue(s, move);
    if move.Dequeue? && Enabled(s, move) && i > 0 {
      assert after.queue[i - 1] == first && after.queue[j - 1] == second;
    } else if first in after.queue && !(move.Dequeue? && Enabled(s, move)) {
      assert after.queue[i] == first && after.queue[j] == second;
    }
  }

  lemma SettleKeepsQueue(s: State, move: Move)
    ensures Settles(move) ==> Step(s, move).queue == s.queue
  {
  }

  /** Commands start in the order in which they were submitted: none while an earlier one still waits. */
  lemma {:induction false} StartsInOrder(s: State, moves: seq<Move>, first: nat, second: nat)
    requires Inv(s) && InLine(s.queue, first, second)
    ensures var after := Run(s, moves);
            first in after.queue ==>
              InLine(after.queue, first, second) && second in after.tasks && !after.tasks[second].started
    decreases |moves|
  {
    hide Inv, Step, InLine;
    WaitingIsNotStarted(s, first, second);
    if moves != [] {
      StepKeeps(s, moves[0]);
      StepKeepsLine(s, moves[0], first, second);
      if first in Step(s, moves[0]).queue {
        StartsInOrder(Step(s, moves[0]), moves[1..], first, second);
      } else {
        GoneStaysGone(s, moves[0], first);
        NeverQueuedAgain(Step(s, moves[0]), moves[1..], first);
      }
    }
  }

  lemma WaitingIsNotStarted(s: State, first: nat, second: nat)
    requires Inv(s) && InLine(s.queue, first, second)
    ensures first in s.tasks && second in s.tasks && !s.tasks[second].started
  {
    hide CloserAgrees, TasksAgree, WorkerAgrees;
  }

  lemma GoneStaysGone(s: State, move: Move, task: nat)
    requires Inv(s) && task in s.tasks
    ensures task in Step(s, move).tasks && (task !in s.queue ==> task !in Step(s, move).queue)
  {
    hide Inv, Step;
    StepIsMonotone(s, move);
    QueueGainsNew(s, move);
  }

  lemma QueueGainsNew(s: State, move: Move)
    ensures forall t :: t in Step(s, move).queue && t !in s.queue ==> t !in s.tasks
  {
  }

  /** A task that is known and no longer waits never waits again. */
  lemma {:induction false} NeverQueuedAgain(s: State, moves: seq<Move>, task: nat)
    requires Inv(s) && task in s.tasks && task !in s.queue
    ensures task !in Run(s, moves).queue
    decreases |moves|
  {
    hide Inv, Step;
    if moves != [] {
      StepKeeps(s, moves[0]);
      GoneStaysGone(s, moves[0], task);
      NeverQueuedAgain(Step(s, moves[0]), moves[1..], task);
    }
  }

  /** Whatever happens after shutdown began, the set of started commands is final. */
  lemma {:induction false} NothingStartsAfterShutdown(s: State, moves: seq<Move>)
    requires Inv(s) && s.shutdown
    ensures forall t :: t in Run(s, moves).tasks && Run(s, moves).tasks[t].started ==>
              t in s.tasks && s.tasks[t].started
    decreases |moves|
  {
    hide Inv, Step;
    if moves != [] {
      StepKeeps(s, moves[0]);
      StepIsMonotone(s, moves[0]);
      NothingStartsAfterShutdown(Step(s, moves[0]), moves[1..]);
    }
  }

  /** Once the command that was active at shutdown has returned and settled, the terminal callback has been taken. */
  lemma TerminalIsConsumed(s: State, moves: seq<Move>)
    requires Inv(s)
    ensures var after := Run(s, moves);
            after.cleaned && (after.worker.Resting? || after.worker.Dequeued? || after.worker.Turned?) ==>
                !after.terminal
  {
    hide Run;
    RunKeeps(s, moves);
  }
}
