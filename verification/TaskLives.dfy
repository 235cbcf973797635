/**
 Further on every interleaving: each task lives a run of its own, however the threads mix,
 and no worker is ever stuck.
 */
module TaskLives {
  import opened Common
  import opened Tasks
  import opened Scheduler
  import opened SchedulerRuns

  // ---------- one life for each task ----------

  /** The task is what updates and cancellations have made of a new one, and the destructor if it is deleted. */
  ghost predicate IsLife(s: State, t: TaskId) {
    t in s.tasks &&
    exists updateOnStart: bool, ops ::
      s.tasks[t] == if t in s.deletions then Destroyed(Run(updateOnStart, ops)) else Run(updateOnStart, ops)
  }

  lemma LifeGoesOn(s: State, s': State, t: TaskId, op: Operation)
    requires IsLife(s, t) && t !in s.deletions && t !in s'.deletions
    requires t in s'.tasks && s'.tasks[t] == Apply(s.tasks[t], op)
    ensures IsLife(s', t)
  {
    var updateOnStart: bool, ops :| s.tasks[t] == Run(updateOnStart, ops);
    RunOneMore(updateOnStart, ops, op);
    assert s'.tasks[t] == Run(updateOnStart, ops + [op]);
  }

  lemma LifeStays(s: State, s': State, t: TaskId)
    requires IsLife(s, t) && t in s'.tasks && s'.tasks[t] == s.tasks[t] && (t in s'.deletions <==> t in s.deletions)
    ensures IsLife(s', t)
  {
  }

  lemma LifeEnds(s: State, s': State, t: TaskId)
    requires IsLife(s, t) && t !in s.deletions && t in s'.deletions
    requires t in s'.tasks && s'.tasks[t] == Destroyed(s.tasks[t])
    ensures IsLife(s', t)
  {
  }

  lemma LifeBegins(s: State, t: TaskId, updateOnStart: bool)
    requires t in s.tasks && t !in s.deletions && s.tasks[t] == NewTask(updateOnStart)
    ensures IsLife(s, t)
  {
    var none: seq<Operation> := [];
    assert s.tasks[t] == Run(updateOnStart, none);
  }

  /** A step touches only the task it is about. */
  function TaskOf(s: State, step: Scheduler.Step): Option<TaskId> {
    match step
    case Submit(t, _) => Some(t)
    case CancelTask(t) => Some(t)
    case EndUpdate(w, _) => if w in s.workers && s.workers[w].HasTask() then Some(s.workers[w].task) else None
    case _ => DeletedTask(s, step)
  }

  predicate Untouched(s: State, s': State, t: TaskId)
    requires t in s.tasks
  {
    t in s'.tasks && s'.tasks[t] == s.tasks[t] && (t in s'.deletions <==> t in s.deletions)
  }

  lemma UntouchedByMove(s: State, step: Scheduler.Step, t: TaskId)
    requires Inv(s) && Enabled(s, step) && t in s.tasks && TaskOf(s, step) != Some(t) && IsMove(step)
    ensures Untouched(s, Do(s, step), t)
  {
  }

  lemma UntouchedByTransfer(s: State, step: Scheduler.Step, t: TaskId)
    requires Inv(s) && Enabled(s, step) && t in s.tasks && TaskOf(s, step) != Some(t) && IsTransfer(step)
    ensures Untouched(s, Do(s, step), t)
  {
    match step {
      case DeleteTask(w) => DeletionRecords(s, step, s.workers[w].task);
      case DrainOne => DeletionRecords(s, step, s.queue[0]);
      case _ =>
    }
  }

  lemma UntouchedByOther(s: State, step: Scheduler.Step, t: TaskId)
    requires Inv(s) && Enabled(s, step) && t in s.tasks && TaskOf(s, step) != Some(t)
    requires !IsMove(step) && !IsTransfer(step)
    ensures Untouched(s, Do(s, step), t)
  {
  }

  lemma OthersUntouched(s: State, step: Scheduler.Step, t: TaskId)
    requires Inv(s) && Enabled(s, step) && t in s.tasks && TaskOf(s, step) != Some(t)
    ensures Untouched(s, Do(s, step), t)
  {
    if IsMove(step) {
      UntouchedByMove(s, step, t);
    } else if IsTransfer(step) {
      UntouchedByTransfer(s, step, t);
    } else {
      UntouchedByOther(s, step, t);
    }
  }

  lemma UpdateGoesOn(s: State, w: Worker, answer: TaskResult)
    requires Inv(s) && Enabled(s, EndUpdate(w, answer)) && IsLife(s, s.workers[w].task)
    ensures IsLife(Do(s, EndUpdate(w, answer)), s.workers[w].task)
  {
    var t := s.workers[w].task;
    assert Holds(s, w, t);
    LifeGoesOn(s, Do(s, EndUpdate(w, answer)), t, UpdateOp(answer));
  }

  lemma CancelGoesOn(s: State, t: TaskId)
    requires Inv(s) && Enabled(s, CancelTask(t)) && IsLife(s, t)
    ensures IsLife(Do(s, CancelTask(t)), t)
  {
    LifeGoesOn(s, Do(s, CancelTask(t)), t, CancelOp);
  }

  lemma SubmitBegins(s: State, t: TaskId, updateOnStart: bool)
    requires Inv(s) && Enabled(s, Submit(t, updateOnStart))
    ensures IsLife(Do(s, Submit(t, updateOnStart)), t)
  {
    assert t !in s.place;
    LifeBegins(Do(s, Submit(t, updateOnStart)), t, updateOnStart);
  }

  lemma DeletionEnds(s: State, step: Scheduler.Step, t: TaskId)
    requires Inv(s) && Enabled(s, step) && DeletedTask(s, step) == Some(t) && IsLife(s, t)
    ensures IsLife(Do(s, step), t)
  {
    match step {
      case DeleteTask(w) => assert Holds(s, w, t);
      case DrainOne => assert t in s.queue;
    }
    DeletionCalls(s, step, t);
    DeletionRecords(s, step, t);
    LifeEnds(s, Do(s, step), t);
  }

  lemma DeletionRecords(s: State, step: Scheduler.Step, t: TaskId)
    requires Inv(s) && Enabled(s, step) && DeletedTask(s, step) == Some(t)
    ensures Do(s, step).deletions == s.deletions + [t]
  {
  }

  lemma StepKeepsLife(s: State, step: Scheduler.Step, t: TaskId)
    requires Inv(s) && Enabled(s, step) && t in Do(s, step).tasks && (t in s.tasks ==> IsLife(s, t))
    ensures IsLife(Do(s, step), t)
  {
    if t !in s.tasks {
      NewTaskIsSubmitted(s, step, t);
      SubmitBegins(s, t, step.updateOnStart);
    } else if TaskOf(s, step) != Some(t) {
      OthersUntouched(s, step, t);
      LifeStays(s, Do(s, step), t);
    } else {
      ItsStepKeepsLife(s, step, t);
    }
  }

  lemma ItsStepKeepsLife(s: State, step: Scheduler.Step, t: TaskId)
    requires Inv(s) && Enabled(s, step) && TaskOf(s, step) == Some(t) && !step.Submit? && IsLife(s, t)
    ensures IsLife(Do(s, step), t)
  {
    match step {
      case EndUpdate(w, answer) => UpdateGoesOn(s, w, answer);
      case CancelTask(_) => CancelGoesOn(s, t);
      case _ => DeletionEnds(s, step, t);
    }
  }

  lemma NewTaskIsSubmitted(s: State, step: Scheduler.Step, t: TaskId)
    requires Inv(s) && Enabled(s, step) && t in Do(s, step).tasks && t !in s.tasks
    ensures step.Submit? && step.task == t
  {
  }

  /**
   In every interleaving each task is what some order of updates and cancellations, and at
   the end the destructor, make of a new one: the calls of a task are never mixed up.
   */
  lemma {:induction false} EveryTaskLivesItsRun(
      ws: set<Worker>, states: seq<State>, steps: seq<Scheduler.Step>, i: nat, t: TaskId)
    requires IsRun(ws, states, steps) && i < |states| && t in states[i].tasks
    ensures IsLife(states[i], t)
  {
    if i > 0 {
      RunKeepsInv(ws, states, steps, i - 1);
      if t in states[i - 1].tasks {
        EveryTaskLivesItsRun(ws, states, steps, i - 1, t);
      }
      StepKeepsLife(states[i - 1], steps[i - 1], t);
    }
  }

  // ---------- nobody is stuck ----------

  /** What the worker does next, when it may. */
  function NextStep(s: State, w: Worker): Option<Scheduler.Step>
    requires w in s.workers
  {
    match s.workers[w]
    case Top => Some(TestRunning(w))
    case Waiting => Some(Wake(w))
    case Locked => Some(TakeOrQuit(w))
    case Holding(_) => Some(BeginUpdate(w))
    case InUpdate(_) => Some(EndUpdate(w, NeedUpdate))
    case Requeueing(_) => Some(TestRequeue(w))
    case Pushing(_) => Some(PushBack(w))
    case Deleting(_) => Some(DeleteTask(w))
    case Stopped => None
  }

  /** It waits for work, as it should. */
  predicate WaitsForWork(s: State, w: Worker) {
    At(s, w, Waiting) && s.running && s.queue == []
  }

  /** Another worker holds the mutex, and can go on and give it back. */
  predicate WaitsForMutex(s: State, w: Worker) {
    && s.lock.Some? && s.lock.value != w
    && At(s, s.lock.value, Locked) && Enabled(s, TakeOrQuit(s.lock.value))
  }

  /** It has left its loop, or can go on, or waits for work or for one that can go on. */
  predicate IsNotStuck(s: State, w: Worker)
    requires w in s.workers
  {
    || s.workers[w] == Stopped
    || (NextStep(s, w).Some? && Enabled(s, NextStep(s, w).value))
    || WaitsForWork(s, w)
    || WaitsForMutex(s, w)
  }

  lemma MutexIsGivenBack(s: State, w: Worker)
    requires Inv(s) && w in s.workers && (s.workers[w].Waiting? || s.workers[w].Pushing?) && s.lock.Some?
    ensures WaitsForMutex(s, w)
  {
  }

  lemma WaitingIsNotStuck(s: State, w: Worker)
    requires Inv(s) && At(s, w, Waiting)
    ensures IsNotStuck(s, w)
  {
    if s.lock.Some? {
      MutexIsGivenBack(s, w);
    }
  }

  lemma PushingIsNotStuck(s: State, w: Worker)
    requires Inv(s) && w in s.workers && s.workers[w].Pushing?
    ensures IsNotStuck(s, w)
  {
    if s.lock.Some? {
      MutexIsGivenBack(s, w);
    }
  }

  lemma RequeueingIsNotStuck(s: State, w: Worker)
    requires Inv(s) && w in s.workers && s.workers[w].Requeueing?
    ensures IsNotStuck(s, w)
  {
  }

  lemma DeletingIsNotStuck(s: State, w: Worker)
    requires Inv(s) && w in s.workers && s.workers[w].Deleting?
    ensures IsNotStuck(s, w)
  {
  }

  lemma WorkerIsNotStuck(s: State, w: Worker)
    requires Inv(s) && w in s.workers
    ensures IsNotStuck(s, w)
  {
    match s.workers[w] {
      case Waiting => WaitingIsNotStuck(s, w);
      case Pushing(_) => PushingIsNotStuck(s, w);
      case Requeueing(_) => RequeueingIsNotStuck(s, w);
      case Deleting(_) => DeletingIsNotStuck(s, w);
      case _ =>
    }
  }

  /**
   In every interleaving no worker is stuck, and once the system is stopped none waits for
   work either.
   */
  lemma NobodyIsStuck(ws: set<Worker>, states: seq<State>, steps: seq<Scheduler.Step>, i: nat, w: Worker)
    requires IsRun(ws, states, steps) && i < |states| && w in states[i].workers
    ensures IsNotStuck(states[i], w)
    ensures !states[i].running ==> !WaitsForWork(states[i], w)
  {
    RunKeepsInv(ws, states, steps, i);
    WorkerIsNotStuck(states[i], w);
  }
}
