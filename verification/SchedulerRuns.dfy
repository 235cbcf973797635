/**
 What holds of the scheduler in every interleaving: who owns a task, in which order
 tasks are taken, what calls a task has made, and what cleaning up leaves behind.
 */
module SchedulerRuns {
  import opened Common
  import opened Tasks
  import opened Scheduler

  /** One step is taken. */
  ghost predicate Takes(s: State, step: Scheduler.Step, s': State) {
    Sound(s) && Enabled(s, step) && s' == Do(s, step)
  }

  /** The states a system with these workers goes through under a list of steps. */
  ghost predicate IsRun(ws: set<Worker>, states: seq<State>, steps: seq<Scheduler.Step>) {
    && |states| == |steps| + 1
    && states[0] == Started(ws)
    && forall i {:trigger steps[i]} :: 0 <= i < |steps| ==> Takes(states[i], steps[i], states[i + 1])
  }

  lemma {:induction false} RunKeepsInv(ws: set<Worker>, states: seq<State>, steps: seq<Scheduler.Step>, i: nat)
    requires IsRun(ws, states, steps) && i < |states|
    ensures Inv(states[i])
  {
    if i == 0 {
      StartedInv(ws);
    } else {
      RunKeepsInv(ws, states, steps, i - 1);
      StepKeepsInv(states[i - 1], steps[i - 1]);
    }
  }

  /** The invariant implies what `Do` needs, so a run never gets stuck on an undefined step. */
  lemma RunsGoOn(ws: set<Worker>, states: seq<State>, steps: seq<Scheduler.Step>, step: Scheduler.Step)
    requires IsRun(ws, states, steps) && Enabled(states[|steps|], step)
    ensures Sound(states[|steps|]) && IsRun(ws, states + [Do(states[|steps|], step)], steps + [step])
  {
    RunKeepsInv(ws, states, steps, |steps|);
  }

  // ---------- ownership ----------

  ghost predicate HeldBySome(s: State, t: TaskId) {
    exists w :: Holds(s, w, t)
  }

  function One(b: bool): nat {
    if b then 1 else 0
  }

  /** In how many places a task is. */
  ghost function PlacesOf(s: State, t: TaskId): nat {
    One(t in s.entering) + One(t in s.queue) + One(HeldBySome(s, t)) + One(t in s.deletions) + One(t in s.dropped)
  }

  /** Exclusive ownership: a submitted task is in one place, once, in at most one worker's hands. */
  lemma OnePlaceEach(ws: set<Worker>, states: seq<State>, steps: seq<Scheduler.Step>, i: nat)
    requires IsRun(ws, states, steps) && i < |states|
    ensures var s := states[i];
            && (forall t :: t in s.tasks ==> PlacesOf(s, t) == 1)
            && NoRepeats(s.queue) && NoRepeats(s.deletions)
            && (forall t, w, v :: Holds(s, w, t) && Holds(s, v, t) ==> w == v)
  {
    RunKeepsInv(ws, states, steps, i);
    var s := states[i];
    forall t | t in s.tasks
      ensures PlacesOf(s, t) == 1
    {
      if s.place[t].Held? {
        assert Holds(s, s.place[t].worker, t);
      }
    }
    forall t, w, v | Holds(s, w, t) && Holds(s, v, t)
      ensures w == v
    {
      assert s.place[t] == Held(w) && s.place[t] == Held(v);
    }
  }

  /** A worker's task is alive: what is updated or deleted was not deleted before, and nobody else is updating it. */
  lemma WorkOnLiveTasksOnly(ws: set<Worker>, states: seq<State>, steps: seq<Scheduler.Step>, i: nat)
    requires IsRun(ws, states, steps) && i < |steps|
    ensures var s := states[i];
            match steps[i]
            case BeginUpdate(w) =>
              s.workers[w].task !in s.deletions && forall v :: v != w ==> !Holds(s, v, s.workers[w].task)
            case EndUpdate(w, _) =>
              s.workers[w].task !in s.deletions && forall v :: v != w ==> !Holds(s, v, s.workers[w].task)
            case DeleteTask(w) =>
              s.workers[w].task !in s.deletions && forall v :: v != w ==> !Holds(s, v, s.workers[w].task)
            case DrainOne => s.queue[0] !in s.deletions && forall v :: !Holds(s, v, s.queue[0])
            case _ => true
  {
    RunKeepsInv(ws, states, steps, i);
    var s := states[i];
    match steps[i] {
      case BeginUpdate(w) => HolderIsAlone(s, w);
      case EndUpdate(w, _) => HolderIsAlone(s, w);
      case DeleteTask(w) => HolderIsAlone(s, w);
      case DrainOne => assert s.queue[0] in s.queue;
      case _ =>
    }
  }

  lemma HolderIsAlone(s: State, w: Worker)
    requires Inv(s) && w in s.workers && s.workers[w].HasTask()
    ensures s.workers[w].task !in s.deletions && forall v :: v != w ==> !Holds(s, v, s.workers[w].task)
  {
    assert Holds(s, w, s.workers[w].task);
  }

  /** `Clean` empties the queue only after every worker has left its loop, with nothing in its hands. */
  lemma DrainsAlone(ws: set<Worker>, states: seq<State>, steps: seq<Scheduler.Step>, i: nat)
    requires IsRun(ws, states, steps) && i < |steps| && steps[i] == DrainOne
    ensures !states[i].running
    ensures forall w :: w in states[i].workers ==> states[i].workers[w] == Stopped
    ensures forall t :: t in states[i].tasks ==> !HeldBySome(states[i], t)
  {
    RunKeepsInv(ws, states, steps, i);
  }

  // ---------- order ----------

  lemma StepGrows(s: State, step: Scheduler.Step)
    requires Sound(s) && Enabled(s, step)
    ensures s.pushed <= Do(s, step).pushed && s.popped <= Do(s, step).popped
  {
  }

  lemma RunStepGrows(ws: set<Worker>, states: seq<State>, steps: seq<Scheduler.Step>, i: nat)
    requires IsRun(ws, states, steps) && i < |steps|
    ensures states[i].pushed <= states[i + 1].pushed && states[i].popped <= states[i + 1].popped
  {
    StepGrows(states[i], steps[i]);
  }

  lemma {:induction false} PrefixChain(xs: seq<seq<TaskId>>, i: nat, j: nat)
    requires i <= j < |xs| && forall k :: 0 <= k < |xs| - 1 ==> xs[k] <= xs[k + 1]
    ensures xs[i] <= xs[j]
    decreases j
  {
    if i < j {
      PrefixChain(xs, i, j - 1);
      assert xs[j - 1] <= xs[j - 1 + 1];
    }
  }

  lemma HistoryGrows(ws: set<Worker>, states: seq<State>, steps: seq<Scheduler.Step>, i: nat, j: nat)
    requires IsRun(ws, states, steps) && i <= j < |states|
    ensures states[i].pushed <= states[j].pushed && states[i].popped <= states[j].popped
  {
    var pushed := seq(|states|, k requires 0 <= k < |states| => states[k].pushed);
    var popped := seq(|states|, k requires 0 <= k < |states| => states[k].popped);
    forall k | 0 <= k < |states| - 1
      ensures pushed[k] <= pushed[k + 1] && popped[k] <= popped[k + 1]
    {
      RunStepGrows(ws, states, steps, k);
    }
    PrefixChain(pushed, i, j);
    PrefixChain(popped, i, j);
  }

  /**
   No overtaking: the task at position `k` of the queue is the (k+1)-th to be popped from
   then on, whatever is pushed in between, so all tasks ahead of it are popped first.
   */
  lemma NoOvertaking(ws: set<Worker>, states: seq<State>, steps: seq<Scheduler.Step>, i: nat, j: nat, k: nat)
    requires IsRun(ws, states, steps) && i <= j < |states| && k < |states[i].queue|
    requires |states[j].popped| > |states[i].popped| + k
    ensures states[j].popped[|states[i].popped| + k] == states[i].queue[k]
  {
    RunKeepsInv(ws, states, steps, i);
    RunKeepsInv(ws, states, steps, j);
    HistoryGrows(ws, states, steps, i, j);
    var at := |states[i].popped| + k;
    assert states[i].pushed[at] == states[i].queue[k];
    assert states[j].pushed[at] == states[j].popped[at];
  }

  /**
   Between two rounds of a task that asked for another update: it is pushed back behind the
   tasks then waiting, and when it is taken again all of those have been, in their order.
   */
  lemma EveryWaitingTaskGoesFirst(ws: set<Worker>, states: seq<State>, steps: seq<Scheduler.Step>, i: nat, j: nat)
    requires IsRun(ws, states, steps) && i < |steps| && i < j < |states|
    requires steps[i].PushBack? && |states[j].popped| > |states[i].popped| + |states[i].queue|
    ensures states[j].popped[|states[i].popped|..|states[i].popped| + |states[i].queue|] == states[i].queue
    ensures states[j].popped[|states[i].popped| + |states[i].queue|] == states[i].workers[steps[i].worker].task
  {
    var s, next := states[i], states[i + 1];
    var from, n := |s.popped|, |s.queue|;
    assert next.queue == s.queue + [s.workers[steps[i].worker].task] && next.popped == s.popped;
    forall m | from <= m <= from + n
      ensures states[j].popped[m] == next.queue[m - from]
    {
      NoOvertaking(ws, states, steps, i + 1, j, m - from);
    }
    assert states[j].popped[from..from + n] == next.queue[..n];
  }

  // ---------- lives ----------

  /** Every task's calls are part of one life; a deleted task has lived it whole, or was never touched. */
  lemma LivesAreWhole(ws: set<Worker>, states: seq<State>, steps: seq<Scheduler.Step>, i: nat, t: TaskId)
    requires IsRun(ws, states, steps) && i < |states| && t in states[i].tasks
    ensures Legal(states[i].tasks[t].trace)
    ensures t in states[i].deletions ==>
              var task := states[i].tasks[t];
              if task.step == NotStarted then task.trace == [] else Complete(task.trace)
  {
    RunKeepsInv(ws, states, steps, i);
    CoherentIsLegal(states[i].tasks[t]);
    assert t in states[i].place;
  }

  /** The task a step deletes. */
  function DeletedTask(s: State, step: Scheduler.Step): Option<TaskId> {
    match step
    case DeleteTask(w) => if w in s.workers && s.workers[w].HasTask() then Some(s.workers[w].task) else None
    case DrainOne => if s.queue != [] then Some(s.queue[0]) else None
    case _ => None
  }

  lemma DeletionCalls(s: State, step: Scheduler.Step, t: TaskId)
    requires Inv(s) && Enabled(s, step) && DeletedTask(s, step) == Some(t)
    ensures t in s.tasks && t in Do(s, step).tasks && Do(s, step).tasks[t] == Destroyed(s.tasks[t])
  {
  }

  /**
   In every interleaving: deleting a task that has begun and not ended makes it call that it
   was canceled and has ended; any other makes no call.
   */
  lemma DeletionCancelsTheBegun(ws: set<Worker>, states: seq<State>, steps: seq<Scheduler.Step>, i: nat, t: TaskId)
    requires IsRun(ws, states, steps) && i < |steps| && DeletedTask(states[i], steps[i]) == Some(t)
    ensures t in states[i].tasks && t in states[i + 1].tasks
    ensures var before, after := states[i].tasks[t].trace, states[i + 1].tasks[t].trace;
            after == before + if before == [] || OnTaskEnd in before then [] else [OnTaskCanceled, OnTaskEnd]
  {
    RunKeepsInv(ws, states, steps, i);
    DeletionCalls(states[i], steps[i], t);
    DestroyCalls(states[i].tasks[t]);
  }

  // ---------- who is deleted, who goes round again ----------

  predicate HasEnded(s: State, t: TaskId) {
    t in s.tasks && s.tasks[t].step == Finished
  }

  /**
   Only a task that has not ended waits or is let go; a worker is about to delete the one it
   holds exactly when that has ended.
   */
  ghost predicate Fits(s: State, t: TaskId) {
    && (t in s.entering || t in s.queue || t in s.dropped ==> !HasEnded(s, t))
    && forall w :: Holds(s, w, t) ==> (HasEnded(s, t) <==> s.workers[w].Deleting?)
  }

  lemma FitsKeptByTest(s: State, w: Worker, t: TaskId)
    requires Inv(s) && Enabled(s, TestRunning(w)) && Fits(s, t)
    ensures Fits(Do(s, TestRunning(w)), t)
  {
    assert forall v :: Holds(Do(s, TestRunning(w)), v, t) <==> Holds(s, v, t);
  }

  lemma FitsKeptByWake(s: State, w: Worker, t: TaskId)
    requires Inv(s) && Enabled(s, Wake(w)) && Fits(s, t)
    ensures Fits(Do(s, Wake(w)), t)
  {
    assert forall v :: Holds(Do(s, Wake(w)), v, t) <==> Holds(s, v, t);
  }

  lemma FitsKeptByBegin(s: State, w: Worker, t: TaskId)
    requires Inv(s) && Enabled(s, BeginUpdate(w)) && Fits(s, t)
    ensures Fits(Do(s, BeginUpdate(w)), t)
  {
    assert forall v :: Holds(Do(s, BeginUpdate(w)), v, t) <==> Holds(s, v, t);
  }

  lemma FitsKeptByUpdate(s: State, w: Worker, answer: TaskResult, t: TaskId)
    requires Inv(s) && Enabled(s, EndUpdate(w, answer)) && Fits(s, t)
    ensures Fits(Do(s, EndUpdate(w, answer)), t)
  {
    var s', u := Do(s, EndUpdate(w, answer)), s.workers[w].task;
    assert Holds(s, w, u);
    UpdatedKeepsCoherent(s.tasks[u], answer);
    assert forall v :: Holds(s', v, t) <==> Holds(s, v, t);
    assert t == u ==> forall v :: Holds(s, v, t) ==> v == w;
  }

  lemma FitsKeptByTake(s: State, w: Worker, t: TaskId)
    requires Inv(s) && Enabled(s, TakeOrQuit(w)) && Fits(s, t)
    ensures Fits(Do(s, TakeOrQuit(w)), t)
  {
    var s' := Do(s, TakeOrQuit(w));
    if s.running {
      QueueWithoutFirst(s.queue);
      assert s.queue[0] in s.queue;
      assert forall v :: v != w ==> (Holds(s', v, t) <==> Holds(s, v, t));
    } else {
      assert forall v :: Holds(s', v, t) <==> Holds(s, v, t);
    }
  }

  lemma FitsKeptByRequeue(s: State, w: Worker, t: TaskId)
    requires Inv(s) && Enabled(s, TestRequeue(w)) && Fits(s, t)
    ensures Fits(Do(s, TestRequeue(w)), t)
  {
    assert Holds(s, w, s.workers[w].task);
    assert forall v :: Holds(Do(s, TestRequeue(w)), v, t) ==> Holds(s, v, t);
  }

  lemma FitsKeptByPushBack(s: State, w: Worker, t: TaskId)
    requires Inv(s) && Enabled(s, PushBack(w)) && Fits(s, t)
    ensures Fits(Do(s, PushBack(w)), t)
  {
    assert Holds(s, w, s.workers[w].task);
    assert forall v :: Holds(Do(s, PushBack(w)), v, t) ==> Holds(s, v, t);
  }

  lemma FitsKeptByDelete(s: State, w: Worker, t: TaskId)
    requires Inv(s) && Enabled(s, DeleteTask(w)) && Fits(s, t)
    ensures Fits(Do(s, DeleteTask(w)), t)
  {
    var s', u := Do(s, DeleteTask(w)), s.workers[w].task;
    assert Holds(s, w, u);
    assert forall v :: Holds(s', v, t) <==> v != w && Holds(s, v, t);
  }

  lemma FitsKeptByDrain(s: State, t: TaskId)
    requires Inv(s) && Enabled(s, DrainOne) && Fits(s, t)
    ensures Fits(Do(s, DrainOne), t)
  {
    var s', u := Do(s, DrainOne), s.queue[0];
    assert u in s.queue;
    QueueWithoutFirst(s.queue);
    assert forall v :: Holds(s', v, t) <==> Holds(s, v, t);
  }

  lemma FitsKeptByEntry(s: State, step: Scheduler.Step, t: TaskId)
    requires Inv(s) && Enabled(s, step) && (step.Submit? || step.PushSubmitted?) && Fits(s, t)
    ensures Fits(Do(s, step), t)
  {
    assert forall v :: Holds(Do(s, step), v, t) <==> Holds(s, v, t);
  }

  lemma FitsKeptByOther(s: State, step: Scheduler.Step, t: TaskId)
    requires Inv(s) && Enabled(s, step) && !IsMove(step) && !IsTransfer(step) && Fits(s, t)
    ensures Fits(Do(s, step), t)
  {
    assert forall v :: Holds(Do(s, step), v, t) <==> Holds(s, v, t);
  }

  lemma FitsKept(s: State, step: Scheduler.Step, t: TaskId)
    requires Inv(s) && Enabled(s, step) && Fits(s, t)
    ensures Fits(Do(s, step), t)
  {
    match step {
      case TestRunning(w) => FitsKeptByTest(s, w, t);
      case Wake(w) => FitsKeptByWake(s, w, t);
      case BeginUpdate(w) => FitsKeptByBegin(s, w, t);
      case EndUpdate(w, answer) => FitsKeptByUpdate(s, w, answer, t);
      case TakeOrQuit(w) => FitsKeptByTake(s, w, t);
      case TestRequeue(w) => FitsKeptByRequeue(s, w, t);
      case PushBack(w) => FitsKeptByPushBack(s, w, t);
      case DeleteTask(w) => FitsKeptByDelete(s, w, t);
      case DrainOne => FitsKeptByDrain(s, t);
      case Submit(_, _) => FitsKeptByEntry(s, step, t);
      case PushSubmitted(_) => FitsKeptByEntry(s, step, t);
      case _ => FitsKeptByOther(s, step, t);
    }
  }

  /**
   In every interleaving: what waits or was let go has not ended, what a worker updates or
   requeues has not ended, and what it is about to delete has.
   */
  lemma {:induction false} WorkersDeleteExactlyTheEnded(
      ws: set<Worker>, states: seq<State>, steps: seq<Scheduler.Step>, i: nat, t: TaskId)
    requires IsRun(ws, states, steps) && i < |states|
    ensures Fits(states[i], t)
  {
    if i > 0 {
      RunKeepsInv(ws, states, steps, i - 1);
      WorkersDeleteExactlyTheEnded(ws, states, steps, i - 1, t);
      FitsKept(states[i - 1], steps[i - 1], t);
    }
  }
}
