/**
 What the end of a run leaves behind: which tasks `Clean` has deleted, and which are
 lost because an `AddTask` came too late or stood between its test and its push.
 */
module CleanUps {
  import opened Common
  import opened Tasks
  import opened Paths
  import opened Scheduler
  import opened SchedulerRuns
  import opened ThreadSystems

  // ---------- dropped tasks ----------

  /** The step is an `AddTask`, of another thread or of a worker that requeues, that finds the system stopped. */
  predicate Drops(s: State, step: Scheduler.Step, t: TaskId) {
    && !s.running
    && ((step.Submit? && step.task == t) || (step.TestRequeue? && Holds(s, step.worker, t)))
  }

  predicate ComesLate(s: State, step: Scheduler.Step) {
    !s.running && (step.Submit? || step.TestRequeue?)
  }

  /** The task such a step is about. */
  function LateTask(s: State, step: Scheduler.Step): (t: TaskId)
    requires Enabled(s, step) && ComesLate(s, step)
    ensures Drops(s, step, t)
  {
    if step.Submit? then step.task else s.workers[step.worker].task
  }

  lemma StepDropsExactly(s: State, step: Scheduler.Step, t: TaskId)
    requires Sound(s) && Enabled(s, step)
    ensures t in Do(s, step).dropped <==> t in s.dropped || Drops(s, step, t)
  {
  }

  lemma RunDropsExactly(ws: set<Worker>, states: seq<State>, steps: seq<Scheduler.Step>, i: nat, t: TaskId)
    requires IsRun(ws, states, steps) && i < |steps|
    ensures t in states[i + 1].dropped <==> t in states[i].dropped || Drops(states[i], steps[i], t)
  {
    StepDropsExactly(states[i], steps[i], t);
  }

  predicate DroppedBefore(states: seq<State>, steps: seq<Scheduler.Step>, i: nat, t: TaskId)
    requires i <= |steps| <= |states|
  {
    exists j :: 0 <= j < i && Drops(states[j], steps[j], t)
  }

  /** A task is dropped exactly when an `AddTask` of it found the system stopped. */
  lemma DroppedExactly(ws: set<Worker>, states: seq<State>, steps: seq<Scheduler.Step>, i: nat, t: TaskId)
    requires IsRun(ws, states, steps) && i < |states|
    ensures t in states[i].dropped <==> DroppedBefore(states, steps, i, t)
  {
    forall s, step, s' | Takes(s, step, s')
      ensures t in s'.dropped <==> t in s.dropped || Drops(s, step, t)
    {
      StepDropsExactly(s, step, t);
    }
    RunGains(Takes, (s: State) => t in s.dropped, (s, step) => Drops(s, step, t), states, steps, i);
  }

  /** Such a task is let go for good: no later step deletes it or makes it call anything. */
  lemma DroppedStaysSilent(s: State, step: Scheduler.Step, t: TaskId)
    requires Inv(s) && Enabled(s, step) && t in s.dropped
    ensures var s' := Do(s, step);
            t in s'.dropped && t !in s'.deletions && t in s'.tasks && s'.tasks[t].trace == s.tasks[t].trace
  {
    assert t in s.place;
    StepKeepsInv(s, step);
    StepDropsExactly(s, step, t);
    assert t in Do(s, step).place;
    TouchesHeldOnly(s, step, t);
  }

  lemma TouchesHeldOnly(s: State, step: Scheduler.Step, t: TaskId)
    requires Inv(s) && Enabled(s, step) && t in s.dropped && t in s.place
    ensures t in Do(s, step).tasks && Do(s, step).tasks[t].trace == s.tasks[t].trace
  {
    match step {
      case EndUpdate(w, answer) => UpdateTouchesHeld(s, w, answer, t);
      case DeleteTask(w) => assert Holds(s, w, s.workers[w].task);
      case DrainOne => assert s.queue[0] in s.queue;
      case _ =>
    }
  }

  lemma UpdateTouchesHeld(s: State, w: Worker, answer: TaskResult, t: TaskId)
    requires Inv(s) && Enabled(s, EndUpdate(w, answer)) && t in s.dropped && t in s.place
    ensures t in Do(s, EndUpdate(w, answer)).tasks && Do(s, EndUpdate(w, answer)).tasks[t] == s.tasks[t]
  {
    assert Holds(s, w, s.workers[w].task);
  }

  lemma {:induction false} DroppedIsForever(
      ws: set<Worker>, states: seq<State>, steps: seq<Scheduler.Step>, i: nat, j: nat, t: TaskId)
    requires IsRun(ws, states, steps) && i <= j < |states| && t in states[i].dropped
    ensures t in states[j].dropped && t !in states[j].deletions
    ensures t in states[i].tasks && t in states[j].tasks && states[j].tasks[t].trace == states[i].tasks[t].trace
    decreases j
  {
    if i == j {
      RunKeepsInv(ws, states, steps, i);
      assert t in states[i].place;
    } else {
      DroppedIsForever(ws, states, steps, i, j - 1, t);
      RunKeepsInv(ws, states, steps, j - 1);
      DroppedStaysSilent(states[j - 1], steps[j - 1], t);
    }
  }

  // ---------- after `Clean` ----------

  /** Every task is accounted for: deleted, or dropped by an `AddTask` that came too late. */
  predicate AllSettled(s: State) {
    forall t :: t in s.tasks ==> t in s.deletions || t in s.dropped
  }

  function Unsettled(s: State): set<TaskId> {
    s.entering + set t | t in s.queue
  }

  /** Once cleaned up, nothing settles or enters any more: what is unsettled stays so. */
  lemma CleanedIsFinal(s: State, step: Scheduler.Step)
    requires Inv(s) && s.phase == Cleaned && Enabled(s, step)
    ensures Do(s, step).phase == Cleaned && Unsettled(Do(s, step)) == Unsettled(s)
  {
    match step {
      case PushSubmitted(t) => LatePushSettlesNothing(s, t);
      case _ => WorkersAreStopped(s, step);
    }
  }

  lemma LatePushSettlesNothing(s: State, t: TaskId)
    requires Inv(s) && Enabled(s, PushSubmitted(t))
    ensures Do(s, PushSubmitted(t)).phase == s.phase && Unsettled(Do(s, PushSubmitted(t))) == Unsettled(s)
  {
    assert forall u :: u in Do(s, PushSubmitted(t)).queue <==> u == t || u in s.queue;
  }

  /** Cleaned up, no worker takes a step, and nothing is joined or drained. */
  lemma WorkersAreStopped(s: State, step: Scheduler.Step)
    requires Inv(s) && s.phase == Cleaned && Enabled(s, step) && !step.PushSubmitted?
    ensures step.Submit? || step.CancelTask? || step.StopSystem?
    ensures var s' := Do(s, step); s'.phase == s.phase && s'.queue == s.queue && s'.entering == s.entering
  {
  }

  /**
   Cleaned up, all tasks are settled exactly when no `AddTask` of another thread was between its
   test and its push.
   */
  lemma CleanedSettlesExactly(ws: set<Worker>, states: seq<State>, steps: seq<Scheduler.Step>, i: nat)
    requires IsRun(ws, states, steps) && i < |steps| && steps[i] == EndDrain
    ensures AllSettled(states[i + 1]) <==> states[i].entering == {}
  {
    RunKeepsInv(ws, states, steps, i + 1);
    var s := states[i + 1];
    SettledExactly(s);
    assert s.queue == [];
    assert Unsettled(s) == states[i].entering;
  }

  lemma NobodyHoldsAnything(s: State)
    requires Inv(s) && s.phase == Cleaned
    ensures forall t :: t in s.place ==> !s.place[t].Held?
  {
    forall t | t in s.place
      ensures !s.place[t].Held?
    {
      var place := s.place[t];
      var w := if place.Held? then place.worker else 0;
      assert !Holds(s, w, t);
    }
  }

  lemma SettledExactly(s: State)
    requires Inv(s) && s.phase == Cleaned
    ensures AllSettled(s) <==> Unsettled(s) == {}
  {
    NobodyHoldsAnything(s);
    assert forall t :: t in s.tasks <==> t in s.place;
    assert forall t :: t in s.place ==> ((t in s.deletions || t in s.dropped) <==> t !in Unsettled(s));
    assert forall t :: t in Unsettled(s) ==> t in s.place;
  }

  /** What `Clean` is for. */
  predicate AllDeleted(s: State) {
    forall t :: t in s.tasks ==> t in s.deletions
  }

  lemma DeletedExactly(s: State)
    requires Inv(s) && s.phase == Cleaned
    ensures AllDeleted(s) <==> Unsettled(s) == {} && s.dropped == {}
  {
    SettledExactly(s);
    assert forall t :: t in s.tasks <==> t in s.place;
    assert forall t :: t in s.dropped ==> t in s.place && t !in s.deletions;
    assert s.dropped == {} || exists t :: t in s.dropped;
  }

  /**
   Cleaned up, all tasks are deleted exactly when no `AddTask`, not even of a worker that
   requeues, ever found the system stopped, and none was between its test and its push.
   */
  lemma CleanedDeletesExactly(ws: set<Worker>, states: seq<State>, steps: seq<Scheduler.Step>, i: nat)
    requires IsRun(ws, states, steps) && i < |steps| && steps[i] == EndDrain
    ensures AllDeleted(states[i + 1])
            <==> states[i].entering == {} && forall j :: 0 <= j < i ==> !ComesLate(states[j], steps[j])
  {
    RunKeepsInv(ws, states, steps, i + 1);
    var s := states[i + 1];
    DeletedExactly(s);
    assert Unsettled(s) == states[i].entering;
    NeverDroppedExactly(ws, states, steps, i);
  }

  lemma NeverDroppedExactly(ws: set<Worker>, states: seq<State>, steps: seq<Scheduler.Step>, i: nat)
    requires IsRun(ws, states, steps) && i < |states|
    ensures states[i].dropped == {} <==> forall j :: 0 <= j < i ==> !ComesLate(states[j], steps[j])
  {
    if states[i].dropped != {} {
      var t :| t in states[i].dropped;
      DroppedExactly(ws, states, steps, i, t);
      var j :| 0 <= j < i && Drops(states[j], steps[j], t);
      assert ComesLate(states[j], steps[j]);
    }
    forall j | 0 <= j < i && ComesLate(states[j], steps[j])
      ensures states[i].dropped != {}
    {
      RunDropsExactly(ws, states, steps, j, LateTask(states[j], steps[j]));
      DroppedExactly(ws, states, steps, i, LateTask(states[j], steps[j]));
      assert LateTask(states[j], steps[j]) in states[i].dropped;
    }
  }

  // ---------- tasks that are lost ----------

  /** A queued task that no step can reach any more, after the steps. */
  ghost predicate LostAfter(steps: seq<Scheduler.Step>, s: State) {
    Leads(Started({}), steps, s) && Inv(s) && s.phase == Cleaned && s.queue == [0] && 0 !in s.deletions
  }

  /** And it happens: a task whose `AddTask` passed its test before the stop is queued after the clean-up, for ever. */
  lemma LateTaskIsLost()
    ensures exists steps, s :: LostAfter(steps, s)
  {
    var s0 := Started({});
    StartedInv({});
    OneMore(s0, [], s0, Submit(0, false));
    var s1 := Do(s0, Submit(0, false));
    OneMore(s0, [] + [Submit(0, false)], s1, StopSystem);
    var steps, s := StopAndClean(s0, [] + [Submit(0, false)] + [StopSystem], Do(s1, StopSystem));
    assert LostAfter(steps, s);
  }

  lemma StopAndClean(start: State, steps: seq<Scheduler.Step>, s: State)
      returns (steps': seq<Scheduler.Step>, s': State)
    requires Leads(start, steps, s) && Inv(s)
    requires !s.running && s.phase == Serving && s.workers == map[] && s.queue == [] && s.lock == None
            && 0 in s.entering
    ensures Leads(start, steps', s') && Inv(s') && s'.phase == Cleaned && s'.queue == [0] && 0 !in s'.deletions
  {
    OneMore(start, steps, s, BeginClean);
    var s1 := Do(s, BeginClean);
    OneMore(start, steps + [BeginClean], s1, BeginDrain);
    steps', s' := DrainNothing(start, steps + [BeginClean] + [BeginDrain], Do(s1, BeginDrain));
  }

  lemma DrainNothing(start: State, steps: seq<Scheduler.Step>, s: State)
      returns (steps': seq<Scheduler.Step>, s': State)
    requires Leads(start, steps, s) && Inv(s)
    requires s.phase == Draining && s.queue == [] && s.lock == None && 0 in s.entering
    ensures Leads(start, steps', s') && Inv(s') && s'.phase == Cleaned && s'.queue == [0] && 0 !in s'.deletions
  {
    OneMore(start, steps, s, EndDrain);
    var s1 := Do(s, EndDrain);
    OneMore(start, steps + [EndDrain], s1, PushSubmitted(0));
    LatePush(s1);
    steps', s' := steps + [EndDrain] + [PushSubmitted(0)], Do(s1, PushSubmitted(0));
  }

  lemma LatePush(s: State)
    requires Inv(s) && Enabled(s, PushSubmitted(0)) && s.phase == Cleaned && s.queue == []
    ensures var s' := Do(s, PushSubmitted(0)); s'.phase == Cleaned && s'.queue == [0] && 0 !in s'.deletions
  {
    assert s.place[0] == Entering;
  }

  lemma StepKeepsWorkers(s: State, step: Scheduler.Step)
    requires Sound(s) && Enabled(s, step)
    ensures Do(s, step).workers.Keys == s.workers.Keys
  {
  }

  lemma LeadsKeepsWorkers(s: State, steps: seq<Scheduler.Step>, s': State)
    requires Leads(s, steps, s')
    ensures s'.workers.Keys == s.workers.Keys
  {
    forall a, step, b | Moves(a, step, b)
      ensures b.workers.Keys == a.workers.Keys
    {
      StepKeepsWorkers(a, step);
    }
    PathKeeps(Moves, (t: State) => t.workers.Keys == s.workers.Keys, s, steps, s');
  }

  /** A task is added to a system with one worker. */
  lemma AddOne() returns (steps: seq<Scheduler.Step>, s: State)
    ensures Leads(Started({0}), steps, s) && MayGoRound(s, 0)
    ensures s.queue == [0] && s.tasks == map[0 := NewTask(false)]
  {
    var s0 := Started({0});
    StartedInv({0});
    OneMore(s0, [], s0, Submit(0, false));
    var s1 := Do(s0, Submit(0, false));
    OneMore(s0, [] + [Submit(0, false)], s1, PushSubmitted(0));
    steps, s := [] + [Submit(0, false)] + [PushSubmitted(0)], Do(s1, PushSubmitted(0));
  }

  /** The system stops before the worker requeues the task it has begun. */
  lemma StopBeforeRequeue(s: State) returns (steps: seq<Scheduler.Step>, s': State)
    requires Inv(s) && At(s, 0, Requeueing(0)) && s.running && s.queue == [] && 0 in s.tasks
    ensures Leads(s, steps, s') && Inv(s') && At(s', 0, Top) && !s'.running && s'.phase == Serving
    ensures s'.queue == [] && 0 in s'.dropped && s'.tasks == s.tasks
  {
    OneMore(s, [], s, StopSystem);
    var stopped := Do(s, StopSystem);
    OneMore(s, [] + [StopSystem], stopped, TestRequeue(0));
    steps, s' := [] + [StopSystem] + [TestRequeue(0)], Do(stopped, TestRequeue(0));
  }

  lemma Quit(s: State) returns (s': State)
    requires Inv(s) && At(s, 0, Top) && !s.running && s.phase == Serving && s.workers.Keys == {0}
    ensures Leads(s, [] + [TestRunning(0)], s') && Inv(s') && At(s', 0, Stopped) && s'.workers.Keys == {0}
    ensures !s'.running && s'.phase == Serving && s'.queue == s.queue && s'.dropped == s.dropped && s'.tasks == s.tasks
  {
    OneMore(s, [], s, TestRunning(0));
    s' := Do(s, TestRunning(0));
  }

  lemma JoinOne(s: State) returns (steps: seq<Scheduler.Step>, s': State)
    requires Inv(s) && At(s, 0, Stopped) && !s.running && s.phase == Serving && s.workers.Keys == {0}
    ensures Leads(s, steps, s') && Inv(s') && s'.phase == Joining({})
    ensures s'.queue == s.queue && s'.dropped == s.dropped && s'.tasks == s.tasks
  {
    OneMore(s, [], s, BeginClean);
    var joining := Do(s, BeginClean);
    OneMore(s, [] + [BeginClean], joining, Join(0));
    steps, s' := [] + [BeginClean] + [Join(0)], Do(joining, Join(0));
    assert s.workers.Keys - {0} == {};
  }

  lemma DrainEmpty(s: State) returns (steps: seq<Scheduler.Step>, s': State)
    requires Inv(s) && s.phase == Joining({}) && s.queue == []
    ensures Leads(s, steps, s') && Inv(s') && s'.phase == Cleaned
    ensures s'.queue == [] && s'.dropped == s.dropped && s'.tasks == s.tasks
  {
    OneMore(s, [], s, BeginDrain);
    var draining := Do(s, BeginDrain);
    OneMore(s, [] + [BeginDrain], draining, EndDrain);
    steps, s' := [] + [BeginDrain] + [EndDrain], Do(draining, EndDrain);
  }

  lemma CleanAfter(steps: seq<Scheduler.Step>, s: State) returns (steps': seq<Scheduler.Step>, s': State)
    requires Leads(Started({0}), steps, s)
    requires Inv(s) && At(s, 0, Top) && !s.running && s.phase == Serving && s.workers.Keys == {0} && s.queue == []
    ensures Leads(Started({0}), steps', s') && Inv(s') && s'.phase == Cleaned
    ensures s'.dropped == s.dropped && s'.tasks == s.tasks
  {
    var quit := Quit(s);
    LeadsOn(Started({0}), steps, s, [] + [TestRunning(0)], quit);
    var joined, s1 := JoinOne(quit);
    LeadsOn(Started({0}), steps + ([] + [TestRunning(0)]), quit, joined, s1);
    var drained, s2 := DrainEmpty(s1);
    LeadsOn(Started({0}), steps + ([] + [TestRunning(0)]) + joined, s1, drained, s2);
    steps', s' := steps + ([] + [TestRunning(0)]) + joined + drained, s2;
  }

  /** The worker has the task in its hands, begun. */
  lemma BeginOne() returns (steps: seq<Scheduler.Step>, s: State)
    ensures Leads(Started({0}), steps, s) && Inv(s) && At(s, 0, Requeueing(0)) && s.running && s.queue == []
    ensures 0 in s.tasks && s.tasks[0].trace == [OnTaskStart]
  {
    var added, s1 := AddOne();
    s := WorkLeads(s1, 0, NeedUpdate);
    LeadsOn(Started({0}), added, s1, WorkSteps(0, NeedUpdate), s);
    steps := added + WorkSteps(0, NeedUpdate);
    BegunIs();
  }

  lemma BegunIs()
    ensures AsksAgain(NewTask(false), NeedUpdate) && Updated(NewTask(false), NeedUpdate).0.trace == [OnTaskStart]
  {
    assert [] + [OnTaskStart] == [OnTaskStart];
  }

  /**
   A task that has begun is let go by a worker that finds the system stopped: cleaned up, it
   never ended and never will.
   */
  lemma StartedTaskIsDropped() returns (steps: seq<Scheduler.Step>, s: State)
    ensures Leads(Started({0}), steps, s) && Inv(s) && s.phase == Cleaned
    ensures 0 in s.dropped && 0 !in s.deletions && 0 in s.tasks && s.tasks[0].trace == [OnTaskStart]
  {
    var begun, dropped := DropOne();
    steps, s := CleanAfter(begun, dropped);
    assert 0 in s.place;
  }

  lemma DropOne() returns (steps: seq<Scheduler.Step>, s: State)
    ensures Leads(Started({0}), steps, s)
    ensures Inv(s) && At(s, 0, Top) && !s.running && s.phase == Serving && s.workers.Keys == {0} && s.queue == []
    ensures 0 in s.dropped && 0 in s.tasks && s.tasks[0].trace == [OnTaskStart]
  {
    var begun, s1 := BeginOne();
    var rest;
    rest, s := StopBeforeRequeue(s1);
    LeadsOn(Started({0}), begun, s1, rest, s);
    steps := begun + rest;
    LeadsKeepsWorkers(Started({0}), steps, s);
  }
}
