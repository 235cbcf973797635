/**
 `ThreadSystem` as an object: the queue, the running flag, and the methods as one thread
 runs them alone. `SchedulerRuns` says what happens when threads interleave; here one
 undisturbed round of a worker is shown to be a path through those steps.
 */
module ThreadSystems {
  import opened Common
  import opened Tasks
  import opened Scheduler

  /** The task's state after a round in which `OnUpdate`, if called, gave this answer. */
  function RoundState(t: TaskState, answer: TaskResult): TaskState {
    var (after, result) := Updated(t, answer);
    if result == NeedUpdate then after else Destroyed(after)
  }

  function AsksAgain(t: TaskState, answer: TaskResult): bool {
    Updated(t, answer).1 == NeedUpdate
  }

  class ThreadSystem {
    var running: bool
    var tasks: seq<Task>

    ghost predicate Valid()
      reads this
    {
      forall i, j :: 0 <= i < j < |tasks| ==> tasks[i] != tasks[j]
    }

    constructor ()
      ensures Valid() && !running && tasks == []
    {
      running := false;
      tasks := [];
    }

    method Start()
      modifies this`running
      ensures running
    {
      if !running {
        running := true;
      }
    }

    /** `AddTask`: a system that is not running lets the task go. */
    method AddTask(taskToAdd: Task)
      requires Valid() && taskToAdd !in tasks
      modifies this`tasks
      ensures Valid() && tasks == if running then old(tasks) + [taskToAdd] else old(tasks)
    {
      if running {
        tasks := tasks + [taskToAdd];
      }
    }

    /** `TaskThreadLoop`, entered when the wait would return at once; `answer` is what the task's `OnUpdate` returns. */
    method TaskThreadLoop(answer: TaskResult) returns (result: TaskResult)
      requires Valid() && (running ==> tasks != [])
      modifies this`tasks, tasks
      ensures Valid()
      ensures !running ==>
                result == Fail && tasks == old(tasks) && forall t :: t in tasks ==> t.State() == old(t.State())
      ensures running ==>
                var t := old(tasks)[0];
                && result == NeedUpdate
                && t.State() == RoundState(old(t.State()), answer)
                && tasks == old(tasks)[1..] + (if AsksAgain(old(t.State()), answer) then [t] else [])
                && forall u :: u in old(tasks)[1..] ==> u.State() == old(u.State())
    {
      if !running {
        return Fail;
      }
      var task := tasks[0];
      tasks := tasks[1..];
      assert task !in tasks;
      var again := task.Update(answer);
      if again == NeedUpdate {
        AddTask(task);
      } else {
        task.Destroy();
      }
      result := NeedUpdate;
    }

    method Stop()
      modifies this`running
      ensures !running
    {
      if running {
        running := false;
      }
    }

    /** `Clean`, its threads joined: every queued task is destroyed once, in queue order. */
    method Clean()
      requires Valid()
      modifies this`tasks, tasks
      ensures Valid() && tasks == []
      ensures forall t :: t in old(tasks) ==> t.State() == Destroyed(old(t.State()))
    {
      ghost var all := tasks;
      ghost var k := 0;
      while tasks != []
        invariant Valid() && k <= |all| && tasks == all[k..]
        invariant forall i :: 0 <= i < k ==> all[i].State() == Destroyed(old(all[i].State()))
        invariant forall i :: k <= i < |all| ==> all[i].State() == old(all[i].State())
        decreases |tasks|
      {
        assert tasks[0] == all[k];
        tasks[0].Destroy();
        tasks := tasks[1..];
        k := k + 1;
      }
    }
  }

  // ---------- one round as steps ----------

  function TakeSteps(w: Worker): seq<Scheduler.Step> {
    [] + [TestRunning(w)] + [Wake(w)] + [TakeOrQuit(w)]
  }

  function WorkSteps(w: Worker, answer: TaskResult): seq<Scheduler.Step> {
    TakeSteps(w) + [BeginUpdate(w)] + [EndUpdate(w, answer)]
  }

  /** A worker about to enter the loop of a running system that has something queued and nobody in its way. */
  ghost predicate MayGoRound(s: State, w: Worker) {
    Inv(s) && At(s, w, Top) && w !in s.told && s.running && s.queue != [] && s.lock == None
  }

  lemma TakeLeads(s: State, w: Worker) returns (t: State)
    requires MayGoRound(s, w)
    ensures Leads(s, TakeSteps(w), t) && Inv(t)
    ensures At(t, w, Holding(s.queue[0])) && t.queue == s.queue[1..] && t.tasks == s.tasks
    ensures t.running && t.lock == None && t.deletions == s.deletions
  {
    OneMore(s, [], s, TestRunning(w));
    var waiting := Do(s, TestRunning(w));
    OneMore(s, [] + [TestRunning(w)], waiting, Wake(w));
    var locked := Do(waiting, Wake(w));
    OneMore(s, [] + [TestRunning(w)] + [Wake(w)], locked, TakeOrQuit(w));
    t := Do(locked, TakeOrQuit(w));
  }

  lemma WorkLeads(s: State, w: Worker, answer: TaskResult) returns (t: State)
    requires MayGoRound(s, w)
    ensures Leads(s, WorkSteps(w, answer), t) && Inv(t) && s.queue[0] in s.tasks
    ensures t.queue == s.queue[1..] && t.running && t.lock == None && t.deletions == s.deletions
    ensures var task := s.queue[0];
            && t.tasks == s.tasks[task := Updated(s.tasks[task], answer).0]
            && At(t, w, if AsksAgain(s.tasks[task], answer) then Requeueing(task) else Deleting(task))
  {
    var taken := TakeLeads(s, w);
    OneMore(s, TakeSteps(w), taken, BeginUpdate(w));
    var begun := Do(taken, BeginUpdate(w));
    OneMore(s, TakeSteps(w) + [BeginUpdate(w)], begun, EndUpdate(w, answer));
    t := Do(begun, EndUpdate(w, answer));
  }

  lemma RequeueLeads(s: State, steps: seq<Scheduler.Step>, t: State, w: Worker, task: TaskId) returns (end: State)
    requires Leads(s, steps, t) && Inv(t) && At(t, w, Requeueing(task)) && t.running && t.lock == None
    ensures Leads(s, steps + [TestRequeue(w)] + [PushBack(w)], end) && Inv(end) && At(end, w, Top)
    ensures end.queue == t.queue + [task] && end.tasks == t.tasks && end.deletions == t.deletions
  {
    OneMore(s, steps, t, TestRequeue(w));
    var asked := Do(t, TestRequeue(w));
    OneMore(s, steps + [TestRequeue(w)], asked, PushBack(w));
    end := Do(asked, PushBack(w));
  }

  lemma DeleteLeads(s: State, steps: seq<Scheduler.Step>, t: State, w: Worker, task: TaskId) returns (end: State)
    requires Leads(s, steps, t) && Inv(t) && At(t, w, Deleting(task))
    ensures Leads(s, steps + [DeleteTask(w)], end) && Inv(end) && At(end, w, Top) && task in t.tasks
    ensures end.queue == t.queue && end.tasks == t.tasks[task := Destroyed(t.tasks[task])]
            && end.deletions == t.deletions + [task]
  {
    OneMore(s, steps, t, DeleteTask(w));
    end := Do(t, DeleteTask(w));
  }

  lemma SetTwice(m: map<TaskId, TaskState>, t: TaskId, a: TaskState, b: TaskState)
    ensures m[t := a][t := b] == m[t := b]
  {
  }

  /**
   A worker that goes round undisturbed takes one of these two paths through the steps of
   the concurrent system, and leaves the queue and the task as the method `TaskThreadLoop` does.
   */
  lemma UnfinishedRoundIsSteps(s: State, w: Worker, answer: TaskResult) returns (end: State)
    requires MayGoRound(s, w) && s.queue[0] in s.tasks && AsksAgain(s.tasks[s.queue[0]], answer)
    ensures Leads(s, WorkSteps(w, answer) + [TestRequeue(w)] + [PushBack(w)], end) && Inv(end) && At(end, w, Top)
    ensures end.queue == s.queue[1..] + [s.queue[0]]
    ensures end.tasks == s.tasks[s.queue[0] := RoundState(s.tasks[s.queue[0]], answer)]
    ensures end.deletions == s.deletions
  {
    var t := WorkLeads(s, w, answer);
    end := RequeueLeads(s, WorkSteps(w, answer), t, w, s.queue[0]);
  }

  lemma FinishedRoundIsSteps(s: State, w: Worker, answer: TaskResult) returns (end: State)
    requires MayGoRound(s, w) && s.queue[0] in s.tasks && !AsksAgain(s.tasks[s.queue[0]], answer)
    ensures Leads(s, WorkSteps(w, answer) + [DeleteTask(w)], end) && Inv(end) && At(end, w, Top)
    ensures end.queue == s.queue[1..]
    ensures end.tasks == s.tasks[s.queue[0] := RoundState(s.tasks[s.queue[0]], answer)]
    ensures end.deletions == s.deletions + [s.queue[0]]
  {
    var t := WorkLeads(s, w, answer);
    end := DeleteLeads(s, WorkSteps(w, answer), t, w, s.queue[0]);
    var after := Updated(s.tasks[s.queue[0]], answer).0;
    SetTwice(s.tasks, s.queue[0], after, Destroyed(after));
  }
}
