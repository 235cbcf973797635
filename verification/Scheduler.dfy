/**
 `ThreadSystem` as a concurrent system: task workers running `TaskThreadLoop`, other
 threads adding, canceling and stopping, and the creator cleaning up. A step is what
 happens between two points where another thread can come in: a load of `m_Running`, a
 section under `m_TaskMutex`, one call on a task.
 */
module Scheduler {
  import opened Common
  import opened Tasks
  import opened Paths

  type TaskId = nat
  type Worker = nat

  /** Where a worker is in `TaskThreadLoop`. */
  datatype Pc =
    | Top                      // about to enter the loop body
    | Waiting                  // in `m_TaskCondition.wait`
    | Locked                   // the wait is over, `m_TaskMutex` held, `m_Running` about to be tested
    | Holding(task: TaskId)    // popped
    | InUpdate(task: TaskId)   // inside `task->Update()`
    | Requeueing(task: TaskId) // `AddTask` about to test `m_Running`
    | Pushing(task: TaskId)    // `AddTask` about to push
    | Deleting(task: TaskId)   // about to `delete(task)`
    | Stopped                  // out of the thread's loop
  {
    predicate HasTask() {
      Holding? || InUpdate? || Requeueing? || Pushing? || Deleting?
    }
  }

  /** `Clean`: join the threads, then delete what is queued. */
  datatype Phase = Serving | Joining(left: set<Worker>) | Draining | Cleaned

  /** Where a task is. This is history: no step looks at it. */
  datatype Place = Entering | Queued | Held(worker: Worker) | Deleted | Dropped

  datatype State = State(
    running: bool,
    queue: seq<TaskId>,
    workers: map<Worker, Pc>,
    lock: Option<Worker>,
    told: set<Worker>,              // threads whose own running flag is down
    phase: Phase,
    tasks: map<TaskId, TaskState>,
    entering: set<TaskId>,          // `AddTask` of another thread, between its test and its push
    deletions: seq<TaskId>,         // every `delete`, in order
    dropped: set<TaskId>,           // `AddTask` found the system stopped
    pushed: seq<TaskId>,            // every push, in order
    popped: seq<TaskId>,            // every pop, in order
    place: map<TaskId, Place>)

  function Started(ws: set<Worker>): State {
    State(true, [], map w | w in ws :: Top, None, {}, Serving, map[], {}, [], {}, [], [], map[])
  }

  datatype Step =
    | Submit(task: TaskId, updateOnStart: bool)
    | PushSubmitted(task: TaskId)
    | TestRunning(worker: Worker)
    | Wake(worker: Worker)
    | TakeOrQuit(worker: Worker)
    | BeginUpdate(worker: Worker)
    | EndUpdate(worker: Worker, answer: TaskResult)
    | TestRequeue(worker: Worker)
    | PushBack(worker: Worker)
    | DeleteTask(worker: Worker)
    | CancelTask(task: TaskId)
    | StopSystem
    | BeginClean
    | TellStop(worker: Worker)
    | Join(worker: Worker)
    | BeginDrain
    | DrainOne
    | EndDrain

  predicate At(s: State, w: Worker, pc: Pc) {
    w in s.workers && s.workers[w] == pc
  }

  predicate Enabled(s: State, step: Step) {
    match step
    case Submit(t, _) => t !in s.tasks
    case PushSubmitted(t) => t in s.entering && s.lock == None
    case TestRunning(w) => At(s, w, Top)
    case Wake(w) => At(s, w, Waiting) && s.lock == None && (s.queue != [] || !s.running)
    case TakeOrQuit(w) => At(s, w, Locked)
    case BeginUpdate(w) => w in s.workers && s.workers[w].Holding?
    case EndUpdate(w, _) => w in s.workers && s.workers[w].InUpdate?
    case TestRequeue(w) => w in s.workers && s.workers[w].Requeueing?
    case PushBack(w) => w in s.workers && s.workers[w].Pushing? && s.lock == None
    case DeleteTask(w) => w in s.workers && s.workers[w].Deleting?
    case CancelTask(t) => t in s.tasks && t !in s.deletions
    case StopSystem => true
    case BeginClean => !s.running && s.phase == Serving
    case TellStop(w) => s.phase.Joining? && w in s.phase.left
    case Join(w) => s.phase.Joining? && w in s.phase.left && At(s, w, Stopped)
    case BeginDrain => s.phase.Joining? && s.phase.left == {}
    case DrainOne => s.phase == Draining && s.queue != []
    case EndDrain => s.phase == Draining && s.queue == []
  }

  function Goto(s: State, w: Worker, pc: Pc): State {
    s.(workers := s.workers[w := pc])
  }

  function Push(s: State, t: TaskId): State {
    s.(queue := s.queue + [t], pushed := s.pushed + [t], place := s.place[t := Queued])
  }

  /** The task comes off the front; a step asks for it only where the queue is known not to be empty. */
  function Pop(s: State, place: Place): State
    requires s.queue != []
  {
    s.(queue := s.queue[1..], popped := s.popped + [s.queue[0]], place := s.place[s.queue[0] := place])
  }

  function Delete(s: State, t: TaskId): State
    requires t in s.tasks
  {
    s.(tasks := s.tasks[t := Destroyed(s.tasks[t])], deletions := s.deletions + [t], place := s.place[t := Deleted])
  }

  function Drop(s: State, t: TaskId): State {
    s.(dropped := s.dropped + {t}, place := s.place[t := Dropped])
  }

  /** `AddTask` up to its push: the test of `m_Running`. */
  function Submitted(s: State, t: TaskId, updateOnStart: bool): State {
    var known := s.(tasks := s.tasks[t := NewTask(updateOnStart)]);
    if s.running then known.(entering := s.entering + {t}, place := s.place[t := Entering]) else Drop(known, t)
  }

  /** What each step does; `Sound` is what the state has to satisfy for the step to be defined. */
  function Do(s: State, step: Step): State
    requires Enabled(s, step) && Sound(s)
  {
    match step
    case Submit(t, updateOnStart) => Submitted(s, t, updateOnStart)
    case PushSubmitted(t) => Push(s.(entering := s.entering - {t}), t)
    case TestRunning(w) => Goto(s, w, if w !in s.told && s.running then Waiting else Stopped)
    case Wake(w) => Goto(s, w, Locked).(lock := Some(w))
    case TakeOrQuit(w) =>
      if s.running then Goto(Pop(s, Held(w)), w, Holding(s.queue[0])).(lock := None)
      else Goto(s, w, Stopped).(lock := None)
    case BeginUpdate(w) => Goto(s, w, InUpdate(s.workers[w].task))
    case EndUpdate(w, answer) =>
      var t := s.workers[w].task;
      var (after, result) := Updated(s.tasks[t], answer);
      Goto(s.(tasks := s.tasks[t := after]), w, if result == NeedUpdate then Requeueing(t) else Deleting(t))
    case TestRequeue(w) =>
      var t := s.workers[w].task;
      if s.running then Goto(s, w, Pushing(t)) else Goto(Drop(s, t), w, Top)
    case PushBack(w) => Goto(Push(s, s.workers[w].task), w, Top)
    case DeleteTask(w) => Goto(Delete(s, s.workers[w].task), w, Top)
    case CancelTask(t) => s.(tasks := s.tasks[t := Canceled(s.tasks[t])])
    case StopSystem => s.(running := false)
    case BeginClean => s.(phase := Joining(s.workers.Keys))
    case TellStop(w) => s.(told := s.told + {w})
    case Join(w) => s.(phase := Joining(s.phase.left - {w}))
    case BeginDrain => s.(phase := Draining)
    case DrainOne => Delete(Pop(s, Deleted), s.queue[0])
    case EndDrain => s.(phase := Cleaned)
  }

  // ---------- the invariant ----------

  predicate NoRepeats(q: seq<TaskId>) {
    forall i, j :: 0 <= i < j < |q| ==> q[i] != q[j]
  }

  predicate Holds(s: State, w: Worker, t: TaskId) {
    w in s.workers && s.workers[w].HasTask() && s.workers[w].task == t
  }

  /** A woken worker that will pop finds a task, and every held or queued task exists. */
  predicate Sound(s: State) {
    && (forall w :: w in s.workers && s.workers[w] == Locked && s.running ==> s.queue != [])
    && (forall w :: w in s.workers && s.workers[w].HasTask() ==> s.workers[w].task in s.tasks)
    && (forall i :: 0 <= i < |s.queue| ==> s.queue[i] in s.tasks)
  }

  /** The place of a task tells truly where it is, so it is nowhere else. */
  ghost predicate PlacesTrue(s: State) {
    && s.place.Keys == s.tasks.Keys
    && (forall t :: t in s.place ==> (t in s.entering <==> s.place[t] == Entering))
    && (forall t :: t in s.place ==> (t in s.queue <==> s.place[t] == Queued))
    && (forall t, w :: t in s.place ==> (Holds(s, w, t) <==> s.place[t] == Held(w)))
    && (forall t :: t in s.place ==> (t in s.deletions <==> s.place[t] == Deleted))
    && (forall t :: t in s.place ==> (t in s.dropped <==> s.place[t] == Dropped))
    && (forall t :: t in s.entering || t in s.queue || t in s.deletions || t in s.dropped ==> t in s.place)
    && NoRepeats(s.queue) && NoRepeats(s.deletions)
  }

  predicate LockTrue(s: State) {
    && (forall w :: w in s.workers && s.workers[w] == Locked ==> s.lock == Some(w))
    && (s.lock.Some? ==> At(s, s.lock.value, Locked))
  }

  predicate PhaseTrue(s: State) {
    && (s.phase != Serving ==> !s.running)
    && (s.phase.Joining? ==> forall w :: w in s.workers && w !in s.phase.left ==> s.workers[w] == Stopped)
    && (s.phase == Draining || s.phase == Cleaned ==> forall w :: w in s.workers ==> s.workers[w] == Stopped)
  }

  ghost predicate TasksTrue(s: State) {
    && (forall t :: t in s.tasks ==> Coherent(s.tasks[t]))
    && (forall t :: t in s.tasks && t in s.place && s.place[t] == Deleted ==> s.tasks[t].step in {NotStarted, Finished})
  }

  predicate FirstInFirstOut(s: State) {
    s.pushed == s.popped + s.queue
  }

  ghost predicate Inv(s: State) {
    Sound(s) && PlacesTrue(s) && LockTrue(s) && PhaseTrue(s) && TasksTrue(s) && FirstInFirstOut(s)
  }

  lemma StartedInv(ws: set<Worker>)
    ensures Inv(Started(ws))
  {
  }

  // ---------- each step keeps it ----------

  /** A worker moves, without its queue or its task changing hands. */
  predicate IsMove(step: Step) {
    step.TestRunning? || step.Wake? || step.BeginUpdate? || step.EndUpdate?
  }

  /** A task changes hands. */
  predicate IsTransfer(step: Step) {
    || step.TakeOrQuit? || step.TestRequeue? || step.PushBack? || step.DeleteTask? || step.DrainOne?
    || step.PushSubmitted? || step.Submit?
  }

  lemma SoundKept(s: State, step: Step)
    requires Inv(s) && Enabled(s, step)
    ensures Sound(Do(s, step))
  {
    if IsMove(step) {
      SoundKeptByMove(s, step);
    } else if IsTransfer(step) {
      SoundKeptByTransfer(s, step);
    } else {
      SoundKeptByOther(s, step);
    }
  }

  lemma SoundKeptByMove(s: State, step: Step)
    requires Inv(s) && Enabled(s, step) && IsMove(step)
    ensures Sound(Do(s, step))
  {
  }

  lemma SoundKeptByTransfer(s: State, step: Step)
    requires Inv(s) && Enabled(s, step) && IsTransfer(step)
    ensures Sound(Do(s, step))
  {
    match step {
      case PushSubmitted(t) => PushKeepsSound(s, s.(entering := s.entering - {t}), t);
      case PushBack(w) => PushKeepsSound(s, s, s.workers[w].task);
      case TakeOrQuit(w) => TakeKeepsSound(s, w);
      case _ => LeaveKeepsSound(s, step);
    }
  }

  lemma LeaveKeepsSound(s: State, step: Step)
    requires Inv(s) && Enabled(s, step) && (step.TestRequeue? || step.DeleteTask? || step.DrainOne? || step.Submit?)
    ensures Sound(Do(s, step))
  {
  }

  lemma SoundKeptByOther(s: State, step: Step)
    requires Inv(s) && Enabled(s, step) && !IsMove(step) && !IsTransfer(step)
    ensures Sound(Do(s, step))
  {
  }

  lemma PushKeepsSound(s: State, s1: State, t: TaskId)
    requires Inv(s) && t in s.tasks && s1 == s.(entering := s1.entering)
    ensures Sound(Push(s1, t))
    ensures forall w :: w in s.workers ==> Sound(Goto(Push(s1, t), w, Top))
  {
  }

  lemma TakeKeepsSound(s: State, w: Worker)
    requires Inv(s) && Enabled(s, TakeOrQuit(w))
    ensures Sound(Do(s, TakeOrQuit(w)))
  {
    assert forall v :: v in s.workers && s.workers[v] == Locked ==> v == w;
  }

  lemma LockKeptByMove(s: State, step: Step)
    requires Inv(s) && Enabled(s, step) && IsMove(step)
    ensures LockTrue(Do(s, step))
  {
  }

  lemma LockKeptByTransfer(s: State, step: Step)
    requires Inv(s) && Enabled(s, step) && IsTransfer(step)
    ensures LockTrue(Do(s, step))
  {
  }

  lemma LockKeptByOther(s: State, step: Step)
    requires Inv(s) && Enabled(s, step) && !IsMove(step) && !IsTransfer(step)
    ensures LockTrue(Do(s, step))
  {
  }

  lemma LockKept(s: State, step: Step)
    requires Inv(s) && Enabled(s, step)
    ensures LockTrue(Do(s, step))
  {
    if IsMove(step) {
      LockKeptByMove(s, step);
    } else if IsTransfer(step) {
      LockKeptByTransfer(s, step);
    } else {
      LockKeptByOther(s, step);
    }
  }

  lemma PhaseKeptByMove(s: State, step: Step)
    requires Inv(s) && Enabled(s, step) && IsMove(step)
    ensures PhaseTrue(Do(s, step))
  {
  }

  lemma PhaseKeptByTransfer(s: State, step: Step)
    requires Inv(s) && Enabled(s, step) && IsTransfer(step)
    ensures PhaseTrue(Do(s, step))
  {
  }

  lemma PhaseKeptByOther(s: State, step: Step)
    requires Inv(s) && Enabled(s, step) && !IsMove(step) && !IsTransfer(step)
    ensures PhaseTrue(Do(s, step))
  {
  }

  lemma PhaseKept(s: State, step: Step)
    requires Inv(s) && Enabled(s, step)
    ensures PhaseTrue(Do(s, step))
  {
    if IsMove(step) {
      PhaseKeptByMove(s, step);
    } else if IsTransfer(step) {
      PhaseKeptByTransfer(s, step);
    } else {
      PhaseKeptByOther(s, step);
    }
  }

  lemma FirstInFirstOutKeptByMove(s: State, step: Step)
    requires Inv(s) && Enabled(s, step) && IsMove(step)
    ensures FirstInFirstOut(Do(s, step))
  {
  }

  lemma PopKeepsOrder(s: State, place: Place)
    requires FirstInFirstOut(s) && s.queue != []
    ensures FirstInFirstOut(Pop(s, place))
  {
    var front, back := [s.queue[0]], s.queue[1..];
    assert s.queue == front + back;
    assert s.popped + (front + back) == (s.popped + front) + back;
  }

  lemma PushKeepsOrder(s: State, t: TaskId)
    requires FirstInFirstOut(s)
    ensures FirstInFirstOut(Push(s, t))
  {
    assert s.popped + (s.queue + [t]) == (s.popped + s.queue) + [t];
  }

  lemma FirstInFirstOutKeptByTransfer(s: State, step: Step)
    requires Inv(s) && Enabled(s, step) && IsTransfer(step)
    ensures FirstInFirstOut(Do(s, step))
  {
    match step {
      case TakeOrQuit(w) =>
        if s.running {
          PopKeepsOrder(s, Held(w));
        }
      case DrainOne => PopKeepsOrder(s, Deleted);
      case PushBack(w) => PushKeepsOrder(s, s.workers[w].task);
      case PushSubmitted(t) => PushKeepsOrder(s.(entering := s.entering - {t}), t);
      case _ =>
    }
  }

  lemma FirstInFirstOutKeptByOther(s: State, step: Step)
    requires Inv(s) && Enabled(s, step) && !IsMove(step) && !IsTransfer(step)
    ensures FirstInFirstOut(Do(s, step))
  {
  }

  lemma FirstInFirstOutKept(s: State, step: Step)
    requires Inv(s) && Enabled(s, step)
    ensures FirstInFirstOut(Do(s, step))
  {
    if IsMove(step) {
      FirstInFirstOutKeptByMove(s, step);
    } else if IsTransfer(step) {
      FirstInFirstOutKeptByTransfer(s, step);
    } else {
      FirstInFirstOutKeptByOther(s, step);
    }
  }

  /** One task changes as a task may, and is where it was, or deleted by then. */
  lemma TaskChangeKeepsTasks(s: State, s': State, t: TaskId)
    requires TasksTrue(s) && t in s.tasks
    requires t in s'.tasks && s'.tasks == s.tasks[t := s'.tasks[t]] && Coherent(s'.tasks[t])
    requires forall u :: u in s'.place && s'.place[u] == Deleted ==> u in s.place && (s.place[u] == Deleted || u == t)
    requires t in s'.place && s'.place[t] == Deleted ==> s'.tasks[t].step in {NotStarted, Finished}
    ensures TasksTrue(s')
  {
  }

  predicate NoNewDeletion(s: State, s': State) {
    s'.tasks == s.tasks && forall u :: u in s'.place && s'.place[u] == Deleted ==> u in s.place && s.place[u] == Deleted
  }

  lemma SameTasksKept(s: State, s': State)
    requires TasksTrue(s) && NoNewDeletion(s, s')
    ensures TasksTrue(s')
  {
  }

  lemma UpdateKeepsTasks(s: State, w: Worker, answer: TaskResult)
    requires Inv(s) && Enabled(s, EndUpdate(w, answer))
    ensures TasksTrue(Do(s, EndUpdate(w, answer)))
  {
    var t := s.workers[w].task;
    assert Holds(s, w, t);
    UpdatedKeepsCoherent(s.tasks[t], answer);
    TaskChangeKeepsTasks(s, Do(s, EndUpdate(w, answer)), t);
  }

  lemma DeleteKeepsTasks(s: State, w: Worker)
    requires Inv(s) && Enabled(s, DeleteTask(w))
    ensures TasksTrue(Do(s, DeleteTask(w)))
  {
    var t := s.workers[w].task;
    assert Holds(s, w, t);
    DestroyedIsCoherent(s.tasks[t]);
    TaskChangeKeepsTasks(s, Do(s, DeleteTask(w)), t);
  }

  lemma DrainKeepsTasks(s: State)
    requires Inv(s) && Enabled(s, DrainOne)
    ensures TasksTrue(Do(s, DrainOne))
  {
    var t := s.queue[0];
    assert t in s.queue;
    DestroyedIsCoherent(s.tasks[t]);
    TaskChangeKeepsTasks(s, Do(s, DrainOne), t);
  }

  lemma CancelKeepsTasks(s: State, t: TaskId)
    requires Inv(s) && Enabled(s, CancelTask(t))
    ensures TasksTrue(Do(s, CancelTask(t)))
  {
    TaskChangeKeepsTasks(s, Do(s, CancelTask(t)), t);
  }

  lemma SubmitKeepsTasks(s: State, t: TaskId, updateOnStart: bool)
    requires Inv(s) && Enabled(s, Submit(t, updateOnStart))
    ensures TasksTrue(Submitted(s, t, updateOnStart))
  {
  }

  lemma MovesKeepTasks(s: State, step: Step)
    requires Inv(s) && Enabled(s, step) && IsMove(step) && !step.EndUpdate?
    ensures NoNewDeletion(s, Do(s, step))
  {
  }

  lemma TakeKeepsTasks(s: State, w: Worker)
    requires Inv(s) && Enabled(s, TakeOrQuit(w))
    ensures NoNewDeletion(s, Do(s, TakeOrQuit(w)))
  {
  }

  lemma RequeueKeepsTasks(s: State, w: Worker)
    requires Inv(s) && Enabled(s, TestRequeue(w))
    ensures NoNewDeletion(s, Do(s, TestRequeue(w)))
  {
  }

  lemma TransfersKeepTasks(s: State, step: Step)
    requires Inv(s) && Enabled(s, step)
    requires step.TakeOrQuit? || step.TestRequeue? || step.PushBack? || step.PushSubmitted?
    ensures NoNewDeletion(s, Do(s, step))
  {
    match step {
      case TakeOrQuit(w) => TakeKeepsTasks(s, w);
      case TestRequeue(w) => RequeueKeepsTasks(s, w);
      case _ =>
    }
  }

  lemma OthersKeepTasks(s: State, step: Step)
    requires Inv(s) && Enabled(s, step) && !IsMove(step) && !IsTransfer(step) && !step.CancelTask?
    ensures NoNewDeletion(s, Do(s, step))
  {
  }

  lemma SameTasks(s: State, step: Step)
    requires Inv(s) && Enabled(s, step)
    requires !step.Submit? && !step.EndUpdate? && !step.DeleteTask? && !step.DrainOne? && !step.CancelTask?
    ensures TasksTrue(Do(s, step))
  {
    if IsMove(step) {
      MovesKeepTasks(s, step);
    } else if IsTransfer(step) {
      TransfersKeepTasks(s, step);
    } else {
      OthersKeepTasks(s, step);
    }
    SameTasksKept(s, Do(s, step));
  }

  lemma TasksKept(s: State, step: Step)
    requires Inv(s) && Enabled(s, step)
    ensures TasksTrue(Do(s, step))
  {
    match step {
      case Submit(t, updateOnStart) => SubmitKeepsTasks(s, t, updateOnStart);
      case EndUpdate(w, answer) => UpdateKeepsTasks(s, w, answer);
      case DeleteTask(w) => DeleteKeepsTasks(s, w);
      case DrainOne => DrainKeepsTasks(s);
      case CancelTask(t) => CancelKeepsTasks(s, t);
      case _ => SameTasks(s, step);
    }
  }

  // Places, one kind of move at a time.

  lemma MoveWithoutTask(s: State, w: Worker, pc: Pc)
    requires PlacesTrue(s) && w in s.workers && !s.workers[w].HasTask() && !pc.HasTask()
    ensures PlacesTrue(Goto(s, w, pc))
  {
    assert forall v, t :: Holds(Goto(s, w, pc), v, t) <==> Holds(s, v, t);
  }

  lemma MoveWithTask(s: State, w: Worker, pc: Pc)
    requires PlacesTrue(s) && w in s.workers && s.workers[w].HasTask() && pc.HasTask() && pc.task == s.workers[w].task
    ensures PlacesTrue(Goto(s, w, pc))
  {
    assert forall v, t :: Holds(Goto(s, w, pc), v, t) <==> Holds(s, v, t);
  }

  lemma TakeKeepsPlaces(s: State, w: Worker)
    requires PlacesTrue(s) && w in s.workers && !s.workers[w].HasTask() && s.queue != []
    ensures PlacesTrue(Goto(Pop(s, Held(w)), w, Holding(s.queue[0])))
  {
    var t := s.queue[0];
    var s' := Goto(Pop(s, Held(w)), w, Holding(t));
    assert t in s.queue;
    QueueWithoutFirst(s.queue);
    assert forall v, u :: Holds(s', v, u) <==> if v == w then u == t else Holds(s, v, u);
  }

  lemma QueueWithoutFirst(q: seq<TaskId>)
    requires q != [] && NoRepeats(q)
    ensures NoRepeats(q[1..]) && forall t :: t in q[1..] <==> t in q && t != q[0]
  {
  }

  lemma PushBackKeepsPlaces(s: State, w: Worker)
    requires PlacesTrue(s) && w in s.workers && s.workers[w].HasTask() && s.workers[w].task in s.tasks
    ensures PlacesTrue(Goto(Push(s, s.workers[w].task), w, Top))
  {
    var t := s.workers[w].task;
    var s' := Goto(Push(s, t), w, Top);
    assert Holds(s, w, t);
    assert forall v, u :: Holds(s', v, u) <==> v != w && Holds(s, v, u);
    assert forall u :: u in s'.queue <==> u == t || u in s.queue;
  }

  lemma PushSubmittedKeepsPlaces(s: State, t: TaskId)
    requires PlacesTrue(s) && t in s.entering
    ensures PlacesTrue(Push(s.(entering := s.entering - {t}), t))
  {
    var s' := Push(s.(entering := s.entering - {t}), t);
    assert forall v, u :: Holds(s', v, u) <==> Holds(s, v, u);
    assert forall u :: u in s'.queue <==> u == t || u in s.queue;
  }

  lemma DropKeepsPlaces(s: State, w: Worker)
    requires PlacesTrue(s) && w in s.workers && s.workers[w].HasTask() && s.workers[w].task in s.tasks
    ensures PlacesTrue(Goto(Drop(s, s.workers[w].task), w, Top))
  {
    var t := s.workers[w].task;
    var s' := Goto(Drop(s, t), w, Top);
    assert Holds(s, w, t);
    assert forall v, u :: Holds(s', v, u) <==> v != w && Holds(s, v, u);
  }

  lemma DeleteKeepsPlaces(s: State, w: Worker)
    requires PlacesTrue(s) && w in s.workers && s.workers[w].HasTask() && s.workers[w].task in s.tasks
    ensures PlacesTrue(Goto(Delete(s, s.workers[w].task), w, Top))
  {
    var t := s.workers[w].task;
    var s' := Goto(Delete(s, t), w, Top);
    assert Holds(s, w, t);
    assert forall v, u :: Holds(s', v, u) <==> v != w && Holds(s, v, u);
    assert forall u :: u in s'.deletions <==> u == t || u in s.deletions;
  }

  lemma DrainKeepsPlaces(s: State)
    requires PlacesTrue(s) && s.queue != [] && s.queue[0] in s.tasks
    ensures PlacesTrue(Delete(Pop(s, Deleted), s.queue[0]))
  {
    var t := s.queue[0];
    var s' := Delete(Pop(s, Deleted), t);
    assert t in s.queue;
    QueueWithoutFirst(s.queue);
    assert forall v, u :: Holds(s', v, u) <==> Holds(s, v, u);
    assert forall u :: u in s'.deletions <==> u == t || u in s.deletions;
  }

  lemma SubmitKeepsPlaces(s: State, t: TaskId, updateOnStart: bool)
    requires PlacesTrue(s) && Sound(s) && t !in s.tasks
    ensures PlacesTrue(Submitted(s, t, updateOnStart))
  {
    var s' := Submitted(s, t, updateOnStart);
    assert forall v, u :: Holds(s', v, u) <==> Holds(s, v, u);
    assert forall v :: !Holds(s, v, t);
  }

  lemma PlacesIgnore(s: State, s': State)
    requires PlacesTrue(s)
    requires s'.place == s.place && s'.tasks.Keys == s.tasks.Keys && s'.entering == s.entering && s'.queue == s.queue
    requires s'.workers == s.workers && s'.deletions == s.deletions && s'.dropped == s.dropped
    ensures PlacesTrue(s')
  {
    assert forall v, u :: Holds(s', v, u) <==> Holds(s, v, u);
  }

  lemma MovesKeepPlaces(s: State, step: Step)
    requires Inv(s) && Enabled(s, step) && IsMove(step)
    ensures PlacesTrue(Do(s, step))
  {
    var s' := Do(s, step);
    match step {
      case TestRunning(w) => MoveWithoutTask(s, w, s'.workers[w]);
      case Wake(w) =>
        MoveWithoutTask(s, w, Locked);
        PlacesIgnore(Goto(s, w, Locked), s');
      case BeginUpdate(w) => MoveWithTask(s, w, s'.workers[w]);
      case EndUpdate(w, answer) =>
        MoveWithTask(s, w, s'.workers[w]);
        PlacesIgnore(Goto(s, w, s'.workers[w]), s');
    }
  }

  lemma TakeOrQuitKeepsPlaces(s: State, w: Worker)
    requires Inv(s) && Enabled(s, TakeOrQuit(w))
    ensures PlacesTrue(Do(s, TakeOrQuit(w)))
  {
    if s.running {
      TakeKeepsPlaces(s, w);
      PlacesIgnore(Goto(Pop(s, Held(w)), w, Holding(s.queue[0])), Do(s, TakeOrQuit(w)));
    } else {
      MoveWithoutTask(s, w, Stopped);
      PlacesIgnore(Goto(s, w, Stopped), Do(s, TakeOrQuit(w)));
    }
  }

  lemma TestRequeueKeepsPlaces(s: State, w: Worker)
    requires Inv(s) && Enabled(s, TestRequeue(w))
    ensures PlacesTrue(Do(s, TestRequeue(w)))
  {
    if s.running {
      MoveWithTask(s, w, Pushing(s.workers[w].task));
    } else {
      DropKeepsPlaces(s, w);
    }
  }

  lemma TransfersKeepPlaces(s: State, step: Step)
    requires Inv(s) && Enabled(s, step) && IsTransfer(step)
    ensures PlacesTrue(Do(s, step))
  {
    match step {
      case Submit(t, updateOnStart) => SubmitKeepsPlaces(s, t, updateOnStart);
      case PushSubmitted(t) => PushSubmittedKeepsPlaces(s, t);
      case TakeOrQuit(w) => TakeOrQuitKeepsPlaces(s, w);
      case TestRequeue(w) => TestRequeueKeepsPlaces(s, w);
      case PushBack(w) => PushBackKeepsPlaces(s, w);
      case DeleteTask(w) => DeleteKeepsPlaces(s, w);
      case DrainOne => DrainKeepsPlaces(s);
    }
  }

  lemma PlacesKept(s: State, step: Step)
    requires Inv(s) && Enabled(s, step)
    ensures PlacesTrue(Do(s, step))
  {
    if IsMove(step) {
      MovesKeepPlaces(s, step);
    } else if IsTransfer(step) {
      TransfersKeepPlaces(s, step);
    } else {
      PlacesIgnore(s, Do(s, step));
    }
  }

  /** Every step of every thread keeps the invariant. */
  lemma StepKeepsInv(s: State, step: Step)
    requires Inv(s) && Enabled(s, step)
    ensures Inv(Do(s, step))
  {
    SoundKept(s, step);
    PlacesKept(s, step);
    LockKept(s, step);
    PhaseKept(s, step);
    TasksKept(s, step);
    FirstInFirstOutKept(s, step);
  }

  // ---------- paths ----------

  /** A step of a sound system. */
  ghost predicate Moves(s: State, step: Step, s': State) {
    Inv(s) && Enabled(s, step) && s' == Do(s, step)
  }

  /** Taken in this order, the steps lead from one state to the other. */
  ghost predicate Leads(s: State, steps: seq<Step>, s': State) {
    Path(Moves, s, steps, s')
  }

  lemma OneMore(s: State, steps: seq<Step>, mid: State, step: Step)
    requires Leads(s, steps, mid) && Inv(mid) && Enabled(mid, step)
    ensures Leads(s, steps + [step], Do(mid, step)) && Inv(Do(mid, step))
  {
    StepKeepsInv(mid, step);
    PathStep(Moves, s, steps, mid, step, Do(mid, step));
  }

  lemma LeadsOn(s: State, xs: seq<Step>, mid: State, ys: seq<Step>, s': State)
    requires Leads(s, xs, mid) && Leads(mid, ys, s')
    ensures Leads(s, xs + ys, s')
  {
    PathOn(Moves, s, xs, mid, ys, s');
  }
}
