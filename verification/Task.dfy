/**
 `Concurrency::Task`: a unit of work that workers update until it ends, and the record
 of the virtual callbacks it makes.
 */
module Tasks {

  datatype TaskResult = Success | Fail | NeedUpdate

  datatype Step = NotStarted | Starting | Updating | Canceling | Finished

  datatype Callback = OnTaskStart | OnUpdate | OnTaskSuccess | OnTaskFail | OnTaskCanceled | OnTaskEnd

  datatype TaskState = TaskState(
      updateOnStart: bool, step: Step, needCancel: bool, finished: bool, trace: seq<Callback>)

  function NewTask(updateOnStart: bool): TaskState {
    TaskState(updateOnStart, NotStarted, false, false, [])
  }

  // ---------- what one call does ----------

  /** `ComputeTaskState`. */
  function Advanced(t: TaskState): TaskState {
    if t.step == Finished then t
    else if t.needCancel then t.(step := Canceling)
    else if t.step == NotStarted then t.(step := Starting)
    else t.(step := Updating)
  }

  function Calls(t: TaskState, c: Callback): TaskState {
    t.(trace := t.trace + [c])
  }

  /** `EndTask`. */
  function Ended(t: TaskState): TaskState {
    Calls(t, OnTaskEnd).(step := Finished, finished := true)
  }

  /** `UpdateTask`; `answer` is what the virtual `OnUpdate` returns. */
  function Worked(t: TaskState, answer: TaskResult): TaskState {
    match answer
    case Success => Ended(Calls(Calls(t, OnUpdate), OnTaskSuccess))
    case Fail => Ended(Calls(Calls(t, OnUpdate), OnTaskFail))
    case NeedUpdate => Calls(t, OnUpdate)
  }

  /** `Update`. */
  function Updated(t: TaskState, answer: TaskResult): (TaskState, TaskResult) {
    var a := Advanced(t);
    match a.step
    case Canceling => (Ended(Calls(a, OnTaskCanceled)), Fail)
    case Starting =>
      if a.updateOnStart then (Worked(Calls(a, OnTaskStart), answer), answer) else (Calls(a, OnTaskStart), NeedUpdate)
    case Updating => (Worked(a, answer), answer)
    case _ => (a, Fail)
  }

  function Canceled(t: TaskState): TaskState {
    t.(needCancel := true)
  }

  /** The destructor. */
  function Destroyed(t: TaskState): TaskState {
    if t.step != Finished && t.step != NotStarted then Ended(Calls(t, OnTaskCanceled)) else t
  }

  class Task {
    const updateOnStart: bool
    var internalStep: Step
    var needCancel: bool
    var finished: bool
    var trace: seq<Callback>

    function State(): TaskState
      reads this
    {
      TaskState(updateOnStart, internalStep, needCancel, finished, trace)
    }

    constructor (updateOnStart: bool)
      ensures State() == NewTask(updateOnStart)
    {
      this.updateOnStart := updateOnStart;
      internalStep := NotStarted;
      needCancel := false;
      finished := false;
      trace := [];
    }

    method Update(answer: TaskResult) returns (result: TaskResult)
      modifies this
      ensures (State(), result) == Updated(old(State()), answer)
    {
      ComputeTaskState();
      match internalStep {
        case Canceling =>
          trace := trace + [OnTaskCanceled];
          EndTask();
          result := Fail;
        case Starting =>
          trace := trace + [OnTaskStart];
          if !updateOnStart {
            return NeedUpdate;
          }
          result := UpdateTask(answer);
        case Updating =>
          result := UpdateTask(answer);
        case _ =>
          result := Fail;
      }
    }

    method ComputeTaskState()
      modifies this
      ensures State() == Advanced(old(State()))
    {
      if internalStep != Finished {
        if needCancel {
          internalStep := Canceling;
        } else if internalStep == NotStarted {
          internalStep := Starting;
        } else {
          internalStep := Updating;
        }
      }
    }

    method UpdateTask(answer: TaskResult) returns (result: TaskResult)
      modifies this
      ensures State() == Worked(old(State()), answer) && result == answer
    {
      trace := trace + [OnUpdate];
      result := answer;
      match result {
        case Success =>
          trace := trace + [OnTaskSuccess];
          EndTask();
        case Fail =>
          trace := trace + [OnTaskFail];
          EndTask();
        case NeedUpdate =>
      }
    }

    method EndTask()
      modifies this
      ensures State() == Ended(old(State()))
    {
      trace := trace + [OnTaskEnd];
      internalStep := Finished;
      finished := true;
    }

    method Cancel()
      modifies this
      ensures State() == Canceled(old(State()))
    {
      needCancel := true;
    }

    /** `~Task`. */
    method Destroy()
      modifies this
      ensures State() == Destroyed(old(State()))
    {
      if internalStep != Finished && internalStep != NotStarted {
        trace := trace + [OnTaskCanceled];
        EndTask();
      }
    }
  }

  // ---------- the callbacks a task may make ----------

  function Updates(k: nat): seq<Callback> {
    seq(k, _ => OnUpdate)
  }

  const BY_SUCCESS := [OnUpdate, OnTaskSuccess, OnTaskEnd]
  const BY_FAILURE := [OnUpdate, OnTaskFail, OnTaskEnd]
  const BY_CANCEL := [OnTaskCanceled, OnTaskEnd]

  predicate IsEnding(end: seq<Callback>) {
    end == BY_SUCCESS || end == BY_FAILURE || end == BY_CANCEL
  }

  /** A started task: one start, then updates. */
  ghost predicate Open(trace: seq<Callback>) {
    exists k: nat :: trace == [OnTaskStart] + Updates(k)
  }

  /** A whole life: canceled before its start, or started, updated, and ended once in one way. */
  ghost predicate Complete(trace: seq<Callback>) {
    trace == BY_CANCEL ||
    exists begun, end :: Open(begun) && IsEnding(end) && trace == begun + end
  }

  /** Part of a life. */
  ghost predicate Legal(trace: seq<Callback>) {
    exists whole :: Complete(whole) && trace <= whole
  }

  // ---------- every run ----------

  datatype Operation = UpdateOp(answer: TaskResult) | CancelOp

  function Apply(t: TaskState, op: Operation): TaskState {
    match op
    case UpdateOp(answer) => Updated(t, answer).0
    case CancelOp => Canceled(t)
  }

  function Run(updateOnStart: bool, ops: seq<Operation>): TaskState {
    if ops == [] then NewTask(updateOnStart)
    else Apply(Run(updateOnStart, ops[..|ops| - 1]), ops[|ops| - 1])
  }

  /** What the step says about the callbacks so far. */
  ghost predicate Coherent(t: TaskState) {
    && (t.finished <==> t.step == Finished)
    && match t.step
       case NotStarted => t.trace == []
       case Starting => Open(t.trace)
       case Updating => Open(t.trace)
       case Canceling => false
       case Finished => Complete(t.trace)
  }

  lemma OpenGrows(trace: seq<Callback>)
    requires Open(trace)
    ensures Open(trace + [OnUpdate])
  {
    var k: nat :| trace == [OnTaskStart] + Updates(k);
    assert trace + [OnUpdate] == [OnTaskStart] + Updates(k + 1);
  }

  lemma OpenStarts()
    ensures Open([OnTaskStart])
  {
    assert [OnTaskStart] == [OnTaskStart] + Updates(0);
  }

  lemma EndsOpen(begun: seq<Callback>, end: seq<Callback>)
    requires Open(begun) && IsEnding(end)
    ensures Complete(begun + end)
  {
  }

  lemma WorkedKeepsCoherent(t: TaskState, answer: TaskResult)
    requires Open(t.trace) && t.step in {Starting, Updating} && !t.finished
    ensures Coherent(Worked(t, answer))
  {
    OpenGrows(t.trace);
    EndsOpen(t.trace, BY_SUCCESS);
    EndsOpen(t.trace, BY_FAILURE);
    match answer {
      case Success => assert Worked(t, answer).trace == t.trace + BY_SUCCESS;
      case Fail => assert Worked(t, answer).trace == t.trace + BY_FAILURE;
      case NeedUpdate =>
    }
  }

  lemma CancelCompletes(t: TaskState)
    requires t.trace == [] || Open(t.trace)
    ensures Complete(Ended(Calls(t, OnTaskCanceled)).trace)
  {
    assert Ended(Calls(t, OnTaskCanceled)).trace == t.trace + BY_CANCEL;
    if t.trace != [] {
      EndsOpen(t.trace, BY_CANCEL);
    }
  }

  lemma UpdatedKeepsCoherent(t: TaskState, answer: TaskResult)
    requires Coherent(t)
    ensures Coherent(Updated(t, answer).0)
    ensures Updated(t, answer).0.step != NotStarted
    ensures Updated(t, answer).1 != NeedUpdate <==> Updated(t, answer).0.step == Finished
  {
    var a := Advanced(t);
    OpenStarts();
    match a.step {
      case Canceling => CancelCompletes(a);
      case Starting =>
        assert [] + [OnTaskStart] == [OnTaskStart];
        WorkedKeepsCoherent(Calls(a, OnTaskStart), answer);
      case Updating => WorkedKeepsCoherent(a, answer);
      case _ =>
    }
  }

  lemma {:induction false} RunIsCoherent(updateOnStart: bool, ops: seq<Operation>)
    ensures Coherent(Run(updateOnStart, ops))
    ensures Run(updateOnStart, ops).step == NotStarted <==> forall i :: 0 <= i < |ops| ==> ops[i] == CancelOp
    decreases |ops|
  {
    if ops != [] {
      var before, op := ops[..|ops| - 1], ops[|ops| - 1];
      RunIsCoherent(updateOnStart, before);
      if op.UpdateOp? {
        UpdatedKeepsCoherent(Run(updateOnStart, before), op.answer);
      }
      assert ops == before + [op];
    }
  }

  lemma CoherentIsLegal(t: TaskState)
    requires Coherent(t)
    ensures Legal(t.trace)
  {
    if t.trace == [] {
      assert Complete(BY_CANCEL) && t.trace <= BY_CANCEL;
    } else if t.step != Finished {
      EndsOpen(t.trace, BY_CANCEL);
      assert t.trace <= t.trace + BY_CANCEL;
    } else {
      assert t.trace <= t.trace;
    }
  }

  /** In every run of updates and cancellations the callbacks so far are part of one life. */
  lemma RunIsLegal(updateOnStart: bool, ops: seq<Operation>)
    ensures Legal(Run(updateOnStart, ops).trace)
  {
    RunIsCoherent(updateOnStart, ops);
    CoherentIsLegal(Run(updateOnStart, ops));
  }

  lemma DestroyedCompletes(t: TaskState)
    requires Coherent(t)
    ensures if t.step == NotStarted then Destroyed(t).trace == [] else Complete(Destroyed(t).trace)
  {
    if t.step in {Starting, Updating} {
      CancelCompletes(t);
    }
  }

  lemma DestroyedIsCoherent(t: TaskState)
    requires Coherent(t)
    ensures Coherent(Destroyed(t)) && Destroyed(t).step in {NotStarted, Finished}
  {
    DestroyedCompletes(t);
  }

  /** A task updated at least once and then destroyed has lived a whole life; one never updated has made no call. */
  lemma DestroyedRunIsComplete(updateOnStart: bool, ops: seq<Operation>)
    ensures if exists i :: 0 <= i < |ops| && ops[i].UpdateOp? then Complete(Destroyed(Run(updateOnStart, ops)).trace)
            else Destroyed(Run(updateOnStart, ops)).trace == []
  {
    RunIsCoherent(updateOnStart, ops);
    DestroyedCompletes(Run(updateOnStart, ops));
  }

  /** Nothing follows the end: a finished task makes no further call, whatever is done to it. */
  lemma FinishedIsSilent(t: TaskState, op: Operation)
    requires t.step == Finished
    ensures Apply(t, op).trace == t.trace && Apply(t, op).step == Finished
    ensures Destroyed(t) == t
  {
  }

  // ---------- what the next update does, from the history alone ----------

  predicate NeverUpdated(ops: seq<Operation>) {
    forall i :: 0 <= i < |ops| ==> ops[i] == CancelOp
  }

  function Outcome(answer: TaskResult): seq<Callback> {
    match answer
    case Success => BY_SUCCESS
    case Fail => BY_FAILURE
    case NeedUpdate => [OnUpdate]
  }

  lemma ApplyKeepsFlags(t: TaskState, op: Operation)
    ensures Apply(t, op).updateOnStart == t.updateOnStart
    ensures Apply(t, op).needCancel <==> t.needCancel || op == CancelOp
  {
  }

  lemma {:induction false} CancelInRun(updateOnStart: bool, ops: seq<Operation>)
    ensures Run(updateOnStart, ops).needCancel <==> CancelOp in ops
    decreases |ops|
  {
    if ops != [] {
      var before, op := ops[..|ops| - 1], ops[|ops| - 1];
      CancelInRun(updateOnStart, before);
      ApplyKeepsFlags(Run(updateOnStart, before), op);
      assert ops == before + [op];
    }
  }

  lemma {:induction false} ModeInRun(updateOnStart: bool, ops: seq<Operation>)
    ensures Run(updateOnStart, ops).updateOnStart == updateOnStart
    decreases |ops|
  {
    if ops != [] {
      ModeInRun(updateOnStart, ops[..|ops| - 1]);
      ApplyKeepsFlags(Run(updateOnStart, ops[..|ops| - 1]), ops[|ops| - 1]);
    }
  }

  /**
   In every run, for a task that has not ended: a cancellation at any time before decides
   this update and ends the task; otherwise the first update starts it, and the answer of
   `OnUpdate` alone decides which outcome is called and what the update returns.
   */
  lemma UpdateFollowsHistory(updateOnStart: bool, ops: seq<Operation>, answer: TaskResult)
    requires !Run(updateOnStart, ops).finished
    ensures var (next, result) := Updated(Run(updateOnStart, ops), answer);
            var begin := if NeverUpdated(ops) then [OnTaskStart] else [];
            var calls :=
              if CancelOp in ops then BY_CANCEL
              else if NeverUpdated(ops) && !updateOnStart then begin
              else begin + Outcome(answer);
            && next.trace == Run(updateOnStart, ops).trace + calls
            && result == (if CancelOp in ops then Fail
                          else if NeverUpdated(ops) && !updateOnStart then NeedUpdate
                          else answer)
            && (next.finished <==> result != NeedUpdate)
  {
    var t := Run(updateOnStart, ops);
    RunIsCoherent(updateOnStart, ops);
    CancelInRun(updateOnStart, ops);
    ModeInRun(updateOnStart, ops);
    UpdatedKeepsCoherent(t, answer);
    assert NeverUpdated(ops) <==> t.step == NotStarted;
    UpdateCalls(t, answer);
  }

  lemma UpdateCalls(t: TaskState, answer: TaskResult)
    requires t.step in {NotStarted, Starting, Updating}
    ensures var begin := if t.step == NotStarted then [OnTaskStart] else [];
            Updated(t, answer).0.trace == t.trace +
              if t.needCancel then BY_CANCEL
              else if t.step == NotStarted && !t.updateOnStart then begin
              else begin + Outcome(answer)
  {
  }

  // ---------- what the destructor does, from the history alone ----------

  /**
   Some update has ended the task: it found a cancel before it, or it asked `OnUpdate` and the
   answer was an end.
   */
  predicate EndedBy(updateOnStart: bool, ops: seq<Operation>) {
    exists k :: 0 <= k < |ops| && Ends(updateOnStart, ops, k)
  }

  predicate Ends(updateOnStart: bool, ops: seq<Operation>, k: nat)
    requires k < |ops|
  {
    && ops[k].UpdateOp?
    && (CancelOp in ops[..k] || (ops[k].answer != NeedUpdate && (updateOnStart || !NeverUpdated(ops[..k]))))
  }

  lemma EndsInFront(updateOnStart: bool, ops: seq<Operation>)
    requires ops != []
    ensures EndedBy(updateOnStart, ops)
            <==> EndedBy(updateOnStart, ops[..|ops| - 1]) || Ends(updateOnStart, ops, |ops| - 1)
  {
    var before := ops[..|ops| - 1];
    assert forall k :: 0 <= k < |before| ==> before[..k] == ops[..k] && before[k] == ops[k];
    assert forall k :: 0 <= k < |before| ==> (Ends(updateOnStart, before, k) <==> Ends(updateOnStart, ops, k));
  }

  lemma {:induction false} FinishedFollowsHistory(updateOnStart: bool, ops: seq<Operation>)
    ensures Run(updateOnStart, ops).finished <==> EndedBy(updateOnStart, ops)
    decreases |ops|
  {
    if ops != [] {
      var before, op := ops[..|ops| - 1], ops[|ops| - 1];
      FinishedFollowsHistory(updateOnStart, before);
      EndsInFront(updateOnStart, ops);
      if !Run(updateOnStart, before).finished {
        if op.UpdateOp? {
          UpdateFollowsHistory(updateOnStart, before, op.answer);
        }
      } else {
        RunIsCoherent(updateOnStart, before);
        FinishedIsSilent(Run(updateOnStart, before), op);
      }
    }
  }

  /**
   In every run: destroying a task that was updated and has not ended cancels it and ends
   it; any other it leaves alone.
   */
  lemma DestroyFollowsHistory(updateOnStart: bool, ops: seq<Operation>)
    ensures Destroyed(Run(updateOnStart, ops)).trace
            == Run(updateOnStart, ops).trace
               + if NeverUpdated(ops) || EndedBy(updateOnStart, ops) then [] else [OnTaskCanceled, OnTaskEnd]
  {
    var t := Run(updateOnStart, ops);
    RunIsCoherent(updateOnStart, ops);
    FinishedFollowsHistory(updateOnStart, ops);
    DestroyCalls(t);
    assert NeverUpdated(ops) <==> t.step == NotStarted;
  }

  lemma DestroyCalls(t: TaskState)
    requires Coherent(t)
    ensures Destroyed(t).trace
            == t.trace + if t.step == NotStarted || t.finished then [] else [OnTaskCanceled, OnTaskEnd]
    ensures t.finished <==> OnTaskEnd in t.trace
    ensures t.step == NotStarted <==> t.trace == []
  {
    if t.step in {Starting, Updating} {
      OpenHasNoEnd(t.trace);
      assert (t.trace + [OnTaskCanceled]) + [OnTaskEnd] == t.trace + [OnTaskCanceled, OnTaskEnd];
    } else {
      assert t.trace + [] == t.trace;
      if t.finished {
        CompleteHasEnd(t.trace);
      }
    }
  }

  lemma OpenHasNoEnd(trace: seq<Callback>)
    requires Open(trace)
    ensures OnTaskEnd !in trace && trace != []
  {
    var k: nat :| trace == [OnTaskStart] + Updates(k);
  }

  lemma CompleteHasEnd(trace: seq<Callback>)
    requires Complete(trace)
    ensures OnTaskEnd in trace
  {
    if trace != BY_CANCEL {
      var begun, end :| Open(begun) && IsEnding(end) && trace == begun + end;
      assert trace[|trace| - 1] == end[|end| - 1] == OnTaskEnd;
    } else {
      assert trace[1] == OnTaskEnd;
    }
  }

  // ---------- and nothing less ----------

  function WaitingOps(k: nat): seq<Operation> {
    [UpdateOp(NeedUpdate)] + seq(k, _ => UpdateOp(NeedUpdate))
  }

  lemma {:induction false} RunOfWaiting(k: nat)
    ensures var t := Run(false, WaitingOps(k));
            t.trace == [OnTaskStart] + Updates(k) && t.step in {Starting, Updating} && !t.needCancel && !t.updateOnStart
  {
    var ops := WaitingOps(k);
    if k == 0 {
      assert ops == [UpdateOp(NeedUpdate)];
      assert ops[..0] == [];
      assert Run(false, ops) == Apply(NewTask(false), UpdateOp(NeedUpdate));
    } else {
      assert ops[..|ops| - 1] == WaitingOps(k - 1) && ops[|ops| - 1] == UpdateOp(NeedUpdate);
      RunOfWaiting(k - 1);
      assert [OnTaskStart] + Updates(k - 1) + [OnUpdate] == [OnTaskStart] + Updates(k);
    }
  }

  lemma RunOneMore(updateOnStart: bool, ops: seq<Operation>, op: Operation)
    ensures Run(updateOnStart, ops + [op]) == Apply(Run(updateOnStart, ops), op)
  {
    assert (ops + [op])[..|ops|] == ops;
  }

  /** Every whole life is the record of some run: the language is exactly this one. */
  lemma EveryLifeHappens(trace: seq<Callback>)
    requires Complete(trace)
    ensures exists ops :: Run(false, ops).trace == trace
  {
    if trace == BY_CANCEL {
      var ops := [CancelOp];
      assert ops[..0] == [];
      RunOneMore(false, ops, UpdateOp(Fail));
      assert Run(false, ops) == Canceled(NewTask(false));
      assert Run(false, ops + [UpdateOp(Fail)]).trace == [] + [OnTaskCanceled] + [OnTaskEnd];
    } else {
      var begun, end :| Open(begun) && IsEnding(end) && trace == begun + end;
      var k: nat :| begun == [OnTaskStart] + Updates(k);
      RunOfWaiting(k);
      EndingHappens(WaitingOps(k), end);
    }
  }

  lemma EndingByCancel(ops: seq<Operation>)
    requires var t := Run(false, ops); t.step in {Starting, Updating} && !t.needCancel
    ensures Run(false, ops + [CancelOp] + [UpdateOp(Fail)]).trace == Run(false, ops).trace + BY_CANCEL
  {
    RunOneMore(false, ops, CancelOp);
    RunOneMore(false, ops + [CancelOp], UpdateOp(Fail));
  }

  lemma EndingByAnswer(ops: seq<Operation>, answer: TaskResult)
    requires var t := Run(false, ops); t.step in {Starting, Updating} && !t.needCancel
    requires answer != NeedUpdate
    ensures Run(false, ops + [UpdateOp(answer)]).trace
         == Run(false, ops).trace + if answer == Success then BY_SUCCESS else BY_FAILURE
  {
    RunOneMore(false, ops, UpdateOp(answer));
  }

  lemma EndingHappens(ops: seq<Operation>, end: seq<Callback>)
    requires IsEnding(end)
    requires var t := Run(false, ops); t.step in {Starting, Updating} && !t.needCancel
    ensures exists more :: Run(false, more).trace == Run(false, ops).trace + end
  {
    if end == BY_CANCEL {
      EndingByCancel(ops);
    } else {
      EndingByAnswer(ops, if end == BY_SUCCESS then Success else Fail);
    }
  }
}
