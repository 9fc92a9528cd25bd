/** The saga executor: steps forward, and on a failure compensations backward. */
module SagaEngine {
  import opened Options

  datatype Value = Text(text: string) | Flag(flag: bool) | Structured

  /** The keys handlers put into a step's output. */
  datatype Field = Success | PaymentId | ProviderReference | PaymentStatus | State

  type Output = map<Field, Value>

  datatype Service = Payment | Session | OtherService(name: string)

  datatype Action = InitiatePayment | GetPaymentStatus | ReconstructSession | OtherAction(name: string)

  /** The statuses the code writes into sagas and steps. */
  datatype Status = IsPending | IsRunning | IsCompleted | IsFailed | IsCompensating | IsCompensated | IsCancelled

  datatype Step = Step(
    number: nat, service: Service, action: Action, compensation: string,
    status: Status, output: Output, error: string)

  /** What a step handler returns. */
  datatype Result = Ok(output: Output) | Err(message: string)

  /** A call to the step handler: the copy of the step it got, and what it answered. */
  datatype Call = Execute(step: Step, result: Result) | Compensate(step: Step, ok: bool)

  /** What SaveSaga is given. */
  datatype Snapshot = Snapshot(status: Status, currentStep: nat, steps: seq<Step>)

  class Saga {
    const id: nat
    var status: Status
    var currentStep: nat
    var steps: seq<Step>
    var completedAt: Option<int>

    constructor (id: nat, steps: seq<Step>)
      ensures this.id == id && this.steps == steps && status == IsPending && currentStep == 0 && completedAt.None?
    {
      this.id, this.steps, status, currentStep, completedAt := id, steps, IsPending, 0, None;
    }

    function Current(): Snapshot
      reads this
    {
      Snapshot(status, currentStep, steps)
    }
  }

  /** The outside of one execution: what the handler answers to each step and each compensation,
      and whether the context is done when it is looked at before each step. */
  datatype World = World(execute: nat -> Result, compensate: nat -> bool, cancelled: nat -> bool, now: int)

  // ---- Specification ----

  datatype Ending = Completed | FailedAt(step: nat) | CancelledAt(step: nat)

  function EndingFrom(w: World, i: nat, n: nat): Ending
    requires i <= n
    decreases n - i
  {
    if i == n then Completed
    else if w.cancelled(i) then CancelledAt(i)
    else if w.execute(i).Err? then FailedAt(i)
    else EndingFrom(w, i + 1, n)
  }

  function Running(s: Step): Step { s.(status := IsRunning) }

  function Succeeded(s: Step, r: Result): Step {
    s.(status := IsCompleted, output := if r.Ok? then r.output else map[])
  }

  function Failed(s: Step, r: Result): Step {
    s.(status := IsFailed, error := if r.Err? then r.message else "")
  }

  /** The steps once the first `k` have succeeded. */
  function Ran(steps: seq<Step>, w: World, k: nat): (r: seq<Step>)
    ensures |r| == |steps|
    ensures forall j :: 0 <= j < |steps| ==> r[j] == if j < k then Succeeded(steps[j], w.execute(j)) else steps[j]
  {
    seq(|steps|, j requires 0 <= j < |steps| => if j < k then Succeeded(steps[j], w.execute(j)) else steps[j])
  }

  function Executions(steps: seq<Step>, w: World, k: nat): seq<Call>
    requires k <= |steps|
  {
    seq(k, j requires 0 <= j < k => Execute(Running(steps[j]), w.execute(j)))
  }

  /** Compensations of the steps below `k`, last first, skipping those that name no compensation. */
  function Compensations(steps: seq<Step>, w: World, k: nat): seq<Call>
    requires k <= |steps|
    decreases k
  {
    if k == 0 then []
    else
      (if steps[k - 1].compensation == "" then [] else [Compensate(steps[k - 1], w.compensate(k - 1))])
      + Compensations(steps, w, k - 1)
  }

  /** The steps after step `i`, the ones before it having succeeded. */
  function AfterStep(steps: seq<Step>, w: World, i: nat): seq<Step>
    requires i < |steps|
  {
    if w.execute(i).Ok? then Ran(steps, w, i + 1) else Ran(steps, w, i)[i := Failed(steps[i], w.execute(i))]
  }

  function FinalSteps(steps: seq<Step>, w: World, e: Ending): seq<Step>
    requires EndsWithin(e, |steps|)
  {
    match e
    case Completed => Ran(steps, w, |steps|)
    case CancelledAt(i) => Ran(steps, w, i)
    case FailedAt(i) => AfterStep(steps, w, i)
  }

  predicate EndsWithin(e: Ending, n: nat) {
    e.Completed? || e.step < n
  }

  /** The calls of an execution: Execute on each step up to the one that failed, and if one failed,
      Compensate from it down to the first. */
  function Trace(steps: seq<Step>, w: World, e: Ending): seq<Call>
    requires EndsWithin(e, |steps|)
  {
    match e
    case Completed => Executions(steps, w, |steps|)
    case CancelledAt(i) => Executions(steps, w, i)
    case FailedAt(i) => Executions(steps, w, i + 1) + Compensations(AfterStep(steps, w, i), w, i + 1)
  }

  function StatusOf(e: Ending): Status {
    match e
    case Completed => IsCompleted
    case CancelledAt(_) => IsCancelled
    case FailedAt(_) => IsFailed
  }

  function Touched(e: Ending, n: nat): nat {
    match e
    case Completed => n
    case CancelledAt(i) => i
    case FailedAt(i) => i + 1
  }

  function Final(steps: seq<Step>, w: World, e: Ending): Snapshot
    requires EndsWithin(e, |steps|)
  {
    Snapshot(StatusOf(e), Touched(e, |steps|), FinalSteps(steps, w, e))
  }

  // ---- Calls and saves together, in the order they happen ----

  datatype Event = Called(call: Call) | Saved(snapshot: Snapshot)

  /** One step: saved as running, executed on a copy, saved with its outcome. */
  function StepLog(steps: seq<Step>, w: World, i: nat): seq<Event>
    requires i < |steps|
  {
    [Saved(Snapshot(IsRunning, i + 1, Ran(steps, w, i)[i := Running(steps[i])])),
     Called(Execute(Running(steps[i]), w.execute(i))),
     Saved(Snapshot(IsRunning, i + 1, AfterStep(steps, w, i)))]
  }

  function ForwardLog(steps: seq<Step>, w: World, k: nat): seq<Event>
    requires k <= |steps|
    decreases k
  {
    if k == 0 then [] else ForwardLog(steps, w, k - 1) + StepLog(steps, w, k - 1)
  }

  /** The compensations below `k`, each followed by a save of the unchanged steps. */
  function UndoLog(steps: seq<Step>, w: World, current: nat, k: nat): seq<Event>
    requires k <= |steps|
    decreases k
  {
    if k == 0 then []
    else
      (if steps[k - 1].compensation == "" then []
       else [Called(Compensate(steps[k - 1], w.compensate(k - 1))), Saved(Snapshot(IsCompensating, current, steps))])
      + UndoLog(steps, w, current, k - 1)
  }

  function CompensationLog(steps: seq<Step>, w: World, failed: nat): seq<Event>
    requires failed < |steps|
  {
    [Saved(Snapshot(IsCompensating, failed + 1, steps))] + UndoLog(steps, w, failed + 1, failed + 1)
  }

  function Log(steps: seq<Step>, w: World, e: Ending): seq<Event>
    requires EndsWithin(e, |steps|)
  {
    (match e
     case Completed => ForwardLog(steps, w, |steps|)
     case CancelledAt(i) => ForwardLog(steps, w, i)
     case FailedAt(i) =>
       ForwardLog(steps, w, i + 1) + CompensationLog(AfterStep(steps, w, i), w, i))
    + [Saved(Final(steps, w, e))]
  }

  function Calls(log: seq<Event>): seq<Call> {
    if log == [] then []
    else (if log[0].Called? then [log[0].call] else []) + Calls(log[1..])
  }

  /** How a persisted saga looks next to the one that was started: completed steps, then at most one
      running or failed, then untouched ones; CurrentStep counts the touched ones; and a completed
      saga has only completed steps. */
  ghost predicate Shaped(start: seq<Step>, s: Snapshot) {
    && |s.steps| == |start| && s.currentStep <= |start|
    && (forall j :: 0 <= j < s.currentStep - 1 ==> s.steps[j].status == IsCompleted)
    && (0 < s.currentStep ==> s.steps[s.currentStep - 1].status in {IsCompleted, IsRunning, IsFailed})
    && (forall j :: s.currentStep <= j < |start| ==> s.steps[j] == start[j])
    && (s.status == IsCompleted ==>
          s.currentStep == |start| && forall j :: 0 <= j < |start| ==> s.steps[j].status == IsCompleted)
  }

  /** Steps `i` up to `k` are neither cancelled nor failing. */
  ghost predicate Smooth(w: World, i: nat, k: nat) {
    forall j: nat :: i <= j < k ==> !w.cancelled(j) && w.execute(j).Ok?
  }

  /** The ending is the first event that stops the loop, whichever it is. */
  lemma {:induction false} EndingIsFirstStop(w: World, i: nat, n: nat, k: nat)
    requires i <= n
    ensures EndingFrom(w, i, n) == Completed <==> Smooth(w, i, n)
    ensures EndingFrom(w, i, n) == FailedAt(k) <==>
              i <= k < n && Smooth(w, i, k) && !w.cancelled(k) && w.execute(k).Err?
    ensures EndingFrom(w, i, n) == CancelledAt(k) <==> i <= k < n && Smooth(w, i, k) && w.cancelled(k)
    decreases n - i
  {
    if i < n {
      EndingIsFirstStop(w, i + 1, n, k);
      assert !w.cancelled(i) && w.execute(i).Ok? ==>
        (Smooth(w, i, n) <==> Smooth(w, i + 1, n)) && (i < k ==> (Smooth(w, i, k) <==> Smooth(w, i + 1, k)));
    }
  }

  /** Before step `k` nothing stopped the loop. */
  predicate Undisturbed(w: World, k: nat) {
    forall j: nat :: j < k ==> !w.cancelled(j) && w.execute(j).Ok?
  }

  /** How a saga of `steps` looks in the end, said without the loop: completed if nothing stopped it; failed if
      the first thing to stop it was an Execute that erred; cancelled if it was a context that was done. The
      steps before that are completed with their outputs, one that erred is failed with its error, and the rest
      is untouched. */
  ghost predicate EndedInFull(s: Snapshot, steps: seq<Step>, w: World) {
    && |s.steps| == |steps|
    && (s.status == IsCompleted <==> Undisturbed(w, |steps|))
    && (s.status == IsFailed <==>
          exists k: nat :: k < |steps| && Undisturbed(w, k) && !w.cancelled(k) && w.execute(k).Err?)
    && (s.status == IsCancelled <==> exists k: nat :: k < |steps| && Undisturbed(w, k) && w.cancelled(k))
    && (Undisturbed(w, |steps|) ==> s.currentStep == |steps|)
    && (forall k: nat :: k < |steps| && Undisturbed(w, k) ==>
          if w.cancelled(k) then s.currentStep == k && s.steps[k] == steps[k]
          else if w.execute(k).Err? then
            s.currentStep == k + 1 && s.steps[k] == steps[k].(status := IsFailed, error := w.execute(k).message)
          else s.steps[k] == steps[k].(status := IsCompleted, output := w.execute(k).output))
    && (forall k: nat :: k < |steps| && !Undisturbed(w, k) ==> s.steps[k] == steps[k])
  }

  lemma FinalInFull(steps: seq<Step>, w: World)
    ensures var e := EndingFrom(w, 0, |steps|);
      EndsWithin(e, |steps|) && EndedInFull(Final(steps, w, e), steps, w)
  {
    var n := |steps|;
    assert Smooth(w, 0, n) <==> Undisturbed(w, n);
    EndingIsFirstStop(w, 0, n, 0);
    if !Undisturbed(w, n) {
      var k := FirstDisturbance(w, n);
      assert Smooth(w, 0, k);
      EndingIsFirstStop(w, 0, n, k);
      if w.cancelled(k) { CancelledInFull(steps, w, k); } else { FailedInFull(steps, w, k); }
    }
  }

  lemma OnlyDisturbance(w: World, n: nat, k: nat)
    requires k < n && Undisturbed(w, k) && (w.cancelled(k) || w.execute(k).Err?)
    ensures forall j: nat :: Undisturbed(w, j) <==> j <= k
  {
  }

  lemma FailedInFull(steps: seq<Step>, w: World, k: nat)
    requires k < |steps| && Undisturbed(w, k) && !w.cancelled(k) && w.execute(k).Err?
    ensures EndedInFull(Final(steps, w, FailedAt(k)), steps, w)
  {
    OnlyDisturbance(w, |steps|, k);
  }

  lemma CancelledInFull(steps: seq<Step>, w: World, k: nat)
    requires k < |steps| && Undisturbed(w, k) && w.cancelled(k)
    ensures EndedInFull(Final(steps, w, CancelledAt(k)), steps, w)
  {
    OnlyDisturbance(w, |steps|, k);
  }

  lemma FirstDisturbance(w: World, n: nat) returns (k: nat)
    requires !Undisturbed(w, n)
    ensures k < n && Undisturbed(w, k) && (w.cancelled(k) || w.execute(k).Err?)
  {
    k := 0;
    while k < n && !w.cancelled(k) && w.execute(k).Ok?
      invariant k <= n && Undisturbed(w, k)
    {
      k := k + 1;
    }
  }

  lemma Assoc<T>(a: seq<T>, b: seq<T>, c: seq<T>)
    ensures a + (b + c) == a + b + c
  {
  }

  lemma {:induction false} CallsConcat(xs: seq<Event>, ys: seq<Event>)
    ensures Calls(xs + ys) == Calls(xs) + Calls(ys)
  {
    if xs == [] {
      assert xs + ys == ys;
    } else {
      assert (xs + ys)[1..] == xs[1..] + ys;
      CallsConcat(xs[1..], ys);
      Assoc(if xs[0].Called? then [xs[0].call] else [], Calls(xs[1..]), Calls(ys));
    }
  }

  lemma {:induction false} ForwardCalls(steps: seq<Step>, w: World, k: nat)
    requires k <= |steps|
    ensures Calls(ForwardLog(steps, w, k)) == Executions(steps, w, k)
    decreases k
  {
    if k != 0 {
      var rest := ForwardLog(steps, w, k - 1);
      assert Calls(rest) == Executions(steps, w, k - 1) by { ForwardCalls(steps, w, k - 1); }
      StepCalls(rest, steps, w, k - 1);
      assert Executions(steps, w, k) == Executions(steps, w, k - 1) + [Execute(Running(steps[k - 1]), w.execute(k - 1))];
    }
  }

  lemma StepCalls(log: seq<Event>, steps: seq<Step>, w: World, i: nat)
    requires i < |steps|
    ensures Calls(log + StepLog(steps, w, i)) == Calls(log) + [Execute(Running(steps[i]), w.execute(i))]
  {
    var step := StepLog(steps, w, i);
    SaveCallSave(step[0], step[1], step[2]);
    CallsConcat(log, step);
  }

  lemma SaveCallSave(a: Event, b: Event, c: Event)
    requires a.Saved? && b.Called? && c.Saved?
    ensures Calls([a, b, c]) == [b.call]
  {
    assert [c][1..] == [];
    assert Calls([c]) == [];
    assert [b, c][1..] == [c];
    assert Calls([b, c]) == [b.call] + Calls([c]);
    assert [a, b, c][1..] == [b, c];
  }

  lemma {:induction false} UndoCalls(steps: seq<Step>, w: World, current: nat, k: nat)
    requires k <= |steps|
    ensures Calls(UndoLog(steps, w, current, k)) == Compensations(steps, w, k)
    decreases k
  {
    if k != 0 {
      UndoCalls(steps, w, current, k - 1);
      if steps[k - 1].compensation != "" {
        var first := [Called(Compensate(steps[k - 1], w.compensate(k - 1))), Saved(Snapshot(IsCompensating, current, steps))];
        CallsConcat(first, UndoLog(steps, w, current, k - 1));
        assert first[1..] == [first[1]] && first[1..][1..] == [];
      } else {
        assert [] + UndoLog(steps, w, current, k - 1) == UndoLog(steps, w, current, k - 1);
      }
    }
  }

  lemma OneSave(s: Snapshot)
    ensures Calls([Saved(s)]) == []
  {
    assert [Saved(s)][1..] == [];
  }

  /** Main result on the trace: for every saga and every answer, the calls made are those specified. */
  lemma CallsAreTheTrace(steps: seq<Step>, w: World, e: Ending)
    requires EndsWithin(e, |steps|)
    ensures Calls(Log(steps, w, e)) == Trace(steps, w, e)
  {
    OneSave(Final(steps, w, e));
    match e
    case Completed =>
      ForwardCalls(steps, w, |steps|);
      CallsConcat(ForwardLog(steps, w, |steps|), [Saved(Final(steps, w, e))]);
    case CancelledAt(i) =>
      ForwardCalls(steps, w, i);
      CallsConcat(ForwardLog(steps, w, i), [Saved(Final(steps, w, e))]);
    case FailedAt(i) =>
      var mid := [Saved(Snapshot(IsCompensating, i + 1, AfterStep(steps, w, i)))];
      var undo := UndoLog(AfterStep(steps, w, i), w, i + 1, i + 1);
      ForwardCalls(steps, w, i + 1);
      UndoCalls(AfterStep(steps, w, i), w, i + 1, i + 1);
      OneSave(mid[0].snapshot);
      CallsConcat(mid, undo);
      CallsConcat(ForwardLog(steps, w, i + 1), mid + undo);
      CallsConcat(ForwardLog(steps, w, i + 1) + (mid + undo), [Saved(Final(steps, w, e))]);
  }

  // ---- The shape of what is persisted ----

  ghost predicate AllShaped(start: seq<Step>, log: seq<Event>) {
    forall k :: 0 <= k < |log| && log[k].Saved? ==> Shaped(start, log[k].snapshot)
  }

  lemma StepIsShaped(steps: seq<Step>, w: World, i: nat, status: Status)
    requires i < |steps| && status != IsCompleted
    ensures Shaped(steps, Snapshot(status, i + 1, Ran(steps, w, i)[i := Running(steps[i])]))
    ensures Shaped(steps, Snapshot(status, i + 1, AfterStep(steps, w, i)))
  {
  }

  lemma {:induction false} ForwardIsShaped(steps: seq<Step>, w: World, k: nat)
    requires k <= |steps|
    ensures AllShaped(steps, ForwardLog(steps, w, k))
    decreases k
  {
    if k != 0 {
      ForwardIsShaped(steps, w, k - 1);
      StepIsShaped(steps, w, k - 1, IsRunning);
    }
  }

  lemma {:induction false} UndoIsShaped(start: seq<Step>, steps: seq<Step>, w: World, current: nat, k: nat)
    requires k <= |steps| && Shaped(start, Snapshot(IsCompensating, current, steps))
    ensures AllShaped(start, UndoLog(steps, w, current, k))
    decreases k
  {
    if k != 0 {
      UndoIsShaped(start, steps, w, current, k - 1);
    }
  }

  lemma FinalIsShaped(steps: seq<Step>, w: World, e: Ending)
    requires EndsWithin(e, |steps|)
    ensures Shaped(steps, Final(steps, w, e))
  {
    if e.FailedAt? { StepIsShaped(steps, w, e.step, IsFailed); }
  }

  lemma ShapedConcat(start: seq<Step>, xs: seq<Event>, ys: seq<Event>)
    requires AllShaped(start, xs) && AllShaped(start, ys)
    ensures AllShaped(start, xs + ys)
  {
  }

  /** Main result on the persisted saga: every snapshot an execution saves has the shape, the ones
      after compensations included. */
  lemma EverySaveIsShaped(steps: seq<Step>, w: World, e: Ending)
    requires EndsWithin(e, |steps|)
    ensures AllShaped(steps, Log(steps, w, e))
  {
    FinalIsShaped(steps, w, e);
    var last := [Saved(Final(steps, w, e))];
    match e
    case Completed =>
      ForwardIsShaped(steps, w, |steps|);
      ShapedConcat(steps, ForwardLog(steps, w, |steps|), last);
    case CancelledAt(i) =>
      ForwardIsShaped(steps, w, i);
      ShapedConcat(steps, ForwardLog(steps, w, i), last);
    case FailedAt(i) =>
      FailureIsShaped(steps, w, i);
      ShapedConcat(steps, ForwardLog(steps, w, i + 1) + CompensationLog(AfterStep(steps, w, i), w, i), last);
  }

  lemma FailureIsShaped(steps: seq<Step>, w: World, i: nat)
    requires i < |steps|
    ensures AllShaped(steps, ForwardLog(steps, w, i + 1) + CompensationLog(AfterStep(steps, w, i), w, i))
  {
    var ran := AfterStep(steps, w, i);
    ForwardIsShaped(steps, w, i + 1);
    StepIsShaped(steps, w, i, IsCompensating);
    UndoIsShaped(steps, ran, w, i + 1, i + 1);
    ShapedConcat(steps, [Saved(Snapshot(IsCompensating, i + 1, ran))], UndoLog(ran, w, i + 1, i + 1));
    ShapedConcat(steps, ForwardLog(steps, w, i + 1), CompensationLog(ran, w, i));
  }

  // ---- The engine ----

  class Engine {
    /** Sagas registered and not yet finished. */
    var running: set<nat>
    /** Calls to the step handler and snapshots handed to SaveSaga, in order. */
    var log: seq<Event>

    constructor ()
      ensures running == {} && log == []
    {
      running, log := {}, [];
    }

    method SaveSaga(saga: Saga)
      modifies this`log
      ensures log == old(log) + [Saved(saga.Current())]
    {
      log := log + [Saved(saga.Current())];
    }

    /** Registers the saga; launching its executor is left to the caller. A failed save registers nothing. */
    method StartSaga(saga: Saga, saveOk: bool) returns (ok: bool)
      modifies this, saga
      ensures ok == saveOk
      ensures saga.status == IsRunning && saga.currentStep == 0 && saga.steps == old(saga.steps)
      ensures running == if ok then old(running) + {saga.id} else old(running)
      ensures log == if ok then old(log) + [Saved(saga.Current())] else old(log)
    {
      saga.status := IsRunning;
      saga.currentStep := 0;
      if !saveOk {
        return false;
      }
      SaveSaga(saga);
      running := running + {saga.id};
      return true;
    }

    /** Runs a started saga to its end, and takes it out of the running set however it ended. */
    method ExecuteSaga(saga: Saga, w: World)
      requires saga.currentStep == 0 && saga.status == IsRunning
      modifies this, saga
      ensures var steps := old(saga.steps);
        var e := EndingFrom(w, 0, |steps|);
        EndsWithin(e, |steps|) && log == old(log) + Log(steps, w, e) && saga.Current() == Final(steps, w, e)
      ensures saga.completedAt == Some(w.now) && running == old(running) - {saga.id}
      ensures EndedInFull(saga.Current(), old(saga.steps), w)
    {
      FinalInFull(saga.steps, w);
      ExecuteSteps(saga, w);
      running := running - {saga.id};
    }

    /** The forward loop: every call it makes and every snapshot it saves, in order. */
    method ExecuteSteps(saga: Saga, w: World)
      requires saga.currentStep == 0 && saga.status == IsRunning
      modifies this`log, saga
      ensures var steps := old(saga.steps);
        var e := EndingFrom(w, 0, |steps|);
        EndsWithin(e, |steps|) && log == old(log) + Log(steps, w, e) && saga.Current() == Final(steps, w, e)
      ensures saga.completedAt == Some(w.now)
    {
      ghost var steps := saga.steps;
      var i := 0;
      while i < |saga.steps|
        invariant 0 <= i <= |steps| && saga.steps == Ran(steps, w, i)
        invariant EndingFrom(w, 0, |steps|) == EndingFrom(w, i, |steps|)
        invariant saga.currentStep == i && saga.status == IsRunning
        invariant log == old(log) + ForwardLog(steps, w, i)
      {
        if w.cancelled(i) {
          SaveEnding(saga, IsCancelled, w.now);
          Assoc(old(log), ForwardLog(steps, w, i), [Saved(saga.Current())]);
          return;
        }
        ExecuteStep(saga, i, w, steps);
        Assoc(old(log), ForwardLog(steps, w, i), StepLog(steps, w, i));
        if w.execute(i).Err? {
          CompensateSteps(saga, i, w);
          Assoc(old(log), ForwardLog(steps, w, i + 1), CompensationLog(saga.steps, w, i));
          Assoc(old(log), ForwardLog(steps, w, i + 1) + CompensationLog(saga.steps, w, i), [Saved(saga.Current())]);
          return;
        }
        i := i + 1;
      }
      SaveEnding(saga, IsCompleted, w.now);
      Assoc(old(log), ForwardLog(steps, w, i), [Saved(saga.Current())]);
    }

    /** One step forward: saved as running, executed on a copy, saved with its outcome. */
    method ExecuteStep(saga: Saga, i: nat, w: World, ghost start: seq<Step>)
      requires i < |start| && saga.steps == Ran(start, w, i) && saga.status == IsRunning
      modifies this`log, saga`currentStep, saga`steps
      ensures saga.currentStep == i + 1 && saga.steps == AfterStep(start, w, i)
      ensures log == old(log) + StepLog(start, w, i)
    {
      saga.currentStep := i + 1;
      saga.steps := saga.steps[i := saga.steps[i].(status := IsRunning)];
      SaveSaga(saga);
      var result := w.execute(i);
      log := log + [Called(Execute(saga.steps[i], result))];
      if result.Err? {
        saga.steps := saga.steps[i := saga.steps[i].(status := IsFailed, error := result.message)];
      } else {
        saga.steps := saga.steps[i := saga.steps[i].(status := IsCompleted, output := result.output)];
      }
      assert saga.steps == AfterStep(start, w, i);
      SaveSaga(saga);
    }

    /** Compensates from the failed step down to the first, past compensations that fail. The status
        "compensated" goes to a copy of the step, so the saga's own steps stay as they were. */
    method CompensateSteps(saga: Saga, failed: nat, w: World)
      requires failed < |saga.steps| && saga.currentStep == failed + 1
      modifies this`log, saga`status, saga`completedAt
      ensures saga.status == IsFailed && saga.completedAt == Some(w.now)
      ensures log == old(log) + CompensationLog(saga.steps, w, failed) + [Saved(saga.Current())]
    {
      saga.status := IsCompensating;
      SaveSaga(saga);
      ghost var all := UndoLog(saga.steps, w, failed + 1, failed + 1);
      ghost var before := log;
      Assoc(old(log), [Saved(saga.Current())], all);
      var i := failed + 1;
      while i > 0
        invariant 0 <= i <= failed + 1
        invariant before + all == log + UndoLog(saga.steps, w, failed + 1, i)
        invariant saga.status == IsCompensating
      {
        i := i - 1;
        ghost var start := log;
        var step := saga.steps[i];
        if step.compensation == "" {
          continue;
        }
        var ok := w.compensate(i);
        log := log + [Called(Compensate(step, ok))];
        step := step.(status := IsCompensated);
        SaveSaga(saga);
        ghost var pair := [Called(Compensate(saga.steps[i], ok)), Saved(saga.Current())];
        assert log == start + pair;
        Assoc(start, pair, UndoLog(saga.steps, w, failed + 1, i));
      }
      SaveEnding(saga, IsFailed, w.now);
    }

    /** Cancels the context of a saga that is registered, and writes to the stored saga, if there is one.
        `fired` tells whether a context was cancelled. */
    method CancelSaga(id: nat, stored: Saga?, now: int, saveOk: bool) returns (fired: bool, ok: bool)
      modifies this`log, stored
      ensures fired <==> id in running
      ensures stored == null ==> !ok && log == old(log)
      ensures stored != null ==>
        && ok == saveOk && log == old(log) + [Saved(stored.Current())]
        && stored.Current() == old(stored.Current()).(status := IsCancelled) && stored.completedAt == Some(now)
    {
      fired := id in running;
      if stored == null {
        return fired, false;
      }
      SaveEnding(stored, IsCancelled, now);
      ok := saveOk;
    }

    /** The last write to a saga, over whatever status it had. */
    method SaveEnding(saga: Saga, status: Status, now: int)
      modifies this`log, saga`status, saga`completedAt
      ensures saga.status == status && saga.completedAt == Some(now)
      ensures log == old(log) + [Saved(saga.Current())]
    {
      saga.status := status;
      saga.completedAt := Some(now);
      SaveSaga(saga);
    }
  }
}
