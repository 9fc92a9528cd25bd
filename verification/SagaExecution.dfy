/** The executors of the interleaving machine, next to the executor as a loop: every one of them ends as the
    loop ends in the world it has seen, and so pays and refunds what the loop does. */
module SagaExecution {
  import opened Options
  import opened Runs
  import opened SagaEngine
  import opened SagaRefunds
  import I = SagaInterleaving

  ghost function State(actions: seq<I.Action>, n: nat): I.System
    requires n <= |actions|
  {
    Along(I.Step, I.START, actions, n)
  }

  function With(f: nat -> bool, i: nat, b: bool): nat -> bool {
    (j: nat) => if j == i then b else f(j)
  }

  /** What executor `id` finds out with action `a`: whether its context is done before a step, and how a
      compensation goes. `live(j)` is how that of step `j` goes on a live context; on a done one it fails. */
  function Noted(w: World, s: I.System, a: I.Action, id: I.RunId, live: nat -> bool): World {
    if id !in s.runs then w
    else
      match s.runs[id].pc
      case AtCheck(i) =>
        if a != I.Check(id) then w else w.(cancelled := With(w.cancelled, i, id in s.done))
      case Undoing(left) =>
        if !a.Undo? || a.run != id || left == 0 then w
        else w.(compensate := With(w.compensate, left - 1, live(left - 1) && id !in s.done))
      case _ => w
  }

  /** The world executor `id` has seen after `n` actions, where its steps are answered by `results`. */
  ghost function Seen(results: nat -> Result, live: nat -> bool, actions: seq<I.Action>, id: I.RunId, n: nat): World
    requires n <= |actions|
    decreases n
  {
    if n == 0 then World(results, j => false, i => false, 0)
    else Noted(Seen(results, live, actions, id, n - 1), State(actions, n - 1), actions[n - 1], id, live)
  }

  /** The Execute calls of `id` return as `results` says. */
  ghost predicate Follows(results: nat -> Result, s: I.System, a: I.Action, id: I.RunId) {
    id in s.runs && s.runs[id].pc.Executing? && a.Return? && a.run == id ==>
      (a.ok <==> results(s.runs[id].pc.i).Ok?)
  }

  ghost predicate AllFollow(results: nat -> Result, actions: seq<I.Action>, id: I.RunId) {
    forall n: nat :: n < |actions| ==> Follows(results, State(actions, n), actions[n], id)
  }

  /** The status the executor writes at the end, unless a cancellation has written over it. */
  ghost predicate EndsAs(e: Ending, r: I.Run) {
    match e
    case Completed => r.completed == r.steps && (r.status == I.Completed || r.status == I.Cancelled)
    case FailedAt(k) => r.completed == k && (r.status == I.Failed || r.status == I.Cancelled)
    case CancelledAt(k) => r.completed == k && r.status == I.Cancelled
  }

  /** A run stands where the loop stands in world `w`. */
  ghost predicate Explains(w: World, r: I.Run) {
    match r.pc
    case AtCheck(i) => i <= r.steps && r.completed == i && Smooth(w, 0, i)
    case Passed(i) => i < r.steps && r.completed == i && Smooth(w, 0, i) && !w.cancelled(i)
    case Executing(i) => i < r.steps && r.completed == i && Smooth(w, 0, i) && !w.cancelled(i)
    case Undoing(left) => left <= r.completed + 1 && EndingFrom(w, 0, r.steps) == FailedAt(r.completed)
    case Closing => EndsAs(EndingFrom(w, 0, r.steps), r)
    case Finished => EndsAs(EndingFrom(w, 0, r.steps), r)
    case _ => r.completed == 0
  }

  lemma CheckExplained(w: World, r: I.Run, done: bool)
    requires r.pc.AtCheck? && Explains(w, r)
    ensures Explains(w.(cancelled := With(w.cancelled, r.pc.i, done)), I.Move(r, I.Check(0), done))
  {
    var i := r.pc.i;
    var w' := w.(cancelled := With(w.cancelled, i, done));
    assert Smooth(w', 0, i);
    EndingIsFirstStop(w', 0, r.steps, i);
  }

  lemma ReturnExplained(w: World, r: I.Run, ok: bool, done: bool)
    requires r.pc.Executing? && Explains(w, r) && (ok <==> w.execute(r.pc.i).Ok?)
    ensures Explains(w, I.Move(r, I.Return(0, ok), done))
  {
    EndingIsFirstStop(w, 0, r.steps, r.pc.i);
  }

  lemma UndoExplained(w: World, w': World, r: I.Run, named: bool, done: bool)
    requires r.pc.Undoing? && Explains(w, r) && w' == w.(compensate := w'.compensate)
    ensures Explains(w', I.Move(r, I.Undo(0, named), done))
  {
    EndingIsFirstStop(w, 0, r.steps, r.completed);
    assert Smooth(w', 0, r.completed);
    EndingIsFirstStop(w', 0, r.steps, r.completed);
  }

  lemma MoveExplained(w: World, s: I.System, a: I.Action, id: I.RunId, live: nat -> bool)
    requires id in s.runs && Explains(w, s.runs[id]) && I.ByExecutor(a) && a.run == id
    requires Follows(w.execute, s, a, id)
    ensures Explains(Noted(w, s, a, id, live), I.Move(s.runs[id], a, id in s.done))
  {
    var r := s.runs[id];
    match r.pc
    case AtCheck(i) => if a.Check? { CheckExplained(w, r, id in s.done); }
    case Executing(i) => if a.Return? { ReturnExplained(w, r, a.ok, id in s.done); }
    case Undoing(left) => if a.Undo? { UndoExplained(w, Noted(w, s, a, id, live), r, a.named, id in s.done); }
    case _ =>
  }

  lemma StepExplained(w: World, s: I.System, a: I.Action, id: I.RunId, live: nat -> bool)
    requires id in s.runs && Explains(w, s.runs[id]) && Follows(w.execute, s, a, id)
    ensures id in I.Step(s, a).runs && Explains(Noted(w, s, a, id, live), I.Step(s, a).runs[id])
  {
    I.StepOnRun(s, a, id);
    if I.ByExecutor(a) && a.run == id {
      MoveExplained(w, s, a, id, live);
    } else {
      BecomesExplained(w, s.runs[id], a, id, id in s.done, I.Step(s, a).runs[id]);
    }
  }

  lemma BecomesExplained(w: World, r: I.Run, a: I.Action, id: I.RunId, done: bool, r': I.Run)
    requires Explains(w, r) && I.Becomes(r, a, id, done, r') && !(I.ByExecutor(a) && a.run == id)
    ensures Explains(w, r')
  {
  }

  ghost predicate ExplainedAt(w: World, s: I.System, id: I.RunId) {
    id in s.runs ==> Explains(w, s.runs[id])
  }

  lemma StepExplainedAt(w: World, s: I.System, a: I.Action, id: I.RunId, live: nat -> bool)
    requires ExplainedAt(w, s, id) && Follows(w.execute, s, a, id)
    ensures ExplainedAt(Noted(w, s, a, id, live), I.Step(s, a), id)
  {
    if id in s.runs { StepExplained(w, s, a, id, live); }
  }

  lemma {:induction false} SeenAnswers(results: nat -> Result, live: nat -> bool, actions: seq<I.Action>, id: I.RunId, n: nat)
    requires n <= |actions|
    ensures Seen(results, live, actions, id, n).execute == results
    decreases n
  {
    if n != 0 { SeenAnswers(results, live, actions, id, n - 1); }
  }

  /** Main result on the executors: over every interleaving with starts, cancellations and other executors, an
      executor stands, and in the end ends, where the loop does in the world it has seen. */
  lemma {:induction false} ExecutorIsTheLoop(results: nat -> Result, live: nat -> bool,
                                             actions: seq<I.Action>, id: I.RunId, n: nat)
    requires n <= |actions| && AllFollow(results, actions, id)
    ensures ExplainedAt(Seen(results, live, actions, id, n), State(actions, n), id)
    decreases n
  {
    if n == 0 {
      assert State(actions, 0) == I.START;
    } else {
      var s, a := State(actions, n - 1), actions[n - 1];
      AlongStep(I.Step, I.START, actions, n - 1);
      ExecutorIsTheLoop(results, live, actions, id, n - 1);
      SeenAnswers(results, live, actions, id, n - 1);
      assert Follows(results, s, a, id);
      StepExplainedAt(Seen(results, live, actions, id, n - 1), s, a, id, live);
    }
  }

  /** The machine's name for a status the engine saves. */
  predicate SameStatus(status: Status, machine: I.Status) {
    match status
    case IsCompleted => machine == I.Completed
    case IsFailed => machine == I.Failed
    case IsCancelled => machine == I.Cancelled
    case _ => false
  }

  /** The last thing the loop does in world `w` is to save a snapshot with the status of run `r`, unless that says
      Cancelled, and with as many steps completed. */
  ghost predicate SaysWhatIsSaved(w: World, r: I.Run, steps: seq<Step>) {
    var e := EndingFrom(w, 0, |steps|);
    && EndsWithin(e, |steps|)
    && var log, final := Log(steps, w, e), Final(steps, w, e);
       && log != [] && log[|log| - 1] == Saved(final)
       && (SameStatus(final.status, r.status) || r.status == I.Cancelled)
       && r.completed == final.currentStep - if final.status == IsFailed then 1 else 0
  }

  lemma LastIsSaved(steps: seq<Step>, w: World, e: Ending)
    requires EndsWithin(e, |steps|)
    ensures var log := Log(steps, w, e); log != [] && log[|log| - 1] == Saved(Final(steps, w, e))
  {
  }

  lemma EndsAsSaved(w: World, r: I.Run, steps: seq<Step>)
    requires r.steps == |steps| && EndsAs(EndingFrom(w, 0, |steps|), r)
    ensures SaysWhatIsSaved(w, r, steps)
  {
    var e := EndingFrom(w, 0, |steps|);
    assert EndsWithin(e, |steps|) by { FinalInFull(steps, w); }
    LastIsSaved(steps, w, e);
  }

  lemma ClosedEndsAsExplained(w: World, s: I.System, id: I.RunId)
    requires ExplainedAt(w, s, id) && id in s.runs && (s.runs[id].pc.Closing? || s.runs[id].pc.Finished?)
    ensures EndsAs(EndingFrom(w, 0, s.runs[id].steps), s.runs[id])
  {
  }

  /** The status of a run that has closed is that of the last snapshot the loop saves in the world it has seen, or
      Cancelled if a cancellation wrote after it. */
  lemma ClosedRunSaysWhatTheLoopSaves(results: nat -> Result, live: nat -> bool, actions: seq<I.Action>, id: I.RunId,
                                      steps: seq<Step>)
    requires AllFollow(results, actions, id) && id in State(actions, |actions|).runs
    requires var r := State(actions, |actions|).runs[id];
      (r.pc.Closing? || r.pc.Finished?) && r.steps == |steps|
    ensures SaysWhatIsSaved(Seen(results, live, actions, id, |actions|), State(actions, |actions|).runs[id], steps)
  {
    ExecutorIsTheLoop(results, live, actions, id, |actions|);
    ClosedEndsAsExplained(Seen(results, live, actions, id, |actions|), State(actions, |actions|), id);
    EndsAsSaved(Seen(results, live, actions, id, |actions|), State(actions, |actions|).runs[id], steps);
  }

  // ---- What a run of the machine pays and refunds ----

  /** `id` has closed, and its steps were answered by the payment and session services. */
  ghost predicate ClosedRun(results: nat -> Result, actions: seq<I.Action>, id: I.RunId,
                            steps: seq<Step>, replies: nat -> Reply)
  {
    var s := State(actions, |actions|);
    && AllFollow(results, actions, id)
    && id in s.runs && (s.runs[id].pc.Closing? || s.runs[id].pc.Finished?) && s.runs[id].steps == |steps|
    && (forall j: nat :: j < |steps| ==> results(j) == HandleStep(steps[j], replies(j)))
    && (forall j: nat :: j < |steps| ==> PaymentOf(steps[j].output).None?)
  }

  /** Main result on refunds over interleavings: a run that says Failed failed at the step after those it
      completed, and its books balance if and only if each payment before had a compensation action, a
      non-empty id, and a refund that went well on a context that was not done by then. */
  lemma FailedRunBalancesIff(results: nat -> Result, live: nat -> bool, actions: seq<I.Action>, id: I.RunId,
                             steps: seq<Step>, replies: nat -> Reply)
    requires ClosedRun(results, actions, id, steps, replies) && State(actions, |actions|).runs[id].status == I.Failed
    ensures var w, f := Seen(results, live, actions, id, |actions|), State(actions, |actions|).runs[id].completed;
      && f < |steps| && EndingFrom(w, 0, |steps|) == FailedAt(f)
      && var calls := Trace(steps, w, FailedAt(f));
         (multiset(Refunded(calls)) == multiset(Initiated(calls)) <==> AllRefundable(steps, replies, w, f))
  {
    var w, f := Seen(results, live, actions, id, |actions|), State(actions, |actions|).runs[id].completed;
    ExecutorIsTheLoop(results, live, actions, id, |actions|);
    SeenAnswers(results, live, actions, id, |actions|);
    EndingIsFirstStop(w, 0, |steps|, f);
    RefundConservation(steps, w, replies, f);
  }

  /** The compensations from `left` up to `f` have not gone through. */
  ghost predicate NoneRefunded(w: World, left: nat, f: nat) {
    forall j: nat :: left <= j <= f ==> !w.compensate(j)
  }

  /** A run that failed at step `f` is compensating or has closed, and none of its refunds went through. */
  ghost predicate FailsUnrefunded(w: World, r: I.Run, f: nat) {
    && f < r.steps && EndingFrom(w, 0, r.steps) == FailedAt(f)
    && match r.pc
       case Undoing(left) => left <= f + 1 && NoneRefunded(w, left, f)
       case Closing => NoneRefunded(w, 0, f)
       case Finished => NoneRefunded(w, 0, f)
       case _ => false
  }

  lemma SameEnding(w: World, w': World, n: nat, f: nat)
    requires w' == w.(compensate := w'.compensate) && EndingFrom(w, 0, n) == FailedAt(f)
    ensures EndingFrom(w', 0, n) == FailedAt(f)
  {
    EndingIsFirstStop(w, 0, n, f);
    EndingIsFirstStop(w', 0, n, f);
    assert Smooth(w', 0, f);
  }

  lemma UndoFailsUnrefunded(w: World, r: I.Run, named: bool, b: bool, f: nat)
    requires FailsUnrefunded(w, r, f) && r.pc.Undoing? && !b
    ensures var w' := if r.pc.left == 0 then w else w.(compensate := With(w.compensate, r.pc.left - 1, b));
      FailsUnrefunded(w', I.Move(r, I.Undo(0, named), true), f)
  {
    if r.pc.left != 0 {
      var w' := w.(compensate := With(w.compensate, r.pc.left - 1, b));
      SameEnding(w, w', r.steps, f);
      assert NoneRefunded(w', r.pc.left - 1, f);
    }
  }

  ghost predicate UnrefundedAt(w: World, s: I.System, id: I.RunId, f: nat) {
    id in s.runs && id in s.done && FailsUnrefunded(w, s.runs[id], f)
  }

  lemma StepFailsUnrefunded(w: World, s: I.System, a: I.Action, id: I.RunId, live: nat -> bool, f: nat)
    requires UnrefundedAt(w, s, id, f)
    ensures UnrefundedAt(Noted(w, s, a, id, live), I.Step(s, a), id, f)
  {
    I.StepOnRun(s, a, id);
    if a.Undo? && a.run == id && s.runs[id].pc.Undoing? {
      UndoFailsUnrefunded(w, s.runs[id], a.named, false, f);
    } else {
      assert Noted(w, s, a, id, live) == w;
    }
  }

  /** Action `m` is the failing return of an Execute of step `f` during which the context was cancelled. */
  ghost predicate FailsCancelled(actions: seq<I.Action>, id: I.RunId, m: nat, f: nat) {
    && m < |actions| && id in State(actions, m).runs && id in State(actions, m).done
    && State(actions, m).runs[id].pc == I.Executing(f) && actions[m] == I.Return(id, false)
  }

  lemma ReturnFails(w: World, s: I.System, id: I.RunId, f: nat)
    requires id in s.runs && id in s.done && s.runs[id].pc == I.Executing(f) && ExplainedAt(w, s, id)
    requires w.execute(f).Err?
    ensures UnrefundedAt(w, I.Step(s, I.Return(id, false)), id, f)
  {
    I.StepOnRun(s, I.Return(id, false), id);
    EndingIsFirstStop(w, 0, s.runs[id].steps, f);
  }

  lemma {:induction false} FailsUnrefundedFrom(results: nat -> Result, live: nat -> bool, actions: seq<I.Action>,
                                               id: I.RunId, m: nat, f: nat, n: nat)
    requires m < n <= |actions| && FailsCancelled(actions, id, m, f) && AllFollow(results, actions, id)
    ensures UnrefundedAt(Seen(results, live, actions, id, n), State(actions, n), id, f)
    decreases n
  {
    var s, w := State(actions, n - 1), Seen(results, live, actions, id, n - 1);
    AlongStep(I.Step, I.START, actions, n - 1);
    if n > m + 1 {
      FailsUnrefundedFrom(results, live, actions, id, m, f, n - 1);
      StepFailsUnrefunded(w, s, actions[n - 1], id, live, f);
    } else {
      ExecutorIsTheLoop(results, live, actions, id, m);
      SeenAnswers(results, live, actions, id, m);
      assert Follows(results, s, actions[m], id);
      ReturnFails(w, s, id, f);
    }
  }

  lemma {:induction false} NothingRefundable(steps: seq<Step>, replies: nat -> Reply, w: World, k: nat)
    requires k <= |steps| && forall j: nat :: j < k ==> !w.compensate(j)
    ensures RefundableIds(steps, replies, w, k) == []
    decreases k
  {
    if k != 0 { NothingRefundable(steps, replies, w, k - 1); }
  }

  /** The compensations run on the saga's own context: a saga cancelled during an Execute that then fails
      refunds nothing, whatever the refund calls would have returned on a live context. It keeps the payments
      of the steps it completed, and its books balance if and only if none of them initiates one. */
  lemma CancelledWhileExecuting(results: nat -> Result, live: nat -> bool, actions: seq<I.Action>, id: I.RunId,
                                steps: seq<Step>, replies: nat -> Reply, m: nat, f: nat)
    requires ClosedRun(results, actions, id, steps, replies) && FailsCancelled(actions, id, m, f)
    ensures var w, r := Seen(results, live, actions, id, |actions|), State(actions, |actions|).runs[id];
      && f < |steps| && EndingFrom(w, 0, |steps|) == FailedAt(f) && (r.status == I.Failed || r.status == I.Cancelled)
      && var calls := Trace(steps, w, FailedAt(f));
         && Refunded(calls) == [] && Initiated(calls) == Ids(steps, replies, f)
         && (multiset(Refunded(calls)) == multiset(Initiated(calls)) <==> NoneInitiates(steps, f))
  {
    var w := Seen(results, live, actions, id, |actions|);
    FailsUnrefundedFrom(results, live, actions, id, m, f, |actions|);
    ExecutorIsTheLoop(results, live, actions, id, |actions|);
    SeenAnswers(results, live, actions, id, |actions|);
    UnrefundedBooks(steps, w, replies, f);
  }

  lemma UnrefundedBooks(steps: seq<Step>, w: World, replies: nat -> Reply, f: nat)
    requires Handles(steps, w, replies) && EndingFrom(w, 0, |steps|) == FailedAt(f) && f < |steps|
    requires PaymentOf(steps[f].output).None? && NoneRefunded(w, 0, f)
    ensures var calls := Trace(steps, w, FailedAt(f));
      && Refunded(calls) == [] && Initiated(calls) == Ids(steps, replies, f)
      && (multiset(Refunded(calls)) == multiset(Initiated(calls)) <==> NoneInitiates(steps, f))
  {
    FailedSagaBooks(steps, w, replies, f);
    NothingRefundable(steps, replies, w, f);
    EndingIsFirstStop(w, 0, |steps|, f);
    PaidUnlessNoneInitiates(steps, w, replies, f);
  }

  // ---- A run in which that happens ----

  /** A saga of two steps whose second Execute is cancelled and then fails. */
  function LateCancel(n: nat): I.Action {
    match n
    case 0 => I.SaveSaga(0, 0, 2)
    case 1 => I.Register(0)
    case 2 => I.Launch(0)
    case 3 => I.Check(0)
    case 4 => I.Begin(0)
    case 5 => I.Return(0, true)
    case 6 => I.Check(0)
    case 7 => I.Begin(0)
    case 8 => I.CancelLookUp(0, 0)
    case 9 => I.CancelFire(0)
    case 10 => I.Return(0, false)
    case _ => I.Undo(0, true)
  }

  /** The run after `n` of these actions. */
  function LateRun(n: nat): I.Run {
    match n
    case 0 => I.Run(0, 2, I.Saved, I.Running, 0, 0)
    case 1 => I.Run(0, 2, I.Saved, I.Running, 0, 0)
    case 2 => I.Run(0, 2, I.Registered, I.Running, 0, 0)
    case 3 => I.Run(0, 2, I.AtCheck(0), I.Running, 0, 0)
    case 4 => I.Run(0, 2, I.Passed(0), I.Running, 0, 0)
    case 5 => I.Run(0, 2, I.Executing(0), I.Running, 0, 0)
    case 6 => I.Run(0, 2, I.AtCheck(1), I.Running, 1, 0)
    case 7 => I.Run(0, 2, I.Passed(1), I.Running, 1, 0)
    case 8 => I.Run(0, 2, I.Executing(1), I.Running, 1, 0)
    case 9 => I.Run(0, 2, I.Executing(1), I.Running, 1, 0)
    case 10 => I.Run(0, 2, I.Executing(1), I.Running, 1, 0)
    case 11 => I.Run(0, 2, I.Undoing(2), I.Compensating, 1, 0)
    case 12 => I.Run(0, 2, I.Undoing(1), I.Compensating, 1, 0)
    case 13 => I.Run(0, 2, I.Undoing(0), I.Compensating, 1, 0)
    case _ => I.Run(0, 2, I.Closing, I.Failed, 1, 0)
  }

  /** That run is the only one, and its context is done from the tenth action on. */
  ghost predicate LateState(s: I.System, n: nat) {
    && (0 in s.runs <==> 0 < n) && (0 < n ==> s.runs[0] == LateRun(n))
    && (0 in s.done <==> 10 <= n)
    && (2 <= n ==> 0 in s.running && s.running[0] == 0)
    && (n <= 8 ==> s.cancels == map[])
    && (n == 9 ==> s.cancels == map[0 := I.LookedUp(0, Some(0))])
  }

  /** The actions that move the run. */
  lemma LateMove(s: I.System, n: nat)
    requires n < 14 && LateState(s, n) && I.ByExecutor(LateCancel(n))
    ensures I.Move(LateRun(n), LateCancel(n), 10 <= n) == LateRun(n + 1)
    ensures LateState(I.Step(s, LateCancel(n)), n + 1)
  {
    var a := LateCancel(n);
    assert I.Move(LateRun(n), a, 10 <= n) == LateRun(n + 1);
    I.StepOnRun(s, a, 0);
    ExecutorTouchesOnlyRuns(s, a);
  }

  lemma ExecutorTouchesOnlyRuns(s: I.System, a: I.Action)
    requires I.ByExecutor(a)
    ensures var s' := I.Step(s, a); s'.running == s.running && s'.done == s.done && s'.cancels == s.cancels
  {
  }

  lemma LateStep(s: I.System, n: nat)
    requires n < 14 && LateState(s, n)
    ensures LateState(I.Step(s, LateCancel(n)), n + 1)
  {
    if I.ByExecutor(LateCancel(n)) {
      LateMove(s, n);
    } else {
      assert n in {0, 1, 8, 9};
    }
  }

  ghost predicate IsLate(actions: seq<I.Action>) {
    |actions| == 14 && forall n: nat :: n < 14 ==> actions[n] == LateCancel(n)
  }

  lemma LateActions() returns (actions: seq<I.Action>)
    ensures IsLate(actions)
  {
    actions := seq(14, n requires 0 <= n => LateCancel(n));
  }

  lemma {:induction false} LateAlong(actions: seq<I.Action>, n: nat)
    requires IsLate(actions) && n <= 14
    ensures LateState(State(actions, n), n)
  {
    if n == 0 {
      assert actions[..0] == [];
    } else {
      LateAlong(actions, n - 1);
      AlongStep(I.Step, I.START, actions, n - 1);
      LateStep(State(actions, n - 1), n - 1);
    }
  }

  lemma LateFollows(actions: seq<I.Action>, results: nat -> Result, n: nat)
    requires IsLate(actions) && n < 14 && results(0).Ok? && results(1).Err?
    ensures Follows(results, State(actions, n), actions[n], 0)
  {
    LateAlong(actions, n);
    assert LateCancel(n).Return? ==> n == 5 || n == 10;
  }

  lemma LateClosed(actions: seq<I.Action>, m: nat, results: nat -> Result, steps: seq<Step>, replies: nat -> Reply)
    requires IsLate(actions) && m == 10 && |steps| == 2 && results(0).Ok? && results(1).Err?
    requires forall j: nat :: j < 2 ==> results(j) == HandleStep(steps[j], replies(j)) && PaymentOf(steps[j].output).None?
    ensures ClosedRun(results, actions, 0, steps, replies) && FailsCancelled(actions, 0, m, 1)
  {
    forall n: nat | n < |actions| ensures Follows(results, State(actions, n), actions[n], 0) {
      LateFollows(actions, results, n);
    }
    LateAlong(actions, m);
    LateAlong(actions, |actions|);
  }

  /** It happens: a payment is made, and though its refund would go well on a live context, none is made. */
  lemma CancelledWhileExecutingHappens(pay: Step, next: Step, replies: nat -> Reply, results: nat -> Result)
    returns (actions: seq<I.Action>, m: nat)
    requires Initiates(pay) && replies(0).RpcOk? && HandleStep(next, replies(1)).Err?
    requires PaymentOf(pay.output).None? && PaymentOf(next.output).None?
    requires results(0) == HandleStep(pay, replies(0)) && results(1) == HandleStep(next, replies(1))
    ensures ClosedRun(results, actions, 0, [pay, next], replies) && FailsCancelled(actions, 0, m, 1)
    ensures var calls := Trace([pay, next], Seen(results, j => true, actions, 0, |actions|), FailedAt(1));
      Initiated(calls) == [replies(0).paymentId] && Refunded(calls) == []
  {
    var steps := [pay, next];
    HandlerFacts(pay, replies(0));
    actions := LateActions();
    m := 10;
    LateClosed(actions, m, results, steps, replies);
    CancelledWhileExecuting(results, j => true, actions, 0, steps, replies, m, 1);
    OneId(steps, replies);
  }

  lemma OneId(steps: seq<Step>, replies: nat -> Reply)
    requires |steps| == 2 && Initiates(steps[0]) && replies(0).RpcOk?
    ensures Ids(steps, replies, 1) == [replies(0).paymentId]
  {
    assert Ids(steps, replies, 0) == [];
  }
}
