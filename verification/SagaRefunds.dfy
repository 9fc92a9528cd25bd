/** The step handler wired to the payment and session services, and what a failed saga refunds. */
module SagaRefunds {
  import opened Options
  import opened SagaEngine

  /** How a remote call ends. A failed InitiatePayment has made no payment. */
  datatype Reply = RpcError(message: string) | RpcOk(paymentId: string, reference: string, status: string)

  const DONE: Output := map[Success := Flag(true)]

  function ExecutePayment(s: Step, r: Reply): Result {
    match s.action
    case InitiatePayment => (
      match r
      case RpcError(m) => Err("payment initiation failed: " + m)
      case RpcOk(id, reference, status) =>
        Ok(map[Success := Flag(true), PaymentId := Text(id), ProviderReference := Text(reference),
               PaymentStatus := Text(status)]))
    case GetPaymentStatus => (
      match r
      case RpcError(m) => Err(m)
      case RpcOk(_, _, status) => Ok(map[Success := Flag(true), PaymentStatus := Text(status)]))
    case _ => Ok(DONE)
  }

  function ExecuteSession(s: Step, r: Reply): Result {
    match s.action
    case ReconstructSession => (
      match r
      case RpcError(m) => Err(m)
      case RpcOk(_, _, _) => Ok(map[Success := Flag(true), State := Structured]))
    case _ => Ok(DONE)
  }

  /** Execute of the service handler. */
  function HandleStep(s: Step, r: Reply): Result {
    match s.service
    case Payment => ExecutePayment(s, r)
    case Session => ExecuteSession(s, r)
    case OtherService(_) => Ok(DONE)
  }

  function PaymentOf(o: Output): Option<string> {
    if PaymentId in o && o[PaymentId].Text? && o[PaymentId].text != "" then Some(o[PaymentId].text) else None
  }

  /** The payment a compensation asks to refund, if any. */
  function RefundRequest(s: Step): Option<string> {
    if s.service.Payment? then PaymentOf(s.output) else None
  }

  predicate Initiates(s: Step) {
    s.service.Payment? && s.action.InitiatePayment?
  }

  // ---- What a trace does to the payment engine's books ----

  /** Payments made by the Execute calls of a trace. */
  function Initiated(calls: seq<Call>): seq<string> {
    if calls == [] then []
    else
      var c, rest := calls[|calls| - 1], Initiated(calls[..|calls| - 1]);
      match c
      case Execute(s, Ok(o)) =>
        if Initiates(s) && PaymentId in o && o[PaymentId].Text? then rest + [o[PaymentId].text] else rest
      case _ => rest
  }

  /** Payments refunded by the Compensate calls that succeeded. */
  function Refunded(calls: seq<Call>): seq<string> {
    if calls == [] then []
    else
      var c, rest := calls[|calls| - 1], Refunded(calls[..|calls| - 1]);
      if c.Compensate? && c.ok && RefundRequest(c.step).Some? then rest + [RefundRequest(c.step).value] else rest
  }

  /** The world's answers are those of the service handler. */
  ghost predicate Handles(steps: seq<Step>, w: World, replies: nat -> Reply) {
    forall j: nat :: j < |steps| ==> w.execute(j) == HandleStep(steps[j], replies(j))
  }

  /** Payment ids of the payment steps among the first `k`, in order. */
  function Ids(steps: seq<Step>, replies: nat -> Reply, k: nat): seq<string>
    requires k <= |steps|
    decreases k
  {
    if k == 0 then []
    else
      var rest := Ids(steps, replies, k - 1);
      if Initiates(steps[k - 1]) && replies(k - 1).RpcOk? then rest + [replies(k - 1).paymentId] else rest
  }

  /** A payment step that a failure further on gets refunded. */
  predicate Refundable(s: Step, r: Reply, refundOk: bool) {
    s.compensation != "" && refundOk && r.RpcOk? && r.paymentId != ""
  }

  function RefundableIds(steps: seq<Step>, replies: nat -> Reply, w: World, k: nat): seq<string>
    requires k <= |steps|
    decreases k
  {
    if k == 0 then []
    else
      var rest := RefundableIds(steps, replies, w, k - 1);
      if Initiates(steps[k - 1]) && Refundable(steps[k - 1], replies(k - 1), w.compensate(k - 1))
      then [replies(k - 1).paymentId] + rest else rest
  }

  lemma HandlerFacts(s: Step, r: Reply)
    ensures Initiates(s) ==> (HandleStep(s, r).Ok? <==> r.RpcOk?)
    ensures Initiates(s) && r.RpcOk? ==> HandleStep(s, r).output[PaymentId] == Text(r.paymentId)
    ensures HandleStep(s, r).Ok? ==>
      RefundRequest(Succeeded(s, HandleStep(s, r))) == if Initiates(s) && r.paymentId != "" then Some(r.paymentId) else None
  {
  }

  /** The steps that make a remote call when they are executed. */
  predicate MakesCall(s: Step) {
    || (s.service == Payment && (s.action == InitiatePayment || s.action == GetPaymentStatus))
    || (s.service == Session && s.action == ReconstructSession)
  }

  /** Every step and every reply: a step errs if and only if it makes a call and the call errs; a step that makes
      none succeeds whatever it is; and what the output holds in each case. */
  lemma HandlerLaw(s: Step, r: Reply)
    ensures HandleStep(s, r).Err? <==> MakesCall(s) && r.RpcError?
    ensures !MakesCall(s) ==> HandleStep(s, r) == Ok(map[Success := Flag(true)])
    ensures MakesCall(s) && r.RpcError? ==>
      HandleStep(s, r).message == if s.action == InitiatePayment then "payment initiation failed: " + r.message else r.message
    ensures MakesCall(s) && r.RpcOk? ==>
      HandleStep(s, r).output ==
        if s.service == Session then map[Success := Flag(true), State := Structured]
        else if s.action == GetPaymentStatus then map[Success := Flag(true), PaymentStatus := Text(r.status)]
        else map[Success := Flag(true), PaymentId := Text(r.paymentId), ProviderReference := Text(r.reference),
                 PaymentStatus := Text(r.status)]
  {
  }

  /** A compensation asks for a refund if and only if it is of a payment step whose output names a payment. */
  lemma RefundLaw(s: Step, id: string)
    ensures RefundRequest(s) == Some(id) <==>
      s.service == Payment && PaymentId in s.output && s.output[PaymentId] == Text(id) && id != ""
  {
  }

  lemma {:induction false} ExecutionsInitiate(steps: seq<Step>, w: World, replies: nat -> Reply, k: nat)
    requires k <= |steps| && Handles(steps, w, replies)
    ensures Initiated(Executions(steps, w, k)) == Ids(steps, replies, k)
    ensures Refunded(Executions(steps, w, k)) == []
    decreases k
  {
    if k != 0 {
      var calls := Executions(steps, w, k);
      assert calls[..k - 1] == Executions(steps, w, k - 1);
      ExecutionsInitiate(steps, w, replies, k - 1);
      HandlerFacts(steps[k - 1], replies(k - 1));
      assert w.execute(k - 1) == HandleStep(steps[k - 1], replies(k - 1));
    }
  }

  lemma {:induction false} InitiatedConcat(xs: seq<Call>, ys: seq<Call>)
    ensures Initiated(xs + ys) == Initiated(xs) + Initiated(ys)
    ensures Refunded(xs + ys) == Refunded(xs) + Refunded(ys)
  {
    if ys == [] {
      assert xs + ys == xs;
    } else {
      assert (xs + ys)[..|xs + ys| - 1] == xs + ys[..|ys| - 1];
      InitiatedConcat(xs, ys[..|ys| - 1]);
    }
  }

  lemma {:induction false} CompensationsRefund(steps: seq<Step>, w: World, replies: nat -> Reply, ran: seq<Step>, k: nat)
    requires k <= |steps| == |ran| && Handles(steps, w, replies)
    requires forall j :: 0 <= j < k ==> w.execute(j).Ok? && ran[j] == Succeeded(steps[j], w.execute(j))
    ensures Refunded(Compensations(ran, w, k)) == RefundableIds(steps, replies, w, k)
    ensures Initiated(Compensations(ran, w, k)) == []
    decreases k
  {
    if k != 0 {
      CompensationsRefund(steps, w, replies, ran, k - 1);
      LastCompensation(ran, w, k);
      assert RefundRequest(ran[k - 1]) ==
        if Initiates(steps[k - 1]) && replies(k - 1).paymentId != "" then Some(replies(k - 1).paymentId) else None by {
        assert w.execute(k - 1) == HandleStep(steps[k - 1], replies(k - 1));
        HandlerFacts(steps[k - 1], replies(k - 1));
      }
    }
  }

  /** The latest step is compensated first. */
  lemma LastCompensation(ran: seq<Step>, w: World, k: nat)
    requires 0 < k <= |ran|
    ensures var s := ran[k - 1];
      Refunded(Compensations(ran, w, k)) ==
      (if s.compensation != "" && w.compensate(k - 1) && RefundRequest(s).Some? then [RefundRequest(s).value] else [])
      + Refunded(Compensations(ran, w, k - 1))
    ensures Initiated(Compensations(ran, w, k)) == Initiated(Compensations(ran, w, k - 1))
  {
    var rest := Compensations(ran, w, k - 1);
    if ran[k - 1].compensation == "" {
      assert Compensations(ran, w, k) == rest;
    } else {
      InitiatedConcat([Compensate(ran[k - 1], w.compensate(k - 1))], rest);
      OneCompensation(ran[k - 1], w.compensate(k - 1));
    }
  }

  lemma OneCompensation(s: Step, ok: bool)
    ensures Refunded([Compensate(s, ok)]) == if ok && RefundRequest(s).Some? then [RefundRequest(s).value] else []
    ensures Initiated([Compensate(s, ok)]) == []
  {
    assert [Compensate(s, ok)][..0] == [];
  }

  /** What a failed saga did, exactly: it initiated the payments of the steps before the failed one,
      and refunded the refundable ones among them, latest first. The failed step is compensated too,
      but it has no output to refund. */
  lemma FailedSagaBooks(steps: seq<Step>, w: World, replies: nat -> Reply, f: nat)
    requires Handles(steps, w, replies) && EndingFrom(w, 0, |steps|) == FailedAt(f) && f < |steps|
    requires PaymentOf(steps[f].output).None?
    ensures Initiated(Trace(steps, w, FailedAt(f))) == Ids(steps, replies, f)
    ensures Refunded(Trace(steps, w, FailedAt(f))) == RefundableIds(steps, replies, w, f)
  {
    EndingIsFirstStop(w, 0, |steps|, f);
    assert Smooth(w, 0, f) && w.execute(f).Err?;
    var ran := AfterStep(steps, w, f);
    CompensationsRefund(steps, w, replies, ran, f);
    LastCompensation(ran, w, f + 1);
    ExecutionsInitiate(steps, w, replies, f + 1);
    HandlerFacts(steps[f], replies(f));
    assert w.execute(f) == HandleStep(steps[f], replies(f));
    InitiatedConcat(Executions(steps, w, f + 1), Compensations(ran, w, f + 1));
  }

  /** A saga whose first call to err, of whatever kind, is that of step `f` fails there, and refunds the refundable
      payments before it, latest first: an errored status or session call undoes the payments as a rejected
      payment does. */
  lemma ErroredCallUndoesPayments(steps: seq<Step>, w: World, replies: nat -> Reply, f: nat)
    requires Handles(steps, w, replies) && f < |steps| && PaymentOf(steps[f].output).None?
    requires forall j: nat :: j <= f ==> !w.cancelled(j)
    requires MakesCall(steps[f]) && replies(f).RpcError?
    requires forall j: nat :: j < f && MakesCall(steps[j]) ==> replies(j).RpcOk?
    ensures EndingFrom(w, 0, |steps|) == FailedAt(f)
    ensures Initiated(Trace(steps, w, FailedAt(f))) == Ids(steps, replies, f)
    ensures Refunded(Trace(steps, w, FailedAt(f))) == RefundableIds(steps, replies, w, f)
  {
    forall j: nat | j <= f ensures w.execute(j).Ok? <==> j < f {
      HandlerLaw(steps[j], replies(j));
      assert w.execute(j) == HandleStep(steps[j], replies(j));
    }
    EndingIsFirstStop(w, 0, |steps|, f);
    FailedSagaBooks(steps, w, replies, f);
  }

  /** Every payment made by the first `k` steps is refundable. */
  ghost predicate AllRefundable(steps: seq<Step>, replies: nat -> Reply, w: World, k: nat)
    requires k <= |steps|
  {
    forall j: nat :: j < k && Initiates(steps[j]) && replies(j).RpcOk? ==> Refundable(steps[j], replies(j), w.compensate(j))
  }

  lemma AllRefundableStep(steps: seq<Step>, replies: nat -> Reply, w: World, k: nat)
    requires 0 < k <= |steps|
    ensures AllRefundable(steps, replies, w, k) <==>
      && AllRefundable(steps, replies, w, k - 1)
      && (Initiates(steps[k - 1]) && replies(k - 1).RpcOk? ==> Refundable(steps[k - 1], replies(k - 1), w.compensate(k - 1)))
  {
  }

  /** `back` repays part of `paid`, and all of it exactly when `all`. */
  ghost predicate Repays(back: multiset<string>, paid: multiset<string>, all: bool) {
    back <= paid && (back == paid <==> all)
  }

  ghost function PaidBag(steps: seq<Step>, replies: nat -> Reply, k: nat): multiset<string>
    requires k <= |steps|
    decreases k
  {
    if k == 0 then multiset{}
    else if Initiates(steps[k - 1]) && replies(k - 1).RpcOk?
    then PaidBag(steps, replies, k - 1) + multiset{replies(k - 1).paymentId}
    else PaidBag(steps, replies, k - 1)
  }

  ghost function RefundBag(steps: seq<Step>, replies: nat -> Reply, w: World, k: nat): multiset<string>
    requires k <= |steps|
    decreases k
  {
    if k == 0 then multiset{}
    else if Initiates(steps[k - 1]) && Refundable(steps[k - 1], replies(k - 1), w.compensate(k - 1))
    then RefundBag(steps, replies, w, k - 1) + multiset{replies(k - 1).paymentId}
    else RefundBag(steps, replies, w, k - 1)
  }

  lemma {:induction false} PaidIsABag(steps: seq<Step>, replies: nat -> Reply, k: nat)
    requires k <= |steps|
    ensures multiset(Ids(steps, replies, k)) == PaidBag(steps, replies, k)
    decreases k
  {
    if k != 0 {
      PaidIsABag(steps, replies, k - 1);
      if replies(k - 1).RpcOk? { Appended(Ids(steps, replies, k - 1), replies(k - 1).paymentId); }
    }
  }

  lemma {:induction false} RefundIsABag(steps: seq<Step>, replies: nat -> Reply, w: World, k: nat)
    requires k <= |steps|
    ensures multiset(RefundableIds(steps, replies, w, k)) == RefundBag(steps, replies, w, k)
    decreases k
  {
    if k != 0 {
      RefundIsABag(steps, replies, w, k - 1);
      if replies(k - 1).RpcOk? { Prepended(RefundableIds(steps, replies, w, k - 1), replies(k - 1).paymentId); }
    }
  }

  /** The refunds are among the payments, and all of them exactly when every payment is refundable. */
  lemma {:induction false} RefundsWithinPayments(steps: seq<Step>, replies: nat -> Reply, w: World, k: nat)
    requires k <= |steps|
    ensures Repays(RefundBag(steps, replies, w, k), PaidBag(steps, replies, k), AllRefundable(steps, replies, w, k))
    decreases k
  {
    if k != 0 {
      RefundsWithinPayments(steps, replies, w, k - 1);
      AllRefundableStep(steps, replies, w, k);
      if replies(k - 1).RpcOk? {
        OneMorePaid(RefundBag(steps, replies, w, k - 1), PaidBag(steps, replies, k - 1), replies(k - 1).paymentId,
                    AllRefundable(steps, replies, w, k - 1));
      }
    }
  }

  lemma Appended(s: seq<string>, x: string)
    ensures multiset(s + [x]) == multiset(s) + multiset{x}
  {
  }

  lemma Prepended(s: seq<string>, x: string)
    ensures multiset([x] + s) == multiset(s) + multiset{x}
  {
  }

  lemma OneMorePaid(back: multiset<string>, paid: multiset<string>, id: string, all: bool)
    requires Repays(back, paid, all)
    ensures Repays(back + multiset{id}, paid + multiset{id}, all)
    ensures Repays(back, paid + multiset{id}, false)
  {
    if back + multiset{id} == paid + multiset{id} {
      assert back == back + multiset{id} - multiset{id} == paid;
    }
    assert (paid + multiset{id})[id] == paid[id] + 1 && back[id] <= paid[id];
  }

  /** Main result on refunds: a saga that failed, uncancelled, has refunded exactly the payments it
      initiated, each as often as it was initiated, if and only if each of them had a compensation
      action, a non-empty id and a refund that succeeded. */
  lemma RefundConservation(steps: seq<Step>, w: World, replies: nat -> Reply, f: nat)
    requires Handles(steps, w, replies) && EndingFrom(w, 0, |steps|) == FailedAt(f) && f < |steps|
    requires PaymentOf(steps[f].output).None?
    ensures var calls := Trace(steps, w, FailedAt(f));
      multiset(Refunded(calls)) == multiset(Initiated(calls)) <==> AllRefundable(steps, replies, w, f)
  {
    FailedSagaBooks(steps, w, replies, f);
    PaidIsABag(steps, replies, f);
    RefundIsABag(steps, replies, w, f);
    RefundsWithinPayments(steps, replies, w, f);
  }

  /** With distinct payment ids nothing is refunded twice, whatever the compensations do. */
  lemma NeverRefundedTwice(steps: seq<Step>, w: World, replies: nat -> Reply, f: nat, id: string)
    requires Handles(steps, w, replies) && EndingFrom(w, 0, |steps|) == FailedAt(f) && f < |steps|
    requires PaymentOf(steps[f].output).None?
    requires multiset(Initiated(Trace(steps, w, FailedAt(f))))[id] <= 1
    ensures multiset(Refunded(Trace(steps, w, FailedAt(f))))[id] <= 1
  {
    FailedSagaBooks(steps, w, replies, f);
    PaidIsABag(steps, replies, f);
    RefundIsABag(steps, replies, w, f);
    RefundsWithinPayments(steps, replies, w, f);
    assert multiset(Refunded(Trace(steps, w, FailedAt(f)))) <= multiset(Initiated(Trace(steps, w, FailedAt(f))));
  }

  /** A cancelled saga keeps the payments of the steps it ran: it refunds nothing, so its books balance
      if and only if none of those steps initiates a payment. */
  lemma CancelledSagaKeepsPayments(steps: seq<Step>, w: World, replies: nat -> Reply, i: nat)
    requires Handles(steps, w, replies) && EndingFrom(w, 0, |steps|) == CancelledAt(i) && i < |steps|
    ensures Refunded(Trace(steps, w, CancelledAt(i))) == []
    ensures Initiated(Trace(steps, w, CancelledAt(i))) == Ids(steps, replies, i)
    ensures var calls := Trace(steps, w, CancelledAt(i));
      multiset(Refunded(calls)) == multiset(Initiated(calls)) <==> NoneInitiates(steps, i)
  {
    ExecutionsInitiate(steps, w, replies, i);
    EndingIsFirstStop(w, 0, |steps|, i);
    assert Smooth(w, 0, i);
    PaidUnlessNoneInitiates(steps, w, replies, i);
  }

  ghost predicate NoneInitiates(steps: seq<Step>, k: nat)
    requires k <= |steps|
  {
    forall j: nat :: j < k ==> !Initiates(steps[j])
  }

  lemma {:induction false} PaidUnlessNoneInitiates(steps: seq<Step>, w: World, replies: nat -> Reply, k: nat)
    requires k <= |steps| && Handles(steps, w, replies) && Smooth(w, 0, k)
    ensures Ids(steps, replies, k) == [] <==> NoneInitiates(steps, k)
    decreases k
  {
    if k != 0 {
      PaidUnlessNoneInitiates(steps, w, replies, k - 1);
      HandlerFacts(steps[k - 1], replies(k - 1));
      assert w.execute(k - 1) == HandleStep(steps[k - 1], replies(k - 1)) && w.execute(k - 1).Ok?;
    }
  }

  /** For one, a payment step followed by any step before which the context is done. */
  lemma CancelledSagaUnbalanced(pay: Step, next: Step, reply: Reply, now: int) returns (w: World)
    requires Initiates(pay) && reply.RpcOk?
    ensures Handles([pay, next], w, j => reply)
    ensures EndingFrom(w, 0, 2) == CancelledAt(1)
    ensures var calls := Trace([pay, next], w, CancelledAt(1));
      Initiated(calls) == [reply.paymentId] && Refunded(calls) == []
  {
    var steps := [pay, next];
    var replies := (j: nat) => reply;
    w := World(j => HandleStep(if j == 0 then pay else next, reply), j => true, j => j == 1, now);
    HandlerFacts(pay, reply);
    assert EndingFrom(w, 1, 2) == CancelledAt(1);
    CancelledSagaKeepsPayments(steps, w, replies, 1);
    assert Ids(steps, replies, 1) == [reply.paymentId];
  }
}
