/** Routing one USSD request: the checks in front, then the tenant's payment request behind
    the circuit breaker; and what the breaker guarantees over runs of routed requests. */
module PaymentRouting {
  import opened Options
  import opened CircuitBreaker
  import RateLimiter
  import TtlCache
  import Runs

  const PHONE_LIMIT := 60
  const DEFAULT_TENANT_LIMIT := 100

  datatype Tenant = Tenant(id: string, active: bool, rps: int)

  /** Clock readings around one payment attempt, and whether the payment engine accepted it. */
  datatype PayCall = PayCall(readAt: int, writeAt: int, recordAt: int, accepted: bool) {
    predicate InOrder() { readAt <= writeAt <= recordAt }
  }

  /** A request and everything the outside world answers to it. */
  datatype Request = Request(
    phone: string, phoneValid: bool, phoneLimit: RateLimiter.LimitCall,
    tenant: Option<Tenant>, tenantLimit: RateLimiter.LimitCall,
    stateOk: bool, sessionOk: bool, clientOk: bool, menuOk: bool,
    wantsPayment: bool, pay: PayCall)

  datatype Refusal =
    | InvalidPhone | PhoneLimited | TenantNotFound | TenantInactive | TenantLimited
    | BadSessionState | SessionFailed | ClientFailed | MenuFailed

  datatype Payment = NotRequested | CircuitOpen | Rejected | Initiated

  datatype Response = Refused(reason: Refusal) | Routed(payment: Payment)

  function TenantLimit(t: Tenant): int {
    if t.rps == 0 then DEFAULT_TENANT_LIMIT else t.rps
  }

  predicate Admits(s: Status, readAt: int) {
    !s.phase.Open? || Expired(s, readAt)
  }

  function Outcome(s: Status, c: PayCall): Payment {
    if !Admits(s, c.readAt) then CircuitOpen else if c.accepted then Initiated else Rejected
  }

  /** The breaker after one routed payment. */
  function After(s: Status, c: PayCall): Status {
    if !Admits(s, c.readAt) then s
    else
      var admitted := TryHalfOpen(s, c.writeAt);
      if c.accepted then OnSuccess(admitted) else OnFailure(admitted, c.recordAt)
  }

  class Router {
    const limiter: RateLimiter.TokenBucketRateLimiter
    const breaker: Breaker?
    const hasPaymentClient: bool
    /** Answers of the payment engine to the calls made to it. */
    var paymentCalls: seq<bool>

    constructor (limiter: RateLimiter.TokenBucketRateLimiter, breaker: Breaker?, hasPaymentClient: bool)
      ensures this.limiter == limiter && this.breaker == breaker && this.hasPaymentClient == hasPaymentClient
      ensures paymentCalls == []
    {
      this.limiter, this.breaker, this.hasPaymentClient := limiter, breaker, hasPaymentClient;
      paymentCalls := [];
    }

    /** The payment part: a breaker that admits the call sees its outcome exactly once. */
    method RoutePayment(c: PayCall) returns (p: Payment)
      requires c.InOrder()
      modifies this, breaker
      ensures breaker == null ==> p == if c.accepted then Initiated else Rejected
      ensures breaker != null ==>
        p == Outcome(old(breaker.Current()), c) && breaker.Current() == After(old(breaker.Current()), c)
      ensures paymentCalls == old(paymentCalls) + if p.CircuitOpen? then [] else [c.accepted]
    {
      var allowed := true;
      if breaker != null {
        allowed := breaker.Allow(c.readAt, c.writeAt);
      }
      if !allowed {
        return CircuitOpen;
      }
      paymentCalls := paymentCalls + [c.accepted];
      if !c.accepted {
        if breaker != null {
          breaker.RecordFailure(c.recordAt);
        }
        p := Rejected;
      } else {
        if breaker != null {
          breaker.RecordSuccess();
        }
        p := Initiated;
      }
    }

    /** The checks made on this side. */
    method CheckLimits(r: Request) returns (refusal: Option<Refusal>)
      modifies limiter
      ensures FirstRefusal(LimitChecks(old(limiter.cache), r), refusal)
      ensures limiter.cache == Charged(old(limiter.cache), r)
    {
      ghost var checks := LimitChecks(limiter.cache, r);
      if !r.phoneValid {
        assert FirstFailing(checks, 0);
        return Some(InvalidPhone);
      }
      var ok := limiter.Allow(r.phone, PHONE_LIMIT, r.phoneLimit);
      if !ok {
        assert FirstFailing(checks, 1);
        return Some(PhoneLimited);
      }
      if r.tenant.None? {
        assert FirstFailing(checks, 2);
        return Some(TenantNotFound);
      }
      var tenant := r.tenant.value;
      if !tenant.active {
        assert FirstFailing(checks, 3);
        return Some(TenantInactive);
      }
      var limit := tenant.rps;
      if limit == 0 {
        limit := DEFAULT_TENANT_LIMIT;
      }
      ok := limiter.AllowTenant(tenant.id, limit, r.tenantLimit);
      if !ok {
        assert FirstFailing(checks, 4);
        return Some(TenantLimited);
      }
      return None;
    }

    /** Everything before the payment: the refusal is that of the first check to fail. */
    method Screen(r: Request) returns (refusal: Option<Refusal>)
      modifies limiter
      ensures FirstRefusal(LimitChecks(old(limiter.cache), r) + CallChecks(r), refusal)
      ensures limiter.cache == Charged(old(limiter.cache), r)
    {
      ghost var limits := LimitChecks(limiter.cache, r);
      refusal := CheckLimits(r);
      ghost var checks := limits + CallChecks(r);
      if refusal.Some? {
        ghost var i :| FirstFailing(limits, i) && refusal.value == limits[i].0;
        assert FirstFailing(checks, i);
        return;
      }
      if !r.stateOk {
        assert FirstFailing(checks, 5);
        return Some(BadSessionState);
      }
      if !r.sessionOk {
        assert FirstFailing(checks, 6);
        return Some(SessionFailed);
      }
      if !r.clientOk {
        assert FirstFailing(checks, 7);
        return Some(ClientFailed);
      }
      if !r.menuOk {
        assert FirstFailing(checks, 8);
        return Some(MenuFailed);
      }
      return None;
    }

    /** A refused request never reaches the payment engine or the breaker; a routed one calls
        the engine at most once and tells the breaker about exactly that call. */
    method RouteRequest(r: Request) returns (resp: Response)
      requires r.pay.InOrder()
      modifies this, limiter, breaker
      ensures FirstRefusal(LimitChecks(old(limiter.cache), r) + CallChecks(r),
                           if resp.Refused? then Some(resp.reason) else None)
      ensures limiter.cache == Charged(old(limiter.cache), r)
      ensures resp.Refused? ==> paymentCalls == old(paymentCalls) && (breaker != null ==> unchanged(breaker))
      ensures resp.Routed? ==>
        && (resp.payment.NotRequested? <==> !(r.wantsPayment && hasPaymentClient))
        && paymentCalls == old(paymentCalls) +
             (if resp.payment.Rejected? || resp.payment.Initiated? then [r.pay.accepted] else [])
        && (breaker != null && !resp.payment.NotRequested? ==>
              resp.payment == Outcome(old(breaker.Current()), r.pay)
              && breaker.Current() == After(old(breaker.Current()), r.pay))
        && (breaker != null && resp.payment.NotRequested? ==> unchanged(breaker))
        && (breaker == null && !resp.payment.NotRequested? ==>
              resp.payment == if r.pay.accepted then Initiated else Rejected)
    {
      var refusal := Screen(r);
      if refusal.Some? {
        return Refused(refusal.value);
      }
      if r.wantsPayment && hasPaymentClient {
        var p := RoutePayment(r.pay);
        return Routed(p);
      }
      return Routed(NotRequested);
    }
  }

  predicate PhoneAdmits(c: TtlCache.Cache, r: Request) {
    RateLimiter.Admits(c, RateLimiter.PhoneKey(r.phone), PHONE_LIMIT, r.phoneLimit)
  }

  function ChargePhone(c: TtlCache.Cache, r: Request): TtlCache.Cache {
    RateLimiter.Charge(c, RateLimiter.PhoneKey(r.phone), r.phoneLimit)
  }

  predicate ReachesTenantLimit(r: Request) {
    r.tenant.Some? && r.tenant.value.active
  }

  predicate TenantAdmits(c: TtlCache.Cache, r: Request)
    requires ReachesTenantLimit(r)
  {
    RateLimiter.Admits(c, RateLimiter.TenantKey(r.tenant.value.id), TenantLimit(r.tenant.value), r.tenantLimit)
  }

  function ChargeTenant(c: TtlCache.Cache, r: Request): TtlCache.Cache
    requires ReachesTenantLimit(r)
  {
    RateLimiter.Charge(c, RateLimiter.TenantKey(r.tenant.value.id), r.tenantLimit)
  }

  /** The counters after a request: the phone's is charged unless the number is invalid, the tenant's if
      the phone was admitted and the tenant is there and active, whatever fails later. */
  function Charged(c: TtlCache.Cache, r: Request): TtlCache.Cache {
    if !r.phoneValid then c
    else if !PhoneAdmits(c, r) || !ReachesTenantLimit(r) then ChargePhone(c, r)
    else ChargeTenant(ChargePhone(c, r), r)
  }

  /** The checks a request must pass, in the order they are made. */
  function LimitChecks(c: TtlCache.Cache, r: Request): (checks: seq<(Refusal, bool)>)
    ensures |checks| == 5
  {
    [(InvalidPhone, r.phoneValid),
     (PhoneLimited, PhoneAdmits(c, r)),
     (TenantNotFound, r.tenant.Some?),
     (TenantInactive, r.tenant.Some? ==> r.tenant.value.active),
     (TenantLimited, ReachesTenantLimit(r) ==> TenantAdmits(ChargePhone(c, r), r))]
  }

  function CallChecks(r: Request): (checks: seq<(Refusal, bool)>)
    ensures |checks| == 4
  {
    [(BadSessionState, r.stateOk), (SessionFailed, r.sessionOk), (ClientFailed, r.clientOk), (MenuFailed, r.menuOk)]
  }

  predicate FirstFailing(checks: seq<(Refusal, bool)>, i: int) {
    0 <= i < |checks| && !checks[i].1 && forall j :: 0 <= j < i ==> checks[j].1
  }

  /** The refusal a list of checks calls for: the first one to fail, or none. */
  ghost predicate FirstRefusal(checks: seq<(Refusal, bool)>, refusal: Option<Refusal>) {
    match refusal
    case None => forall i :: 0 <= i < |checks| ==> checks[i].1
    case Some(why) => exists i :: FirstFailing(checks, i) && why == checks[i].0
  }

  // ---- The checks in numbers ----

  function PhoneCount(c: TtlCache.Cache, r: Request): nat {
    TtlCache.CountAt(c, "rl:phone:" + r.phone, r.phoneLimit.incrAt)
  }

  function TenantCount(c: TtlCache.Cache, r: Request): nat
    requires r.tenant.Some?
  {
    TtlCache.CountAt(c, "rl:tenant:" + r.tenant.value.id, r.tenantLimit.incrAt)
  }

  /** Not refused on account of the phone number: it is valid, and it has made fewer than 60 requests in the life of
      its counter, or the cache errs. */
  predicate PassesPhone(c: TtlCache.Cache, r: Request) {
    r.phoneValid && (r.phoneLimit.incrOk ==> PhoneCount(c, r) < 60)
  }

  /** Nor on account of its tenant: it is there and active, and has had fewer requests than its limit, which is 100
      where none is set. */
  predicate PassesTenant(c: TtlCache.Cache, r: Request) {
    && PassesPhone(c, r) && r.tenant.Some? && r.tenant.value.active
    && (r.tenantLimit.incrOk ==> TenantCount(c, r) < if r.tenant.value.rps == 0 then 100 else r.tenant.value.rps)
  }

  /** Main result on refusals: what a request is refused for, if for anything, in numbers. */
  lemma RefusalInNumbers(c: TtlCache.Cache, r: Request, refusal: Option<Refusal>)
    requires FirstRefusal(LimitChecks(c, r) + CallChecks(r), refusal)
    ensures refusal == Some(InvalidPhone) <==> !r.phoneValid
    ensures refusal == Some(PhoneLimited) <==> r.phoneValid && r.phoneLimit.incrOk && 60 <= PhoneCount(c, r)
    ensures refusal == Some(TenantNotFound) <==> PassesPhone(c, r) && r.tenant.None?
    ensures refusal == Some(TenantInactive) <==> PassesPhone(c, r) && r.tenant.Some? && !r.tenant.value.active
    ensures refusal == Some(TenantLimited) <==>
      && PassesPhone(c, r) && r.tenant.Some? && r.tenant.value.active && r.tenantLimit.incrOk
      && (if r.tenant.value.rps == 0 then 100 else r.tenant.value.rps) <= TenantCount(c, r)
    ensures refusal == Some(BadSessionState) <==> PassesTenant(c, r) && !r.stateOk
    ensures refusal == Some(SessionFailed) <==> PassesTenant(c, r) && r.stateOk && !r.sessionOk
    ensures refusal == Some(ClientFailed) <==> PassesTenant(c, r) && r.stateOk && r.sessionOk && !r.clientOk
    ensures refusal == Some(MenuFailed) <==> PassesTenant(c, r) && r.stateOk && r.sessionOk && r.clientOk && !r.menuOk
    ensures refusal == None <==> PassesTenant(c, r) && r.stateOk && r.sessionOk && r.clientOk && r.menuOk
  {
    ChecksAre(c, r);
    FirstOfNine(LimitChecks(c, r) + CallChecks(r), refusal);
  }

  lemma FirstOfNine(checks: seq<(Refusal, bool)>, refusal: Option<Refusal>)
    requires |checks| == 9 && FirstRefusal(checks, refusal)
    ensures refusal ==
      if !checks[0].1 then Some(checks[0].0) else if !checks[1].1 then Some(checks[1].0)
      else if !checks[2].1 then Some(checks[2].0) else if !checks[3].1 then Some(checks[3].0)
      else if !checks[4].1 then Some(checks[4].0) else if !checks[5].1 then Some(checks[5].0)
      else if !checks[6].1 then Some(checks[6].0) else if !checks[7].1 then Some(checks[7].0)
      else if !checks[8].1 then Some(checks[8].0) else None
  {
    if refusal.Some? {
      var i :| FirstFailing(checks, i) && refusal.value == checks[i].0;
      assert i in {0, 1, 2, 3, 4, 5, 6, 7, 8};
    }
  }

  lemma TenantUncharged(c: TtlCache.Cache, r: Request)
    requires r.tenant.Some?
    ensures TenantCount(ChargePhone(c, r), r) == TenantCount(c, r)
  {
    RateLimiter.KeysApart(r.phone, r.tenant.value.id);
  }

  lemma ChecksAre(c: TtlCache.Cache, r: Request)
    ensures var checks := LimitChecks(c, r) + CallChecks(r);
      && checks[0] == (InvalidPhone, r.phoneValid)
      && checks[1] == (PhoneLimited, r.phoneLimit.incrOk ==> PhoneCount(c, r) < 60)
      && checks[2] == (TenantNotFound, r.tenant.Some?)
      && checks[3] == (TenantInactive, r.tenant.Some? ==> r.tenant.value.active)
      && checks[4] == (TenantLimited, r.tenant.Some? && r.tenant.value.active && r.tenantLimit.incrOk ==>
                                        TenantCount(c, r) < if r.tenant.value.rps == 0 then 100 else r.tenant.value.rps)
      && checks[5] == (BadSessionState, r.stateOk) && checks[6] == (SessionFailed, r.sessionOk)
      && checks[7] == (ClientFailed, r.clientOk) && checks[8] == (MenuFailed, r.menuOk)
  {
    if r.tenant.Some? { TenantUncharged(c, r); }
    var calls := CallChecks(r);
    assert forall i :: 0 <= i < 4 ==> (LimitChecks(c, r) + calls)[5 + i] == calls[i];
  }

  /** The counters after a request, in numbers: an invalid number leaves all of them as they were; otherwise the
      phone's counts one more, and the tenant's if the request got as far as its limit; and no other changes. */
  lemma CountersAfter(c: TtlCache.Cache, r: Request, key: string)
    ensures !r.phoneValid ==> Charged(c, r) == c
    ensures key != "rl:phone:" + r.phone && (r.tenant.Some? ==> key != "rl:tenant:" + r.tenant.value.id) ==>
      var c' := Charged(c, r); (key in c' <==> key in c) && (key in c ==> c'[key] == c[key])
    ensures r.phoneValid && r.phoneLimit.incrOk ==>
      var k := "rl:phone:" + r.phone; k in Charged(c, r) && Charged(c, r)[k].count == PhoneCount(c, r) + 1
    ensures r.tenant.Some? ==>
      var k, c' := "rl:tenant:" + r.tenant.value.id, Charged(c, r);
      if PassesPhone(c, r) && r.tenant.value.active && r.tenantLimit.incrOk
      then k in c' && c'[k].count == TenantCount(c, r) + 1
      else (k in c' <==> k in c) && (k in c ==> c'[k] == c[k])
  {
    if r.tenant.Some? {
      RateLimiter.KeysApart(r.phone, r.tenant.value.id);
      TenantUncharged(c, r);
    }
  }

  // ---- Runs of routed payments ----

  ghost predicate Chronological(calls: seq<PayCall>, from: int)
    decreases |calls|
  {
    calls != [] ==>
      from <= calls[0].readAt && calls[0].InOrder() && Chronological(calls[1..], calls[0].recordAt)
  }

  /** Times at which the payment engine's rejections were recorded. */
  function FailureTimes(s: Status, calls: seq<PayCall>): seq<int>
    decreases |calls|
  {
    if calls == [] then []
    else
      (if Outcome(s, calls[0]).Rejected? then [calls[0].recordAt] else [])
      + FailureTimes(After(s, calls[0]), calls[1..])
  }

  ghost predicate NoSuccess(s: Status, calls: seq<PayCall>)
    decreases |calls|
  {
    calls != [] ==> !Outcome(s, calls[0]).Initiated? && NoSuccess(After(s, calls[0]), calls[1..])
  }

  /** Failures the breaker still takes without anyone waiting. */
  function Credit(s: Status): int {
    if s.phase.Closed? then FAILURE_THRESHOLD - s.failures else 0
  }

  /** Once the credit is used up, each further failure costs a full open period. */
  lemma {:induction false} SpacedAfterFailure(s: Status, calls: seq<PayCall>)
    requires !s.phase.HalfOpen? && (s.phase.Closed? ==> s.failures < FAILURE_THRESHOLD)
    requires Chronological(calls, s.lastFailure) && NoSuccess(s, calls)
    ensures var times := FailureTimes(s, calls);
      && (times != [] ==> s.lastFailure <= times[|times| - 1])
      && (Credit(s) < |times| ==> OPEN_DURATION * (|times| - Credit(s)) < times[|times| - 1] - s.lastFailure)
    decreases |calls|
  {
    if calls != [] {
      var c, s' := calls[0], After(s, calls[0]);
      if Outcome(s, c).Rejected? {
        SpacedAfterFailure(s', calls[1..]);
      } else {
        LaterStart(calls[1..], c.recordAt, s.lastFailure);
        SpacedAfterFailure(s, calls[1..]);
      }
    }
  }

  lemma LaterStart(calls: seq<PayCall>, late: int, early: int)
    requires Chronological(calls, late) && early <= late
    ensures Chronological(calls, early)
  {
  }

  /** Main result on routed payments: from any breaker state that any interleaving can produce,
      f > 5 rejected payments with no success or reset between them span more than 30 (f - 5) seconds. */
  lemma {:induction false} RejectionsAreSpaced(now: int, actions: seq<Action>, s: Status, from: int, calls: seq<PayCall>)
    requires s == Runs.Exec(Step, Start(now), actions).cb
    requires Chronological(calls, from) && NoSuccess(s, calls)
    requires 5 < |FailureTimes(s, calls)|
    ensures var times := FailureTimes(s, calls);
      30_000_000_000 * (|times| - 5) < times[|times| - 1] - times[0]
    decreases |calls|
  {
    BreakerSafety(now, actions);
    var s' := After(s, calls[0]);
    if Outcome(s, calls[0]).Rejected? {
      SpacedAfterFailure(s', calls[1..]);
      var times := FailureTimes(s, calls);
      assert times[1..] == FailureTimes(s', calls[1..]);
      assert times[0] == s'.lastFailure && Credit(s') <= 4;
      assert OPEN_DURATION * (|times| - 5) <= OPEN_DURATION * (|times| - 1 - Credit(s'));
    } else {
      RejectionsAreSpaced(now, actions, s, calls[0].recordAt, calls[1..]);
    }
  }

  /** `n` rejected calls, one every `gap`, the first at `at`. */
  function EveryGap(at: int, gap: nat, n: nat): seq<PayCall>
    decreases n
  {
    if n == 0 then [] else [PayCall(at, at, at, false)] + EveryGap(at + gap, gap, n - 1)
  }

  lemma {:induction false} ProbesFailOnSchedule(s: Status, n: nat)
    requires s.phase.Open?
    ensures var calls := EveryGap(s.lastFailure + OPEN_DURATION + 1, OPEN_DURATION + 1, n);
      && FailureTimes(s, calls) == seq(n, i => s.lastFailure + (OPEN_DURATION + 1) * (i + 1))
      && NoSuccess(s, calls) && Chronological(calls, s.lastFailure)
    decreases n
  {
    if n != 0 {
      var calls := EveryGap(s.lastFailure + OPEN_DURATION + 1, OPEN_DURATION + 1, n);
      var s' := After(s, calls[0]);
      ProbesFailOnSchedule(s', n - 1);
      assert calls[1..] == EveryGap(s'.lastFailure + OPEN_DURATION + 1, OPEN_DURATION + 1, n - 1);
    }
  }

  /** The rejections that open a closed breaker, all at once. */
  lemma {:induction false} OpenedAtOnce(s: Status, at: int, k: nat, rest: seq<PayCall>)
    requires s.phase.Closed? && 0 < k && s.failures + k == FAILURE_THRESHOLD
    ensures var calls, tripped := EveryGap(at, 0, k) + rest, Status(Open, FAILURE_THRESHOLD, at);
      && FailureTimes(s, calls) == seq(k, i => at) + FailureTimes(tripped, rest)
      && (NoSuccess(s, calls) <==> NoSuccess(tripped, rest))
      && (Chronological(calls, at) <==> Chronological(rest, at))
    decreases k
  {
    var calls, s' := EveryGap(at, 0, k) + rest, OnFailure(s, at);
    assert calls[1..] == EveryGap(at, 0, k - 1) + rest && After(s, calls[0]) == s';
    if k == 1 {
      assert calls[1..] == rest;
    } else {
      OpenedAtOnce(s', at, k - 1, rest);
    }
  }

  /** The bound is sharp to one nanosecond per probe: five rejections at once, then one per open period. */
  lemma SpacingIsSharp(at: int, n: nat)
    ensures var calls := EveryGap(at, 0, 5) + EveryGap(at + OPEN_DURATION + 1, OPEN_DURATION + 1, n);
      && FailureTimes(FRESH, calls) == seq(5, i => at) + seq(n, i => at + (OPEN_DURATION + 1) * (i + 1))
      && NoSuccess(FRESH, calls) && Chronological(calls, at)
  {
    OpenedAtOnce(FRESH, at, 5, EveryGap(at + OPEN_DURATION + 1, OPEN_DURATION + 1, n));
    ProbesFailOnSchedule(Status(Open, 5, at), n);
  }

  // ---- When a routed payment is turned away ----

  /** The payments that got as far as the payment engine. */
  function Made(s: Status, calls: seq<PayCall>): seq<PayCall>
    decreases |calls|
  {
    if calls == [] then []
    else (if Outcome(s, calls[0]).CircuitOpen? then [] else [calls[0]]) + Made(After(s, calls[0]), calls[1..])
  }

  /** How many of them were rejected since the last one that was accepted. */
  function RejectedInARow(made: seq<PayCall>): (n: nat)
    ensures 0 < n ==> made != []
  {
    if made == [] || made[|made| - 1].accepted then 0 else RejectedInARow(made[..|made| - 1]) + 1
  }

  ghost predicate Remembers(s: Status, made: seq<PayCall>) {
    var n := RejectedInARow(made);
    && s.phase == (if n < 5 then Closed else Open)
    && (n < 5 ==> s.failures == n)
    && (0 < n ==> s.lastFailure == made[|made| - 1].recordAt)
  }

  lemma OneMoreRemembered(s: Status, made: seq<PayCall>, c: PayCall)
    requires Remembers(s, made) && c.InOrder()
    ensures Remembers(After(s, c), if Outcome(s, c).CircuitOpen? then made else made + [c])
  {
    assert (made + [c])[..|made|] == made;
  }

  lemma {:induction false} RunIsRemembered(s: Status, before: seq<PayCall>, calls: seq<PayCall>)
    requires Remembers(s, before) && forall i :: 0 <= i < |calls| ==> calls[i].InOrder()
    ensures Remembers(Runs.Exec(After, s, calls), before + Made(s, calls))
    decreases |calls|
  {
    if calls == [] {
      assert before + [] == before;
    } else {
      var now := if Outcome(s, calls[0]).CircuitOpen? then before else before + [calls[0]];
      OneMoreRemembered(s, before, calls[0]);
      RunIsRemembered(After(s, calls[0]), now, calls[1..]);
      assert now + Made(After(s, calls[0]), calls[1..]) == before + Made(s, calls);
    }
  }

  /** Main result on when the breaker turns payments away: after any run of routed payments, the next one is kept from
      the payment engine if and only if the last five it was asked for, or more, were all rejected, the last of them no
      more than 30 seconds ago; otherwise its outcome is the engine's. */
  lemma TurnedAwayIffFiveRejected(calls: seq<PayCall>, s: Status, c: PayCall)
    requires s == Runs.Exec(After, FRESH, calls) && forall i :: 0 <= i < |calls| ==> calls[i].InOrder()
    ensures var made := Made(FRESH, calls);
      var away := 5 <= RejectedInARow(made) && c.readAt - made[|made| - 1].recordAt <= 30_000_000_000;
      Outcome(s, c) == if away then CircuitOpen else if c.accepted then Initiated else Rejected
    ensures s.phase.Open? <==> 5 <= RejectedInARow(Made(FRESH, calls))
  {
    RunIsRemembered(FRESH, [], calls);
    assert [] + Made(FRESH, calls) == Made(FRESH, calls);
  }
}
