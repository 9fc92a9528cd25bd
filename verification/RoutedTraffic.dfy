/** What the limits come to over runs of routed requests: how many of a phone's and of a tenant's requests get past
    them in a minute. */
module RoutedTraffic {
  import opened Options
  import opened Runs
  import opened PaymentRouting
  import L = RateLimiter
  import TtlCache

  /** The counters after requests routed one after the other. */
  function CountersOf(requests: seq<Request>): TtlCache.Cache {
    if requests == [] then map[] else Charged(CountersOf(requests[..|requests| - 1]), requests[|requests| - 1])
  }

  /** The cache does not err, and answers in order. */
  predicate Clean(r: Request) {
    && r.phoneLimit.incrOk && r.phoneLimit.expireOk && r.tenantLimit.incrOk && r.tenantLimit.expireOk
    && r.phoneLimit.incrAt <= r.phoneLimit.expireAt <= r.tenantLimit.incrAt <= r.tenantLimit.expireAt
  }

  ghost predicate InOrder(requests: seq<Request>) {
    && (forall i :: 0 <= i < |requests| ==> Clean(requests[i]))
    && (forall i, j :: 0 <= i < j < |requests| ==> requests[i].tenantLimit.expireAt <= requests[j].phoneLimit.incrAt)
  }

  function PhonePass(cache: TtlCache.Cache, r: Request, phone: string, from: int): nat {
    if r.phone == phone && from <= r.phoneLimit.incrAt <= from + 60_000_000_000 && PassesPhone(cache, r) then 1 else 0
  }

  function TenantPass(cache: TtlCache.Cache, r: Request, id: string, from: int): nat {
    if r.tenant.Some? && r.tenant.value.id == id && from <= r.tenantLimit.incrAt <= from + 60_000_000_000
       && PassesTenant(cache, r)
    then 1 else 0
  }

  /** The requests of `phone` that get past its limit from `from` to 60 seconds later. */
  function PhonePasses(requests: seq<Request>, phone: string, from: int): nat {
    if requests == [] then 0
    else
      var before, r := requests[..|requests| - 1], requests[|requests| - 1];
      PhonePasses(before, phone, from) + PhonePass(CountersOf(before), r, phone, from)
  }

  /** And those of tenant `id`. */
  function TenantPasses(requests: seq<Request>, id: string, from: int): nat {
    if requests == [] then 0
    else
      var before, r := requests[..|requests| - 1], requests[|requests| - 1];
      TenantPasses(before, id, from) + TenantPass(CountersOf(before), r, id, from)
  }

  function Limit(t: Tenant): int { if t.rps == 0 then 100 else t.rps }

  // ---- The limiter's machine making the same calls ----

  /** The machine with nobody between two cache calls. */
  ghost predicate Rests(s: L.System, cache: TtlCache.Cache, latest: int) {
    && L.Inv(s) && s.pending == map[] && s.cache == cache && s.now <= latest
  }

  lemma TwoStepsKeepInv(s: L.System, a: L.Action, b: L.Action)
    requires L.Inv(s)
    ensures L.Inv(L.Step(L.Step(s, a), b))
  {
    L.StepKeepsInv(s, a);
    L.StepKeepsInv(L.Step(s, a), b);
  }

  lemma FourStepsKeepInv(s: L.System, a: L.Action, b: L.Action, c: L.Action, d: L.Action)
    requires L.Inv(s)
    ensures L.Inv(L.Step(L.Step(L.Step(L.Step(s, a), b), c), d))
  {
    TwoStepsKeepInv(s, a, b);
    TwoStepsKeepInv(L.Step(L.Step(s, a), b), c, d);
  }

  lemma CallSteps(s: L.System, a: L.Action, b: L.Action, c: L.Action, d: L.Action) returns (s': L.System)
    requires L.Inv(s)
    ensures s' == L.Step(L.Step(L.Step(L.Step(s, a), b), c), d) && L.Inv(s')
  {
    FourStepsKeepInv(s, a, b, c, d);
    s' := L.Step(L.Step(L.Step(L.Step(s, a), b), c), d);
  }

  predicate Admitted(cache: TtlCache.Cache, key: string, limit: int, l: L.LimitCall) {
    TtlCache.CountAt(cache, key, l.incrAt) < limit
  }

  /** One call of the limiter, made by the machine. */
  lemma Call(s: L.System, cache: TtlCache.Cache, key: string, limit: int, l: L.LimitCall) returns (s': L.System)
    requires Rests(s, cache, l.incrAt) && l.incrOk && l.expireOk && l.incrAt <= l.expireAt
    ensures Rests(s', L.Charge(cache, key, l), l.expireAt)
    ensures |s'.log| == |s.log| + 1 && s'.log[..|s.log|] == s.log
    ensures var x := s'.log[|s.log|];
      x.key == key && x.at == l.incrAt && x.limit == limit && (x.Admitted() <==> Admitted(cache, key, limit, l))
  {
    var wait, rest := L.Tick(l.incrAt - s.now), L.Tick(l.expireAt - l.incrAt);
    var s1 := L.Step(s, wait);
    assert key in s1.cache ==> 1 <= s1.cache[key].count;
    L.UninterruptedCall(s1, 0, key, limit, l.expireAt - l.incrAt);
    s' := CallSteps(s, wait, L.CallIncr(0, key, limit), rest, L.CallExpire(0));
  }

  /** What a call adds to the count of a minute. */
  lemma CallCounts(log: seq<L.Call>, x: L.Call, key: string, from: int, most: int)
    ensures L.AdmittedInMinute(log + [x], key, from, most) == L.AdmittedInMinute(log, key, from, most)
      + if x.key == key && x.limit <= most && from <= x.at <= from + 60_000_000_000 && x.Admitted() then 1 else 0
  {
    assert (log + [x])[..|log|] == log;
  }

  ghost predicate Adds(s: L.System, s': L.System, phone: string, id: string, from: int, most: int, p: nat, t: nat) {
    && L.AdmittedInMinute(s'.log, "rl:phone:" + phone, from, 60)
         == L.AdmittedInMinute(s.log, "rl:phone:" + phone, from, 60) + p
    && L.AdmittedInMinute(s'.log, "rl:tenant:" + id, from, most)
         == L.AdmittedInMinute(s.log, "rl:tenant:" + id, from, most) + t
  }

  lemma CallPhone(s: L.System, cache: TtlCache.Cache, r: Request, phone: string, id: string, from: int, most: int)
    returns (s': L.System)
    requires Clean(r) && r.phoneValid && Rests(s, cache, r.phoneLimit.incrAt)
    ensures Rests(s', ChargePhone(cache, r), r.phoneLimit.expireAt)
    ensures Adds(s, s', phone, id, from, most, PhonePass(cache, r, phone, from), 0)
  {
    var key := "rl:phone:" + r.phone;
    s' := Call(s, cache, key, 60, r.phoneLimit);
    var x := s'.log[|s.log|];
    assert s'.log == s.log + [x];
    L.KeysApart(phone, r.phone);
    L.KeysApart(r.phone, id);
    CallCounts(s.log, x, "rl:phone:" + phone, from, 60);
    CallCounts(s.log, x, "rl:tenant:" + id, from, most);
  }

  lemma CallTenant(s: L.System, cache: TtlCache.Cache, r: Request, phone: string, id: string, from: int, most: int)
    returns (s': L.System)
    requires Clean(r) && PassesPhone(cache, r) && r.tenant.Some? && r.tenant.value.active
    requires Rests(s, ChargePhone(cache, r), r.phoneLimit.expireAt)
    requires r.tenant.value.id == id ==> Limit(r.tenant.value) <= most
    ensures Rests(s', ChargeTenant(ChargePhone(cache, r), r), r.tenantLimit.expireAt)
    ensures Adds(s, s', phone, id, from, most, 0, TenantPass(cache, r, id, from))
  {
    var key := "rl:tenant:" + r.tenant.value.id;
    s' := Call(s, ChargePhone(cache, r), key, Limit(r.tenant.value), r.tenantLimit);
    var x := s'.log[|s.log|];
    assert s'.log == s.log + [x];
    L.KeysApart(id, r.tenant.value.id);
    L.KeysApart(phone, r.tenant.value.id);
    TenantUncharged(cache, r);
    CallCounts(s.log, x, "rl:phone:" + phone, from, 60);
    CallCounts(s.log, x, "rl:tenant:" + id, from, most);
  }

  /** The limiter calls of one request. */
  lemma CallsOf(s: L.System, cache: TtlCache.Cache, r: Request, phone: string, id: string, from: int, most: int)
    returns (s': L.System)
    requires Clean(r) && Rests(s, cache, r.phoneLimit.incrAt)
    requires r.tenant.Some? && r.tenant.value.id == id ==> Limit(r.tenant.value) <= most
    ensures Rests(s', Charged(cache, r), r.tenantLimit.expireAt)
    ensures Adds(s, s', phone, id, from, most, PhonePass(cache, r, phone, from), TenantPass(cache, r, id, from))
  {
    s' := s;
    if r.phoneValid {
      s' := CallPhone(s, cache, r, phone, id, from, most);
      if PassesPhone(cache, r) && r.tenant.Some? && r.tenant.value.active {
        s' := CallTenant(s', cache, r, phone, id, from, most);
      }
    }
  }

  lemma {:induction false} MachineCounts(requests: seq<Request>, start: int, phone: string, id: string, from: int, most: int)
    returns (s: L.System)
    requires InOrder(requests) && forall i :: 0 <= i < |requests| ==> start <= requests[i].phoneLimit.incrAt
    requires forall i :: 0 <= i < |requests| && requests[i].tenant.Some? && requests[i].tenant.value.id == id ==>
               Limit(requests[i].tenant.value) <= most
    ensures Rests(s, CountersOf(requests), if requests == [] then start else requests[|requests| - 1].tenantLimit.expireAt)
    ensures L.AdmittedInMinute(s.log, "rl:phone:" + phone, from, 60) == PhonePasses(requests, phone, from)
    ensures L.AdmittedInMinute(s.log, "rl:tenant:" + id, from, most) == TenantPasses(requests, id, from)
    decreases |requests|
  {
    if requests == [] {
      s := L.Start(start);
    } else {
      var before, r := requests[..|requests| - 1], requests[|requests| - 1];
      var t := MachineCounts(before, start, phone, id, from, most);
      if before != [] { assert before[|before| - 1] == requests[|requests| - 2]; }
      assert Rests(t, CountersOf(before), r.phoneLimit.incrAt);
      s := CallsOf(t, CountersOf(before), r, phone, id, from, most);
    }
  }

  /** Main result on routed traffic: with a cache that does not err, over any run of requests, in any 60 seconds at
      most 120 requests of a phone get past its limit, and at most twice its limit, which is 100 where none is set,
      of a tenant's. So no more than that are routed. */
  lemma MinuteRoutesAtMost(requests: seq<Request>, start: int, phone: string, id: string, from: int, rps: nat)
    requires InOrder(requests) && forall i :: 0 <= i < |requests| ==> start <= requests[i].phoneLimit.incrAt
    requires forall i :: 0 <= i < |requests| && requests[i].tenant.Some? && requests[i].tenant.value.id == id ==>
               (if requests[i].tenant.value.rps == 0 then 100 else requests[i].tenant.value.rps) <= rps
    ensures PhonePasses(requests, phone, from) <= 120
    ensures TenantPasses(requests, id, from) <= 2 * rps
  {
    var s := MachineCounts(requests, start, phone, id, from, rps);
    L.LogAdmitsAtMostTwiceTheLimit(s, "rl:phone:" + phone, from, 60);
    L.LogAdmitsAtMostTwiceTheLimit(s, "rl:tenant:" + id, from, rps);
  }
}
