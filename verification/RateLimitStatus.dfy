/** The status counter of a tenant's resource: each recorded request increments it and gives it another
    minute to live, so it counts a run of requests rather than a window. */
module RateLimitStatus {
  import opened Options
  import opened TtlCache
  import RateLimiter

  datatype Policy = Policy(requestsPerMinute: int, burstCapacity: int)

  const DEFAULT_LIMIT := 100

  /** Limit, count and burst capacity, as reported to clients. */
  datatype Status = Status(limit: int, count: int, burst: int)

  const NO_POLICY := Status(1000, 0, 1000)

  function StatusKey(tenant: string, resource: string): string {
    "rl:status:" + tenant + ":" + resource
  }

  /** Tenants whose names have no colon never share a counter, nor do two resources of one of them. */
  lemma StatusKeysApart(t: string, r: string, t': string, r': string)
    requires ':' !in t && ':' !in t'
    ensures StatusKey(t, r) == StatusKey(t', r') <==> t == t' && r == r'
  {
    var a, b := t + ":" + r, t' + ":" + r';
    assert StatusKey(t, r)[10..] == a && StatusKey(t', r')[10..] == b;
    if a == b {
      assert a[|t|] == ':' && forall i :: 0 <= i < |t| ==> a[i] == t[i];
      assert b[|t'|] == ':' && forall i :: 0 <= i < |t'| ==> b[i] == t'[i];
      assert t == a[..|t|] && r == a[|t| + 1..] && t' == b[..|t'|] && r' == b[|t'| + 1..];
    }
  }

  /** With a colon they may. */
  lemma StatusKeysShared(t: string, u: string, r: string)
    ensures StatusKey(t + ":" + u, r) == StatusKey(t, u + ":" + r)
  {
    assert "rl:status:" + (t + ":" + u) + ":" + r == "rl:status:" + t + ":" + (u + ":" + r);
  }

  /** When the two cache calls of one RecordRequest run. */
  datatype Request = Request(incrAt: int, expireAt: int)

  function Recorded(c: Cache, key: string, r: Request): Cache {
    Expire(Incr(c, key, r.incrAt), key, r.expireAt, MINUTE)
  }

  class RateLimitService {
    var cache: Cache
    var policies: map<(string, string), Policy>
    const limiter: RateLimiter.TokenBucketRateLimiter

    constructor (limiter: RateLimiter.TokenBucketRateLimiter)
      ensures this.limiter == limiter && cache == map[] && policies == map[]
    {
      this.limiter, cache, policies := limiter, map[], map[];
    }

    method RecordRequest(tenant: string, resource: string, r: Request, incrOk: bool, expireOk: bool) returns (ok: bool)
      modifies this`cache
      ensures ok == (incrOk && expireOk)
      ensures ok ==> cache == Recorded(old(cache), StatusKey(tenant, resource), r)
      ensures ok && r.incrAt <= r.expireAt && !Live(old(cache), StatusKey(tenant, resource), r.incrAt) ==>
        cache == old(cache)[StatusKey(tenant, resource) := Counter(1, Some(r.expireAt + 60_000_000_000))]
      ensures !incrOk ==> cache == old(cache)
      ensures incrOk && !expireOk ==> cache == Incr(old(cache), StatusKey(tenant, resource), r.incrAt)
    {
      var key := StatusKey(tenant, resource);
      if !incrOk {
        return false;
      }
      cache := Incr(cache, key, r.incrAt);
      if !expireOk {
        return false;
      }
      cache := Expire(cache, key, r.expireAt, MINUTE);
      return true;
    }

    method GetStatus(tenant: string, resource: string, now: int) returns (s: Status)
      ensures (tenant, resource) !in policies ==> s.limit == 1000 && s.count == 0 && s.burst == 1000
      ensures (tenant, resource) in policies ==>
        var p := policies[(tenant, resource)];
        s == Status(p.requestsPerMinute, CountAt(cache, StatusKey(tenant, resource), now), p.burstCapacity)
    {
      if (tenant, resource) !in policies {
        return NO_POLICY;
      }
      var policy := policies[(tenant, resource)];
      var key := StatusKey(tenant, resource);
      var count := 0;
      if Live(cache, key, now) {
        count := cache[key].count;
      }
      return Status(policy.requestsPerMinute, count, policy.burstCapacity);
    }

    /** Without a policy every request is let through, uncounted. */
    method Allow(tenant: string, resource: string, l: RateLimiter.LimitCall) returns (ok: bool)
      modifies limiter
      ensures (tenant, resource) !in policies ==> ok && limiter.cache == old(limiter.cache)
      ensures (tenant, resource) in policies ==>
        var rpm := policies[(tenant, resource)].requestsPerMinute;
        var limit := if rpm == 0 then 100 else rpm;
        && ok == RateLimiter.Admits(old(limiter.cache), RateLimiter.TenantKey(tenant), limit, l)
        && limiter.cache == RateLimiter.Charge(old(limiter.cache), RateLimiter.TenantKey(tenant), l)
    {
      if (tenant, resource) !in policies {
        return true;
      }
      var limit := policies[(tenant, resource)].requestsPerMinute;
      if limit == 0 {
        limit := DEFAULT_LIMIT;
      }
      ok := limiter.AllowTenant(tenant, limit, l);
    }
  }

  // ---- What the count means ----

  function AllRecorded(key: string, requests: seq<Request>): Cache {
    if requests == [] then map[] else Recorded(AllRecorded(key, requests[..|requests| - 1]), key, requests[|requests| - 1])
  }

  /** Requests on any keys, one after the other, and those of them on one key. */
  function RecordedCalls(calls: seq<(string, Request)>): Cache {
    if calls == [] then map[]
    else Recorded(RecordedCalls(calls[..|calls| - 1]), calls[|calls| - 1].0, calls[|calls| - 1].1)
  }

  function Own(calls: seq<(string, Request)>, key: string): seq<Request> {
    if calls == [] then []
    else Own(calls[..|calls| - 1], key) + if calls[|calls| - 1].0 == key then [calls[|calls| - 1].1] else []
  }

  ghost predicate SameAt(c: Cache, c': Cache, key: string) {
    (key in c <==> key in c') && (key in c ==> c[key] == c'[key])
  }

  lemma RecordedSame(c: Cache, c': Cache, key: string, r: Request)
    requires SameAt(c, c', key)
    ensures SameAt(Recorded(c, key, r), Recorded(c', key, r), key)
  {
  }

  lemma RecordedElsewhere(c: Cache, key: string, other: string, r: Request)
    requires other != key
    ensures SameAt(Recorded(c, other, r), c, key)
  {
  }

  /** The counter of a key depends on its own requests only. */
  lemma {:induction false} OthersDoNotMatter(calls: seq<(string, Request)>, key: string)
    ensures SameAt(RecordedCalls(calls), AllRecorded(key, Own(calls, key)), key)
  {
    if calls != [] {
      var before, last := calls[..|calls| - 1], calls[|calls| - 1];
      var own := Own(before, key);
      OthersDoNotMatter(before, key);
      if last.0 == key {
        RecordedSame(RecordedCalls(before), AllRecorded(key, own), key, last.1);
        assert (own + [last.1])[..|own|] == own;
      } else {
        RecordedElsewhere(RecordedCalls(before), key, last.0, last.1);
        assert Own(calls, key) == own;
      }
    }
  }

  ghost predicate Chronological(requests: seq<Request>) {
    && (forall i :: 0 <= i < |requests| ==> requests[i].incrAt <= requests[i].expireAt)
    && (forall i, j :: 0 <= i < j < |requests| ==> requests[i].expireAt <= requests[j].incrAt)
  }

  /** Request `i` came less than a minute after the one before it. */
  predicate Close(requests: seq<Request>, i: nat)
    requires 0 < i < |requests|
  {
    requests[i].incrAt - requests[i - 1].expireAt < MINUTE
  }

  /** Request `i` increments the counter in time, but renews it too late. */
  predicate Straddles(requests: seq<Request>, i: nat)
    requires 0 < i < |requests|
  {
    Close(requests, i) && requests[i].expireAt - requests[i - 1].expireAt >= MINUTE
  }

  ghost predicate NoneStraddles(requests: seq<Request>) {
    forall i: nat :: 0 < i < |requests| ==> !Straddles(requests, i)
  }

  /** The last `k` requests came less than a minute apart. */
  ghost predicate Unbroken(requests: seq<Request>, k: nat) {
    k <= |requests| && forall i: nat :: |requests| - k < i < |requests| ==> Close(requests, i)
  }

  /** And the last of them less than a minute before `now`. */
  ghost predicate UnbrokenUntil(requests: seq<Request>, k: nat, now: int) {
    Unbroken(requests, k) && (0 < k ==> now - requests[|requests| - 1].expireAt < MINUTE)
  }

  /** Length of the run that ends with the last request. */
  function RunLength(requests: seq<Request>): (k: nat)
    ensures k <= |requests|
  {
    if requests == [] then 0
    else if |requests| > 1 && Close(requests, |requests| - 1) then RunLength(requests[..|requests| - 1]) + 1
    else 1
  }

  lemma ClosePrefix(requests: seq<Request>, i: nat)
    requires 0 < i < |requests| - 1
    ensures Close(requests[..|requests| - 1], i) == Close(requests, i)
  {
  }

  lemma {:induction false} RunLengthIsLongest(requests: seq<Request>, k: nat)
    requires k <= |requests|
    ensures Unbroken(requests, k) <==> k <= RunLength(requests)
  {
    var n := |requests|;
    if n > 1 && k > 1 {
      var before := requests[..n - 1];
      RunLengthIsLongest(before, k - 1);
      if Unbroken(requests, k) {
        assert Close(requests, n - 1);
        forall i: nat | |before| - (k - 1) < i < |before| ensures Close(before, i) { ClosePrefix(requests, i); }
        assert Unbroken(before, k - 1);
      }
      if k <= RunLength(requests) {
        assert Close(requests, n - 1) && Unbroken(before, k - 1);
        forall i: nat | n - k < i < n ensures Close(requests, i) {
          if i < n - 1 { ClosePrefix(requests, i); assert Close(before, i); }
        }
      }
    }
  }

  /** Recording on a counter that dies at `d`, unless it dies between the two cache calls. */
  lemma RecordedOn(c: Cache, key: string, r: Request, n: nat, d: int)
    requires key in c && c[key] == Counter(n, Some(d)) && r.incrAt <= r.expireAt
    requires r.expireAt < d || d <= r.incrAt
    ensures var c' := Recorded(c, key, r);
      key in c' && c'[key] == Counter(if r.incrAt < d then n + 1 else 1, Some(r.expireAt + MINUTE))
  {
  }

  /** The counter left by requests that do not straddle. */
  lemma {:induction false} CounterIsRunLength(key: string, requests: seq<Request>)
    requires Chronological(requests) && requests != [] && NoneStraddles(requests)
    ensures var c := AllRecorded(key, requests);
      key in c && c[key] == Counter(RunLength(requests), Some(requests[|requests| - 1].expireAt + MINUTE))
  {
    var n := |requests|;
    if n > 1 {
      var before := requests[..n - 1];
      forall i: nat | 0 < i < |before| ensures !Straddles(before, i) { assert !Straddles(requests, i); }
      CounterIsRunLength(key, before);
      assert !Straddles(requests, n - 1) && before[n - 2] == requests[n - 2];
      RecordedOn(AllRecorded(key, before), key, requests[n - 1], RunLength(before), requests[n - 2].expireAt + MINUTE);
    }
  }

  lemma CountIsLongestRun(key: string, requests: seq<Request>, now: int, k: nat)
    requires Chronological(requests) && NoneStraddles(requests) && k <= |requests|
    ensures UnbrokenUntil(requests, k, now) <==> k <= CountAt(AllRecorded(key, requests), key, now)
  {
    if requests != [] {
      CounterIsRunLength(key, requests);
      RunLengthIsLongest(requests, k);
    }
  }

  /** Main result on the status counter: among requests on any keys, the count reported for one is the length
      of the longest run of its requests, each less than a minute after the one before, that ends less than a
      minute ago. */
  lemma StatusCountsTheLongestRun(calls: seq<(string, Request)>, key: string, now: int, k: nat)
    requires var requests := Own(calls, key); Chronological(requests) && NoneStraddles(requests) && k <= |requests|
    ensures UnbrokenUntil(Own(calls, key), k, now) <==> k <= CountAt(RecordedCalls(calls), key, now)
  {
    OthersDoNotMatter(calls, key);
    CountIsLongestRun(key, Own(calls, key), now, k);
  }

  /** The count reported from the last request on is right. */
  ghost predicate CountsRight(key: string, requests: seq<Request>) {
    forall now: int, k: nat :: k <= |requests| && (requests != [] ==> requests[|requests| - 1].expireAt <= now) ==>
      (UnbrokenUntil(requests, k, now) <==> k <= CountAt(AllRecorded(key, requests), key, now))
  }

  /** The first request to straddle is lost: INCR finds the counter alive, EXPIRE finds it dead. */
  lemma StraddlingRequestIsLost(key: string, requests: seq<Request>)
    requires Chronological(requests) && |requests| > 1
    requires NoneStraddles(requests[..|requests| - 1]) && Straddles(requests, |requests| - 1)
    ensures !CountsRight(key, requests)
  {
    var n := |requests|;
    var before, r := requests[..n - 1], requests[n - 1];
    CounterIsRunLength(key, before);
    assert CountAt(AllRecorded(key, requests), key, r.expireAt) == 0;
    assert UnbrokenUntil(requests, 1, r.expireAt);
  }

  /** For one, a second request whose INCR runs just before a minute has passed and whose EXPIRE just after. */
  lemma LostRequestExample(key: string)
    ensures !CountsRight(key, [Request(0, 0), Request(MINUTE - 1, MINUTE)])
  {
    var requests := [Request(0, 0), Request(MINUTE - 1, MINUTE)];
    assert requests[..1] == [Request(0, 0)];
    StraddlingRequestIsLost(key, requests);
  }

  /** And the count stays right through a run of requests exactly when none of them straddles. */
  lemma {:induction false} CountsRightIffNoneStraddles(key: string, requests: seq<Request>)
    requires Chronological(requests)
    ensures (forall m :: 0 <= m <= |requests| ==> CountsRight(key, requests[..m])) <==> NoneStraddles(requests)
    decreases |requests|
  {
    var n := |requests|;
    if NoneStraddles(requests) {
      forall m | 0 <= m <= n ensures CountsRight(key, requests[..m]) {
        var prefix := requests[..m];
        forall i: nat | 0 < i < m ensures !Straddles(prefix, i) { assert !Straddles(requests, i); }
        forall now: int, k: nat | k <= m
          ensures UnbrokenUntil(prefix, k, now) <==> k <= CountAt(AllRecorded(key, prefix), key, now)
        {
          CountIsLongestRun(key, prefix, now, k);
        }
      }
    } else {
      var before := requests[..n - 1];
      if NoneStraddles(before) {
        var i: nat :| 0 < i < n && Straddles(requests, i);
        assert i < n - 1 ==> Straddles(before, i);
        StraddlingRequestIsLost(key, requests);
        assert requests[..n] == requests;
      } else {
        CountsRightIffNoneStraddles(key, before);
        var m :| 0 <= m <= n - 1 && !CountsRight(key, before[..m]);
        assert before[..m] == requests[..m];
      }
    }
  }
}
