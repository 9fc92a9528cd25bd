/** The per-key limiter: one `INCR`, and one `EXPIRE` by whoever created the counter. */
module RateLimiter {
  import opened Options
  import opened TtlCache
  import opened Runs

  function PhoneKey(phone: string): string { "rl:phone:" + phone }

  function TenantKey(tenant: string): string { "rl:tenant:" + tenant }

  /** Phone and tenant limits never share a counter. */
  lemma KeysApart(a: string, b: string)
    ensures PhoneKey(a) != TenantKey(b)
    ensures PhoneKey(a) == PhoneKey(b) <==> a == b
    ensures TenantKey(a) == TenantKey(b) <==> a == b
  {
    assert PhoneKey(a)[3] == 'p' && TenantKey(b)[3] == 't';
    assert PhoneKey(a)[9..] == a && PhoneKey(b)[9..] == b;
    assert TenantKey(a)[10..] == a && TenantKey(b)[10..] == b;
  }

  /** How the cache answers one call: whether INCR and EXPIRE succeed, and when they run. */
  datatype LimitCall = LimitCall(incrOk: bool, expireOk: bool, incrAt: int, expireAt: int)

  /** The limiter used by one caller at a time; the clock readings are those of the cache. */
  class TokenBucketRateLimiter {
    var cache: Cache

    constructor ()
      ensures cache == map[]
    {
      cache := map[];
    }

    method AllowKey(key: string, limit: int, l: LimitCall) returns (ok: bool)
      modifies this
      ensures ok == Admits(old(cache), key, limit, l)
      ensures cache == Charge(old(cache), key, l)
      ensures !l.incrOk ==> ok && cache == old(cache)
      ensures l.incrOk ==>
        var n := CountAt(old(cache), key, l.incrAt) + 1;
        && (ok <==> n <= limit) && key in cache && cache[key].count == n
        && (1 < n ==> cache[key].deadline == old(cache)[key].deadline)
        && (!Live(old(cache), key, l.incrAt) ==>
              cache[key].deadline == if l.expireOk then Some(l.expireAt + 60_000_000_000) else None)
      ensures forall k :: k != key ==> (k in cache <==> k in old(cache)) && (k in cache ==> cache[k] == old(cache)[k])
    {
      if !l.incrOk {
        return true;
      }
      cache := Incr(cache, key, l.incrAt);
      var count := cache[key].count;
      if count == 1 && l.expireOk {
        cache := Expire(cache, key, l.expireAt, MINUTE);
      }
      ok := count <= limit;
    }

    method Allow(phone: string, limit: int, l: LimitCall) returns (ok: bool)
      modifies this
      ensures ok == Admits(old(cache), PhoneKey(phone), limit, l)
      ensures cache == Charge(old(cache), PhoneKey(phone), l)
    {
      ok := AllowKey(PhoneKey(phone), limit, l);
    }

    method AllowTenant(tenant: string, limit: int, l: LimitCall) returns (ok: bool)
      modifies this
      ensures ok == Admits(old(cache), TenantKey(tenant), limit, l)
      ensures cache == Charge(old(cache), TenantKey(tenant), l)
    {
      ok := AllowKey(TenantKey(tenant), limit, l);
    }
  }

  /** Whether a call is let through: an INCR that errors lets it through uncounted. */
  predicate Admits(c: Cache, key: string, limit: int, l: LimitCall) {
    l.incrOk ==> CountAt(c, key, l.incrAt) < limit
  }

  /** The cache after one uninterrupted call. */
  function Charge(c: Cache, key: string, l: LimitCall): Cache {
    if !l.incrOk then c
    else if CountAt(c, key, l.incrAt) == 0 && l.expireOk then Expire(Incr(c, key, l.incrAt), key, l.expireAt, MINUTE)
    else Incr(c, key, l.incrAt)
  }

  // ---- Callers interleaving between their INCR and their EXPIRE ----

  /** One INCR: `window` numbers the lives of the counter under `key`. */
  datatype Call = Call(key: string, window: nat, at: int, count: nat, limit: int) {
    predicate Admitted() { count <= limit }
  }

  /** A call let through because its INCR errored. */
  datatype Uncounted = Uncounted(key: string, at: int)

  /** `pending` holds the callers that saw count 1 and have yet to call EXPIRE. */
  datatype System = System(
    cache: Cache, now: int, pending: map<nat, string>, windows: map<string, nat>,
    log: seq<Call>, uncounted: seq<Uncounted>)

  datatype Action =
    | Tick(elapsed: nat)
    | CallIncr(caller: nat, key: string, limit: int)
    | IncrFails(caller: nat, key: string)
    | CallExpire(caller: nat)
    | ExpireFails(caller: nat)

  function Start(now: int): System {
    System(map[], now, map[], map[], [], [])
  }

  function WindowOf(s: System, key: string): nat {
    if key in s.windows then s.windows[key] else 0
  }

  function Step(s: System, a: Action): System {
    match a
    case Tick(d) => s.(now := s.now + d)
    case CallIncr(c, key, limit) =>
      if c in s.pending then s
      else
        var cache := Incr(s.cache, key, s.now);
        var count := cache[key].count;
        var w := WindowOf(s, key) + (if Live(s.cache, key, s.now) then 0 else 1);
        System(cache, s.now,
               if count == 1 then s.pending[c := key] else s.pending,
               s.windows[key := w],
               s.log + [Call(key, w, s.now, count, limit)], s.uncounted)
    case IncrFails(c, key) =>
      if c in s.pending then s else s.(uncounted := s.uncounted + [Uncounted(key, s.now)])
    case CallExpire(c) =>
      if c !in s.pending then s
      else s.(cache := Expire(s.cache, s.pending[c], s.now, MINUTE), pending := s.pending - {c})
    case ExpireFails(c) => s.(pending := s.pending - {c})
  }

  /** A caller nobody interrupts leaves the cache as the method does, and is admitted alike. */
  lemma UninterruptedCall(s: System, caller: nat, key: string, limit: int, elapsed: nat)
    requires caller !in s.pending && (key in s.cache ==> 1 <= s.cache[key].count)
    ensures var l := LimitCall(true, true, s.now, s.now + elapsed);
      var s' := Step(Step(Step(s, CallIncr(caller, key, limit)), Tick(elapsed)), CallExpire(caller));
      && s'.cache == Charge(s.cache, key, l)
      && s'.pending == s.pending && s'.now == s.now + elapsed
      && |s'.log| == |s.log| + 1 && s'.log[..|s.log|] == s.log
      && var x := s'.log[|s.log|];
         && x.key == key && x.at == s.now && x.limit == limit
         && x.Admitted() == Admits(s.cache, key, limit, l)
    ensures var l := LimitCall(false, true, s.now, s.now);
      var s' := Step(s, IncrFails(caller, key));
      && s'.cache == Charge(s.cache, key, l) && Admits(s.cache, key, limit, l)
      && s'.uncounted == s.uncounted + [Uncounted(key, s.now)]
  {
    var s1 := Step(s, CallIncr(caller, key, limit));
    assert s1.cache[key].count == CountAt(s.cache, key, s.now) + 1;
  }

  /** Two calls on one key, in log order: windows and times never go back, counts grow within
      a window, and two windows apart means more than a minute apart. */
  ghost predicate Ordered(x: Call, y: Call) {
    x.key == y.key ==>
      && x.window <= y.window
      && (x.window == y.window ==> x.count < y.count)
      && (x.window + 2 <= y.window ==> x.at + MINUTE < y.at)
  }

  /** What the counter of a key guarantees about a logged call on it. */
  ghost predicate Covered(s: System, x: Call) {
    && x.at <= s.now
    && 1 <= x.count
    && x.key in s.cache
    && x.window <= WindowOf(s, x.key)
    && (x.window == WindowOf(s, x.key) ==> x.count <= s.cache[x.key].count)
    && (x.window + 2 <= WindowOf(s, x.key) ==> x.at + MINUTE < s.now)
    && match s.cache[x.key].deadline
       case None => x.window < WindowOf(s, x.key) ==> x.at < s.now
       case Some(d) => x.at < d && (x.window < WindowOf(s, x.key) ==> x.at + MINUTE < d)
  }

  /** A caller about to set a deadline is alone on its key, and the key has none yet. */
  ghost predicate PendingAlone(s: System) {
    && (forall c :: c in s.pending ==> s.pending[c] in s.cache && s.cache[s.pending[c]].deadline.None?)
    && (forall c, d :: c in s.pending && d in s.pending && s.pending[c] == s.pending[d] ==> c == d)
  }

  ghost predicate Inv(s: System) {
    && PendingAlone(s)
    && (forall k :: k in s.cache ==> 1 <= s.cache[k].count)
    && (forall i :: 0 <= i < |s.log| ==> Covered(s, s.log[i]))
    && (forall i, j :: 0 <= i < j < |s.log| ==> Ordered(s.log[i], s.log[j]))
  }

  lemma IncrKeepsInv(s: System, c: nat, key: string, limit: int)
    requires Inv(s) && c !in s.pending
    ensures Inv(Step(s, CallIncr(c, key, limit)))
  {
    var s' := Step(s, CallIncr(c, key, limit));
    forall i | 0 <= i < |s'.log|
      ensures Covered(s', s'.log[i])
    {
      if i < |s.log| { assert Covered(s, s.log[i]); }
    }
    forall i, j | 0 <= i < j < |s'.log|
      ensures Ordered(s'.log[i], s'.log[j])
    {
      assert Covered(s, s.log[i]);
      if j < |s.log| { assert Ordered(s.log[i], s.log[j]); }
    }
  }

  lemma ExpireKeepsInv(s: System, c: nat)
    requires Inv(s) && c in s.pending
    ensures Inv(Step(s, CallExpire(c)))
  {
    var s' := Step(s, CallExpire(c));
    forall i | 0 <= i < |s'.log|
      ensures Covered(s', s'.log[i])
    {
      assert Covered(s, s.log[i]);
    }
    forall i, j | 0 <= i < j < |s'.log|
      ensures Ordered(s'.log[i], s'.log[j])
    {
      assert Ordered(s.log[i], s.log[j]);
    }
  }

  lemma StepKeepsInv(s: System, a: Action)
    requires Inv(s)
    ensures Inv(Step(s, a))
  {
    match a
    case Tick(_) =>
      forall i | 0 <= i < |s.log| ensures Covered(Step(s, a), s.log[i]) { assert Covered(s, s.log[i]); }
    case CallIncr(c, key, limit) => if c !in s.pending { IncrKeepsInv(s, c, key, limit); }
    case CallExpire(c) => if c in s.pending { ExpireKeepsInv(s, c); }
    case IncrFails(_, _) =>
      forall i | 0 <= i < |s.log| ensures Covered(Step(s, a), s.log[i]) { assert Covered(s, s.log[i]); }
    case ExpireFails(_) =>
      forall i | 0 <= i < |s.log| ensures Covered(Step(s, a), s.log[i]) { assert Covered(s, s.log[i]); }
  }

  lemma ReachableInv(now: int, actions: seq<Action>)
    ensures Inv(Exec(Step, Start(now), actions))
  {
    forall s, a | Inv(s) ensures Inv(Step(s, a)) { StepKeepsInv(s, a); }
    ExecKeeps(Step, Inv, Start(now), actions);
  }

  // ---- Counting admissions ----

  /** Calls on `key` in `window`, admitted under a limit of at most `most`. */
  function AdmittedInWindow(log: seq<Call>, key: string, window: nat, most: int): nat {
    if log == [] then 0
    else
      var x := log[|log| - 1];
      AdmittedInWindow(log[..|log| - 1], key, window, most)
      + if x.key == key && x.window == window && x.Admitted() && x.limit <= most then 1 else 0
  }

  /** Calls on `key` from `from` to a minute later, ends included, admitted under a limit of at most `most`. */
  function AdmittedInMinute(log: seq<Call>, key: string, from: int, most: int): nat {
    if log == [] then 0
    else
      var x := log[|log| - 1];
      AdmittedInMinute(log[..|log| - 1], key, from, most)
      + if Counts(x, key, from, most) then 1 else 0
  }

  predicate Counts(x: Call, key: string, from: int, most: int) {
    x.key == key && from <= x.at <= from + MINUTE && x.Admitted() && x.limit <= most
  }

  /** The calls on `key` let through uncounted in that minute. */
  function UncountedInMinute(uncounted: seq<Uncounted>, key: string, from: int): nat {
    if uncounted == [] then 0
    else
      var x := uncounted[|uncounted| - 1];
      UncountedInMinute(uncounted[..|uncounted| - 1], key, from)
      + if x.key == key && from <= x.at <= from + MINUTE then 1 else 0
  }

  /** The INCR calls on `key` that error in that minute, along a run. */
  ghost function ErrorsInMinute(now: int, actions: seq<Action>, key: string, from: int): nat {
    if actions == [] then 0
    else
      var before, a := actions[..|actions| - 1], actions[|actions| - 1];
      var s := Exec(Step, Start(now), before);
      ErrorsInMinute(now, before, key, from)
      + if a.IncrFails? && a.key == key && a.caller !in s.pending && from <= s.now <= from + MINUTE then 1 else 0
  }

  lemma UncountedStep(s: System, a: Action, key: string, from: int)
    ensures UncountedInMinute(Step(s, a).uncounted, key, from) == UncountedInMinute(s.uncounted, key, from)
      + if a.IncrFails? && a.key == key && a.caller !in s.pending && from <= s.now <= from + MINUTE then 1 else 0
  {
    if a.IncrFails? { assert (s.uncounted + [Uncounted(a.key, s.now)])[..|s.uncounted|] == s.uncounted; }
  }

  lemma {:induction false} UncountedAreErrors(now: int, actions: seq<Action>, key: string, from: int)
    ensures UncountedInMinute(Exec(Step, Start(now), actions).uncounted, key, from)
         == ErrorsInMinute(now, actions, key, from)
  {
    if actions != [] {
      var before, a := actions[..|actions| - 1], actions[|actions| - 1];
      assert actions == before + [a];
      UncountedAreErrors(now, before, key, from);
      ExecSnoc(Step, Start(now), before, a);
      UncountedStep(Exec(Step, Start(now), before), a, key, from);
    }
  }

  ghost predicate WellOrdered(log: seq<Call>) {
    && (forall i :: 0 <= i < |log| ==> 1 <= log[i].count)
    && (forall i, j :: 0 <= i < j < |log| ==> Ordered(log[i], log[j]))
  }

  /** Counts grow within a window, so admissions in it are at most the largest count admitted. */
  lemma {:induction false} WindowAdmitsAtMost(log: seq<Call>, key: string, window: nat, most: int, top: nat)
    requires WellOrdered(log)
    requires forall i :: 0 <= i < |log| ==>
               (log[i].key == key && log[i].window == window && log[i].Admitted() && log[i].limit <= most ==>
                  log[i].count <= top)
    ensures AdmittedInWindow(log, key, window, most) <= top
  {
    if log != [] {
      var rest, x := log[..|log| - 1], log[|log| - 1];
      if x.key == key && x.window == window && x.Admitted() && x.limit <= most {
        assert forall i :: 0 <= i < |rest| ==> Ordered(rest[i], x);
        WindowAdmitsAtMost(rest, key, window, most, x.count - 1);
      } else {
        WindowAdmitsAtMost(rest, key, window, most, top);
      }
    }
  }

  lemma {:induction false} TwoWindowsCover(log: seq<Call>, key: string, from: int, most: int, w: nat)
    requires forall i :: 0 <= i < |log| && Counts(log[i], key, from, most) ==> w <= log[i].window <= w + 1
    ensures AdmittedInMinute(log, key, from, most)
         <= AdmittedInWindow(log, key, w, most) + AdmittedInWindow(log, key, w + 1, most)
  {
    if log != [] {
      TwoWindowsCover(log[..|log| - 1], key, from, most, w);
    }
  }

  /** The counted calls of a minute lie in two consecutive windows. */
  lemma MinuteTouchesTwoWindows(log: seq<Call>, key: string, from: int, most: int) returns (w: nat)
    requires WellOrdered(log)
    ensures forall i :: 0 <= i < |log| && Counts(log[i], key, from, most) ==> w <= log[i].window <= w + 1
  {
    if i :| 0 <= i < |log| && Counts(log[i], key, from, most)
            && forall j :: 0 <= j < i ==> !Counts(log[j], key, from, most)
    {
      w := log[i].window;
      forall j | 0 <= j < |log| && Counts(log[j], key, from, most)
        ensures w <= log[j].window <= w + 1
      {
        if i < j { assert Ordered(log[i], log[j]); }
      }
    } else {
      FirstCounted(log, key, from, most);
      w := 0;
    }
  }

  lemma FirstCounted(log: seq<Call>, key: string, from: int, most: int)
    requires forall i :: 0 <= i < |log| && Counts(log[i], key, from, most) ==>
               exists j :: 0 <= j < i && Counts(log[j], key, from, most)
    ensures forall i :: 0 <= i < |log| ==> !Counts(log[i], key, from, most)
  {
    var n := 0;
    while n < |log|
      invariant 0 <= n <= |log|
      invariant forall i :: 0 <= i < n ==> !Counts(log[i], key, from, most)
    {
      n := n + 1;
    }
  }

  /** Main result on the limiter: over every interleaving, even when some EXPIRE calls fail, any minute admits
      at most twice the limit per key, and one more for each INCR that errors in it. */
  lemma MinuteAdmitsAtMostTwiceTheLimit(now: int, actions: seq<Action>, key: string, from: int, limit: nat)
    ensures var s := Exec(Step, Start(now), actions);
      && MINUTE == 60_000_000_000
      && AdmittedInMinute(s.log, key, from, limit) <= 2 * limit
      && AdmittedInMinute(s.log, key, from, limit) + UncountedInMinute(s.uncounted, key, from)
         <= 2 * limit + ErrorsInMinute(now, actions, key, from)
  {
    UncountedAreErrors(now, actions, key, from);
    ReachableInv(now, actions);
    LogAdmitsAtMostTwiceTheLimit(Exec(Step, Start(now), actions), key, from, limit);
  }

  lemma LogAdmitsAtMostTwiceTheLimit(s: System, key: string, from: int, limit: nat)
    requires Inv(s)
    ensures AdmittedInMinute(s.log, key, from, limit) <= 2 * limit
  {
    assert forall i :: 0 <= i < |s.log| ==> Covered(s, s.log[i]);
    var w := MinuteTouchesTwoWindows(s.log, key, from, limit);
    TwoWindowsCover(s.log, key, from, limit, w);
    WindowAdmitsAtMost(s.log, key, w, limit, limit);
    WindowAdmitsAtMost(s.log, key, w + 1, limit, limit);
  }

  /** Twice the limit is reached: `limit` calls at once, and `limit` more as their counter dies. */
  lemma TwiceTheLimitIsReached(key: string, limit: nat) returns (s: System)
    requires 0 < limit
    ensures Reaches(Step, Start(0), s) && AdmittedInMinute(s.log, key, 0, limit) == 2 * limit
  {
    var s0 := Start(0);
    Onward(Step, s0, s0, CallIncr(0, key, limit));
    var s1 := Step(s0, CallIncr(0, key, limit));
    Onward(Step, s0, s1, CallExpire(0));
    var s2 := Step(s1, CallExpire(0));
    assert s2.log[..0] == [] && AdmittedInMinute(s2.log, key, 0, limit) == 1;
    var s3 := Burst(s2, key, limit, limit - 1);
    Onward(Step, s0, s3, Tick(MINUTE));
    var s4 := Step(s3, Tick(MINUTE));
    Onward(Step, s0, s4, CallIncr(0, key, limit));
    var s5 := Step(s4, CallIncr(0, key, limit));
    assert s5.log[..|s4.log|] == s4.log;
    s := Burst(s5, key, limit, limit - 1);
  }

  /** `n` calls on a live counter with room for them are all admitted. */
  lemma {:induction false} Burst(s: System, key: string, limit: nat, n: nat) returns (s': System)
    requires Reaches(Step, Start(0), s)
    requires 1 !in s.pending && Live(s.cache, key, s.now) && 1 <= s.cache[key].count
    requires s.cache[key].count + n <= limit && 0 <= s.now <= MINUTE
    ensures Reaches(Step, Start(0), s')
    ensures s'.now == s.now && s'.pending == s.pending && key in s'.cache
    ensures s'.cache[key] == s.cache[key].(count := s.cache[key].count + n)
    ensures AdmittedInMinute(s'.log, key, 0, limit) == AdmittedInMinute(s.log, key, 0, limit) + n
    decreases n
  {
    if n == 0 {
      s' := s;
    } else {
      var next := Step(s, CallIncr(1, key, limit));
      Onward(Step, Start(0), s, CallIncr(1, key, limit));
      assert next.log[..|s.log|] == s.log;
      s' := Burst(next, key, limit, n - 1);
    }
  }

  // ---- Who sets the deadline ----

  /** A counter without a deadline has a caller about to set it. */
  ghost predicate DeadlineComing(s: System) {
    forall k :: k in s.cache && s.cache[k].deadline.None? ==> exists c :: c in s.pending && s.pending[c] == k
  }

  lemma StepKeepsDeadlineComing(s: System, a: Action)
    requires Inv(s) && DeadlineComing(s) && !a.ExpireFails?
    ensures DeadlineComing(Step(s, a))
  {
    var s' := Step(s, a);
    forall k | k in s'.cache && s'.cache[k].deadline.None?
      ensures exists c :: c in s'.pending && s'.pending[c] == k
    {
      if a.CallIncr? && a.caller !in s.pending && k == a.key && !Live(s.cache, k, s.now) {
        assert a.caller in s'.pending && s'.pending[a.caller] == k;
      } else {
        var c :| c in s.pending && s.pending[c] == k;
        assert c in s'.pending && s'.pending[c] == k;
      }
    }
  }

  /** With a cache that does not error, a counter without a deadline has exactly one caller about to set it. */
  lemma {:induction false} ExactlyOneSetsTheDeadline(s: System, actions: seq<Action>)
    requires Inv(s) && DeadlineComing(s)
    requires forall i :: 0 <= i < |actions| ==> !actions[i].ExpireFails?
    ensures Inv(Exec(Step, s, actions)) && DeadlineComing(Exec(Step, s, actions))
    decreases |actions|
  {
    if actions != [] {
      StepKeepsInv(s, actions[0]);
      StepKeepsDeadlineComing(s, actions[0]);
      ExactlyOneSetsTheDeadline(Step(s, actions[0]), actions[1..]);
    }
  }

  /** A counter without a deadline and with nobody about to set one: its EXPIRE was lost. */
  ghost predicate Orphaned(s: System, key: string) {
    && key in s.cache && s.cache[key].deadline.None?
    && forall c :: c in s.pending ==> s.pending[c] != key
  }

  /** The EXPIRE that `key` was waiting for fails. */
  predicate LosesExpire(s: System, a: Action, key: string) {
    a.ExpireFails? && a.caller in s.pending && s.pending[a.caller] == key
  }

  lemma OrphanedStep(s: System, a: Action, key: string)
    requires Inv(s)
    ensures Orphaned(Step(s, a), key) <==> Orphaned(s, key) || LosesExpire(s, a, key)
  {
    var s' := Step(s, a);
    assert a.CallIncr? && a.caller !in s.pending && !Live(s.cache, a.key, s.now) ==>
      a.caller in s'.pending && s'.pending[a.caller] == a.key;
    assert forall c :: c in s.pending && c !in s'.pending ==> !a.Tick? && c == a.caller;
    if c :| c in s.pending && s.pending[c] == key {
      assert c in s'.pending ==> s'.pending[c] == key;
    }
  }

  /** Main result on lost deadlines: over every interleaving, a key ends up with a counter that nobody
      will ever give a deadline exactly when an EXPIRE that was due on it failed. */
  lemma OrphanedIffExpireLost(now: int, actions: seq<Action>, key: string)
    ensures Orphaned(Exec(Step, Start(now), actions), key)
       <==> Happens(Step, Start(now), actions, (s, a) => LosesExpire(s, a, key))
  {
    forall s, a | Inv(s) ensures Inv(Step(s, a)) { StepKeepsInv(s, a); }
    forall s, a | Inv(s) ensures Orphaned(Step(s, a), key) <==> Orphaned(s, key) || LosesExpire(s, a, key) {
      OrphanedStep(s, a, key);
    }
    HoldsIffCaused(Step, Inv, s => Orphaned(s, key), (s, a) => LosesExpire(s, a, key), Start(now), actions);
  }

  /** It happens with the very first call on a key. */
  lemma ExpireIsLost(now: int, key: string, c: nat, limit: int) returns (s: System)
    ensures Reaches(Step, Start(now), s) && Orphaned(s, key)
  {
    var s1 := Step(Start(now), CallIncr(c, key, limit));
    Onward(Step, Start(now), Start(now), CallIncr(c, key, limit));
    s := Step(s1, ExpireFails(c));
    Onward(Step, Start(now), s1, ExpireFails(c));
  }

  /** A lost EXPIRE is never made up for: from then on, whatever is called and however long it
      takes, the key admits only calls whose limit exceeds the count it was stuck at. */
  lemma {:induction false} LostExpireNeverResets(s: System, actions: seq<Action>, key: string, count: nat)
    requires Orphaned(s, key) && 1 <= count <= s.cache[key].count
    ensures var s' := Exec(Step, s, actions);
      && Orphaned(s', key) && count <= s'.cache[key].count
      && s.log <= s'.log
      && forall i :: |s.log| <= i < |s'.log| && s'.log[i].key == key ==> count < s'.log[i].count
    decreases |actions|
  {
    if actions != [] {
      var next := Step(s, actions[0]);
      LostExpireNeverResets(next, actions[1..], key, count);
    }
  }
}
