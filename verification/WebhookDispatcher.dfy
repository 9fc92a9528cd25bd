/** Webhook deliveries: at most five attempts, doubling waits between them. */
module WebhookDispatcher {
  import opened Options

  const SECOND: int := 1_000_000_000
  const MAX_ATTEMPTS: nat := 5

  datatype Status = Pending | Delivered | Failed

  /** How one dispatch goes: the subscription is missing or inactive, or the endpoint answers at a time.
      An answer of 0 stands for a request that failed. */
  datatype Attempt = NoSubscription | Inactive | Answered(code: int, at: int)

  datatype State = State(status: Status, attempts: nat, lastAttempt: Option<int>, nextRetry: Option<int>, httpStatus: int)

  const NEW := State(Pending, 0, None, None, 0)

  function Pow2(k: nat): nat { if k == 0 then 1 else 2 * Pow2(k - 1) }

  predicate Success(code: int) { 200 <= code < 300 }

  class Delivery {
    var status: Status
    var attempts: nat
    var lastAttempt: Option<int>
    var nextRetry: Option<int>
    var httpStatus: int

    constructor ()
      ensures Current() == NEW
    {
      status, attempts, lastAttempt, nextRetry, httpStatus := Pending, 0, None, None, 0;
    }

    function Current(): State
      reads this
    {
      State(status, attempts, lastAttempt, nextRetry, httpStatus)
    }

    /** Pending, and without a retry time or past it. */
    predicate Awaits(now: int)
      reads this
    {
      status.Pending? && (nextRetry.None? || nextRetry.value <= now)
    }

    method RecordAttempt(code: int, now: int)
      modifies this
      ensures Current() == Recorded(old(Current()), code, now)
      ensures attempts == old(attempts) + 1 && lastAttempt == Some(now) && httpStatus == code
      ensures status == if 200 <= code <= 299 then Delivered else if attempts < 5 then Pending else Failed
      ensures nextRetry.Some? <==> status.Pending?
    {
      attempts := attempts + 1;
      lastAttempt := Some(now);
      httpStatus := code;
      if code >= 200 && code < 300 {
        status := Delivered;
        nextRetry := None;
      } else if attempts >= MAX_ATTEMPTS {
        status := Failed;
        nextRetry := None;
      } else {
        status := Pending;
        nextRetry := Some(now + Pow2(attempts) * SECOND);
      }
    }

    /** Only deliveries still pending are listed. */
    method Dispatch(a: Attempt)
      requires status.Pending?
      modifies this
      ensures Current() == Dispatched(old(Current()), a)
    {
      match a
      case NoSubscription =>
      case Inactive =>
      case Answered(code, at) =>
        RecordAttempt(code, at);
    }
  }

  function Recorded(d: State, code: int, now: int): State {
    var n := d.attempts + 1;
    if Success(code) then State(Delivered, n, Some(now), None, code)
    else if n >= MAX_ATTEMPTS then State(Failed, n, Some(now), None, code)
    else State(Pending, n, Some(now), Some(now + Pow2(n) * SECOND), code)
  }

  /** A tick passes over deliveries that are no longer pending. */
  function Dispatched(d: State, a: Attempt): State {
    if d.status.Pending? && a.Answered? then Recorded(d, a.code, a.at) else d
  }

  /** One tick of the dispatcher on a delivery: how the dispatch goes, and whether the save succeeds.
      Without the save the row stays as it was. */
  datatype Tick = Tick(attempt: Attempt, saved: bool)

  function Ticked(d: State, t: Tick): State {
    if t.saved then Dispatched(d, t.attempt) else d
  }

  function After(ticks: seq<Tick>): State {
    if ticks == [] then NEW else Ticked(After(ticks[..|ticks| - 1]), ticks[|ticks| - 1])
  }

  /** The requests that went out to the endpoint. */
  function Requests(ticks: seq<Tick>): nat {
    if ticks == [] then 0
    else
      Requests(ticks[..|ticks| - 1])
      + if After(ticks[..|ticks| - 1]).status.Pending? && ticks[|ticks| - 1].attempt.Answered? then 1 else 0
  }

  function LostSaves(ticks: seq<Tick>): nat {
    if ticks == [] then 0 else LostSaves(ticks[..|ticks| - 1]) + if ticks[|ticks| - 1].saved then 0 else 1
  }

  /** The total of the waits scheduled so far. */
  function Waits(ticks: seq<Tick>): int {
    if ticks == [] then 0
    else
      var before, after := After(ticks[..|ticks| - 1]), After(ticks);
      Waits(ticks[..|ticks| - 1])
      + if before.attempts < after.attempts && after.nextRetry.Some? && after.lastAttempt.Some?
        then after.nextRetry.value - after.lastAttempt.value else 0
  }

  /** The answers whose saves succeeded, up to the end of time: not all of them need be asked for. */
  function Answers(ticks: seq<Tick>): seq<Attempt> {
    if ticks == [] then []
    else
      var t, rest := ticks[|ticks| - 1], Answers(ticks[..|ticks| - 1]);
      if t.saved && t.attempt.Answered? then rest + [t.attempt] else rest
  }

  /** Position of the first success, or the length if there is none. */
  function FirstSuccess(answers: seq<Attempt>): (n: nat)
    ensures n <= |answers|
  {
    if answers == [] || (answers[0].Answered? && Success(answers[0].code)) then 0 else 1 + FirstSuccess(answers[1..])
  }

  lemma {:induction false} FirstSuccessAppend(answers: seq<Attempt>, a: Attempt)
    ensures FirstSuccess(answers + [a]) ==
      if FirstSuccess(answers) < |answers| then FirstSuccess(answers)
      else if a.Answered? && Success(a.code) then |answers| else |answers| + 1
  {
    if answers == [] {
      assert answers + [a] == [a];
    } else {
      assert (answers + [a])[1..] == answers[1..] + [a];
      FirstSuccessAppend(answers[1..], a);
    }
  }

  function Min(a: nat, b: nat): nat { if a < b then a else b }

  /** What a delivery looks like that has been given `answers`: delivered by a success among the first
      five, failed by five without one, pending otherwise and due 2^k seconds after its k-th attempt. */
  ghost predicate DecidedBy(d: State, answers: seq<Attempt>) {
    var f := FirstSuccess(answers);
    && d.attempts == Min(|answers|, Min(MAX_ATTEMPTS, f + 1))
    && d.status == (if f < |answers| && f < MAX_ATTEMPTS then Delivered
                    else if |answers| >= MAX_ATTEMPTS then Failed else Pending)
    && (0 < d.attempts ==> answers[d.attempts - 1].Answered? && d.httpStatus == answers[d.attempts - 1].code
                           && d.lastAttempt == Some(answers[d.attempts - 1].at))
    && d.nextRetry == (if d.status.Pending? && 0 < d.attempts
                       then Some(answers[d.attempts - 1].at + Pow2(d.attempts) * SECOND) else None)
  }

  lemma OneMoreAnswer(d: State, answers: seq<Attempt>, a: Attempt)
    requires DecidedBy(d, answers) && a.Answered?
    ensures DecidedBy(Dispatched(d, a), answers + [a])
  {
    FirstSuccessAppend(answers, a);
    var next := answers + [a];
    assert forall i :: 0 <= i < |answers| ==> next[i] == answers[i];
  }

  /** Main result on deliveries: for every sequence of ticks, outcomes and saves, the stored delivery is
      decided by the answers that were saved. */
  lemma {:induction false} DeliveryIsDecidedByAnswers(ticks: seq<Tick>)
    ensures DecidedBy(After(ticks), Answers(ticks))
  {
    if ticks != [] {
      var t, rest := ticks[|ticks| - 1], Answers(ticks[..|ticks| - 1]);
      DeliveryIsDecidedByAnswers(ticks[..|ticks| - 1]);
      if t.saved && t.attempt.Answered? {
        OneMoreAnswer(After(ticks[..|ticks| - 1]), rest, t.attempt);
      }
    }
  }

  /** The wait after the `k`-th attempt, in seconds. */
  function Backoff(k: nat): nat {
    match k
    case 1 => 2
    case 2 => 4
    case 3 => 8
    case _ => 16
  }

  /** Answer `i` is a code from 200 to 299. */
  predicate Delivers(answers: seq<Attempt>, i: nat) {
    i < |answers| && answers[i].Answered? && 200 <= answers[i].code <= 299
  }

  lemma {:induction false} FirstSuccessIs(answers: seq<Attempt>, i: nat)
    ensures Delivers(answers, i) ==> FirstSuccess(answers) <= i
    ensures FirstSuccess(answers) < |answers| ==> Delivers(answers, FirstSuccess(answers))
  {
    if answers != [] && !Delivers(answers, 0) {
      FirstSuccessIs(answers[1..], if i == 0 then 0 else i - 1);
    }
  }

  /** Delivered if and only if one of the first five answers is a code from 200 to 299, failed if and only if
      five are not, and pending otherwise, due 2, 4, 8 and 16 seconds after the first four attempts. */
  ghost predicate DecidedInNumbers(d: State, answers: seq<Attempt>) {
    && (d.status.Delivered? <==> exists i: nat :: i < 5 && Delivers(answers, i))
    && (d.status.Failed? <==> 5 <= |answers| && forall i: nat :: i < 5 ==> !Delivers(answers, i))
    && (d.status.Pending? <==> |answers| < 5 && forall i: nat :: i < 5 ==> !Delivers(answers, i))
    && (0 < d.attempts ==> d.attempts <= |answers| && answers[d.attempts - 1].Answered?
                           && d.httpStatus == answers[d.attempts - 1].code
                           && d.lastAttempt == Some(answers[d.attempts - 1].at))
    && d.nextRetry == (if d.status.Pending? && 0 < d.attempts
                       then Some(answers[d.attempts - 1].at + Backoff(d.attempts) * 1_000_000_000) else None)
  }

  lemma DecidedMeans(d: State, answers: seq<Attempt>)
    requires DecidedBy(d, answers)
    ensures DecidedInNumbers(d, answers)
  {
    var f := FirstSuccess(answers);
    forall i: nat ensures Delivers(answers, i) ==> f <= i { FirstSuccessIs(answers, i); }
    FirstSuccessIs(answers, f);
    assert d.status.Delivered? ==> f < 5 && Delivers(answers, f);
    assert Pow2(1) == 2 && Pow2(2) == 4 && Pow2(3) == 8 && Pow2(4) == 16;
  }

  /** The main result in numbers, for every sequence of ticks, outcomes and saves. */
  lemma DeliveredIffTwoHundreds(ticks: seq<Tick>)
    ensures DecidedInNumbers(After(ticks), Answers(ticks))
  {
    DeliveryIsDecidedByAnswers(ticks);
    DecidedMeans(After(ticks), Answers(ticks));
  }

  /** The waits of the attempts that left a delivery pending: 2 + 4 + ... seconds. */
  function WaitsOf(d: State): int {
    if d.attempts == 0 then 0
    else (Pow2((if d.status.Pending? then d.attempts else d.attempts - 1) + 1) - 2) * SECOND
  }

  lemma {:induction false} RequestsAndWaits(ticks: seq<Tick>)
    ensures After(ticks).attempts <= Requests(ticks) <= After(ticks).attempts + LostSaves(ticks)
    ensures Waits(ticks) == WaitsOf(After(ticks))
  {
    if ticks != [] {
      var before := ticks[..|ticks| - 1];
      RequestsAndWaits(before);
      DeliveryIsDecidedByAnswers(before);
      DeliveryIsDecidedByAnswers(ticks);
      assert Pow2(After(before).attempts + 2) == 2 * Pow2(After(before).attempts + 1);
    }
  }

  /** With saves that succeed a delivery is attempted at most five times; each lost save can add one. The
      waits scheduled never total more than 30 seconds. */
  lemma AttemptsAndWaitsBounded(ticks: seq<Tick>)
    ensures Requests(ticks) <= MAX_ATTEMPTS + LostSaves(ticks)
    ensures Waits(ticks) <= 30 * SECOND
  {
    RequestsAndWaits(ticks);
    DeliveryIsDecidedByAnswers(ticks);
    assert Pow2(1) == 2 && Pow2(2) == 4 && Pow2(3) == 8 && Pow2(4) == 16 && Pow2(5) == 32;
    var d := After(ticks);
    var k := if d.status.Pending? then d.attempts else d.attempts - 1;
    assert 0 < d.attempts ==> k in {0, 1, 2, 3, 4};
  }

  /** Delivered and failed are final. */
  lemma {:induction false} SettledStays(ticks: seq<Tick>, more: seq<Tick>)
    requires !After(ticks).status.Pending?
    ensures After(ticks + more) == After(ticks)
    decreases |more|
  {
    if more == [] {
      assert ticks + more == ticks;
    } else {
      assert (ticks + more)[..|ticks + more| - 1] == ticks + more[..|more| - 1];
      SettledStays(ticks, more[..|more| - 1]);
    }
  }

  // ---- The queue: which deliveries a pass lists ----

  const LISTED: nat := 100

  /** The deliveries in `created_at` order; new ones arrive at the end, so an index names one for good. */
  type Queue = seq<State>

  predicate Due(d: State, now: int) {
    d.status.Pending? && (d.nextRetry.Some? ==> d.nextRetry.value <= now)
  }

  function CountDue(q: Queue, now: int): nat {
    if q == [] then 0 else CountDue(q[..|q| - 1], now) + if Due(q[|q| - 1], now) then 1 else 0
  }

  /** The deliveries a pass lists: due, with fewer than a hundred due before them. */
  predicate Listed(q: Queue, now: int, i: nat) {
    i < |q| && Due(q[i], now) && CountDue(q[..i], now) < LISTED
  }

  lemma CountDueGrows(q: Queue, now: int, i: nat, j: nat)
    requires i <= j <= |q|
    ensures CountDue(q[..i], now) <= CountDue(q[..j], now)
  {
    if i < j {
      assert q[..j][..j - 1] == q[..j - 1];
      CountDueGrows(q, now, i, j - 1);
    }
  }

  /** One pass: when it runs, how each dispatch goes if it comes to it, and what arrives after it. */
  datatype Pass = Pass(now: int, attempts: nat -> Attempt, arrivals: seq<State>)

  function PassedOver(q: Queue, now: int, attempts: nat -> Attempt, i: nat): State
    requires i < |q|
  {
    if Listed(q, now, i) then Dispatched(q[i], attempts(i)) else q[i]
  }

  function States(deliveries: seq<Delivery>): (q: Queue)
    reads deliveries
    ensures |q| == |deliveries| && forall i :: 0 <= i < |q| ==> q[i] == deliveries[i].Current()
  {
    seq(|deliveries|, i requires 0 <= i < |deliveries| reads deliveries => deliveries[i].Current())
  }

  /** SELECT ... WHERE status is pending AND next_retry_at is due ORDER BY created_at LIMIT 100. */
  method ListPendingDeliveries(deliveries: seq<Delivery>, now: int) returns (rows: seq<nat>)
    ensures |rows| <= 100
    ensures forall i, j :: 0 <= i < j < |rows| ==> rows[i] < rows[j]
    ensures forall k :: 0 <= k < |rows| ==> rows[k] < |deliveries| && deliveries[rows[k]].Awaits(now)
    ensures forall i: nat :: i < |deliveries| && deliveries[i].Awaits(now) && i !in rows ==> |rows| == 100 && rows[99] < i
    ensures forall i: nat :: i in rows <==> Listed(States(deliveries), now, i)
  {
    ghost var q := States(deliveries);
    rows := [];
    var n := 0;
    while n < |deliveries| && |rows| < LISTED
      invariant 0 <= n <= |deliveries| && |rows| <= LISTED
      invariant |rows| == CountDue(q[..n], now)
      invariant forall i :: 0 <= i < |rows| ==> rows[i] < n && deliveries[rows[i]].Awaits(now)
      invariant forall i: nat :: i < n && deliveries[i].Awaits(now) ==> i in rows
      invariant forall i, j :: 0 <= i < j < |rows| ==> rows[i] < rows[j]
      invariant forall i: nat :: i in rows <==> i < n && Listed(q, now, i)
    {
      assert q[..n + 1][..n] == q[..n];
      if Due(deliveries[n].Current(), now) {
        rows := rows + [n];
      }
      n := n + 1;
    }
    forall i: nat | n <= i < |deliveries|
      ensures !Listed(q, now, i)
    {
      CountDueGrows(q, now, n, i);
    }
  }

  /** One pass: each delivery listed is dispatched once, and the others are left alone. */
  method ProcessPending(deliveries: seq<Delivery>, now: int, attempts: nat -> Attempt)
    requires forall i, j :: 0 <= i < j < |deliveries| ==> deliveries[i] != deliveries[j]
    modifies deliveries
    ensures forall i: nat :: i < |deliveries| ==>
              deliveries[i].Current() == PassedOver(old(States(deliveries)), now, attempts, i)
  {
    ghost var q := States(deliveries);
    var rows := ListPendingDeliveries(deliveries, now);
    assert forall i: nat :: i in rows <==> Listed(q, now, i);
    for k := 0 to |rows|
      invariant forall i: nat :: i < |deliveries| && i in rows[..k] ==>
                  deliveries[i].Current() == PassedOver(q, now, attempts, i)
      invariant forall i: nat :: i < |deliveries| && i !in rows[..k] ==> deliveries[i].Current() == q[i]
    {
      var i := rows[k];
      assert i in rows && i !in rows[..k] && rows[..k + 1] == rows[..k] + [i];
      assert Listed(q, now, i) && deliveries[i].Current() == q[i];
      deliveries[i].Dispatch(attempts(i));
    }
    assert rows[..|rows|] == rows;
  }

  // ---- When a delivery is reached ----

  function Next(q: Queue, p: Pass): (r: Queue)
    ensures |r| == |q| + |p.arrivals|
    ensures forall i: nat :: i < |q| ==> r[i] == PassedOver(q, p.now, p.attempts, i)
  {
    seq(|q|, i requires 0 <= i < |q| => PassedOver(q, p.now, p.attempts, i)) + p.arrivals
  }

  function AfterPasses(q: Queue, passes: seq<Pass>): Queue
    decreases |passes|
  {
    if passes == [] then q else AfterPasses(Next(q, passes[0]), passes[1..])
  }

  /** The deliveries before `i` that are pending and whose subscription is missing or inactive. */
  function CountStuck(q: Queue, stuck: nat -> bool, i: nat): nat
    requires i <= |q|
  {
    if i == 0 then 0
    else CountStuck(q, stuck, i - 1) + if stuck(i - 1) && q[i - 1].status.Pending? then 1 else 0
  }

  /** The attempts left to the other deliveries before `i`. */
  function AttemptsLeft(q: Queue, stuck: nat -> bool, i: nat): nat
    requires i <= |q|
  {
    if i == 0 then 0
    else AttemptsLeft(q, stuck, i - 1)
         + if !stuck(i - 1) && q[i - 1].status.Pending? && q[i - 1].attempts < MAX_ATTEMPTS
           then MAX_ATTEMPTS - q[i - 1].attempts else 0
  }

  /** Before `i`, exactly the dispatches of the stuck come to nothing, and nobody pending is past the fifth
      attempt. */
  ghost predicate Sound(q: Queue, stuck: nat -> bool, p: Pass, i: nat) {
    && i <= |q|
    && (forall j: nat :: j < i ==> (p.attempts(j).Answered? <==> !stuck(j)))
    && (forall j: nat :: j < i && q[j].status.Pending? ==> q[j].attempts < MAX_ATTEMPTS)
  }

  /** A pass keeps the stuck, and uses up an attempt for each slot of its list the stuck do not take. */
  lemma {:induction false} PassUsesAttempts(q: Queue, stuck: nat -> bool, p: Pass, i: nat)
    requires Sound(q, stuck, p, i)
    ensures CountStuck(Next(q, p), stuck, i) == CountStuck(q, stuck, i)
    ensures AttemptsLeft(Next(q, p), stuck, i) + Min(LISTED, CountDue(q[..i], p.now))
         <= AttemptsLeft(q, stuck, i) + CountStuck(q, stuck, i)
    decreases i
  {
    if i != 0 {
      PassUsesAttempts(q, stuck, p, i - 1);
      assert q[..i][..i - 1] == q[..i - 1];
      assert Next(q, p)[i - 1] == PassedOver(q, p.now, p.attempts, i - 1);
    }
  }

  lemma PassKeepsSound(q: Queue, stuck: nat -> bool, p: Pass, i: nat)
    requires Sound(q, stuck, p, i)
    ensures forall j: nat :: j < i && Next(q, p)[j].status.Pending? ==> Next(q, p)[j].attempts < MAX_ATTEMPTS
  {
  }

  ghost predicate AllSound(q: Queue, stuck: nat -> bool, passes: seq<Pass>, i: nat) {
    forall k :: 0 <= k < |passes| ==> Sound(q, stuck, passes[k], i)
  }

  lemma PassKeepsAllSound(q: Queue, stuck: nat -> bool, passes: seq<Pass>, i: nat)
    requires passes != [] && AllSound(q, stuck, passes, i)
    ensures AllSound(Next(q, passes[0]), stuck, passes[1..], i)
  {
    PassKeepsSound(q, stuck, passes[0], i);
    forall k | 0 <= k < |passes| - 1
      ensures Sound(Next(q, passes[0]), stuck, passes[1..][k], i)
    {
      assert Sound(q, stuck, passes[k + 1], i);
    }
  }

  /** Pass `k` lists delivery `i`. */
  ghost predicate ListedIn(q: Queue, passes: seq<Pass>, k: nat, i: nat) {
    k < |passes| && Listed(AfterPasses(q, passes[..k]), passes[k].now, i)
  }

  lemma ListedInLater(q: Queue, passes: seq<Pass>, k: nat, i: nat)
    requires passes != []
    ensures ListedIn(q, passes, k + 1, i) <==> ListedIn(Next(q, passes[0]), passes[1..], k, i)
  {
    if k + 1 < |passes| { assert passes[..k + 1][1..] == passes[1..][..k]; }
  }

  /** With fewer than a hundred stuck deliveries before it, a new delivery is listed by one of the next
      n + 1 passes, where n counts the attempts left to the others before it. */
  lemma {:induction false} ReachedWithin(q: Queue, stuck: nat -> bool, passes: seq<Pass>, i: nat) returns (k: nat)
    requires i < |q| && q[i] == NEW && AllSound(q, stuck, passes, i)
    requires CountStuck(q, stuck, i) < LISTED && AttemptsLeft(q, stuck, i) < |passes|
    ensures ListedIn(q, passes, k, i)
    decreases |passes|
  {
    if Listed(q, passes[0].now, i) {
      k := 0;
    } else {
      var next := Next(q, passes[0]);
      PassUsesAttempts(q, stuck, passes[0], i);
      PassKeepsAllSound(q, stuck, passes, i);
      assert next[i] == q[i];
      var k' := ReachedWithin(next, stuck, passes[1..], i);
      ListedInLater(q, passes, k', i);
      k := k' + 1;
    }
  }

  /** The stuck deliveries before `i` are due. */
  ghost predicate StuckDue(q: Queue, stuck: nat -> bool, now: int, i: nat) {
    forall j: nat :: j < i <= |q| && stuck(j) && q[j].status.Pending? ==> Due(q[j], now)
  }

  lemma {:induction false} StuckAreCounted(q: Queue, stuck: nat -> bool, now: int, i: nat)
    requires i <= |q| && StuckDue(q, stuck, now, i)
    ensures CountStuck(q, stuck, i) <= CountDue(q[..i], now)
    decreases i
  {
    if i != 0 {
      StuckAreCounted(q, stuck, now, i - 1);
      assert q[..i][..i - 1] == q[..i - 1];
    }
  }

  /** A hundred stuck deliveries fill every list, for good. */
  lemma {:induction false} StarvedForGood(q: Queue, stuck: nat -> bool, passes: seq<Pass>, i: nat, k: nat)
    requires i < |q| && AllSound(q, stuck, passes, i) && LISTED <= CountStuck(q, stuck, i)
    requires forall k :: 0 <= k < |passes| ==> StuckDue(q, stuck, passes[k].now, i)
    ensures !ListedIn(q, passes, k, i)
    decreases |passes|
  {
    if k < |passes| {
      if k == 0 {
        StuckAreCounted(q, stuck, passes[0].now, i);
      } else {
        var next := Next(q, passes[0]);
        PassUsesAttempts(q, stuck, passes[0], i);
        PassKeepsAllSound(q, stuck, passes, i);
        assert Sound(q, stuck, passes[0], i);
        forall k | 0 <= k < |passes| - 1
          ensures StuckDue(next, stuck, passes[1..][k].now, i)
        {
          assert StuckDue(q, stuck, passes[k + 1].now, i);
        }
        StarvedForGood(next, stuck, passes[1..], i, k - 1);
        ListedInLater(q, passes, k - 1, i);
      }
    }
  }

  /** Main result on the queue: over enough passes for the attempts left before it, a new delivery is ever
      listed if and only if fewer than a hundred deliveries before it lack an active subscription. */
  lemma ListedIffFewStuck(q: Queue, stuck: nat -> bool, passes: seq<Pass>, i: nat)
    requires i < |q| && q[i] == NEW && AllSound(q, stuck, passes, i) && AttemptsLeft(q, stuck, i) < |passes|
    requires forall k :: 0 <= k < |passes| ==> StuckDue(q, stuck, passes[k].now, i)
    ensures (exists k: nat :: ListedIn(q, passes, k, i)) <==> CountStuck(q, stuck, i) < LISTED
  {
    if CountStuck(q, stuck, i) < LISTED {
      var k := ReachedWithin(q, stuck, passes, i);
    } else {
      forall k: nat ensures !ListedIn(q, passes, k, i) { StarvedForGood(q, stuck, passes, i, k); }
    }
  }

  lemma {:induction false} AllNewAreStuck(q: Queue, stuck: nat -> bool, i: nat)
    requires i <= |q| && forall j: nat :: j < i ==> stuck(j) && q[j] == NEW
    ensures CountStuck(q, stuck, i) == i
    decreases i
  {
    if i != 0 { AllNewAreStuck(q, stuck, i - 1); }
  }

  /** For one, a hundred new deliveries to subscriptions that are gone or deactivated, and one behind them. */
  lemma HundredStarveTheNext(passes: seq<Pass>, k: nat)
    requires forall n :: 0 <= n < |passes| ==> forall j: nat :: j < LISTED ==> !passes[n].attempts(j).Answered?
    ensures !ListedIn(seq(LISTED + 1, j => NEW), passes, k, LISTED)
  {
    var q := seq(LISTED + 1, j => NEW);
    var stuck := (j: nat) => true;
    AllNewAreStuck(q, stuck, LISTED);
    StarvedForGood(q, stuck, passes, LISTED, k);
  }

  // ---- The waits are kept ----

  /** Over any passes a delivery that is pending after `k` attempts is due 2, 4, 8 or 16 seconds after the last. */
  predicate Scheduled(d: State) {
    && (d.status.Pending? ==> d.attempts < 5)
    && (d.status.Pending? && d.attempts == 0 ==> d.nextRetry.None?)
    && (d.status.Pending? && 0 < d.attempts ==>
          d.lastAttempt.Some? && d.nextRetry == Some(d.lastAttempt.value + Backoff(d.attempts) * 1_000_000_000))
  }

  ghost predicate AllScheduled(q: Queue) {
    forall i :: 0 <= i < |q| ==> Scheduled(q[i])
  }

  lemma DispatchKeepsScheduled(d: State, a: Attempt)
    requires Scheduled(d)
    ensures Scheduled(Dispatched(d, a))
  {
    assert Pow2(1) == 2 && Pow2(2) == 4 && Pow2(3) == 8 && Pow2(4) == 16;
  }

  lemma PassKeepsScheduled(q: Queue, p: Pass)
    requires AllScheduled(q) && AllScheduled(p.arrivals)
    ensures AllScheduled(Next(q, p))
  {
    forall i: nat | i < |q| ensures Scheduled(Next(q, p)[i]) { DispatchKeepsScheduled(q[i], p.attempts(i)); }
  }

  ghost predicate ArrivalsNew(passes: seq<Pass>) {
    forall n :: 0 <= n < |passes| ==> forall i :: 0 <= i < |passes[n].arrivals| ==> passes[n].arrivals[i] == NEW
  }

  lemma {:induction false} PassesKeepScheduled(q: Queue, passes: seq<Pass>)
    requires AllScheduled(q) && ArrivalsNew(passes)
    ensures AllScheduled(AfterPasses(q, passes))
    decreases |passes|
  {
    if passes != [] {
      PassKeepsScheduled(q, passes[0]);
      PassesKeepScheduled(Next(q, passes[0]), passes[1..]);
    }
  }

  /** Main result on backoff: from an empty queue over any passes, an attempt on a delivery that had `k` before
      is recorded only by a pass that runs at least 2, 4, 8 or 16 seconds after the last, and by one that does
      and lists it among the first hundred it is. Attempts answered after their pass began are as far apart. */
  lemma WaitsAreKept(passes: seq<Pass>, p: Pass, i: nat)
    requires ArrivalsNew(passes) && i < |AfterPasses([], passes)|
    ensures var d := AfterPasses([], passes)[i];
      var d' := Next(AfterPasses([], passes), p)[i];
      && d.attempts <= d'.attempts <= d.attempts + 1
      && (d.attempts < d'.attempts && 0 < d.attempts ==>
            && d.lastAttempt.Some? && d.lastAttempt.value + Backoff(d.attempts) * 1_000_000_000 <= p.now
            && (p.attempts(i).Answered? && p.now <= p.attempts(i).at ==>
                  d'.lastAttempt.Some? && d.lastAttempt.value + Backoff(d.attempts) * 1_000_000_000 <= d'.lastAttempt.value))
      && (Listed(AfterPasses([], passes), p.now, i) <==>
            && d.status.Pending? && CountDue(AfterPasses([], passes)[..i], p.now) < 100
            && (0 < d.attempts ==> d.lastAttempt.Some? && d.lastAttempt.value + Backoff(d.attempts) * 1_000_000_000 <= p.now))
  {
    PassesKeepScheduled([], passes);
    var q := AfterPasses([], passes);
    assert Scheduled(q[i]) && Next(q, p)[i] == PassedOver(q, p.now, p.attempts, i);
  }
}
