/** How far apart rejected payments must be when several are in flight at once, on the step machine of the
    breaker: threads ask, are let through, and record how their payment went in any order. */
module ConcurrentRejections {
  import opened Runs
  import opened CircuitBreaker

  /** The payments let through and not yet recorded. */
  function InFlight(log: seq<Event>): int {
    if log == [] then 0
    else
      var rest := InFlight(log[..|log| - 1]);
      match log[|log| - 1]
      case Answered(_, ok, _) => if ok then rest + 1 else rest
      case Succeeded => rest - 1
      case Failed(_) => rest - 1
      case _ => rest
  }

  function FailureTimes(log: seq<Event>): seq<int> {
    if log == [] then []
    else
      var rest := FailureTimes(log[..|log| - 1]);
      match log[|log| - 1]
      case Failed(at) => rest + [at]
      case _ => rest
  }

  /** How often the breaker half-opened after the first failure. */
  function HalfOpenings(log: seq<Event>): nat {
    if log == [] then 0
    else
      var rest := log[..|log| - 1];
      HalfOpenings(rest) + if log[|log| - 1].HalfOpened? && FailureTimes(rest) != [] then 1 else 0
  }

  predicate Quiet(log: seq<Event>) {
    forall i :: 0 <= i < |log| ==> !log[i].Succeeded? && !log[i].WasReset?
  }

  /** What was logged in `t` since `s`. */
  function Since(s: System, t: System): seq<Event> {
    if |s.log| <= |t.log| then t.log[|s.log|..] else []
  }

  /** The rejections `m` open periods have room for. */
  function Slots(c: nat, m: nat): (n: nat)
    decreases m
  {
    if m == 0 then 0 else Slots(c, m - 1) + c
  }

  lemma {:induction false} SlotsProduct(c: nat, m: nat)
    ensures Slots(c, m) == c * m
    decreases m
  {
    if m != 0 {
      SlotsProduct(c, m - 1);
      assert c * m == c * (m - 1) + c;
    }
  }

  lemma {:induction false} SlotsGrow(c: nat, k: nat, m: nat)
    requires k <= m
    ensures Slots(c, k) <= Slots(c, m)
    decreases m
  {
    if k < m { SlotsGrow(c, k, m - 1); }
  }

  /** What `f` failures in `recent`, with `m` half-openings among them, say about the breaker: each open period
      took at most `c` of them, and each half-opening came more than an open period after the failure before. */
  ghost predicate Paced(s: System, recent: seq<Event>, c: nat) {
    var times, m := FailureTimes(recent), HalfOpenings(recent);
    && (times == [] ==> m == 0)
    && (times != [] ==> times[0] <= s.cb.lastFailure == times[|times| - 1] <= s.now)
    && match s.cb.phase
       case Closed => |times| <= s.cb.failures && m == 0
       case Open =>
         && |times| + InFlight(s.log) <= 4 + Slots(c, m + 1)
         && (times != [] ==> OPEN_DURATION * m <= s.cb.lastFailure - times[0])
         && (0 < m ==> OPEN_DURATION * m < s.cb.lastFailure - times[0])
       case HalfOpen =>
         && |times| <= 4 + Slots(c, m)
         && (times != [] ==> 0 < m && OPEN_DURATION * m < s.now - times[0])
         && (1 < m ==> OPEN_DURATION * (m - 1) < s.cb.lastFailure - times[0])
  }

  lemma LoggedCounts(log: seq<Event>, e: Event)
    ensures InFlight(log + [e]) == InFlight(log) + match e
      case Answered(_, ok, _) => if ok then 1 else 0
      case Succeeded => -1
      case Failed(_) => -1
      case _ => 0
    ensures FailureTimes(log + [e]) == if e.Failed? then FailureTimes(log) + [e.at] else FailureTimes(log)
    ensures HalfOpenings(log + [e]) == HalfOpenings(log) + if e.HalfOpened? && FailureTimes(log) != [] then 1 else 0
  {
    assert (log + [e])[..|log|] == log;
  }

  lemma FailureStaysPaced(s: System, recent: seq<Event>, c: nat)
    requires Inv(s) && Paced(s, recent, c) && InFlight(s.log) <= c
    ensures Paced(Logged(s.(cb := OnFailure(s.cb, s.now)), Failed(s.now)), recent + [Failed(s.now)], c)
  {
    LoggedCounts(s.log, Failed(s.now));
    LoggedCounts(recent, Failed(s.now));
    assert Slots(c, HalfOpenings(recent) + 1) == Slots(c, HalfOpenings(recent)) + c;
  }

  lemma HalfOpeningStaysPaced(s: System, s': System, recent: seq<Event>, c: nat)
    requires Paced(s, recent, c) && 0 <= InFlight(s.log) && s.cb.phase.Open? && Expired(s.cb, s.now)
    requires s'.cb == TryHalfOpen(s.cb, s.now) && s'.now == s.now && s'.log == s.log + [HalfOpened(s.now)]
    ensures Paced(s', recent + [HalfOpened(s.now)], c)
  {
    LoggedCounts(recent, HalfOpened(s.now));
    var m := HalfOpenings(recent);
    assert OPEN_DURATION * (m + 1) == OPEN_DURATION * m + OPEN_DURATION;
  }

  lemma AnswerStaysPaced(s: System, t: nat, ok: bool, recent: seq<Event>, c: nat)
    requires Paced(s, recent, c) && (ok ==> !s.cb.phase.Open?)
    ensures Paced(Answer(s, t, ok), recent + [Answered(t, ok, s.cb.phase)], c)
  {
    LoggedCounts(s.log, Answered(t, ok, s.cb.phase));
    LoggedCounts(recent, Answered(t, ok, s.cb.phase));
  }

  lemma StepStaysPaced(s: System, a: Action, recent: seq<Event>, c: nat)
    requires Inv(s) && Paced(s, recent, c) && 0 <= InFlight(s.log) <= c
    requires s.log <= Step(s, a).log && Quiet(Step(s, a).log[|s.log|..])
    ensures Paced(Step(s, a), recent + Step(s, a).log[|s.log|..], c)
  {
    var s' := Step(s, a);
    if s'.log == s.log {
      assert recent + s'.log[|s.log|..] == recent && s'.cb == s.cb && s.now <= s'.now;
    } else {
      var e := s'.log[|s.log|];
      assert s'.log == s.log + [e] && s'.log[|s.log|..] == [e];
      match a
      case AllowRead(t) => AnswerStaysPaced(s, t, e.ok, recent, c);
      case AllowWrite(t) => HalfOpeningStaysPaced(s, s', recent, c);
      case AllowReread(t) => AnswerStaysPaced(s, t, e.ok, recent, c);
      case Failure(_) => FailureStaysPaced(s, recent, c);
      case _ =>
    }
  }

  lemma QuietParts(before: seq<Event>, more: seq<Event>)
    requires Quiet(before + more)
    ensures Quiet(before) && Quiet(more)
  {
    var all := before + more;
    assert forall i :: 0 <= i < |before| ==> before[i] == all[i];
    assert forall i :: 0 <= i < |more| ==> more[i] == all[|before| + i];
  }

  lemma LogGrows(s: System, a: Action)
    ensures s.log <= Step(s, a).log
  {
  }

  /** At most `c` payments are in flight at any point of the run, and none is recorded that was not let through. */
  ghost predicate AtMostInFlight(s: System, actions: seq<Action>, c: nat) {
    forall n: nat :: n <= |actions| ==> 0 <= InFlight(Along(Step, s, actions, n).log) <= c
  }

  ghost predicate PacedSince(s: System, t: System, c: nat) {
    Inv(t) && s.log <= t.log && Paced(t, Since(s, t), c)
  }

  lemma SinceGrows(s: System, t: System, a: Action)
    requires s.log <= t.log
    ensures t.log <= Step(t, a).log && Since(s, Step(t, a)) == Since(s, t) + Step(t, a).log[|t.log|..]
  {
    LogGrows(t, a);
  }

  lemma StepPacedSince(s: System, t: System, a: Action, c: nat)
    requires PacedSince(s, t, c) && 0 <= InFlight(t.log) <= c && Quiet(Since(s, Step(t, a)))
    ensures PacedSince(s, Step(t, a), c)
  {
    SinceGrows(s, t, a);
    QuietParts(Since(s, t), Step(t, a).log[|t.log|..]);
    StepStaysPaced(t, a, Since(s, t), c);
    StepKeepsInv(t, a);
  }

  lemma {:induction false} RunsStayPaced(s: System, actions: seq<Action>, c: nat, n: nat)
    requires Inv(s) && AtMostInFlight(s, actions, c) && n <= |actions|
    requires Quiet(Since(s, Along(Step, s, actions, n)))
    ensures PacedSince(s, Along(Step, s, actions, n), c)
    decreases n
  {
    if n == 0 {
      assert Along(Step, s, actions, 0) == s && Since(s, s) == [];
    } else {
      var t := Along(Step, s, actions, n - 1);
      AlongStep(Step, s, actions, n - 1);
      LogsGrow(s, actions, n - 1);
      SinceGrows(s, t, actions[n - 1]);
      QuietParts(Since(s, t), Step(t, actions[n - 1]).log[|t.log|..]);
      RunsStayPaced(s, actions, c, n - 1);
      StepPacedSince(s, t, actions[n - 1], c);
    }
  }

  lemma {:induction false} LogsGrow(s: System, actions: seq<Action>, n: nat)
    requires n <= |actions|
    ensures s.log <= Along(Step, s, actions, n).log
    decreases n
  {
    if n == 0 {
      assert Along(Step, s, actions, 0) == s;
    } else {
      LogsGrow(s, actions, n - 1);
      AlongStep(Step, s, actions, n - 1);
      LogGrows(Along(Step, s, actions, n - 1), actions[n - 1]);
    }
  }

  /** Main result on rejections with `c` payments in flight: from any state any interleaving reaches, over any
      run without success or reset, the open periods see at most `c` rejections each besides the four a closed
      breaker takes; and more than 4 + c m rejections span more than 30 m seconds. With c = 1 that is the
      spacing of payments routed one at a time. */
  lemma RejectionsInFlightAreSpaced(now: int, past: seq<Action>, actions: seq<Action>, c: nat, m: nat)
    requires AtMostInFlight(Exec(Step, Start(now), past), actions, c)
    requires var s := Exec(Step, Start(now), past); Quiet(Since(s, Exec(Step, s, actions)))
    ensures var s := Exec(Step, Start(now), past);
      var recent := Since(s, Exec(Step, s, actions));
      var times := FailureTimes(recent);
      && |times| <= 4 + c * (HalfOpenings(recent) + 1)
      && (0 < m && 4 + c * m < |times| ==> 30_000_000_000 * m < times[|times| - 1] - times[0])
  {
    ReachableInv(now, past);
    var s := Exec(Step, Start(now), past);
    SpacedFrom(s, actions, c, m);
    SlotsProduct(c, m);
    SlotsProduct(c, HalfOpenings(Since(s, Exec(Step, s, actions))) + 1);
  }

  ghost predicate Spaced(log: seq<Event>, c: nat, m: nat) {
    var times := FailureTimes(log);
    && |times| <= 4 + Slots(c, HalfOpenings(log) + 1)
    && (0 < m && 4 + Slots(c, m) < |times| ==> OPEN_DURATION * m < times[|times| - 1] - times[0])
  }

  lemma SpacedFrom(s: System, actions: seq<Action>, c: nat, m: nat)
    requires Inv(s) && AtMostInFlight(s, actions, c) && Quiet(Since(s, Exec(Step, s, actions)))
    ensures Spaced(Since(s, Exec(Step, s, actions)), c, m)
  {
    var t := Along(Step, s, actions, |actions|);
    assert t == Exec(Step, s, actions) by { assert actions[..|actions|] == actions; }
    assert 0 <= InFlight(t.log);
    RunsStayPaced(s, actions, c, |actions|);
    PacedIsSpaced(t, Since(s, t), c, m);
  }

  lemma PacedIsSpaced(s: System, recent: seq<Event>, c: nat, m: nat)
    requires Inv(s) && Paced(s, recent, c) && 0 <= InFlight(s.log)
    ensures Spaced(recent, c, m)
  {
    var k := HalfOpenings(recent);
    SlotsGrow(c, k, k + 1);
    if k + 1 <= m { SlotsGrow(c, k + 1, m); }
    if k <= m { SlotsGrow(c, k, m); }
  }
}
