/** The three-state circuit breaker: its methods under the lock, and every interleaving
    of threads through the gap in which `Allow` gives up its read lock for a write lock. */
module CircuitBreaker {
  import opened Options
  import opened Runs

  // Durations are nanoseconds, as in Go.
  const OPEN_DURATION: nat := 30_000_000_000
  const FAILURE_THRESHOLD: nat := 5

  datatype Phase = Closed | Open | HalfOpen

  /** The fields guarded by the mutex. */
  datatype Status = Status(phase: Phase, failures: nat, lastFailure: int)

  const FRESH := Status(Closed, 0, 0)

  predicate Expired(s: Status, now: int) {
    now - s.lastFailure > OPEN_DURATION
  }

  // The four write-locked sections.

  function TryHalfOpen(s: Status, now: int): Status {
    if s.phase.Open? && Expired(s, now) then s.(phase := HalfOpen, failures := 0) else s
  }

  function OnSuccess(s: Status): Status {
    match s.phase
    case HalfOpen => s.(phase := Closed, failures := 0)
    case Closed => s.(failures := 0)
    case Open => s
  }

  function OnFailure(s: Status, now: int): Status {
    var t := s.(failures := s.failures + 1, lastFailure := now);
    match s.phase
    case Closed => if t.failures >= FAILURE_THRESHOLD then t.(phase := Open) else t
    case HalfOpen => t.(phase := Open)
    case Open => t
  }

  function OnReset(s: Status): Status {
    s.(phase := Closed, failures := 0)
  }

  /** A breaker used by one caller at a time. Each method takes the clock readings it makes. */
  class Breaker {
    var phase: Phase
    var failures: nat
    var lastFailureTime: int

    function Current(): Status
      reads this
    {
      Status(phase, failures, lastFailureTime)
    }

    constructor ()
      ensures Current() == FRESH
    {
      phase, failures, lastFailureTime := Closed, 0, 0;
    }

    /** `readAt` and `writeAt` are the clock readings under the read lock and the write lock. */
    method Allow(readAt: int, writeAt: int) returns (ok: bool)
      requires readAt <= writeAt
      modifies this
      ensures ok <==> !old(phase).Open? || Expired(old(Current()), readAt)
      ensures old(phase).Open? && ok ==> phase.HalfOpen? && failures == 0
      ensures !(old(phase).Open? && ok) ==> phase == old(phase) && failures == old(failures)
      ensures lastFailureTime == old(lastFailureTime)
    {
      match phase
      case Closed =>
        ok := true;
      case Open =>
        if readAt - lastFailureTime > OPEN_DURATION {
          if phase.Open? && writeAt - lastFailureTime > OPEN_DURATION {
            phase := HalfOpen;
            failures := 0;
          }
          ok := phase.HalfOpen?;
        } else {
          ok := false;
        }
      case HalfOpen =>
        ok := true;
    }

    method RecordSuccess()
      modifies this
      ensures Current() == OnSuccess(old(Current()))
      ensures old(phase).Open? ==> Current() == old(Current())
      ensures !old(phase).Open? ==> phase.Closed? && failures == 0 && lastFailureTime == old(lastFailureTime)
    {
      match phase
      case HalfOpen =>
        phase := Closed;
        failures := 0;
      case Closed =>
        failures := 0;
      case Open =>
    }

    method RecordFailure(now: int)
      modifies this
      ensures Current() == OnFailure(old(Current()), now)
      ensures failures == old(failures) + 1 && lastFailureTime == now
      ensures phase == if old(phase).Closed? && failures < 5 then Closed else Open
    {
      failures := failures + 1;
      lastFailureTime := now;
      match phase
      case Closed =>
        if failures >= FAILURE_THRESHOLD {
          phase := Open;
        }
      case HalfOpen =>
        phase := Open;
      case Open =>
    }

    method Reset()
      modifies this
      ensures Current() == OnReset(old(Current()))
      ensures phase.Closed? && failures == 0 && lastFailureTime == old(lastFailureTime)
    {
      phase := Closed;
      failures := 0;
    }
  }

  // ---- Threads interleaving at lock boundaries ----

  /** Where a thread stands inside `Allow`. */
  datatype Pc = Idle | WantsWriteLock | WantsReread

  /** What happened, in lock order. */
  datatype Event =
    | Succeeded
    | Failed(at: int)
    | WasReset
    | HalfOpened(at: int)
    | Answered(thread: nat, ok: bool, seen: Phase)

  datatype System = System(cb: Status, now: int, threads: map<nat, Pc>, log: seq<Event>)

  datatype Action =
    | Tick(elapsed: nat)
    | AllowRead(thread: nat)
    | AllowWrite(thread: nat)
    | AllowReread(thread: nat)
    | Success(thread: nat)
    | Failure(thread: nat)
    | Reset(thread: nat)

  function PcOf(s: System, thread: nat): Pc {
    if thread in s.threads then s.threads[thread] else Idle
  }

  function Logged(s: System, e: Event): System {
    s.(log := s.log + [e])
  }

  function Answer(s: System, thread: nat, ok: bool): System {
    Logged(s.(threads := s.threads[thread := Idle]), Answered(thread, ok, s.cb.phase))
  }

  /** One atomic step; a thread that is elsewhere in its code makes the step a no-op. */
  function Step(s: System, a: Action): System {
    match a
    case Tick(d) => s.(now := s.now + d)
    case AllowRead(t) =>
      if PcOf(s, t) != Idle then s
      else if !s.cb.phase.Open? then Answer(s, t, true)
      else if Expired(s.cb, s.now) then s.(threads := s.threads[t := WantsWriteLock])
      else Answer(s, t, false)
    case AllowWrite(t) =>
      if PcOf(s, t) != WantsWriteLock then s
      else
        var cb := TryHalfOpen(s.cb, s.now);
        var next := s.(cb := cb, threads := s.threads[t := WantsReread]);
        if cb == s.cb then next else Logged(next, HalfOpened(s.now))
    case AllowReread(t) =>
      if PcOf(s, t) != WantsReread then s else Answer(s, t, s.cb.phase.HalfOpen?)
    case Success(t) =>
      if PcOf(s, t) != Idle then s else Logged(s.(cb := OnSuccess(s.cb)), Succeeded)
    case Failure(t) =>
      if PcOf(s, t) != Idle then s else Logged(s.(cb := OnFailure(s.cb, s.now)), Failed(s.now))
    case Reset(t) =>
      if PcOf(s, t) != Idle then s else Logged(s.(cb := OnReset(s.cb)), WasReset)
  }

  function Start(now: int): System {
    System(FRESH, now, map[], [])
  }

  /** A thread nobody interrupts gets from `Allow` what the method promises, and leaves the breaker alike. */
  lemma UninterruptedAllow(s: System, t: nat, elapsed: nat)
    requires PcOf(s, t) == Idle
    ensures var s' := Step(Step(Step(Step(s, AllowRead(t)), Tick(elapsed)), AllowWrite(t)), AllowReread(t));
      var ok := !s.cb.phase.Open? || Expired(s.cb, s.now);
      && s'.cb == (if s.cb.phase.Open? && ok then s.cb.(phase := HalfOpen, failures := 0) else s.cb)
      && PcOf(s', t) == Idle
      && 0 < |s'.log| && s'.log[|s'.log| - 1] == Answered(t, ok, s'.cb.phase)
  {
    var s1 := Step(Step(s, AllowRead(t)), Tick(elapsed));
    if s.cb.phase.Open? && Expired(s.cb, s.now) {
      assert PcOf(s1, t) == WantsWriteLock;
    } else {
      assert PcOf(s1, t) == Idle;
    }
  }

  /** Failures recorded since the last success, reset or creation. */
  function FailuresSince(log: seq<Event>): nat {
    if log == [] then 0
    else
      var rest := FailuresSince(log[..|log| - 1]);
      match log[|log| - 1]
      case Succeeded => 0
      case WasReset => 0
      case Failed(_) => rest + 1
      case _ => rest
  }

  function LastFailure(log: seq<Event>): Option<int> {
    if log == [] then None
    else
      match log[|log| - 1]
      case Failed(at) => Some(at)
      case _ => LastFailure(log[..|log| - 1])
  }

  ghost predicate Inv(s: System) {
    && (s.cb.phase.Closed? ==> s.cb.failures < FAILURE_THRESHOLD && s.cb.failures == FailuresSince(s.log))
    && (s.cb.phase.HalfOpen? ==> s.cb.failures == 0)
    && (s.cb.phase.Open? ==> LastFailure(s.log) == Some(s.cb.lastFailure))
    && EventsJustified(s.log)
  }

  /** Every half-opening came more than the open duration after the last failure before it,
      every positive answer was read in Closed or HalfOpen, and no negative one in HalfOpen. */
  ghost predicate EventsJustified(log: seq<Event>) {
    forall i :: 0 <= i < |log| ==> Justified(log[..i], log[i])
  }

  ghost predicate Justified(before: seq<Event>, e: Event) {
    match e
    case HalfOpened(at) =>
      LastFailure(before).Some? && at - LastFailure(before).value > OPEN_DURATION
    case Answered(_, ok, seen) => if ok then !seen.Open? else !seen.HalfOpen?
    case _ => true
  }

  lemma JustifiedExtends(log: seq<Event>, e: Event)
    requires EventsJustified(log) && Justified(log, e)
    ensures EventsJustified(log + [e])
  {
    var next := log + [e];
    forall i | 0 <= i < |next|
      ensures Justified(next[..i], next[i])
    {
      assert next[..i] == log[..i];
      if i == |log| { assert log[..i] == log; }
    }
  }

  /** A step that leaves the breaker alone and logs at most a justified answer. */
  lemma AnswerKeepsInv(s: System, t: nat, ok: bool)
    requires Inv(s) && Justified(s.log, Answered(t, ok, s.cb.phase))
    ensures Inv(Answer(s, t, ok))
  {
    var s' := Answer(s, t, ok);
    assert s'.log[..|s.log|] == s.log;
    JustifiedExtends(s.log, Answered(t, ok, s.cb.phase));
  }

  /** A step that changes the breaker and logs the event that did it. */
  lemma RecordKeepsInv(s: System, cb: Status, e: Event)
    requires Inv(s)
    requires || (e == Succeeded && cb == OnSuccess(s.cb))
             || (e == Failed(s.now) && cb == OnFailure(s.cb, s.now))
             || (e == WasReset && cb == OnReset(s.cb))
             || (e == HalfOpened(s.now) && cb == TryHalfOpen(s.cb, s.now) && cb != s.cb)
    ensures Inv(Logged(s.(cb := cb), e))
  {
    var s' := Logged(s.(cb := cb), e);
    assert s'.log[..|s.log|] == s.log;
    JustifiedExtends(s.log, e);
  }

  /** The threads' positions and the clock do not matter. */
  lemma SameBreakerKeepsInv(s: System, s': System)
    requires Inv(s) && s'.cb == s.cb && s'.log == s.log
    ensures Inv(s')
  {
  }

  lemma AllowWriteKeepsInv(s: System, t: nat)
    requires Inv(s) && PcOf(s, t) == WantsWriteLock
    ensures Inv(Step(s, AllowWrite(t)))
  {
    var cb := TryHalfOpen(s.cb, s.now);
    if cb == s.cb {
      SameBreakerKeepsInv(s, Step(s, AllowWrite(t)));
    } else {
      RecordKeepsInv(s, cb, HalfOpened(s.now));
      SameBreakerKeepsInv(Logged(s.(cb := cb), HalfOpened(s.now)), Step(s, AllowWrite(t)));
    }
  }

  lemma AllowReadKeepsInv(s: System, t: nat)
    requires Inv(s) && PcOf(s, t) == Idle
    ensures Inv(Step(s, AllowRead(t)))
  {
    if s.cb.phase.Open? && Expired(s.cb, s.now) {
      SameBreakerKeepsInv(s, Step(s, AllowRead(t)));
    } else {
      AnswerKeepsInv(s, t, !s.cb.phase.Open?);
    }
  }

  lemma OutcomeKeepsInv(s: System, a: Action)
    requires Inv(s) && (a.Success? || a.Failure? || a.Reset?) && PcOf(s, a.thread) == Idle
    ensures Inv(Step(s, a))
  {
    match a
    case Success(_) => RecordKeepsInv(s, OnSuccess(s.cb), Succeeded);
    case Failure(_) => RecordKeepsInv(s, OnFailure(s.cb, s.now), Failed(s.now));
    case Reset(_) => RecordKeepsInv(s, OnReset(s.cb), WasReset);
  }

  lemma StepKeepsInv(s: System, a: Action)
    requires Inv(s)
    ensures Inv(Step(s, a))
  {
    if Step(s, a) != s {
      match a
      case Tick(_) => SameBreakerKeepsInv(s, Step(s, a));
      case AllowRead(t) => AllowReadKeepsInv(s, t);
      case AllowWrite(t) => AllowWriteKeepsInv(s, t);
      case AllowReread(t) => AnswerKeepsInv(s, t, s.cb.phase.HalfOpen?);
      case _ => OutcomeKeepsInv(s, a);
    }
  }

  lemma ReachableInv(now: int, actions: seq<Action>)
    ensures Inv(Exec(Step, Start(now), actions))
  {
    forall s, a | Inv(s) ensures Inv(Step(s, a)) { StepKeepsInv(s, a); }
    ExecKeeps(Step, Inv, Start(now), actions);
  }

  /** Main result on the breaker: over every interleaving, starting at any time. */
  lemma BreakerSafety(now: int, actions: seq<Action>)
    ensures var s := Exec(Step, Start(now), actions);
      && (s.cb.phase.Closed? ==> s.cb.failures < FAILURE_THRESHOLD && s.cb.failures == FailuresSince(s.log))
      && (s.cb.phase.HalfOpen? ==> s.cb.failures == 0)
      && (s.cb.phase.Open? ==> LastFailure(s.log) == Some(s.cb.lastFailure))
      && forall i :: 0 <= i < |s.log| ==> Justified(s.log[..i], s.log[i])
  {
    ReachableInv(now, actions);
  }

  // ---- What moves the phase ----

  /** `a` is taken by a thread that is not inside `Allow`. */
  predicate Outside(s: System, a: Action) {
    !a.Tick? && PcOf(s, a.thread) == Idle
  }

  /** A thread gets the write lock more than 30 s after the last failure. */
  predicate Probes(s: System, a: Action) {
    a.AllowWrite? && PcOf(s, a.thread) == WantsWriteLock && s.now - s.cb.lastFailure > 30_000_000_000
  }

  /** An open breaker stays open until such a thread half-opens it, and says so in the log, or it is reset;
      a half-open one until an outcome is recorded or it is reset; a closed one until the fifth failure. */
  lemma PhaseMoves(s: System, a: Action)
    ensures var s' := Step(s, a);
      && (s.cb.phase.Open? ==>
            && (s'.cb.phase.HalfOpen? <==> Probes(s, a))
            && (s'.cb.phase.HalfOpen? ==> s'.log == s.log + [HalfOpened(s.now)])
            && (s'.cb.phase.Closed? <==> a.Reset? && Outside(s, a)))
      && (s.cb.phase.HalfOpen? ==>
            && (s'.cb.phase.Open? <==> a.Failure? && Outside(s, a))
            && (s'.cb.phase.Closed? <==> (a.Success? || a.Reset?) && Outside(s, a)))
      && (s.cb.phase.Closed? ==>
            && (s'.cb.phase.Open? <==> a.Failure? && Outside(s, a) && s.cb.failures + 1 >= 5)
            && !s'.cb.phase.HalfOpen?)
  {
  }

  /** The last event that is not an answer. */
  function LastChange(log: seq<Event>): Option<Event> {
    if log == [] then None
    else if log[|log| - 1].Answered? then LastChange(log[..|log| - 1])
    else Some(log[|log| - 1])
  }

  /** What the log says of the phase. */
  ghost predicate PhaseIsLogged(s: System) {
    match LastChange(s.log)
    case None => s.cb.phase.Closed?
    case Some(HalfOpened(_)) => s.cb.phase.HalfOpen?
    case Some(WasReset) => s.cb.phase.Closed?
    case Some(_) => !s.cb.phase.HalfOpen?
  }

  lemma StepKeepsPhaseLogged(s: System, a: Action)
    requires PhaseIsLogged(s)
    ensures PhaseIsLogged(Step(s, a))
  {
    var s' := Step(s, a);
    if s'.log != s.log {
      assert s'.log[..|s.log|] == s.log;
    }
  }

  /** Main result on half-opening: over every interleaving the breaker is half-open exactly when the last thing
      that happened to it, answers aside, is a half-opening; and that came more than 30 s after the last failure. */
  lemma HalfOpenIffLogged(now: int, actions: seq<Action>)
    ensures var s := Exec(Step, Start(now), actions);
      && (s.cb.phase.HalfOpen? <==> LastChange(s.log).Some? && LastChange(s.log).value.HalfOpened?)
      && (s.cb.phase.HalfOpen? ==>
            LastFailure(s.log).Some? && LastChange(s.log).value.at - LastFailure(s.log).value > 30_000_000_000)
  {
    var s := Exec(Step, Start(now), actions);
    forall s, a | PhaseIsLogged(s) ensures PhaseIsLogged(Step(s, a)) { StepKeepsPhaseLogged(s, a); }
    ExecKeeps(Step, PhaseIsLogged, Start(now), actions);
    ReachableInv(now, actions);
    if s.cb.phase.HalfOpen? { LastHalfOpening(s.log); }
  }

  lemma {:induction false} LastHalfOpening(log: seq<Event>)
    requires EventsJustified(log) && LastChange(log).Some? && LastChange(log).value.HalfOpened?
    ensures LastFailure(log).Some? && LastChange(log).value.at - LastFailure(log).value > OPEN_DURATION
  {
    var rest, e := log[..|log| - 1], log[|log| - 1];
    assert forall i :: 0 <= i < |rest| ==> rest[..i] == log[..i];
    assert Justified(rest, e);
    if e.Answered? { LastHalfOpening(rest); }
  }

  /** A denial is not always an open breaker: the reread answers false in Closed as well.
      That is the only way a caller is turned away while the breaker is Closed. */
  lemma DeniedWhileClosed(s: System, a: Action)
    ensures (exists t :: Step(s, a).log == s.log + [Answered(t, false, Closed)])
       <==> a.AllowReread? && PcOf(s, a.thread) == WantsReread && s.cb.phase.Closed?
  {
    if a.AllowReread? && PcOf(s, a.thread) == WantsReread && s.cb.phase.Closed? {
      assert Step(s, a).log == s.log + [Answered(a.thread, false, Closed)];
    }
    if t :| Step(s, a).log == s.log + [Answered(t, false, Closed)] {
      assert Step(s, a).log[|s.log|] == Answered(t, false, Closed);
    }
  }

  /** A reset, or a success while half-open. */
  predicate Closes(s: System, a: Action) {
    (a.Reset? || (a.Success? && s.cb.phase.HalfOpen?)) && PcOf(s, a.thread) == Idle
  }

  /** The fifth failure in a row. */
  predicate Trips(s: System, a: Action) {
    a.Failure? && PcOf(s, a.thread) == Idle && s.cb.failures + 1 >= FAILURE_THRESHOLD
  }

  lemma ClosedStep(s: System, a: Action)
    ensures Step(s, a).cb.phase.Closed? <==> Closes(s, a) || (s.cb.phase.Closed? && !Trips(s, a))
  {
  }

  ghost function State(now: int, actions: seq<Action>, i: nat): System
    requires i <= |actions|
  {
    Along(Step, Start(now), actions, i)
  }

  /** Of the actions from `i` up to `k` one closes the breaker, and none after it is a fifth failure. */
  ghost predicate ClosedBetween(now: int, actions: seq<Action>, i: nat, k: nat)
    requires k <= |actions|
  {
    exists m: nat :: i <= m < k && Closes(State(now, actions, m), actions[m])
      && forall n: nat :: m < n < k ==> !Trips(State(now, actions, n), actions[n])
  }

  lemma OneMoreBetween(now: int, actions: seq<Action>, i: nat, k: nat)
    requires i <= k < |actions|
    ensures var s := State(now, actions, k);
      ClosedBetween(now, actions, i, k + 1) <==>
        Closes(s, actions[k]) || (ClosedBetween(now, actions, i, k) && !Trips(s, actions[k]))
  {
    if ClosedBetween(now, actions, i, k + 1) {
      var m: nat :| i <= m < k + 1 && Closes(State(now, actions, m), actions[m])
        && forall n: nat :: m < n < k + 1 ==> !Trips(State(now, actions, n), actions[n]);
      if m < k { assert !Trips(State(now, actions, k), actions[k]); }
    }
  }

  lemma {:induction false} ClosedIffClosedBetween(now: int, actions: seq<Action>, i: nat, k: nat)
    requires i <= k <= |actions| && !State(now, actions, i).cb.phase.Closed?
    ensures State(now, actions, k).cb.phase.Closed? <==> ClosedBetween(now, actions, i, k)
    decreases k
  {
    if i < k {
      ClosedIffClosedBetween(now, actions, i, k - 1);
      AlongStep(Step, Start(now), actions, k - 1);
      ClosedStep(State(now, actions, k - 1), actions[k - 1]);
      OneMoreBetween(now, actions, i, k - 1);
    }
  }

  /** What turns a caller away while the breaker is closed: over every run, a thread that found the breaker
      open with action `i` and rereads with action `k` is denied in Closed if and only if in between somebody
      reset the breaker or succeeded in half-open, and after that no five failures in a row followed. */
  lemma DeniedWhileClosedIff(now: int, actions: seq<Action>, i: nat, k: nat)
    requires i < k < |actions| && actions[i].AllowRead? && State(now, actions, i).cb.phase.Open?
    requires actions[k] == AllowReread(actions[i].thread)
    requires PcOf(State(now, actions, k), actions[i].thread) == WantsReread
    ensures State(now, actions, k + 1).log == State(now, actions, k).log + [Answered(actions[i].thread, false, Closed)]
       <==> ClosedBetween(now, actions, i, k)
  {
    ClosedIffClosedBetween(now, actions, i, k);
    AlongStep(Step, Start(now), actions, k);
    var s, t := State(now, actions, k), actions[i].thread;
    assert State(now, actions, k + 1).log == s.log + [Answered(t, s.cb.phase.HalfOpen?, s.cb.phase)];
    assert s.log + [Answered(t, false, Closed)] == s.log + [Answered(t, s.cb.phase.HalfOpen?, s.cb.phase)]
      ==> (s.log + [Answered(t, false, Closed)])[|s.log|] == Answered(t, s.cb.phase.HalfOpen?, s.cb.phase);
  }

  /** It happens: `t` half-opens the breaker, and before it rereads `u` is admitted and succeeds. */
  lemma DeniedWhileClosedHappens(now: int, t: nat, u: nat) returns (s: System)
    requires t != u
    ensures Reaches(Step, Start(now), s) && Answered(t, false, Closed) in s.log
  {
    var s0 := Start(now);
    var s1 := Fail(s0, s0, t);
    var s2 := Fail(s0, s1, t);
    var s3 := Fail(s0, s2, t);
    var s4 := Fail(s0, s3, t);
    var s5 := Fail(s0, s4, t);
    assert s5.cb == Status(Open, 5, now);
    s := Race(s0, s5, t, u);
  }

  lemma Fail(s0: System, s: System, t: nat) returns (s': System)
    requires Reaches(Step, s0, s) && PcOf(s, t) == Idle
    ensures Reaches(Step, s0, s') && s' == Logged(s.(cb := OnFailure(s.cb, s.now)), Failed(s.now))
  {
    Onward(Step, s0, s, Failure(t));
    s' := Step(s, Failure(t));
  }

  lemma Race(s0: System, s: System, t: nat, u: nat) returns (s': System)
    requires Reaches(Step, s0, s) && t != u && PcOf(s, t) == Idle && PcOf(s, u) == Idle
    requires s.cb.phase.Open? && s.cb.lastFailure == s.now
    ensures Reaches(Step, s0, s') && Answered(t, false, Closed) in s'.log
  {
    Onward(Step, s0, s, Tick(OPEN_DURATION + 1));
    var s1 := Step(s, Tick(OPEN_DURATION + 1));
    Onward(Step, s0, s1, AllowRead(t));
    var s2 := Step(s1, AllowRead(t));
    Onward(Step, s0, s2, AllowWrite(t));
    var s3 := Step(s2, AllowWrite(t));
    assert s3.cb.phase.HalfOpen? && PcOf(s3, t) == WantsReread && PcOf(s3, u) == Idle;
    Onward(Step, s0, s3, AllowRead(u));
    var s4 := Step(s3, AllowRead(u));
    Onward(Step, s0, s4, Success(u));
    var s5 := Step(s4, Success(u));
    Onward(Step, s0, s5, AllowReread(t));
    s' := Step(s5, AllowReread(t));
    assert s'.log[|s5.log|] == Answered(t, false, Closed);
  }
}
