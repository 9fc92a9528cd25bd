/** StartSaga, the executor goroutines and CancelSaga interleaving over one engine and a repository
    that hands out the saga objects themselves. */
module SagaInterleaving {
  import opened Options
  import opened Runs

  type SagaId = nat
  /** Names one StartSaga call: its saga object, its context and its executor. */
  type RunId = nat

  datatype Status = Running | Compensating | Completed | Failed | Cancelled

  /** Where a run stands: saved, registered, then in the executor until its entry is deleted. */
  datatype Pc =
    | Saved
    | Registered
    | AtCheck(i: nat)
    | Passed(i: nat)
    | Executing(i: nat)
    | Undoing(left: nat)
    | Closing
    | Finished

  /** `late` counts the Execute calls started after the run's context was cancelled. */
  datatype Run = Run(saga: SagaId, steps: nat, pc: Pc, status: Status, completed: nat, late: nat)

  /** A CancelSaga call: looked up, fired, and holding the saga object it read. */
  datatype CancelPc = LookedUp(saga: SagaId, found: Option<RunId>) | Fired(saga: SagaId) | Holding(run: RunId) | Returned

  datatype System = System(
    runs: map<RunId, Run>,
    running: map<SagaId, RunId>,
    done: set<RunId>,
    repo: map<SagaId, RunId>,
    cancels: map<nat, CancelPc>)

  datatype Action =
    | SaveSaga(run: RunId, saga: SagaId, steps: nat)
    | Register(run: RunId)
    | Launch(run: RunId)
    | Check(run: RunId)
    | Begin(run: RunId)
    | Return(run: RunId, ok: bool)
    | Undo(run: RunId, named: bool)
    | Finish(run: RunId)
    | CancelLookUp(cancel: nat, saga: SagaId)
    | CancelFire(cancel: nat)
    | CancelRead(cancel: nat)
    | CancelWrite(cancel: nat)

  const START := System(map[], map[], {}, map[], map[])

  /** The executor's own moves, up to closing. */
  function Move(r: Run, a: Action, done: bool): Run {
    match (a, r.pc)
    case (Launch(_), Registered) => r.(pc := AtCheck(0))
    case (Check(_), AtCheck(i)) =>
      if i == r.steps then r.(pc := Closing, status := Completed)
      else if done then r.(pc := Closing, status := Cancelled)
      else r.(pc := Passed(i))
    case (Begin(_), Passed(i)) => r.(pc := Executing(i), late := r.late + if done then 1 else 0)
    case (Return(_, ok), Executing(i)) =>
      if ok then r.(pc := AtCheck(i + 1), completed := i + 1)
      else r.(pc := Undoing(i + 1), status := Compensating)
    case (Undo(_, _), Undoing(left)) =>
      if left == 0 then r.(pc := Closing, status := Failed) else r.(pc := Undoing(left - 1))
    case _ => r
  }

  /** Launching and passing the check save nothing, nor does a step that names no compensation. */
  predicate Saves(a: Action, r: Run) {
    !a.Launch? && !r.pc.Passed? && (a.Undo? ==> a.named || r.pc.Closing?)
  }

  function WithRun(s: System, id: RunId, r: Run): System {
    s.(runs := s.runs[id := r], repo := s.repo[r.saga := id])
  }

  function Step(s: System, a: Action): System {
    match a
    case SaveSaga(id, saga, n) =>
      if id in s.runs then s else WithRun(s, id, Run(saga, n, Saved, Running, 0, 0))
    case Register(id) =>
      if id in s.runs && s.runs[id].pc.Saved?
      then s.(runs := s.runs[id := s.runs[id].(pc := Registered)], running := s.running[s.runs[id].saga := id])
      else s
    case Finish(id) =>
      if id in s.runs && s.runs[id].pc.Closing?
      then s.(runs := s.runs[id := s.runs[id].(pc := Finished)], running := s.running - {s.runs[id].saga})
      else s
    case CancelLookUp(c, saga) =>
      if c in s.cancels then s
      else s.(cancels := s.cancels[c := LookedUp(saga, if saga in s.running then Some(s.running[saga]) else None)])
    case CancelFire(c) =>
      if c in s.cancels && s.cancels[c].LookedUp?
      then s.(cancels := s.cancels[c := Fired(s.cancels[c].saga)],
              done := match s.cancels[c].found case None => s.done case Some(id) => s.done + {id})
      else s
    case CancelRead(c) =>
      if c in s.cancels && s.cancels[c].Fired?
      then s.(cancels := s.cancels[c := if s.cancels[c].saga in s.repo then Holding(s.repo[s.cancels[c].saga]) else Returned])
      else s
    case CancelWrite(c) =>
      if c in s.cancels && s.cancels[c].Holding? && s.cancels[c].run in s.runs
      then
        var id := s.cancels[c].run;
        WithRun(s, id, s.runs[id].(status := Cancelled)).(cancels := s.cancels[c := Returned])
      else s
    case _ =>
      if a.run in s.runs && Move(s.runs[a.run], a, a.run in s.done) != s.runs[a.run]
      then
        var r := Move(s.runs[a.run], a, a.run in s.done);
        if Saves(a, r) then WithRun(s, a.run, r) else s.(runs := s.runs[a.run := r])
      else s
  }

  predicate ByExecutor(a: Action) {
    a.Launch? || a.Check? || a.Begin? || a.Return? || a.Undo?
  }

  /** What action `a` may make of run `id`. */
  predicate Becomes(r: Run, a: Action, id: RunId, done: bool, r': Run) {
    if ByExecutor(a) && a.run == id then r' == Move(r, a, done)
    else
      || r' == r || r' == r.(status := Cancelled)
      || (r.pc.Saved? && r' == r.(pc := Registered)) || (r.pc.Closing? && r' == r.(pc := Finished))
  }

  lemma StepOnRun(s: System, a: Action, id: RunId)
    requires id in s.runs
    ensures id in Step(s, a).runs && s.done <= Step(s, a).done
    ensures Becomes(s.runs[id], a, id, id in s.done, Step(s, a).runs[id])
  {
  }

  /** When the repository is told of a run by its executor: never by a launch or a check that lets it go on; by a
      compensation only if its step names one; by everything else it does. */
  lemma RepoIsTold(s: System, a: Action)
    requires ByExecutor(a) && a.run in s.runs && Step(s, a).runs[a.run] != s.runs[a.run]
    ensures var r, r' := s.runs[a.run], Step(s, a).runs[a.run];
      Step(s, a).repo ==
        if a.Launch? || (a.Check? && r.pc.AtCheck? && r.pc.i != r.steps && a.run !in s.done)
           || (a.Undo? && !a.named && r.pc.Undoing? && 0 < r.pc.left)
        then s.repo else s.repo[r.saga := a.run]
  {
  }

  /** Registered and not yet finished: launched, or about to be. */
  predicate Active(r: Run) {
    !r.pc.Saved? && !r.pc.Finished?
  }

  // ---- After a cancellation ----

  ghost predicate RunInv(r: Run, done: bool) {
    && r.late <= 1
    && (!done ==> r.late == 0)
    && (r.late == 1 ==> !r.pc.Passed?)
    && r.completed <= r.steps
    && (r.pc.AtCheck? || r.pc.Passed? || r.pc.Executing? ==> r.completed == r.pc.i <= r.steps)
    && (r.pc.Passed? || r.pc.Executing? ==> r.pc.i < r.steps)
    && (r.late == 1 && r.pc.AtCheck? ==> done)
    && (r.status == Completed ==> r.completed == r.steps)
    && (r.pc.Saved? || r.pc.Registered? ==> r.completed == 0)
  }

  ghost predicate Inv(s: System) {
    forall id :: id in s.runs ==> RunInv(s.runs[id], id in s.done)
  }

  lemma MoveKeepsRunInv(r: Run, a: Action, done: bool)
    requires RunInv(r, done)
    ensures RunInv(Move(r, a, done), done)
  {
  }

  lemma StepKeepsInv(s: System, a: Action)
    requires Inv(s)
    ensures Inv(Step(s, a))
  {
    var s' := Step(s, a);
    forall id | id in s'.runs
      ensures RunInv(s'.runs[id], id in s'.done)
    {
      if id in s.runs {
        StepOnRun(s, a, id);
        BecomesKeepsRunInv(s.runs[id], a, id, id in s.done, s'.runs[id], id in s'.done);
      }
    }
  }

  lemma BecomesKeepsRunInv(r: Run, a: Action, id: RunId, done: bool, r': Run, done': bool)
    requires RunInv(r, done) && Becomes(r, a, id, done, r') && (done ==> done')
    ensures RunInv(r', done')
  {
    if ByExecutor(a) && a.run == id { MoveKeepsRunInv(r, a, done); }
  }

  lemma ReachableInv(s: System)
    requires Reaches(Step, START, s)
    ensures Inv(s)
  {
    forall s, a | Inv(s) ensures Inv(Step(s, a)) { StepKeepsInv(s, a); }
    assert Kept(Step, Inv) && Inv(START);
  }

  /** Main result on cancellation: over every interleaving, at most one Execute of a run starts after
      its cancel fires, and a saga says Completed only if all its steps completed. */
  lemma AtMostOneLateExecute(actions: seq<Action>)
    ensures var s := Exec(Step, START, actions);
      forall id :: id in s.runs ==>
        && s.runs[id].late <= (if id in s.done then 1 else 0)
        && (s.runs[id].status == Completed ==> s.runs[id].completed == s.runs[id].steps)
  {
    ARunReaches(Step, START, actions);
    ReachableInv(Exec(Step, START, actions));
  }

  // ---- Every run closes ----

  /** The most moves run `r` has still to make before it closes. */
  function MovesLeft(r: Run): int {
    match r.pc
    case Saved => 4 * r.steps + 2
    case Registered => 4 * r.steps + 2
    case AtCheck(i) => 3 * (r.steps - i) + r.steps + 1
    case Passed(i) => 3 * (r.steps - i) + r.steps
    case Executing(i) => 3 * (r.steps - i) + r.steps - 1
    case Undoing(left) => left + 1
    case _ => 0
  }

  /** Action `a` moves run `id`: its executor takes it, and the run is not what it was. */
  predicate Moves(s: System, a: Action, id: RunId) {
    ByExecutor(a) && a.run == id && id in s.runs && Step(s, a).runs[id] != s.runs[id]
  }

  function CountMoves(s: System, actions: seq<Action>, id: RunId): nat
    decreases |actions|
  {
    if actions == [] then 0
    else (if Moves(s, actions[0], id) then 1 else 0) + CountMoves(Step(s, actions[0]), actions[1..], id)
  }

  /** What run `id` of `n` steps has left, saved yet or not. */
  function Left(s: System, id: RunId, n: nat): int {
    if id in s.runs then MovesLeft(s.runs[id]) else 4 * n + 2
  }

  predicate HasSteps(s: System, id: RunId, n: nat) {
    id in s.runs ==> s.runs[id].steps == n
  }

  lemma MoveUsesOne(s: System, a: Action, id: RunId, n: nat)
    requires Inv(s) && HasSteps(Step(s, a), id, n)
    ensures HasSteps(s, id, n)
    ensures Left(Step(s, a), id, n) + (if Moves(s, a, id) then 1 else 0) <= Left(s, id, n)
  {
    if id in s.runs {
      assert RunInv(s.runs[id], id in s.done);
      StepOnRun(s, a, id);
    }
  }

  lemma {:induction false} MovesAreUsedUp(s: System, actions: seq<Action>, id: RunId, n: nat)
    requires Inv(s) && HasSteps(Exec(Step, s, actions), id, n)
    ensures HasSteps(s, id, n)
    ensures CountMoves(s, actions, id) + Left(Exec(Step, s, actions), id, n) <= Left(s, id, n)
    decreases |actions|
  {
    if actions != [] {
      StepKeepsInv(s, actions[0]);
      MovesAreUsedUp(Step(s, actions[0]), actions[1..], id, n);
      MoveUsesOne(s, actions[0], id, n);
    }
  }

  ghost predicate CanMove(s: System, id: RunId) {
    exists a :: Moves(s, a, id)
  }

  /** Main result on progress: over every interleaving, the executor of a run of `n` steps moves at most 4n + 2 times,
      however it is cancelled; and from its registration on it can move until it has closed, and no longer. */
  lemma EveryRunCloses(actions: seq<Action>, s: System, id: RunId)
    requires s == Exec(Step, START, actions) && id in s.runs
    ensures CountMoves(START, actions, id) <= 4 * s.runs[id].steps + 2
    ensures CanMove(s, id) <==> !s.runs[id].pc.Saved? && !s.runs[id].pc.Closing? && !s.runs[id].pc.Finished?
  {
    ARunReaches(Step, START, actions);
    ReachableInv(s);
    MovesAreUsedUp(START, actions, id, s.runs[id].steps);
    assert RunInv(s.runs[id], id in s.done);
    assert MovesLeft(s.runs[id]) >= 0;
    MovesUnlessResting(s, id);
  }

  lemma MovesUnlessResting(s: System, id: RunId)
    requires Inv(s) && id in s.runs
    ensures CanMove(s, id) <==> !s.runs[id].pc.Saved? && !s.runs[id].pc.Closing? && !s.runs[id].pc.Finished?
  {
    match s.runs[id].pc
    case Registered => assert Moves(s, Launch(id), id);
    case AtCheck(_) => assert Moves(s, Check(id), id);
    case Passed(_) => assert Moves(s, Begin(id), id);
    case Executing(_) => assert Moves(s, Return(id, true), id);
    case Undoing(_) => assert Moves(s, Undo(id, true), id);
    case _ =>
  }

  // ---- The running map ----

  /** The running map has an entry for saga `x` exactly if a run of it is active, and it is that run's. */
  ghost predicate ExactFor(s: System, x: SagaId) {
    && (forall id :: id in s.runs && Active(s.runs[id]) && s.runs[id].saga == x ==> x in s.running && s.running[x] == id)
    && (x in s.running ==>
          var id := s.running[x];
          id in s.runs && Active(s.runs[id]) && s.runs[id].saga == x)
  }

  ghost predicate Exact(s: System) {
    forall x :: ExactFor(s, x)
  }

  /** At most one run of a saga is unfinished. */
  ghost predicate OneEach(s: System) {
    forall p, q :: p in s.runs && q in s.runs && Rivals(s.runs[p], s.runs[q]) ==> p == q
  }

  predicate Rivals(a: Run, b: Run) {
    a.saga == b.saga && !a.pc.Finished? && !b.pc.Finished?
  }

  /** A saga is only started when every earlier run of its id has finished. */
  ghost predicate StartsAlone(s: System, a: Action) {
    a.SaveSaga? ==> forall id :: id in s.runs && s.runs[id].saga == a.saga ==> s.runs[id].pc.Finished?
  }

  ghost predicate AllStartAlone(s: System, actions: seq<Action>)
    decreases |actions|
  {
    actions != [] ==> StartsAlone(s, actions[0]) && AllStartAlone(Step(s, actions[0]), actions[1..])
  }

  lemma StepKeepsOneEach(s: System, a: Action)
    requires OneEach(s) && StartsAlone(s, a)
    ensures OneEach(Step(s, a))
  {
    var s' := Step(s, a);
    forall p | p in s'.runs
      ensures p in s.runs ==> s'.runs[p].saga == s.runs[p].saga && (s.runs[p].pc.Finished? ==> s'.runs[p].pc.Finished?)
      ensures p !in s.runs ==> a.SaveSaga? && p == a.run && s'.runs[p].saga == a.saga
    {
    }
    forall p, q | p in s'.runs && q in s'.runs && Rivals(s'.runs[p], s'.runs[q])
      ensures p == q
    {
      if p in s.runs && q in s.runs { assert Rivals(s.runs[p], s.runs[q]); }
    }
  }

  /** The map and every run's activity are as they were; runs added are not active. */
  ghost predicate AsActive(s: System, s': System) {
    && s'.running == s.running
    && (forall p :: p in s.runs ==> p in s'.runs && s'.runs[p].saga == s.runs[p].saga)
    && (forall p :: p in s'.runs ==> (Active(s'.runs[p]) <==> p in s.runs && Active(s.runs[p])))
  }

  lemma QuietStep(s: System, a: Action)
    requires !a.Register? && !a.Finish?
    ensures AsActive(s, Step(s, a))
  {
    var s' := Step(s, a);
    forall p | p in s.runs
      ensures p in s'.runs && s'.runs[p].saga == s.runs[p].saga && (Active(s'.runs[p]) <==> Active(s.runs[p]))
    {
      if ByExecutor(a) && a.run == p {
        StepOnRun(s, a, p);
        MoveKeepsActivity(s.runs[p], a, p in s.done);
      }
    }
  }

  lemma MoveKeepsActivity(r: Run, a: Action, done: bool)
    ensures Move(r, a, done).saga == r.saga && (Active(Move(r, a, done)) <==> Active(r))
  {
  }

  lemma AsActiveKeepsExact(s: System, s': System, x: SagaId)
    requires ExactFor(s, x) && AsActive(s, s')
    ensures ExactFor(s', x)
  {
  }

  lemma FinishKeepsExact(s: System, id: RunId, x: SagaId)
    requires ExactFor(s, x) && id in s.runs && s.runs[id].pc.Closing?
    ensures ExactFor(Step(s, Finish(id)), x)
  {
  }

  /** A run of saga `x` registers while another is active: the entry of that run is replaced. */
  ghost predicate Displaces(s: System, a: Action, x: SagaId) {
    a.Register? && a.run in s.runs && s.runs[a.run].pc.Saved? && s.runs[a.run].saga == x && ActiveRunOf(s, x)
  }

  lemma RegisterKeepsExactIff(s: System, id: RunId, x: SagaId)
    requires ExactFor(s, x) && id in s.runs && s.runs[id].pc.Saved?
    ensures ExactFor(Step(s, Register(id)), x) <==> !Displaces(s, Register(id), x)
  {
    var s' := Step(s, Register(id));
    if s.runs[id].saga == x {
      if q :| q in s.runs && Active(s.runs[q]) && s.runs[q].saga == x {
        assert q in s'.runs && Active(s'.runs[q]) && s'.runs[q].saga == x;
      }
    }
  }

  /** One step leaves the entry of a saga right unless it displaces it. */
  lemma StepKeepsExactIff(s: System, a: Action, x: SagaId)
    requires ExactFor(s, x)
    ensures ExactFor(Step(s, a), x) <==> !Displaces(s, a, x)
  {
    if a.Register? {
      if a.run in s.runs && s.runs[a.run].pc.Saved? { RegisterKeepsExactIff(s, a.run, x); }
    } else if a.Finish? {
      if a.run in s.runs && s.runs[a.run].pc.Closing? { FinishKeepsExact(s, a.run, x); }
    } else {
      QuietStep(s, a);
      AsActiveKeepsExact(s, Step(s, a), x);
    }
  }

  /** Main result on shared ids: all along a run of the machine the entry of a saga is right if and only if
      no run of that saga ever registers while another is active, whatever happens under other ids. */
  lemma MapStaysExactIff(actions: seq<Action>, x: SagaId)
    ensures (forall n: nat :: n <= |actions| ==> ExactFor(Along(Step, START, actions, n), x))
       <==> !Happens(Step, START, actions, (s, a) => Displaces(s, a, x))
  {
    forall s, a | ExactFor(s, x) ensures ExactFor(Step(s, a), x) <==> !Displaces(s, a, x) { StepKeepsExactIff(s, a, x); }
    AlwaysIffNoCause(Step, s => ExactFor(s, x), (s, a) => Displaces(s, a, x), START, actions);
  }

  lemma AloneDisplacesNone(s: System, a: Action)
    requires OneEach(s)
    ensures forall x :: !Displaces(s, a, x)
  {
    if x :| Displaces(s, a, x) {
      var q :| q in s.runs && Active(s.runs[q]) && s.runs[q].saga == x;
      assert Rivals(s.runs[q], s.runs[a.run]);
    }
  }

  /** Main result on the running map: it holds exactly the sagas whose executor is launched or about to
      be, and has not finished, over every interleaving in which no saga id is started while in use. */
  lemma {:induction false} RunningMapIsExact(s: System, actions: seq<Action>)
    requires Exact(s) && OneEach(s) && AllStartAlone(s, actions)
    ensures Exact(Exec(Step, s, actions)) && OneEach(Exec(Step, s, actions))
    decreases |actions|
  {
    if actions != [] {
      AloneDisplacesNone(s, actions[0]);
      forall x ensures ExactFor(Step(s, actions[0]), x) { StepKeepsExactIff(s, actions[0], x); }
      StepKeepsOneEach(s, actions[0]);
      RunningMapIsExact(Step(s, actions[0]), actions[1..]);
    }
  }

  /** The sagas with an entry are those with an active run. */
  ghost predicate Covered(s: System) {
    forall saga :: saga in s.running <==> ActiveRunOf(s, saga)
  }

  ghost predicate ActiveRunOf(s: System, saga: SagaId) {
    exists id :: id in s.runs && Active(s.runs[id]) && s.runs[id].saga == saga
  }

  /** As to which ids have an entry at all, an executor that finishes leaves the map right exactly when no
      other active run has its saga id: the entry it deletes may be the other's. */
  lemma FinishKeepsMapIff(s: System, id: RunId)
    requires Covered(s) && id in s.runs && s.runs[id].pc.Closing?
    ensures Covered(Step(s, Finish(id))) <==>
      forall q :: q in s.runs && q != id && Active(s.runs[q]) ==> s.runs[q].saga != s.runs[id].saga
  {
    var s' := Step(s, Finish(id));
    if q :| q in s.runs && q != id && Active(s.runs[q]) && s.runs[q].saga == s.runs[id].saga {
      assert q in s'.runs && Active(s'.runs[q]) && s'.runs[q].saga == s.runs[id].saga;
      assert ActiveRunOf(s', s.runs[id].saga);
    } else {
      forall saga
        ensures saga in s'.running <==> ActiveRunOf(s', saga)
      {
        if ActiveRunOf(s', saga) {
          var q :| q in s'.runs && Active(s'.runs[q]) && s'.runs[q].saga == saga;
          assert q in s.runs && Active(s.runs[q]) && s.runs[q].saga == saga;
          assert ActiveRunOf(s, saga);
        }
        if saga in s'.running {
          assert ActiveRunOf(s, saga);
          var q :| q in s.runs && Active(s.runs[q]) && s.runs[q].saga == saga;
          assert q in s'.runs && s'.runs[q] == s.runs[q];
        }
      }
    }
  }

  /** `p`, a saga without steps, and `q`, started under the same id. */
  function Pair(x: SagaId, p: RunId, pc: Pc, status: Status, q: RunId, pc': Pc, running: map<SagaId, RunId>): System {
    System(map[p := Run(x, 0, pc, status, 0, 0), q := Run(x, 1, pc', Running, 0, 0)], running, {}, map[x := q], map[])
  }

  /** It happens: a second run under the id of an active one takes over its entry, and a cancellation
      can no longer find the first. */
  lemma SharedIdDisplaces(x: SagaId, p: RunId, q: RunId) returns (s: System)
    requires p != q
    ensures Reaches(Step, START, s) && s == Pair(x, p, Registered, Running, q, Registered, map[x := q])
    ensures Active(s.runs[p]) && !ExactFor(s, x)
  {
    var s1 := Step(START, SaveSaga(p, x, 0));
    Onward(Step, START, START, SaveSaga(p, x, 0));
    var s2 := Step(s1, Register(p));
    Onward(Step, START, s1, Register(p));
    var s3 := Pair(x, p, Registered, Running, q, Saved, map[x := p]);
    Onward(Step, START, s2, SaveSaga(q, x, 1));
    assert Step(s2, SaveSaga(q, x, 1)) == s3;
    s := Pair(x, p, Registered, Running, q, Registered, map[x := q]);
    Onward(Step, START, s3, Register(q));
    assert Step(s3, Register(q)) == s;
    assert s.runs[p].saga == x && s.running[x] == q;
  }

  /** And once the first finishes, the second, still running, has no entry left either. */
  lemma SharedIdEscapesCancellation(x: SagaId, p: RunId, q: RunId) returns (s: System)
    requires p != q
    ensures Reaches(Step, START, s)
    ensures q in s.runs && Active(s.runs[q]) && s.runs[q].saga == x && x !in s.running
  {
    var s4 := SharedIdDisplaces(x, p, q);
    Onward(Step, START, s4, Launch(p));
    var s5 := Step(s4, Launch(p));
    Onward(Step, START, s5, Check(p));
    var s6 := Step(s5, Check(p));
    assert s6.runs[p].pc.Closing? && s6.runs[q].pc.Registered?;
    Onward(Step, START, s6, Finish(p));
    s := Step(s6, Finish(p));
  }

  // ---- When the status a cancellation writes survives ----

  predicate Ended(status: Status) {
    status.Completed? || status.Failed?
  }

  /** The executor will not write Completed or Failed any more: it has made its last write, or it is
      bound to look at its context, which is done, before another step. */
  predicate Sealed(r: Run, done: bool) {
    || r.pc.Closing? || r.pc.Finished?
    || (done && (match r.pc
                 case AtCheck(i) => i < r.steps
                 case Saved => 0 < r.steps
                 case Registered => 0 < r.steps
                 case _ => false))
  }

  /** Whatever happens next, a sealed run stays so, and keeps its status or becomes Cancelled. */
  lemma SealedStays(s: System, a: Action, id: RunId)
    requires id in s.runs && Sealed(s.runs[id], id in s.done)
    ensures var s' := Step(s, a);
      && id in s'.runs && Sealed(s'.runs[id], id in s'.done)
      && (s'.runs[id].status == s.runs[id].status || s'.runs[id].status == Cancelled)
  {
    if ByExecutor(a) && a.run == id {
      assert Step(s, a).runs[id] == Move(s.runs[id], a, id in s.done);
    }
  }

  lemma SealedForGood(s: System, t: System, id: RunId, ended: bool)
    requires id in s.runs && Sealed(s.runs[id], id in s.done) && Reaches(Step, s, t)
    requires if ended then !Ended(s.runs[id].status) else s.runs[id].status == Cancelled
    ensures id in t.runs && if ended then !Ended(t.runs[id].status) else t.runs[id].status == Cancelled
  {
    var inv := (u: System) =>
      && id in u.runs && Sealed(u.runs[id], id in u.done)
      && if ended then !Ended(u.runs[id].status) else u.runs[id].status == Cancelled;
    forall u, a | inv(u) ensures inv(Step(u, a)) { SealedStays(u, a, id); }
    assert Kept(Step, inv) && inv(s);
  }

  /** The executor of `id` alone takes `s` to `t`. */
  ghost predicate Drives(s: System, t: System, id: RunId) {
    && Reaches(Step, s, t) && t.done == s.done && t.cancels == s.cancels
    && id in s.runs && id in t.runs && t.runs[id].steps == s.runs[id].steps
  }

  lemma Executes(s: System, a: Action, id: RunId) returns (t: System)
    requires id in s.runs && (ByExecutor(a) || a.Register?) && a.run == id
    ensures Drives(s, t, id)
    ensures t.runs[id] ==
      if a.Register? then s.runs[id].(pc := if s.runs[id].pc.Saved? then Registered else s.runs[id].pc)
      else Move(s.runs[id], a, id in s.done)
  {
    t := Step(s, a);
    Onward(Step, s, s, a);
  }

  /** An executor that is compensating comes to write Failed. */
  lemma {:induction false} UndoesToFailed(s: System, id: RunId) returns (t: System)
    requires id in s.runs && s.runs[id].pc.Undoing?
    ensures Drives(s, t, id) && t.runs[id].pc.Closing? && t.runs[id].status == Failed
    decreases s.runs[id].pc.left
  {
    t := Executes(s, Undo(id, true), id);
    if s.runs[id].pc.left != 0 {
      var mid := t;
      t := UndoesToFailed(mid, id);
      Further(Step, s, mid, t);
    }
  }

  lemma StepsToFailed(s: System, id: RunId) returns (t: System)
    requires id in s.runs && (s.runs[id].pc.Passed? || s.runs[id].pc.Executing?)
    ensures Drives(s, t, id) && t.runs[id].pc.Closing? && t.runs[id].status == Failed
  {
    var s1 := Executes(s, Begin(id), id);
    var s2 := Executes(s1, Return(id, false), id);
    t := UndoesToFailed(s2, id);
    Further(Step, s, s1, s2);
    Further(Step, s, s2, t);
  }

  lemma ChecksToEnd(s: System, id: RunId) returns (t: System)
    requires id in s.runs && s.runs[id].pc.AtCheck? && !Sealed(s.runs[id], id in s.done)
    requires s.runs[id].pc.i <= s.runs[id].steps
    ensures Drives(s, t, id) && t.runs[id].pc.Closing? && Ended(t.runs[id].status)
  {
    t := Executes(s, Check(id), id);
    if t.runs[id].pc.Passed? {
      var mid := t;
      t := StepsToFailed(mid, id);
      Further(Step, s, mid, t);
    }
  }

  /** An executor that is not sealed can come to write Completed or Failed. */
  lemma {:induction false} UnsealedEnds(s: System, id: RunId) returns (t: System)
    requires Inv(s) && id in s.runs && !Sealed(s.runs[id], id in s.done)
    ensures Drives(s, t, id) && t.runs[id].pc.Closing? && Ended(t.runs[id].status)
  {
    assert RunInv(s.runs[id], id in s.done);
    match s.runs[id].pc
    case Undoing(_) => t := UndoesToFailed(s, id);
    case AtCheck(_) => t := ChecksToEnd(s, id);
    case Passed(_) => t := StepsToFailed(s, id);
    case Executing(_) => t := StepsToFailed(s, id);
    case _ =>
      var s1 := Executes(s, Register(id), id);
      var s2 := Executes(s1, Launch(id), id);
      t := ChecksToEnd(s2, id);
      Further(Step, s, s1, s2);
      Further(Step, s, s2, t);
  }

  /** Main result on the status: once a run says Cancelled, it says so whatever follows if and only if its
      executor is sealed; otherwise some continuation closes it as Completed or Failed. */
  lemma CancelledSurvivesIff(s: System, id: RunId)
    requires Reaches(Step, START, s) && id in s.runs && s.runs[id].status == Cancelled
    ensures (forall t :: Reaches(Step, s, t) ==> id in t.runs && t.runs[id].status == Cancelled)
       <==> Sealed(s.runs[id], id in s.done)
    ensures Sealed(s.runs[id], id in s.done)
         || exists t :: Reaches(Step, s, t) && id in t.runs && t.runs[id].pc.Closing? && Ended(t.runs[id].status)
  {
    ReachableInv(s);
    if Sealed(s.runs[id], id in s.done) {
      forall t | Reaches(Step, s, t)
        ensures id in t.runs && t.runs[id].status == Cancelled
      {
        SealedForGood(s, t, id, false);
      }
    } else {
      var t := UnsealedEnds(s, id);
      assert Reaches(Step, s, t) && t.runs[id].status != Cancelled;
    }
  }

  /** A cancellation that holds a run's object will not, whatever happens before it writes, overwrite
      Completed or Failed if and only if the run has not ended and its executor is sealed. */
  lemma OverwritesNoEndingIff(s: System, c: nat, id: RunId)
    requires Reaches(Step, START, s) && c in s.cancels && s.cancels[c] == Holding(id) && id in s.runs
    ensures (forall t :: Reaches(Step, s, t) && c in t.cancels && t.cancels[c] == Holding(id) ==>
                           id in t.runs && !Ended(t.runs[id].status))
       <==> !Ended(s.runs[id].status) && Sealed(s.runs[id], id in s.done)
  {
    ReachableInv(s);
    if Ended(s.runs[id].status) {
      assert Reaches(Step, s, s);
    } else if Sealed(s.runs[id], id in s.done) {
      forall t | Reaches(Step, s, t)
        ensures id in t.runs && !Ended(t.runs[id].status)
      {
        SealedForGood(s, t, id, true);
      }
    } else {
      var t := UnsealedEnds(s, id);
      assert Reaches(Step, s, t) && t.cancels[c] == Holding(id);
    }
  }

  // ---- Runs that show what cancellation does not promise ----

  /** `p` is the only run, of a saga of one step. */
  function Alone(x: SagaId, p: RunId, pc: Pc, status: Status, completed: nat, late: nat): System {
    System(map[p := Run(x, 1, pc, status, completed, late)],
           if pc.Saved? || pc.Finished? then map[] else map[x := p], {}, map[x := p], map[])
  }

  lemma StartAlone(x: SagaId, p: RunId)
    ensures Reaches(Step, START, Alone(x, p, Passed(0), Running, 0, 0))
  {
    var s1 := Alone(x, p, Saved, Running, 0, 0);
    Onward(Step, START, START, SaveSaga(p, x, 1));
    assert Step(START, SaveSaga(p, x, 1)) == s1;
    var s2 := Alone(x, p, Registered, Running, 0, 0);
    Onward(Step, START, s1, Register(p));
    assert Step(s1, Register(p)) == s2;
    var s3 := Alone(x, p, AtCheck(0), Running, 0, 0);
    Onward(Step, START, s2, Launch(p));
    assert Step(s2, Launch(p)) == s3;
    Onward(Step, START, s3, Check(p));
    assert Step(s3, Check(p)) == Alone(x, p, Passed(0), Running, 0, 0);
  }

  /** CancelSaga overwrites a terminal status: a saga whose every step completed ends as Cancelled. */
  lemma CancelOverwritesCompleted(x: SagaId, p: RunId, c: nat) returns (s: System)
    ensures Reaches(Step, START, s) && c in s.cancels && s.cancels[c].Returned? && s.done == {}
    ensures p in s.runs && s.runs[p] == Run(x, 1, Finished, Cancelled, 1, 0)
  {
    StartAlone(x, p);
    var s4 := Alone(x, p, Passed(0), Running, 0, 0);
    var s5 := Alone(x, p, Executing(0), Running, 0, 0);
    Onward(Step, START, s4, Begin(p));
    assert Step(s4, Begin(p)) == s5;
    var s6 := Alone(x, p, AtCheck(1), Running, 1, 0);
    Onward(Step, START, s5, Return(p, true));
    assert Step(s5, Return(p, true)) == s6;
    var s7 := Alone(x, p, Closing, Completed, 1, 0);
    Onward(Step, START, s6, Check(p));
    assert Step(s6, Check(p)) == s7;
    var s8 := Alone(x, p, Finished, Completed, 1, 0);
    assert map[x := p] - {x} == map[];
    Onward(Step, START, s7, Finish(p));
    assert Step(s7, Finish(p)) == s8;
    s := CancelInFull(s8, x, p, c);
  }

  /** All of CancelSaga in a row, on a saga whose object is that of run `p`. */
  lemma CancelInFull(s: System, x: SagaId, p: RunId, c: nat) returns (s': System)
    requires Reaches(Step, START, s) && c !in s.cancels && x in s.repo && s.repo[x] == p
    requires p in s.runs && s.runs[p].saga == x
    ensures Reaches(Step, START, s')
    ensures s' == System(s.runs[p := s.runs[p].(status := Cancelled)], s.running,
                         if x in s.running then s.done + {s.running[x]} else s.done, s.repo, s.cancels[c := Returned])
  {
    var s2 := CancelFires(s, x, c);
    var s3 := s2.(cancels := s.cancels[c := Holding(p)]);
    assert s2.cancels[c := Holding(p)] == s3.cancels;
    Onward(Step, START, s2, CancelRead(c));
    assert Step(s2, CancelRead(c)) == s3;
    s' := Step(s3, CancelWrite(c));
    assert s3.cancels[c := Returned] == s.cancels[c := Returned] && s.repo[x := p] == s.repo;
    Onward(Step, START, s3, CancelWrite(c));
  }

  lemma CancelFires(s: System, x: SagaId, c: nat) returns (s': System)
    requires Reaches(Step, START, s) && c !in s.cancels
    ensures Reaches(Step, START, s')
    ensures s' == s.(cancels := s.cancels[c := Fired(x)], done := if x in s.running then s.done + {s.running[x]} else s.done)
  {
    var s1 := Step(s, CancelLookUp(c, x));
    Onward(Step, START, s, CancelLookUp(c, x));
    s' := Step(s1, CancelFire(c));
    Onward(Step, START, s1, CancelFire(c));
    assert s1.cancels[c := Fired(x)] == s.cancels[c := Fired(x)];
  }

  /** And a cancellation that has returned may be overwritten: the executor, already past its check,
      runs the last step and reports Completed. */
  lemma CompletionOverwritesCancelled(x: SagaId, p: RunId, c: nat) returns (s: System)
    ensures Reaches(Step, START, s) && c in s.cancels && s.cancels[c].Returned? && p in s.done
    ensures p in s.runs && s.runs[p] == Run(x, 1, Closing, Completed, 1, 1)
  {
    StartAlone(x, p);
    var s4 := Alone(x, p, Passed(0), Running, 0, 0);
    var s5 := CancelInFull(s4, x, p, c);
    s := LastStep(s5, p);
  }

  lemma LastStep(s: System, p: RunId) returns (s': System)
    requires Reaches(Step, START, s) && p in s.runs && s.runs[p].pc == Passed(0) && s.runs[p].steps == 1
    requires p in s.done && s.runs[p].late == 0
    ensures Reaches(Step, START, s') && s'.cancels == s.cancels && s'.done == s.done
    ensures p in s'.runs && s'.runs[p] == s.runs[p].(pc := Closing, status := Completed, completed := 1, late := 1)
  {
    var s1 := Executes(s, Begin(p), p);
    var s2 := Executes(s1, Return(p, true), p);
    s' := Executes(s2, Check(p), p);
    Further(Step, START, s, s1);
    Further(Step, START, s1, s2);
    Further(Step, START, s2, s');
  }
}
