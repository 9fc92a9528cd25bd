/** What an execution calls and saves, position by position: the specified trace and log, said without them. */
module SagaTrace {
  import opened SagaEngine

  // ---- The calls ----

  predicate Named(s: Step) { s.compensation != "" }

  /** How many of the steps from `lo` up to `hi` name a compensation. */
  function CountNamed(steps: seq<Step>, lo: nat, hi: nat): nat
    requires hi <= |steps|
    decreases hi
  {
    if hi <= lo then 0 else CountNamed(steps, lo, hi - 1) + if Named(steps[hi - 1]) then 1 else 0
  }

  lemma {:induction false} CountGrows(steps: seq<Step>, lo: nat, j: nat, hi: nat)
    requires lo <= j < hi <= |steps| && Named(steps[j])
    ensures CountNamed(steps, j + 1, hi) < CountNamed(steps, lo, hi)
    decreases hi
  {
    if j < hi - 1 { CountGrows(steps, lo, j, hi - 1); }
  }

  /** The compensation of step `j`, if it names one, is at position `CountNamed(steps, j + 1, k)`: after those of
      the later steps. And there are no others. */
  lemma {:induction false} CompensationsInFull(steps: seq<Step>, w: World, k: nat, j: nat)
    requires k <= |steps|
    ensures |Compensations(steps, w, k)| == CountNamed(steps, 0, k)
    ensures j < k && Named(steps[j]) ==>
      && CountNamed(steps, j + 1, k) < CountNamed(steps, 0, k)
      && Compensations(steps, w, k)[CountNamed(steps, j + 1, k)] == Compensate(steps[j], w.compensate(j))
    decreases k
  {
    if k != 0 {
      CompensationsInFull(steps, w, k - 1, j);
      if j < k && Named(steps[j]) { CountGrows(steps, 0, j, k); }
    }
  }

  /** How step `j` looks to its compensation, after step `f` failed. */
  function Left(steps: seq<Step>, w: World, f: nat, j: nat): Step
    requires j <= f < |steps|
  {
    match w.execute(j)
    case Ok(o) => steps[j].(status := IsCompleted, output := o)
    case Err(m) => steps[j].(status := IsFailed, error := m)
  }

  lemma {:induction false} SameNames(steps: seq<Step>, steps': seq<Step>, lo: nat, hi: nat)
    requires hi <= |steps| == |steps'|
    requires forall j :: 0 <= j < |steps| ==> steps'[j].compensation == steps[j].compensation
    ensures CountNamed(steps', lo, hi) == CountNamed(steps, lo, hi)
    decreases hi
  {
    if lo < hi { SameNames(steps, steps', lo, hi - 1); }
  }

  /** The calls of a saga that failed at step `f`: Execute on every step up to `f`, as it was saved running; then
      Compensate, later steps first, on each of those that names a compensation, the failed one included, and no
      more calls than that. */
  lemma TraceInFull(steps: seq<Step>, w: World, f: nat, j: nat)
    requires f < |steps| && Undisturbed(w, f) && !w.cancelled(f) && w.execute(f).Err? && j <= f
    ensures EndingFrom(w, 0, |steps|) == FailedAt(f)
    ensures var calls := Trace(steps, w, FailedAt(f));
      && |calls| == f + 1 + CountNamed(steps, 0, f + 1)
      && calls[j] == Execute(steps[j].(status := IsRunning), w.execute(j))
      && (Named(steps[j]) ==>
            && CountNamed(steps, j + 1, f + 1) < CountNamed(steps, 0, f + 1)
            && calls[f + 1 + CountNamed(steps, j + 1, f + 1)] == Compensate(Left(steps, w, f, j), w.compensate(j)))
  {
    assert Smooth(w, 0, f);
    EndingIsFirstStop(w, 0, |steps|, f);
    UndoneInFull(steps, w, f, j);
  }

  lemma UndoneInFull(steps: seq<Step>, w: World, f: nat, j: nat)
    requires f < |steps| && Undisturbed(w, f) && w.execute(f).Err? && j <= f
    ensures var undone := Compensations(AfterStep(steps, w, f), w, f + 1);
      && |undone| == CountNamed(steps, 0, f + 1)
      && (Named(steps[j]) ==>
            && CountNamed(steps, j + 1, f + 1) < CountNamed(steps, 0, f + 1)
            && undone[CountNamed(steps, j + 1, f + 1)] == Compensate(Left(steps, w, f, j), w.compensate(j)))
  {
    var after := AfterStep(steps, w, f);
    assert after[j] == Left(steps, w, f, j);
    CompensationsInFull(after, w, f + 1, j);
    SameNames(steps, after, 0, f + 1);
    SameNames(steps, after, j + 1, f + 1);
  }

  /** Those of one that was not stopped by a failure: Execute on every step it came to, and nothing else. */
  lemma UnfailedTraceInFull(steps: seq<Step>, w: World, k: nat)
    requires k <= |steps| && Undisturbed(w, k) && (k < |steps| ==> w.cancelled(k))
    ensures var e := if k == |steps| then Completed else CancelledAt(k);
      && EndingFrom(w, 0, |steps|) == e
      && var calls := Trace(steps, w, e);
         |calls| == k && forall j :: 0 <= j < k ==> calls[j] == Execute(steps[j].(status := IsRunning), w.execute(j))
  {
    assert Smooth(w, 0, k);
    EndingIsFirstStop(w, 0, |steps|, k);
  }

  // ---- The saves around them ----

  /** Events 3 i, 3 i + 1 and 3 i + 2: the saga is saved with step `i` running, that step is executed, and the
      saga is saved with its outcome. */
  ghost predicate SavedAround(steps: seq<Step>, w: World, log: seq<Event>, i: nat) {
    && 3 * i + 2 < |log| && i < |steps|
    && log[3 * i].Saved? && log[3 * i + 2].Saved?
    && log[3 * i + 1] == Called(Execute(steps[i].(status := IsRunning), w.execute(i)))
    && var before, after := log[3 * i].snapshot, log[3 * i + 2].snapshot;
       && before.status == after.status == IsRunning && before.currentStep == after.currentStep == i + 1
       && |before.steps| == |after.steps| == |steps| && before.steps[i] == steps[i].(status := IsRunning)
       && after.steps[i] == match w.execute(i)
                            case Ok(o) => steps[i].(status := IsCompleted, output := o)
                            case Err(m) => steps[i].(status := IsFailed, error := m)
  }

  lemma StepIsSavedAround(steps: seq<Step>, w: World, rest: seq<Event>, i: nat)
    requires i < |steps| && |rest| == 3 * i
    ensures SavedAround(steps, w, rest + StepLog(steps, w, i), i)
  {
  }

  lemma StaysSavedAround(steps: seq<Step>, w: World, log: seq<Event>, more: seq<Event>, i: nat)
    requires SavedAround(steps, w, log, i)
    ensures SavedAround(steps, w, log + more, i)
  {
  }

  /** Every step the loop comes to is saved around. */
  lemma {:induction false} ExecutesAreSavedAround(steps: seq<Step>, w: World, k: nat)
    requires k <= |steps|
    ensures |ForwardLog(steps, w, k)| == 3 * k
    ensures forall i: nat :: i < k ==> SavedAround(steps, w, ForwardLog(steps, w, k), i)
    decreases k
  {
    if k != 0 {
      ExecutesAreSavedAround(steps, w, k - 1);
      var rest, more := ForwardLog(steps, w, k - 1), StepLog(steps, w, k - 1);
      forall i: nat | i < k ensures SavedAround(steps, w, rest + more, i) {
        if i < k - 1 { StaysSavedAround(steps, w, rest, more, i); } else { StepIsSavedAround(steps, w, rest, i); }
      }
    }
  }

  /** Compensations, each followed by a save of `s`. */
  ghost predicate Alternates(log: seq<Event>, s: Snapshot) {
    && |log| % 2 == 0
    && forall i :: 0 <= i < |log| ==> if i % 2 == 0 then log[i].Called? && log[i].call.Compensate? else log[i] == Saved(s)
  }

  lemma OneMoreAlternates(log: seq<Event>, s: Snapshot, c: Call)
    requires Alternates(log, s) && c.Compensate?
    ensures Alternates([Called(c), Saved(s)] + log, s)
  {
    var next := [Called(c), Saved(s)] + log;
    forall i | 2 <= i < |next| ensures next[i] == log[i - 2] {}
  }

  lemma {:induction false} UndoAlternates(steps: seq<Step>, w: World, current: nat, k: nat)
    requires k <= |steps|
    ensures Alternates(UndoLog(steps, w, current, k), Snapshot(IsCompensating, current, steps))
    decreases k
  {
    if k != 0 {
      var rest := UndoLog(steps, w, current, k - 1);
      UndoAlternates(steps, w, current, k - 1);
      if steps[k - 1].compensation != "" {
        OneMoreAlternates(rest, Snapshot(IsCompensating, current, steps), Compensate(steps[k - 1], w.compensate(k - 1)));
      } else {
        assert UndoLog(steps, w, current, k) == rest;
      }
    }
  }

  /** The log of a saga that failed at step `f`: the steps up to it, a save as compensating, the compensations each
      with such a save, all with the steps as the failure left them, and the save of the failed saga. */
  lemma FailedLogInFull(steps: seq<Step>, w: World, f: nat) returns (undo: seq<Event>)
    requires f < |steps|
    ensures var final := Final(steps, w, FailedAt(f));
      && final.status == IsFailed && final.currentStep == f + 1
      && Log(steps, w, FailedAt(f)) ==
         ForwardLog(steps, w, f + 1) + ([Saved(final.(status := IsCompensating))] + undo) + [Saved(final)]
      && Alternates(undo, final.(status := IsCompensating))
  {
    var after := AfterStep(steps, w, f);
    undo := UndoLog(after, w, f + 1, f + 1);
    UndoAlternates(after, w, f + 1, f + 1);
  }

  /** And of one that was not: the steps it came to and the save of the saga as it ended. */
  lemma UnfailedLogInFull(steps: seq<Step>, w: World, k: nat)
    requires k <= |steps|
    ensures Log(steps, w, if k == |steps| then Completed else CancelledAt(k)) ==
      ForwardLog(steps, w, k)
      + [Saved(Snapshot(if k == |steps| then IsCompleted else IsCancelled, k, Ran(steps, w, k)))]
  {
  }
}
