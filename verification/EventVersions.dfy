/** The versions of the events the handlers and the outbox poller append: when each aggregate's are
    1, 2, ..., n, on a store that rejects a repeated version and on one that does not. */
module EventVersions {
  import opened Options
  import opened Runs
  import opened AppendEvent
  import OutboxPoller

  /** Each event of aggregate `a` carries the version after the latest one `a` had when it was committed. */
  ghost predicate InSequence(events: seq<Event>, a: AggregateId) {
    events != [] ==>
      var rest, e := events[..|events| - 1], events[|events| - 1];
      InSequence(rest, a) && (e.aggregate == a ==> e.version == Latest(rest, a) + 1)
  }

  lemma {:induction false} InSequenceAt(events: seq<Event>, a: AggregateId, i: nat)
    requires InSequence(events, a) && i < |events|
    ensures InSequence(events[..i], a) && (events[i].aggregate == a ==> events[i].version == Latest(events[..i], a) + 1)
  {
    var rest := events[..|events| - 1];
    if i < |rest| {
      InSequenceAt(rest, a, i);
      assert rest[..i] == events[..i];
    }
  }

  ghost predicate VersionsHeld(s: System) {
    && (forall h :: h in s.jobs && HasRead(s.jobs[h].pc) ==>
          0 <= s.jobs[h].pc.latest <= Latest(s.events, s.jobs[h].cmd.aggregate))
    && (forall h, a, v :: h in s.jobs && HoldsVersion(s.jobs[h], a, v) ==> !HasVersion(s.events, a, v))
    && (forall g, h, a, v :: g in s.jobs && h in s.jobs ==>
          (HoldsVersion(s.jobs[g], a, v) && HoldsVersion(s.jobs[h], a, v) ==> g == h))
  }

  lemma {:induction false} AtMostLatest(events: seq<Event>, i: nat)
    requires i < |events|
    ensures events[i].version <= Latest(events, events[i].aggregate)
  {
    if i != |events| - 1 {
      AtMostLatest(events[..|events| - 1], i);
    }
  }

  lemma LatestNonNegative(events: seq<Event>, a: AggregateId)
    ensures 0 <= Latest(events, a)
  {
  }

  lemma {:induction false} UpToLatestPresent(events: seq<Event>, a: AggregateId, v: int)
    requires InSequence(events, a) && 1 <= v <= Latest(events, a)
    ensures HasVersion(events, a, v)
  {
    var rest, e := events[..|events| - 1], events[|events| - 1];
    if v <= Latest(rest, a) {
      UpToLatestPresent(rest, a, v);
      var i :| 0 <= i < |rest| && rest[i].aggregate == a && rest[i].version == v;
      assert events[i] == rest[i];
    } else {
      assert e.version == Latest(rest, a) + 1;
    }
  }

  /** In sequence, the versions of an aggregate are exactly 1 up to its latest, in commit order. */
  lemma VersionsAreOneToLatest(events: seq<Event>, a: AggregateId)
    requires InSequence(events, a)
    ensures forall v :: HasVersion(events, a, v) <==> 1 <= v <= Latest(events, a)
    ensures forall i, j :: 0 <= i < j < |events| && events[i].aggregate == events[j].aggregate == a ==>
              events[i].version < events[j].version
  {
    forall v ensures HasVersion(events, a, v) <==> 1 <= v <= Latest(events, a) {
      VersionIffUpToLatest(events, a, v);
    }
    forall i, j | 0 <= i < j < |events| && events[i].aggregate == events[j].aggregate == a
      ensures events[i].version < events[j].version
    {
      InSequenceAt(events, a, j);
      AtMostLatest(events[..j], i);
    }
  }

  lemma VersionIffUpToLatest(events: seq<Event>, a: AggregateId, v: int)
    requires InSequence(events, a)
    ensures HasVersion(events, a, v) <==> 1 <= v <= Latest(events, a)
  {
    if HasVersion(events, a, v) {
      var i :| 0 <= i < |events| && events[i].aggregate == a && events[i].version == v;
      AtMostLatest(events, i);
      InSequenceAt(events, a, i);
      LatestNonNegative(events[..i], a);
    }
    if 1 <= v <= Latest(events, a) {
      UpToLatestPresent(events, a, v);
    }
  }

  lemma AppendInSequenceIff(events: seq<Event>, e: Event, a: AggregateId)
    ensures InSequence(events + [e], a) <==>
      InSequence(events, a) && (e.aggregate == a ==> e.version == Latest(events, a) + 1)
  {
    assert (events + [e])[..|events|] == events;
  }

  lemma LatestAppended(events: seq<Event>, e: Event, a: AggregateId)
    ensures Latest(events, a) <= Latest(events + [e], a)
    ensures e.aggregate == a ==> e.version <= Latest(events + [e], a)
  {
    assert (events + [e])[..|events|] == events;
  }

  lemma HasVersionAppended(events: seq<Event>, e: Event, a: AggregateId, v: int)
    ensures HasVersion(events + [e], a, v) <==> HasVersion(events, a, v) || (e.aggregate == a && e.version == v)
  {
    var next := events + [e];
    assert next[|events|] == e;
    if i :| 0 <= i < |events| && events[i].aggregate == a && events[i].version == v { assert next[i] == events[i]; }
  }

  /** An appended event that follows the latest version keeps the versions held by open transactions free. */
  lemma AppendKeepsVersions(s: System, s': System, e: Event)
    requires AllInSequence(s.events) && VersionsHeld(s)
    requires s'.events == s.events + [e] && e.version == Latest(s.events, e.aggregate) + 1
    requires forall h :: h in s'.jobs && HasRead(s'.jobs[h].pc) ==>
               h in s.jobs && s.jobs[h] == s'.jobs[h] && !HoldsVersion(s'.jobs[h], e.aggregate, e.version)
    ensures AllInSequence(s'.events) && VersionsHeld(s')
  {
    forall a ensures InSequence(s'.events, a) { AppendInSequenceIff(s.events, e, a); }
    forall h | h in s'.jobs && HasRead(s'.jobs[h].pc)
      ensures 0 <= s'.jobs[h].pc.latest <= Latest(s'.events, s'.jobs[h].cmd.aggregate)
    {
      LatestAppended(s.events, e, s'.jobs[h].cmd.aggregate);
    }
    forall h, x, v | h in s'.jobs && HoldsVersion(s'.jobs[h], x, v)
      ensures !HasVersion(s'.events, x, v)
    {
      HasVersionAppended(s.events, e, x, v);
    }
  }

  lemma CommitKeepsVersions(s: System, h: nat)
    requires AllInSequence(s.events) && VersionsHeld(s) && h in s.jobs && s.jobs[h].pc.Appended?
    ensures AllInSequence(Committed(s, h).events) && VersionsHeld(Committed(s, h))
  {
    var e := NewEvent(s.jobs[h], h);
    assert HoldsVersion(s.jobs[h], e.aggregate, e.version);
    VersionIffUpToLatest(s.events, e.aggregate, e.version);
    AppendKeepsVersions(s, Committed(s, h), e);
  }

  /** What position a handler may take without committing, as far as versions go. */
  ghost predicate HoldsFree(s: System, h: nat, pc: Pc)
    requires h in s.jobs
  {
    var a := s.jobs[h].cmd.aggregate;
    && (HasRead(pc) ==> 0 <= pc.latest <= Latest(s.events, a))
    && (pc.Appended? ==> !HasVersion(s.events, a, pc.latest + 1) && !VersionBusy(s, Some(h), a, pc.latest + 1))
  }

  lemma NextPcHoldsFree(s: System, a: Action)
    requires s.unique && VersionsHeld(s) && !a.Arrive? && !a.OutboxAppend? && a.h in s.jobs
    requires NextPc(s, s.jobs[a.h], a) != s.jobs[a.h].pc
    ensures HoldsFree(s, a.h, NextPc(s, s.jobs[a.h], a))
  {
    LatestNonNegative(s.events, s.jobs[a.h].cmd.aggregate);
  }

  lemma MoveKeepsVersions(s: System, h: nat, pc: Pc)
    requires VersionsHeld(s) && h in s.jobs && HoldsFree(s, h, pc)
    ensures VersionsHeld(At(s, h, pc))
  {
    var s' := At(s, h, pc);
    forall g, a, v | g in s'.jobs && g != h && HoldsVersion(s'.jobs[g], a, v)
      ensures g in s.jobs && HoldsVersion(s.jobs[g], a, v)
    {
    }
  }

  lemma StepKeepsVersions(s: System, a: Action)
    requires VersionInv(s)
    ensures VersionInv(Step(s, a))
  {
    if a.OutboxAppend? {
      if Step(s, a) != s {
        VersionIffUpToLatest(s.events, a.aggregate, 1);
        LatestNonNegative(s.events, a.aggregate);
        AppendKeepsVersions(s, Step(s, a), Event(a.aggregate, 1, "", a.eventType, Outbox));
      }
    } else if !a.Arrive? && a.h in s.jobs {
      if a.Commit? && a.ok && s.jobs[a.h].pc.Appended? {
        CommitKeepsVersions(s, a.h);
      } else if NextPc(s, s.jobs[a.h], a) != s.jobs[a.h].pc {
        NextPcHoldsFree(s, a);
        MoveKeepsVersions(s, a.h, NextPc(s, s.jobs[a.h], a));
      }
    }
  }

  ghost predicate AllInSequence(events: seq<Event>) {
    forall a :: InSequence(events, a)
  }

  ghost predicate VersionInv(s: System) {
    s.unique && AllInSequence(s.events) && VersionsHeld(s)
  }

  /** Main result on versions: if the store rejects a second (aggregate, version), then over every
      interleaving each aggregate's events are committed as 1, 2, ..., n in that order. */
  lemma VersionsStayInSequence(actions: seq<Action>)
    ensures VersionInv(Exec(Step, Start(true), actions))
  {
    forall s, a | VersionInv(s) ensures VersionInv(Step(s, a)) { StepKeepsVersions(s, a); }
    ExecKeeps(Step, VersionInv, Start(true), actions);
  }

  /** Where the events of an aggregate are in sequence, as always where repeats are rejected, one accepted
      under ExpectedVersion >= 0 directly follows that version at its commit. */
  lemma ExpectedVersionIsPredecessor(unique: bool, actions: seq<Action>, h: nat)
    requires Finished(Exec(Step, Start(unique), actions), h)
    requires Exec(Step, Start(unique), actions).jobs[h].cmd.expected >= 0
    ensures var s := Exec(Step, Start(unique), actions);
      var a := s.jobs[h].cmd.aggregate;
      && (unique ==> InSequence(s.events, a))
      && (InSequence(s.events, a) ==>
            exists i :: 0 <= i < |s.events| && s.events[i].writer == Handler(h)
              && Latest(s.events[..i], a) == s.jobs[h].cmd.expected)
  {
    var s := Exec(Step, Start(unique), actions);
    AtMostOnceAndAllOrNothing(unique, actions);
    if unique { VersionsStayInSequence(actions); }
    assert HasEvent(s.events, h, s.jobs[h]);
    var i :| 0 <= i < |s.events| && EventOf(s.events[i], h, s.jobs[h]);
    if InSequence(s.events, s.jobs[h].cmd.aggregate) { InSequenceAt(s.events, s.jobs[h].cmd.aggregate, i); }
  }

  /** The poller appends everything as version 1: where versions are unique, an aggregate that has any
      event never takes another from the outbox. */
  lemma OutboxOnlyOpensStreams(s: System, a: AggregateId, eventType: string)
    requires s.unique && InSequence(s.events, a)
    ensures Latest(s.events, a) != 0 ==> Step(s, OutboxAppend(a, eventType)) == s
  {
    VersionIffUpToLatest(s.events, a, 1);
    LatestNonNegative(s.events, a);
  }

  // ---- Exactly when versions stay in sequence, on either kind of store ----

  predicate ReadsVersion(s: System, a: Action, h: nat) {
    a.GetLatestVersion? && a.h == h && h in s.jobs && s.jobs[h].pc.Checked? && NextPc(s, s.jobs[h], a).Ready?
  }

  /** The poller's append is accepted. */
  predicate Posts(s: System, a: Action) {
    a.OutboxAppend? && Step(s, a) != s
  }

  /** `events` holds one of aggregate `a` at position `from` or later. */
  ghost predicate TouchedFrom(events: seq<Event>, a: AggregateId, from: nat) {
    exists k :: from <= k < |events| && events[k].aggregate == a
  }

  ghost function State(unique: bool, actions: seq<Action>, i: nat): System
    requires i <= |actions|
  {
    Along(Step, Start(unique), actions, i)
  }

  /** Action `i` commits a handler's event to aggregate `x`, and since that handler read its version
      somebody else has added an event to `x`. */
  ghost predicate Disturbed(unique: bool, actions: seq<Action>, i: nat, x: AggregateId)
    requires i < |actions|
  {
    var s := State(unique, actions, i);
    && Commits(s, actions[i]) && s.jobs[actions[i].h].cmd.aggregate == x
    && exists j: nat :: j < i && ReadsVersion(State(unique, actions, j), actions[j], actions[i].h)
         && TouchedFrom(s.events, x, |State(unique, actions, j).events|)
  }

  /** Action `i` appends a row of the outbox to aggregate `x`, which already has an event. */
  ghost predicate Reposted(unique: bool, actions: seq<Action>, i: nat, x: AggregateId)
    requires i < |actions|
  {
    var s := State(unique, actions, i);
    Posts(s, actions[i]) && actions[i].aggregate == x && TouchedFrom(s.events, x, 0)
  }

  lemma StateStep(unique: bool, actions: seq<Action>, i: nat)
    requires i < |actions|
    ensures State(unique, actions, i + 1) == Step(State(unique, actions, i), actions[i])
  {
    AlongStep(Step, Start(unique), actions, i);
  }

  lemma {:induction false} EventsGrow(unique: bool, actions: seq<Action>, j: nat, i: nat)
    requires j <= i <= |actions|
    ensures State(unique, actions, j).events <= State(unique, actions, i).events
  {
    if j < i {
      EventsGrow(unique, actions, j, i - 1);
      StateStep(unique, actions, i - 1);
    }
  }

  /** A handler that has read its version keeps it until it is done. */
  lemma ReadStays(s: System, a: Action, h: nat)
    requires h in s.jobs && (HasRead(s.jobs[h].pc) || s.jobs[h].pc.Done?)
    ensures var s' := Step(s, a);
      && h in s'.jobs && s'.jobs[h].cmd == s.jobs[h].cmd
      && (s'.jobs[h].pc.Done? || (HasRead(s.jobs[h].pc) && HasRead(s'.jobs[h].pc)
                                  && s'.jobs[h].pc.latest == s.jobs[h].pc.latest))
  {
  }

  /** And what it has read is the latest version at the time. */
  lemma {:induction false} HoldsWhatItRead(unique: bool, actions: seq<Action>, j: nat, i: nat, h: nat)
    requires j < i <= |actions| && ReadsVersion(State(unique, actions, j), actions[j], h)
    ensures var s, r := State(unique, actions, i), State(unique, actions, j);
      && h in s.jobs && s.jobs[h].cmd == r.jobs[h].cmd
      && (s.jobs[h].pc.Done? || (HasRead(s.jobs[h].pc) && s.jobs[h].pc.latest == Latest(r.events, r.jobs[h].cmd.aggregate)))
    decreases i
  {
    StateStep(unique, actions, i - 1);
    if j < i - 1 {
      HoldsWhatItRead(unique, actions, j, i - 1, h);
      ReadStays(State(unique, actions, i - 1), actions[i - 1], h);
    }
  }

  /** A handler that has read its version did so at some point of the run. */
  lemma {:induction false} ReadBefore(unique: bool, actions: seq<Action>, i: nat, h: nat) returns (j: nat)
    requires i <= |actions| && h in State(unique, actions, i).jobs && HasRead(State(unique, actions, i).jobs[h].pc)
    ensures j < i && ReadsVersion(State(unique, actions, j), actions[j], h)
    decreases i
  {
    assert State(unique, actions, 0) == Start(unique);
    StateStep(unique, actions, i - 1);
    var s := State(unique, actions, i - 1);
    ReadsOnce(s, actions[i - 1], h);
    if h in s.jobs && HasRead(s.jobs[h].pc) {
      j := ReadBefore(unique, actions, i - 1, h);
    } else {
      j := i - 1;
    }
  }

  lemma ReadsOnce(s: System, a: Action, h: nat)
    requires h in Step(s, a).jobs && HasRead(Step(s, a).jobs[h].pc)
    ensures ReadsVersion(s, a, h) || (h in s.jobs && HasRead(s.jobs[h].pc))
  {
  }

  /** In sequence, the latest version of an aggregate has moved exactly when an event was added to it. */
  lemma {:induction false} LatestMovesIffTouched(events: seq<Event>, a: AggregateId, from: nat)
    requires InSequence(events, a) && from <= |events|
    ensures Latest(events[..from], a) <= Latest(events, a)
    ensures Latest(events[..from], a) == Latest(events, a) <==> !TouchedFrom(events, a, from)
  {
    if from == |events| {
      assert events[..from] == events;
    } else {
      var rest := events[..|events| - 1];
      assert rest[..from] == events[..from];
      LatestMovesIffTouched(rest, a, from);
      OneMoreTouched(events, a, from);
    }
  }

  lemma OneMoreTouched(events: seq<Event>, a: AggregateId, from: nat)
    requires from < |events|
    ensures TouchedFrom(events, a, from) <==>
      TouchedFrom(events[..|events| - 1], a, from) || events[|events| - 1].aggregate == a
  {
    var rest := events[..|events| - 1];
    if k :| from <= k < |rest| && rest[k].aggregate == a { assert events[k] == rest[k]; }
    if k :| from <= k < |events| && events[k].aggregate == a && k < |rest| { assert events[k] == rest[k]; }
  }

  /** A handler in its transaction holds the latest version exactly if nobody has added to its aggregate
      since action `j`, with which it read the version. */
  lemma LatestIffUntouchedSince(unique: bool, actions: seq<Action>, i: nat, h: nat, j: nat)
    requires j < i <= |actions| && ReadsVersion(State(unique, actions, j), actions[j], h)
    requires h in State(unique, actions, i).jobs && HasRead(State(unique, actions, i).jobs[h].pc)
    requires InSequence(State(unique, actions, i).events, State(unique, actions, i).jobs[h].cmd.aggregate)
    ensures var s := State(unique, actions, i);
      var a := s.jobs[h].cmd.aggregate;
      s.jobs[h].pc.latest == Latest(s.events, a) <==> !TouchedFrom(s.events, a, |State(unique, actions, j).events|)
  {
    var s, r := State(unique, actions, i), State(unique, actions, j);
    HoldsWhatItRead(unique, actions, j, i, h);
    EventsGrow(unique, actions, j, i);
    assert s.events[..|r.events|] == r.events;
    LatestMovesIffTouched(s.events, s.jobs[h].cmd.aggregate, |r.events|);
  }

  lemma CommitInSequenceIff(unique: bool, actions: seq<Action>, i: nat, x: AggregateId)
    requires i < |actions| && Commits(State(unique, actions, i), actions[i])
    requires State(unique, actions, i).jobs[actions[i].h].cmd.aggregate == x
    requires InSequence(State(unique, actions, i).events, x)
    ensures InSequence(State(unique, actions, i + 1).events, x) <==> !Disturbed(unique, actions, i, x)
  {
    var s, h := State(unique, actions, i), actions[i].h;
    StateStep(unique, actions, i);
    AppendInSequenceIff(s.events, NewEvent(s.jobs[h], h), x);
    if Disturbed(unique, actions, i, x) {
      var j: nat :| j < i && ReadsVersion(State(unique, actions, j), actions[j], h)
        && TouchedFrom(s.events, x, |State(unique, actions, j).events|);
      LatestIffUntouchedSince(unique, actions, i, h, j);
    } else {
      var j := ReadBefore(unique, actions, i, h);
      LatestIffUntouchedSince(unique, actions, i, h, j);
    }
  }

  lemma PostInSequenceIff(unique: bool, actions: seq<Action>, i: nat, x: AggregateId)
    requires i < |actions| && Posts(State(unique, actions, i), actions[i]) && actions[i].aggregate == x
    requires InSequence(State(unique, actions, i).events, x)
    ensures InSequence(State(unique, actions, i + 1).events, x) <==> !Reposted(unique, actions, i, x)
  {
    var s, a := State(unique, actions, i), actions[i];
    StateStep(unique, actions, i);
    AppendInSequenceIff(s.events, Event(x, 1, "", a.eventType, Outbox), x);
    LatestMovesIffTouched(s.events, x, 0);
  }

  lemma StepInSequenceIff(unique: bool, actions: seq<Action>, i: nat, x: AggregateId)
    requires i < |actions|
    ensures InSequence(State(unique, actions, i + 1).events, x) <==>
      InSequence(State(unique, actions, i).events, x) && KeepsSequence(unique, actions, i, x)
  {
    var s, a := State(unique, actions, i), actions[i];
    StateStep(unique, actions, i);
    if Commits(s, a) {
      AppendInSequenceIff(s.events, NewEvent(s.jobs[a.h], a.h), x);
      if s.jobs[a.h].cmd.aggregate == x && InSequence(s.events, x) { CommitInSequenceIff(unique, actions, i, x); }
    } else if Posts(s, a) {
      AppendInSequenceIff(s.events, Event(a.aggregate, 1, "", a.eventType, Outbox), x);
      if a.aggregate == x && InSequence(s.events, x) { PostInSequenceIff(unique, actions, i, x); }
    }
  }

  ghost predicate KeepsSequence(unique: bool, actions: seq<Action>, i: nat, x: AggregateId)
    requires i < |actions|
  {
    !Disturbed(unique, actions, i, x) && !Reposted(unique, actions, i, x)
  }

  lemma {:induction false} InSequenceUpTo(unique: bool, actions: seq<Action>, n: nat, x: AggregateId)
    requires n <= |actions|
    ensures InSequence(State(unique, actions, n).events, x)
       <==> forall i: nat :: i < n ==> KeepsSequence(unique, actions, i, x)
    decreases n
  {
    if n == 0 {
      assert State(unique, actions, 0) == Start(unique);
    } else {
      InSequenceUpTo(unique, actions, n - 1, x);
      StepInSequenceIff(unique, actions, n - 1, x);
    }
  }

  /** Main result on the store as it is: over every interleaving, on a store that rejects repeated versions
      or not, the events of an aggregate are 1, 2, ..., n if and only if no handler commits to it after
      somebody has added to it since that handler read the version, and no row of the outbox is appended to
      it once it has an event. What happens to other aggregates plays no part. */
  lemma InSequenceIffUndisturbed(unique: bool, actions: seq<Action>, x: AggregateId)
    ensures InSequence(Exec(Step, Start(unique), actions).events, x)
       <==> forall i: nat :: i < |actions| ==> KeepsSequence(unique, actions, i, x)
  {
    InSequenceUpTo(unique, actions, |actions|, x);
    assert actions[..|actions|] == actions;
  }

  /** Each event of `a` carries at most the version after the latest one. */
  ghost predicate WithoutGaps(events: seq<Event>, a: AggregateId) {
    events != [] ==>
      var rest, e := events[..|events| - 1], events[|events| - 1];
      WithoutGaps(rest, a) && (e.aggregate == a ==> 1 <= e.version <= Latest(rest, a) + 1)
  }

  ghost predicate ReadsAreOld(s: System) {
    forall h :: h in s.jobs && HasRead(s.jobs[h].pc) ==>
      0 <= s.jobs[h].pc.latest <= Latest(s.events, s.jobs[h].cmd.aggregate)
  }

  ghost predicate GapInv(s: System) {
    (forall a :: WithoutGaps(s.events, a)) && ReadsAreOld(s)
  }

  lemma AppendKeepsGapInv(s: System, s': System, e: Event)
    requires GapInv(s) && s'.events == s.events + [e] && 1 <= e.version <= Latest(s.events, e.aggregate) + 1
    requires forall h :: h in s'.jobs && HasRead(s'.jobs[h].pc) ==> h in s.jobs && s.jobs[h] == s'.jobs[h]
    ensures GapInv(s')
  {
    assert s'.events[..|s.events|] == s.events;
    forall h | h in s'.jobs && HasRead(s'.jobs[h].pc)
      ensures 0 <= s'.jobs[h].pc.latest <= Latest(s'.events, s'.jobs[h].cmd.aggregate)
    {
      LatestAppended(s.events, e, s'.jobs[h].cmd.aggregate);
    }
  }

  lemma StepKeepsGapInv(s: System, a: Action)
    requires GapInv(s)
    ensures GapInv(Step(s, a))
  {
    if Posts(s, a) {
      LatestNonNegative(s.events, a.aggregate);
      AppendKeepsGapInv(s, Step(s, a), Event(a.aggregate, 1, "", a.eventType, Outbox));
    } else if Commits(s, a) {
      AppendKeepsGapInv(s, Step(s, a), NewEvent(s.jobs[a.h], a.h));
    } else {
      forall h | h in Step(s, a).jobs && HasRead(Step(s, a).jobs[h].pc)
        ensures 0 <= Step(s, a).jobs[h].pc.latest <= Latest(s.events, Step(s, a).jobs[h].cmd.aggregate)
      {
        ReadsOnce(s, a, h);
        LatestNonNegative(s.events, Step(s, a).jobs[h].cmd.aggregate);
        if h in s.jobs && HasRead(s.jobs[h].pc) { ReadStays(s, a, h); }
      }
    }
  }

  /** On either kind of store no version is ever left out: what can go wrong is that one is repeated. */
  lemma NoVersionLeftOut(unique: bool, actions: seq<Action>, a: AggregateId)
    ensures WithoutGaps(Exec(Step, Start(unique), actions).events, a)
  {
    forall s, a | GapInv(s) ensures GapInv(Step(s, a)) { StepKeepsGapInv(s, a); }
    ExecKeeps(Step, GapInv, Start(unique), actions);
  }

  /** How many events of `a` there are. */
  function CountOf(events: seq<Event>, a: AggregateId): nat {
    if events == [] then 0
    else CountOf(events[..|events| - 1], a) + if events[|events| - 1].aggregate == a then 1 else 0
  }

  /** So an aggregate is in sequence exactly when it has as many events as its latest version says. */
  lemma {:induction false} InSequenceIffCounted(events: seq<Event>, a: AggregateId)
    requires WithoutGaps(events, a)
    ensures Latest(events, a) <= CountOf(events, a)
    ensures InSequence(events, a) <==> CountOf(events, a) == Latest(events, a)
  {
    if events != [] {
      InSequenceIffCounted(events[..|events| - 1], a);
    }
  }

  lemma TwoOnes(first: Event, second: Event)
    requires first.aggregate == second.aggregate && first.version == second.version == 1
    ensures forall x :: InSequence([first, second], x) <==> x != first.aggregate
  {
    assert [first, second][..1] == [first] && [first][..0] == [];
    assert Latest([first], first.aggregate) == 1;
    forall x ensures InSequence([first], x) { assert InSequence([], x); }
  }

  /** It fails without any handler: two rows of the outbox for one aggregate both become version 1. The
      other aggregates are not touched by that. */
  lemma TwoOutboxRowsShareVersionOne(a: AggregateId, first: string, second: string) returns (s: System)
    ensures Reaches(Step, Start(false), s) && s.jobs == map[]
    ensures forall x :: InSequence(s.events, x) <==> x != a
    ensures s.events == [Event(a, 1, "", first, Outbox), Event(a, 1, "", second, Outbox)]
  {
    var s0 := Start(false);
    var s1 := System(false, [Event(a, 1, "", first, Outbox)], map[], map[]);
    s := System(false, [Event(a, 1, "", first, Outbox), Event(a, 1, "", second, Outbox)], map[], map[]);
    Onward(Step, s0, s0, OutboxAppend(a, first));
    assert Step(s0, OutboxAppend(a, first)) == s1;
    Onward(Step, s0, s1, OutboxAppend(a, second));
    assert Step(s1, OutboxAppend(a, second)) == s;
    TwoOnes(s.events[0], s.events[1]);
  }

  /** Without unique versions the read outside the transaction is enough for a duplicate, even if the two
      transactions run one after the other: both handlers are told version 1 was accepted. */
  lemma DuplicateVersionHappens(cmd: Command, g: nat, h: nat) returns (s: System)
    requires g != h && cmd.key == "" && cmd.expected == 0
    ensures Reaches(Step, Start(false), s)
    ensures s.events == [Event(cmd.aggregate, 1, "", cmd.eventType, Handler(g)),
                         Event(cmd.aggregate, 1, "", cmd.eventType, Handler(h))]
    ensures g in s.jobs && s.jobs[g].pc == Done(Accepted(1)) && h in s.jobs && s.jobs[h].pc == Done(Accepted(1))
  {
    var w := Answers(true, true, true, true, true, true, true);
    var s0 := Start(false);
    var s1 := s0.(jobs := map[g := Job(cmd, Ready(0))]);
    OpenRuns(s0, g, cmd, w);
    var s2 := s1.(jobs := s1.jobs[h := Job(cmd, Ready(0))]);
    OpenRuns(s1, h, cmd, w);
    var s3 := Transacted(s2, g, cmd, Ready(0), w);
    TransactionRuns(s2, g, cmd, Ready(0), w);
    s := Transacted(s3, h, cmd, Ready(0), w);
    TransactionRuns(s3, h, cmd, Ready(0), w);
    Further(Step, s0, s1, s2);
    Further(Step, s0, s2, s3);
    Further(Step, s0, s3, s);
  }

  // ---- Rows of the outbox whose aggregate already has an event ----

  lemma {:induction false} LatestStays(unique: bool, actions: seq<Action>, a: AggregateId, j: nat, i: nat)
    requires j <= i <= |actions|
    ensures Latest(State(unique, actions, j).events, a) <= Latest(State(unique, actions, i).events, a)
    decreases i
  {
    if j < i {
      LatestStays(unique, actions, a, j, i - 1);
      StateStep(unique, actions, i - 1);
      var s := State(unique, actions, i - 1);
      if Step(s, actions[i - 1]).events != s.events {
        var e := Step(s, actions[i - 1]).events[|s.events|];
        assert Step(s, actions[i - 1]).events == s.events + [e];
        LatestAppended(s.events, e, a);
      }
    }
  }

  /** The two sides of the outbox together: on a store that rejects repeats, a pending row whose aggregate
      has an event by the time it is first tried is refused by every poll, whatever handlers and other rows
      do meanwhile, and abandoned. `moment(k)` is when poll `k` would append the row. */
  lemma RowOfAnOpenStreamIsAbandoned(actions: seq<Action>, moment: nat -> nat, a: AggregateId, eventType: string,
                                     t: OutboxPoller.Table, rounds: seq<OutboxPoller.Round>, i: nat)
    requires i < |t| && t[i].Pending() && OutboxPoller.AllHealthy(rounds)
    requires |rounds| == OutboxPoller.MAX_RETRIES * (OutboxPoller.CountPending(t[..i]) / OutboxPoller.BATCH)
                         + OutboxPoller.MAX_RETRIES
    requires forall k: nat :: k < |rounds| ==>
               && moment(0) <= moment(k) <= |actions|
               && (rounds[k].world.appends(i) <==>
                     Posts(State(true, actions, moment(k)), OutboxAppend(a, eventType)))
    requires moment(0) <= |actions| && Latest(State(true, actions, moment(0)).events, a) != 0
    ensures var u := OutboxPoller.After(t, rounds);
      i < |u| && !u[i].processed && OutboxPoller.MAX_RETRIES <= u[i].retries && u[i].appended == t[i].appended
  {
    forall k | 0 <= k < |rounds|
      ensures !rounds[k].world.appends(i)
    {
      var s := State(true, actions, moment(k));
      VersionsStayInSequence(actions[..moment(k)]);
      LatestStays(true, actions, a, moment(0), moment(k));
      LatestNonNegative(State(true, actions, moment(0)).events, a);
      OutboxOnlyOpensStreams(s, a, eventType);
    }
    OutboxPoller.RefusedRowIsAbandoned(t, rounds, i);
  }
}
