/** Appending an event: optimistic version check, idempotency key, one transaction; and many
    handlers (and the outbox poller) interleaving over one store. */
module AppendEvent {
  import opened Options
  import opened Runs

  type AggregateId = nat

  datatype Command = Command(aggregate: AggregateId, expected: int, key: string, eventType: string)

  datatype Writer = Handler(id: nat) | Outbox

  datatype Event = Event(aggregate: AggregateId, version: int, key: string, eventType: string, writer: Writer)

  datatype Outcome = Accepted(version: int) | Duplicate | Conflict | StoreError | NoRecord {
    /** NoRecord is reported after the transaction has committed. */
    predicate Committed() { Accepted? || NoRecord? }
  }

  /** How the store answers each call a handler makes. */
  datatype Answers = Answers(check: bool, read: bool, begin: bool, storeKey: bool, append: bool, record: bool, commit: bool)

  /** MAX(version), or 0 for an aggregate without events. */
  function Latest(events: seq<Event>, a: AggregateId): int {
    if events == [] then 0
    else
      var e, rest := events[|events| - 1], Latest(events[..|events| - 1], a);
      if e.aggregate == a && rest < e.version then e.version else rest
  }

  predicate HasVersion(events: seq<Event>, a: AggregateId, v: int) {
    exists i :: 0 <= i < |events| && events[i].aggregate == a && events[i].version == v
  }

  // ---- Handlers interleaving ----

  /** How far a handler has come; `latest` is the version it read. A transaction is open in InTx,
      KeyStored and Appended. */
  datatype Pc =
    | Arrived
    | Checked
    | Ready(latest: int)
    | InTx(latest: int)
    | KeyStored(latest: int)
    | Appended(latest: int, recorded: bool)
    | Done(outcome: Outcome)

  datatype Job = Job(cmd: Command, pc: Pc)

  /** `unique`: whether the store rejects a second event with the same aggregate and version. */
  datatype System = System(unique: bool, events: seq<Event>, keys: map<string, nat>, jobs: map<nat, Job>)

  datatype Action =
    | Arrive(h: nat, cmd: Command)
    | CheckIdempotency(h: nat, ok: bool)
    | GetLatestVersion(h: nat, ok: bool)
    | BeginTx(h: nat, ok: bool)
    | StoreIdempotency(h: nat, ok: bool)
    | AppendTx(h: nat, ok: bool, recorded: bool)
    | Commit(h: nat, ok: bool)
    | OutboxAppend(aggregate: AggregateId, eventType: string)

  predicate HoldsKey(j: Job, key: string) {
    key != "" && j.cmd.key == key && (j.pc.KeyStored? || j.pc.Appended?)
  }

  predicate HoldsVersion(j: Job, a: AggregateId, v: int) {
    j.pc.Appended? && j.cmd.aggregate == a && j.pc.latest + 1 == v
  }

  /** An open transaction of another handler makes this one wait. */
  predicate KeyBusy(s: System, h: nat, key: string) {
    exists g :: g in s.jobs && g != h && HoldsKey(s.jobs[g], key)
  }

  predicate VersionBusy(s: System, h: Option<nat>, a: AggregateId, v: int) {
    exists g :: g in s.jobs && h != Some(g) && HoldsVersion(s.jobs[g], a, v)
  }

  function At(s: System, h: nat, pc: Pc): System
    requires h in s.jobs
  {
    s.(jobs := s.jobs[h := s.jobs[h].(pc := pc)])
  }

  function NewEvent(j: Job, h: nat): Event
    requires j.pc.Appended?
  {
    Event(j.cmd.aggregate, j.pc.latest + 1, j.cmd.key, j.cmd.eventType, Handler(h))
  }

  function Committed(s: System, h: nat): System
    requires h in s.jobs && s.jobs[h].pc.Appended?
  {
    var j := s.jobs[h];
    var outcome := if j.pc.recorded then Accepted(j.pc.latest + 1) else NoRecord;
    System(s.unique, s.events + [NewEvent(j, h)], if j.cmd.key == "" then s.keys else s.keys[j.cmd.key := h],
           s.jobs[h := Job(j.cmd, Done(outcome))])
  }

  /** Where a handler goes next, other than by committing. */
  function NextPc(s: System, j: Job, a: Action): Pc
    requires !a.OutboxAppend?
  {
    match (a, j.pc)
    case (CheckIdempotency(h, ok), Arrived) =>
      if j.cmd.key == "" then Checked
      else if !ok then Done(StoreError)
      else if j.cmd.key in s.keys then Done(Duplicate)
      else Checked
    case (GetLatestVersion(h, ok), Checked) =>
      if !ok then Done(StoreError)
      else
        var latest := Latest(s.events, j.cmd.aggregate);
        if j.cmd.expected >= 0 && latest != j.cmd.expected then Done(Conflict) else Ready(latest)
    case (BeginTx(h, ok), Ready(latest)) =>
      if ok then InTx(latest) else Done(StoreError)
    case (StoreIdempotency(h, ok), InTx(latest)) =>
      if j.cmd.key == "" then KeyStored(latest)
      else if !ok then Done(StoreError)
      else if j.cmd.key in s.keys then Done(Duplicate)
      else if KeyBusy(s, h, j.cmd.key) then j.pc
      else KeyStored(latest)
    case (AppendTx(h, ok, recorded), KeyStored(latest)) =>
      if !ok || (s.unique && HasVersion(s.events, j.cmd.aggregate, latest + 1)) then Done(StoreError)
      else if s.unique && VersionBusy(s, Some(h), j.cmd.aggregate, latest + 1) then j.pc
      else Appended(latest, recorded)
    case (Commit(h, ok), Appended(latest, recorded)) => Done(StoreError)
    case _ => j.pc
  }

  function Step(s: System, a: Action): System {
    if a.Arrive? then
      if a.h in s.jobs then s else s.(jobs := s.jobs[a.h := Job(a.cmd, Arrived)])
    else if a.OutboxAppend? then
      if s.unique && (HasVersion(s.events, a.aggregate, 1) || VersionBusy(s, None, a.aggregate, 1)) then s
      else s.(events := s.events + [Event(a.aggregate, 1, "", a.eventType, Outbox)])
    else if a.h !in s.jobs then s
    else if a.Commit? && a.ok && s.jobs[a.h].pc.Appended? then Committed(s, a.h)
    else if NextPc(s, s.jobs[a.h], a) == s.jobs[a.h].pc then s
    else At(s, a.h, NextPc(s, s.jobs[a.h], a))
  }

  predicate Commits(s: System, a: Action) {
    a.Commit? && a.ok && a.h in s.jobs && s.jobs[a.h].pc.Appended?
  }

  function Start(unique: bool): System {
    System(unique, [], map[], map[])
  }

  // ---- Idempotency: with or without unique versions ----

  ghost predicate KeysUnique(s: System) {
    && (forall i :: 0 <= i < |s.events| && s.events[i].key != "" ==>
          s.events[i].key in s.keys && s.events[i].writer == Handler(s.keys[s.events[i].key]))
    && (forall i, j :: 0 <= i < j < |s.events| && s.events[i].key != "" ==> s.events[i].key != s.events[j].key)
    && (forall h, k :: h in s.jobs && HoldsKey(s.jobs[h], k) ==> k !in s.keys)
    && (forall g, h, k :: g in s.jobs && h in s.jobs && HoldsKey(s.jobs[g], k) && HoldsKey(s.jobs[h], k) ==> g == h)
  }

  /** A handler has an event, and its key if it has one, exactly when it has committed; and only one. */
  ghost predicate AllOrNothing(s: System) {
    WritesAreFinished(s) && FinishedHaveKeys(s) && FinishedHaveEvents(s) && OneEventEach(s.events)
  }

  ghost predicate WritesAreFinished(s: System) {
    && (forall i :: 0 <= i < |s.events| && s.events[i].writer.Handler? ==> Finished(s, s.events[i].writer.id))
    && (forall k :: k in s.keys ==> Finished(s, s.keys[k]) && k == s.jobs[s.keys[k]].cmd.key && k != "")
  }

  ghost predicate FinishedHaveKeys(s: System) {
    forall h :: Finished(s, h) && s.jobs[h].cmd.key != "" ==>
      s.jobs[h].cmd.key in s.keys && s.keys[s.jobs[h].cmd.key] == h
  }

  ghost predicate FinishedHaveEvents(s: System) {
    forall h :: Finished(s, h) ==> HasEvent(s.events, h, s.jobs[h])
  }

  ghost predicate OneEventEach(events: seq<Event>) {
    forall i, j :: 0 <= i < j < |events| && events[i].writer.Handler? ==> events[i].writer != events[j].writer
  }

  ghost predicate HasEvent(events: seq<Event>, h: nat, j: Job)
    requires j.pc.Done?
  {
    exists i :: 0 <= i < |events| && EventOf(events[i], h, j)
  }

  lemma HasEventGrows(events: seq<Event>, e: Event, h: nat, j: Job)
    requires j.pc.Done? && (HasEvent(events, h, j) || EventOf(e, h, j))
    ensures HasEvent(events + [e], h, j)
  {
    var next := events + [e];
    if i :| 0 <= i < |events| && EventOf(events[i], h, j) {
      assert next[i] == events[i];
    } else {
      assert next[|events|] == e;
    }
  }

  ghost predicate Finished(s: System, h: nat) {
    h in s.jobs && s.jobs[h].pc.Done? && s.jobs[h].pc.outcome.Committed()
  }

  /** `e` is what job `j` of handler `h` was to append, under the version it reported. */
  ghost predicate EventOf(e: Event, h: nat, j: Job)
    requires j.pc.Done?
  {
    && e.writer == Handler(h)
    && e.aggregate == j.cmd.aggregate && e.key == j.cmd.key && e.eventType == j.cmd.eventType
    && (j.pc.outcome.Accepted? ==> e.version == j.pc.outcome.version)
    && (j.cmd.expected >= 0 ==> e.version == j.cmd.expected + 1)
  }

  /** A handler past the version check read the version it was told to expect. */
  ghost predicate ReadsMatch(s: System) {
    forall h :: h in s.jobs && HasRead(s.jobs[h].pc) && s.jobs[h].cmd.expected >= 0 ==>
      s.jobs[h].pc.latest == s.jobs[h].cmd.expected
  }

  predicate HasRead(pc: Pc) {
    pc.Ready? || pc.InTx? || pc.KeyStored? || pc.Appended?
  }

  ghost predicate Inv(s: System) {
    KeysUnique(s) && AllOrNothing(s) && ReadsMatch(s)
  }

  /** What a handler may do to its own position without committing. */
  ghost predicate LegalMove(s: System, h: nat, pc: Pc)
    requires h in s.jobs
  {
    var j := s.jobs[h];
    && !j.pc.Done? && (pc.Done? ==> !pc.outcome.Committed())
    && (HasRead(pc) && j.cmd.expected >= 0 ==> pc.latest == j.cmd.expected)
    && (forall k :: HoldsKey(Job(j.cmd, pc), k) ==> k !in s.keys && !KeyBusy(s, h, k))
  }

  lemma NextPcIsLegal(s: System, a: Action)
    requires Inv(s) && !a.Arrive? && !a.OutboxAppend? && a.h in s.jobs
    requires NextPc(s, s.jobs[a.h], a) != s.jobs[a.h].pc
    ensures LegalMove(s, a.h, NextPc(s, s.jobs[a.h], a))
  {
    var j, pc := s.jobs[a.h], NextPc(s, s.jobs[a.h], a);
    forall k | HoldsKey(Job(j.cmd, pc), k)
      ensures k !in s.keys && !KeyBusy(s, a.h, k)
    {
      if j.pc.KeyStored? { assert HoldsKey(j, k); }
    }
  }

  lemma MoveKeepsKeys(s: System, h: nat, pc: Pc)
    requires KeysUnique(s) && h in s.jobs && LegalMove(s, h, pc)
    ensures KeysUnique(At(s, h, pc))
  {
  }

  lemma MoveKeepsAllOrNothing(s: System, h: nat, pc: Pc)
    requires AllOrNothing(s) && ReadsMatch(s) && h in s.jobs && LegalMove(s, h, pc)
    ensures AllOrNothing(At(s, h, pc)) && ReadsMatch(At(s, h, pc))
  {
    var s' := At(s, h, pc);
    forall g ensures Finished(s', g) <==> Finished(s, g) {}
    forall g | Finished(s', g) ensures s'.jobs[g] == s.jobs[g] { assert Finished(s, g); }
  }

  lemma ArriveKeepsInv(s: System, s': System, h: nat, cmd: Command)
    requires Inv(s) && h !in s.jobs && s' == s.(jobs := s.jobs[h := Job(cmd, Arrived)])
    ensures Inv(s')
  {
    forall g ensures Finished(s', g) <==> Finished(s, g) {}
    forall g | Finished(s', g) ensures s'.jobs[g] == s.jobs[g] { assert Finished(s, g); }
    forall g, k | g in s'.jobs && HoldsKey(s'.jobs[g], k) ensures g in s.jobs && s'.jobs[g] == s.jobs[g] {}
    assert KeysUnique(s');
  }

  lemma CommitKeepsKeys(s: System, h: nat)
    requires KeysUnique(s) && h in s.jobs && s.jobs[h].pc.Appended?
    ensures KeysUnique(Committed(s, h))
  {
    var s', key := Committed(s, h), s.jobs[h].cmd.key;
    assert key != "" ==> HoldsKey(s.jobs[h], key);
    forall g, k | g in s'.jobs && HoldsKey(s'.jobs[g], k)
      ensures g != h && HoldsKey(s.jobs[g], k) && k !in s'.keys
    {
    }
  }

  lemma CommitFinishes(s: System, h: nat)
    requires h in s.jobs && s.jobs[h].pc.Appended?
    ensures !Finished(s, h)
    ensures forall g :: Finished(Committed(s, h), g) <==> Finished(s, g) || g == h
    ensures forall g :: Finished(s, g) ==> Committed(s, h).jobs[g] == s.jobs[g]
  {
  }

  lemma CommitKeepsEvents(s: System, h: nat)
    requires WritesAreFinished(s) && FinishedHaveEvents(s) && OneEventEach(s.events) && ReadsMatch(s)
    requires h in s.jobs && s.jobs[h].pc.Appended?
    ensures FinishedHaveEvents(Committed(s, h)) && OneEventEach(Committed(s, h).events)
  {
    CommitFinishes(s, h);
    var s', e := Committed(s, h), NewEvent(s.jobs[h], h);
    forall g | Finished(s', g)
      ensures HasEvent(s'.events, g, s'.jobs[g])
    {
      if g == h { assert EventOf(e, g, s'.jobs[g]); }
      HasEventGrows(s.events, e, g, s'.jobs[g]);
    }
  }

  lemma CommitKeepsWrites(s: System, h: nat)
    requires WritesAreFinished(s) && FinishedHaveKeys(s) && KeysUnique(s)
    requires h in s.jobs && s.jobs[h].pc.Appended?
    ensures WritesAreFinished(Committed(s, h)) && FinishedHaveKeys(Committed(s, h))
  {
    CommitFinishes(s, h);
    assert s.jobs[h].cmd.key != "" ==> HoldsKey(s.jobs[h], s.jobs[h].cmd.key);
  }

  lemma OutboxKeepsKeys(s: System, e: Event)
    requires KeysUnique(s) && e.key == ""
    ensures KeysUnique(s.(events := s.events + [e]))
  {
  }

  lemma OutboxKeepsAllOrNothing(s: System, e: Event)
    requires AllOrNothing(s) && e.writer.Outbox?
    ensures AllOrNothing(s.(events := s.events + [e]))
  {
    var s' := s.(events := s.events + [e]);
    forall g ensures Finished(s', g) <==> Finished(s, g) {}
    forall g | Finished(s', g)
      ensures HasEvent(s'.events, g, s'.jobs[g])
    {
      HasEventGrows(s.events, e, g, s.jobs[g]);
    }
  }

  lemma StepKeepsInv(s: System, a: Action)
    requires Inv(s)
    ensures Inv(Step(s, a))
  {
    if a.Arrive? {
      if a.h !in s.jobs { ArriveKeepsInv(s, Step(s, a), a.h, a.cmd); }
    } else if a.OutboxAppend? {
      OutboxKeepsKeys(s, Event(a.aggregate, 1, "", a.eventType, Outbox));
      OutboxKeepsAllOrNothing(s, Event(a.aggregate, 1, "", a.eventType, Outbox));
    } else if a.h in s.jobs {
      if a.Commit? && a.ok && s.jobs[a.h].pc.Appended? {
        CommitKeepsKeys(s, a.h);
        CommitKeepsEvents(s, a.h);
        CommitKeepsWrites(s, a.h);
      } else if NextPc(s, s.jobs[a.h], a) != s.jobs[a.h].pc {
        NextPcIsLegal(s, a);
        MoveKeepsKeys(s, a.h, NextPc(s, s.jobs[a.h], a));
        MoveKeepsAllOrNothing(s, a.h, NextPc(s, s.jobs[a.h], a));
      }
    }
  }

  lemma ReachableInv(unique: bool, s: System)
    requires Reaches(Step, Start(unique), s)
    ensures Inv(s)
  {
    forall s, a | Inv(s) ensures Inv(Step(s, a)) { StepKeepsInv(s, a); }
    assert Kept(Step, Inv) && Inv(Start(unique));
  }

  /** Main result on idempotency: over every interleaving, at most one event per non-empty key, and a
      handler leaves its event and its key if it committed and neither if it did not. */
  lemma AtMostOnceAndAllOrNothing(unique: bool, actions: seq<Action>)
    ensures var s := Exec(Step, Start(unique), actions);
      && (forall i, j :: 0 <= i < j < |s.events| && s.events[i].key != "" ==> s.events[i].key != s.events[j].key)
      && WritesAreFinished(s) && FinishedHaveKeys(s) && FinishedHaveEvents(s) && OneEventEach(s.events)
  {
    ARunReaches(Step, Start(unique), actions);
    ReachableInv(unique, Exec(Step, Start(unique), actions));
  }

  /** In particular, a handler that ends without committing leaves neither an event nor a key. */
  lemma FailedHandlerLeavesNothing(unique: bool, actions: seq<Action>, h: nat)
    requires !Finished(Exec(Step, Start(unique), actions), h)
    ensures var s := Exec(Step, Start(unique), actions);
      && (forall i :: 0 <= i < |s.events| ==> s.events[i].writer != Handler(h))
      && (forall k :: k in s.keys ==> s.keys[k] != h)
  {
    AtMostOnceAndAllOrNothing(unique, actions);
  }

  // ---- One handler's steps in a row ----

  /** Where the two reads before the transaction leave a new handler. */
  function Opened(s: System, cmd: Command, w: Answers): Pc {
    if cmd.key != "" && !w.check then Done(StoreError)
    else if cmd.key != "" && cmd.key in s.keys then Done(Duplicate)
    else if !w.read then Done(StoreError)
    else if cmd.expected >= 0 && Latest(s.events, cmd.aggregate) != cmd.expected then Done(Conflict)
    else Ready(Latest(s.events, cmd.aggregate))
  }

  /** Where BeginTx and StoreIdempotency leave it, run in a row. */
  function KeyTaken(s: System, cmd: Command, pc: Pc, w: Answers): Pc {
    if !pc.Ready? then pc
    else if !w.begin || (cmd.key != "" && !w.storeKey) then Done(StoreError)
    else if cmd.key != "" && cmd.key in s.keys then Done(Duplicate)
    else KeyStored(pc.latest)
  }

  /** The store after AppendTx and Commit, run in a row. */
  function Written(s: System, h: nat, cmd: Command, pc: Pc, w: Answers): System {
    if !pc.KeyStored? then s
    else if !w.append || (s.unique && HasVersion(s.events, cmd.aggregate, pc.latest + 1)) || !w.commit
    then s.(jobs := s.jobs[h := Job(cmd, Done(StoreError))])
    else System(s.unique,
                s.events + [Event(cmd.aggregate, pc.latest + 1, cmd.key, cmd.eventType, Handler(h))],
                s.keys + (if cmd.key != "" then map[cmd.key := h] else map[]),
                s.jobs[h := Job(cmd, Done(if w.record then Accepted(pc.latest + 1) else NoRecord))])
  }

  /** A handler moves as `NextPc` says, unless it commits. */
  lemma Moves(s: System, a: Action, cmd: Command, pc: Pc)
    requires !a.Arrive? && !a.OutboxAppend? && a.h in s.jobs && s.jobs[a.h].cmd == cmd
    requires !(a.Commit? && a.ok && s.jobs[a.h].pc.Appended?)
    requires NextPc(s, s.jobs[a.h], a) == pc
    ensures Reaches(Step, s, s.(jobs := s.jobs[a.h := Job(cmd, pc)]))
  {
    var s' := s.(jobs := s.jobs[a.h := Job(cmd, pc)]);
    if pc == s.jobs[a.h].pc { assert s' == s; }
    Onward(Step, s, s, a);
  }

  lemma OpenRuns(s: System, h: nat, cmd: Command, w: Answers)
    requires h !in s.jobs
    ensures Reaches(Step, s, s.(jobs := s.jobs[h := Job(cmd, Opened(s, cmd, w))]))
  {
    var s1 := s.(jobs := s.jobs[h := Job(cmd, Arrived)]);
    Onward(Step, s, s, Arrive(h, cmd));
    var pc := NextPc(s1, Job(cmd, Arrived), CheckIdempotency(h, w.check));
    Moves(s1, CheckIdempotency(h, w.check), cmd, pc);
    var s2 := s1.(jobs := s1.jobs[h := Job(cmd, pc)]);
    Moves(s2, GetLatestVersion(h, w.read), cmd, Opened(s, cmd, w));
    var s3 := s.(jobs := s.jobs[h := Job(cmd, Opened(s, cmd, w))]);
    assert s2.jobs[h := Job(cmd, Opened(s, cmd, w))] == s3.jobs;
    Further(Step, s, s1, s2);
    Further(Step, s, s2, s3);
  }

  /** Nobody but `h` has a transaction open. */
  ghost predicate NoneOpen(s: System, h: nat) {
    forall g :: g in s.jobs && g != h ==> !s.jobs[g].pc.KeyStored? && !s.jobs[g].pc.Appended?
  }

  lemma TakeKeyRuns(s: System, h: nat, cmd: Command, pc: Pc, w: Answers)
    requires h in s.jobs && s.jobs[h] == Job(cmd, pc) && NoneOpen(s, h) && (pc.Ready? || pc.Done?)
    ensures Reaches(Step, s, s.(jobs := s.jobs[h := Job(cmd, KeyTaken(s, cmd, pc, w))]))
  {
    var mid := NextPc(s, Job(cmd, pc), BeginTx(h, w.begin));
    Moves(s, BeginTx(h, w.begin), cmd, mid);
    var s1 := s.(jobs := s.jobs[h := Job(cmd, mid)]);
    assert !KeyBusy(s1, h, cmd.key);
    Moves(s1, StoreIdempotency(h, w.storeKey), cmd, KeyTaken(s, cmd, pc, w));
    var s2 := s.(jobs := s.jobs[h := Job(cmd, KeyTaken(s, cmd, pc, w))]);
    assert s1.jobs[h := Job(cmd, KeyTaken(s, cmd, pc, w))] == s2.jobs;
    Further(Step, s, s1, s2);
  }

  lemma WriteRuns(s: System, h: nat, cmd: Command, pc: Pc, w: Answers)
    requires h in s.jobs && s.jobs[h] == Job(cmd, pc) && NoneOpen(s, h) && (pc.KeyStored? || pc.Done?)
    ensures Reaches(Step, s, Written(s, h, cmd, pc, w))
  {
    if pc.KeyStored? {
      assert !VersionBusy(s, Some(h), cmd.aggregate, pc.latest + 1);
      var mid := NextPc(s, Job(cmd, pc), AppendTx(h, w.append, w.record));
      Moves(s, AppendTx(h, w.append, w.record), cmd, mid);
      var s1 := s.(jobs := s.jobs[h := Job(cmd, mid)]);
      CommitRuns(s1, h, cmd, mid, w.commit);
      forall pc' ensures s1.jobs[h := Job(cmd, pc')] == s.jobs[h := Job(cmd, pc')] {}
      assert cmd.key != "" ==> s.keys[cmd.key := h] == s.keys + map[cmd.key := h];
      assert s.keys + map[] == s.keys;
      Further(Step, s, s1, Written(s, h, cmd, pc, w));
    }
  }

  lemma CommitRuns(s: System, h: nat, cmd: Command, pc: Pc, ok: bool)
    requires h in s.jobs && s.jobs[h] == Job(cmd, pc) && (pc.Appended? || pc.Done?)
    ensures Reaches(Step, s, if pc.Done? then s else if !ok then At(s, h, Done(StoreError)) else Committed(s, h))
  {
    if pc.Appended? {
      Onward(Step, s, s, Commit(h, ok));
    }
  }

  /** What the transaction of a handler at `pc` does, run in one go. */
  function Transacted(s: System, h: nat, cmd: Command, pc: Pc, w: Answers): System {
    var pc' := KeyTaken(s, cmd, pc, w);
    Written(s.(jobs := s.jobs[h := Job(cmd, pc')]), h, cmd, pc', w)
  }

  lemma TransactionRuns(s: System, h: nat, cmd: Command, pc: Pc, w: Answers)
    requires h in s.jobs && s.jobs[h] == Job(cmd, pc) && NoneOpen(s, h) && (pc.Ready? || pc.Done?)
    ensures Reaches(Step, s, Transacted(s, h, cmd, pc, w))
  {
    var pc' := KeyTaken(s, cmd, pc, w);
    var s1 := s.(jobs := s.jobs[h := Job(cmd, pc')]);
    TakeKeyRuns(s, h, cmd, pc, w);
    WriteRuns(s1, h, cmd, pc', w);
    Further(Step, s, s1, Transacted(s, h, cmd, pc, w));
  }

  /** The store and `Handle` as the source writes it. */
  class AppendEventHandler {
    const unique: bool
    var events: seq<Event>
    var keys: map<string, nat>

    constructor (unique: bool)
      ensures this.unique == unique && events == [] && keys == map[]
    {
      this.unique, events, keys := unique, [], map[];
    }

    method LatestVersion(a: AggregateId) returns (latest: int)
      ensures latest == Latest(events, a)
    {
      latest := 0;
      for i := 0 to |events|
        invariant latest == Latest(events[..i], a)
      {
        assert events[..i + 1][..i] == events[..i];
        if events[i].aggregate == a && latest < events[i].version {
          latest := events[i].version;
        }
      }
      assert events[..|events|] == events;
    }

    method VersionTaken(a: AggregateId, v: int) returns (found: bool)
      ensures found == HasVersion(events, a, v)
    {
      for i := 0 to |events|
        invariant forall j :: 0 <= j < i ==> !(events[j].aggregate == a && events[j].version == v)
      {
        if events[i].aggregate == a && events[i].version == v {
          return true;
        }
      }
      return false;
    }

    /** The transaction of a handler that read `latest`. */
    method Transact(h: nat, cmd: Command, latest: int, w: Answers) returns (r: Outcome)
      modifies this
      ensures Holds(Transacted(old(Store()), h, cmd, Ready(latest), w), h, cmd, r)
      ensures events == old(events) + if r.Committed() then
        [Event(cmd.aggregate, latest + 1, cmd.key, cmd.eventType, Handler(h))] else []
      ensures keys == old(keys) + if r.Committed() && cmd.key != "" then map[cmd.key := h] else map[]
    {
      if !w.begin {
        return StoreError;
      }
      if cmd.key != "" {
        if !w.storeKey {
          return StoreError;
        }
        if cmd.key in keys {
          return Duplicate;
        }
      }
      if !w.append {
        return StoreError;
      }
      if unique {
        var taken := VersionTaken(cmd.aggregate, latest + 1);
        if taken {
          return StoreError;
        }
      }
      if !w.commit {
        return StoreError;
      }
      events := events + [Event(cmd.aggregate, latest + 1, cmd.key, cmd.eventType, Handler(h))];
      if cmd.key != "" {
        keys := keys[cmd.key := h];
      }
      if !w.record {
        return NoRecord;
      }
      return Accepted(latest + 1);
    }

    /** `others` commit, with their keys, between the version read and the transaction. */
    method Handle(h: nat, cmd: Command, w: Answers, others: seq<Event>, otherKeys: map<string, nat>)
      returns (r: Outcome)
      modifies this
      ensures Holds(Handled(old(Store()), h, cmd, w, others, otherKeys), h, cmd, r)
      ensures events == old(events) + others + if r.Committed() then
        [Event(cmd.aggregate, Latest(old(events), cmd.aggregate) + 1, cmd.key, cmd.eventType, Handler(h))] else []
      ensures keys == old(keys) + otherKeys + if r.Committed() && cmd.key != "" then map[cmd.key := h] else map[]
    {
      var known := cmd.key in keys;
      var latest := LatestVersion(cmd.aggregate);
      events, keys := events + others, keys + otherKeys;
      if cmd.key != "" {
        if !w.check {
          return StoreError;
        }
        if known {
          return Duplicate;
        }
      }
      if !w.read {
        return StoreError;
      }
      if cmd.expected >= 0 && latest != cmd.expected {
        return Conflict;
      }
      r := Transact(h, cmd, latest, w);
    }

    function Store(): System
      reads this
    {
      System(unique, events, keys, map[])
    }

    /** This store is that of `s`, where handler `h` is done with outcome `r`. */
    ghost predicate Holds(s: System, h: nat, cmd: Command, r: Outcome)
      reads this
    {
      s == System(unique, events, keys, map[h := Job(cmd, Done(r))])
    }
  }

  /** One handler on a store by itself, with other commits between its reads and its transaction. */
  function Handled(s: System, h: nat, cmd: Command, w: Answers,
                   others: seq<Event>, otherKeys: map<string, nat>): System
  {
    Transacted(s.(events := s.events + others, keys := s.keys + otherKeys), h, cmd, Opened(s, cmd, w), w)
  }

  /** The outcome of one handler, call by call: Duplicate if the key was there when it looked, or by the time of its
      transaction; Conflict if it read another version than it was told to expect; a commit if every call went
      through, and then Accepted under the version after the one it read, unless no record came back; and an error
      of the store in all other cases. */
  lemma HandledInFull(s: System, h: nat, cmd: Command, w: Answers, others: seq<Event>, otherKeys: map<string, nat>)
    ensures var t := Handled(s, h, cmd, w, others, otherKeys);
      var latest := Latest(s.events, cmd.aggregate);
      var expected := cmd.expected < 0 || cmd.expected == latest;
      && h in t.jobs && t.jobs[h].pc.Done?
      && var r := t.jobs[h].pc.outcome;
         && (r.Duplicate? <==>
               && cmd.key != "" && w.check
               && (cmd.key in s.keys || (w.read && expected && w.begin && w.storeKey && cmd.key in s.keys + otherKeys)))
         && (r.Conflict? <==> (cmd.key == "" || (w.check && cmd.key !in s.keys)) && w.read && !expected)
         && (r.Committed() <==>
               && (cmd.key == "" || (w.check && w.storeKey && cmd.key !in s.keys + otherKeys))
               && w.read && expected && w.begin && w.append && w.commit
               && !(s.unique && HasVersion(s.events + others, cmd.aggregate, latest + 1)))
         && (r.Accepted? <==> r.Committed() && w.record)
         && (r.Accepted? ==> r.version == latest + 1)
  {
  }

  /** Keys are only ever added. */
  lemma KeysGrow(s: System, a: Action)
    requires Inv(s)
    ensures s.events <= Step(s, a).events
    ensures forall k :: k in s.keys ==> k in Step(s, a).keys && Step(s, a).keys[k] == s.keys[k]
  {
    if Commits(s, a) && s.jobs[a.h].cmd.key != "" { assert HoldsKey(s.jobs[a.h], s.jobs[a.h].cmd.key); }
  }

  lemma {:induction false} StoreGrows(s: System, actions: seq<Action>)
    requires Inv(s)
    ensures var t := Exec(Step, s, actions);
      && t.unique == s.unique && s.events <= t.events
      && forall k :: k in s.keys ==> k in t.keys && t.keys[k] == s.keys[k]
    decreases |actions|
  {
    if actions != [] {
      KeysGrow(s, actions[0]);
      StepKeepsInv(s, actions[0]);
      StoreGrows(Step(s, actions[0]), actions[1..]);
    }
  }

  /** What `Handle` computes is where a run of the machine ends: from any state any interleaving reaches, let
      `h` do its reads, let any actions of the others follow that leave no transaction open, and let `h` do
      its transaction. Then `Handle`, given what the others added, ends with the machine's store and outcome. */
  lemma HandleIsARunOfTheMachine(s: System, h: nat, cmd: Command, w: Answers, actions: seq<Action>)
    returns (others: seq<Event>, otherKeys: map<string, nat>)
    requires Reaches(Step, Start(s.unique), s) && h !in s.jobs
    requires var reading := s.(jobs := s.jobs[h := Job(cmd, Opened(s, cmd, w))]);
      var mid := Exec(Step, reading, actions);
      NoneOpen(mid, h) && h in mid.jobs && mid.jobs[h] == reading.jobs[h]
    ensures var mid := Exec(Step, s.(jobs := s.jobs[h := Job(cmd, Opened(s, cmd, w))]), actions);
      var t := Transacted(mid, h, cmd, Opened(s, cmd, w), w);
      && mid.events == s.events + others && mid.keys == s.keys + otherKeys
      && Reaches(Step, s, t) && h in t.jobs
      && Handled(System(s.unique, s.events, s.keys, map[]), h, cmd, w, others, otherKeys)
         == System(t.unique, t.events, t.keys, map[h := t.jobs[h]])
  {
    var pc := Opened(s, cmd, w);
    var reading := s.(jobs := s.jobs[h := Job(cmd, pc)]);
    var mid := Exec(Step, reading, actions);
    OpenRuns(s, h, cmd, w);
    ARunReaches(Step, reading, actions);
    TransactionRuns(mid, h, cmd, pc, w);
    var t := Transacted(mid, h, cmd, pc, w);
    Further(Step, s, reading, mid);
    Further(Step, s, mid, t);
    Further(Step, Start(s.unique), s, reading);
    ReachableInv(s.unique, reading);
    StoreGrows(reading, actions);
    others, otherKeys := mid.events[|s.events|..], mid.keys;
    assert mid.events == s.events + others && mid.keys == s.keys + otherKeys;
    TransactedAlone(mid, h, cmd, pc, w);
  }

  /** A transaction looks at no other handler's position. */
  lemma TransactedAlone(s: System, h: nat, cmd: Command, pc: Pc, w: Answers)
    requires pc.Ready? || pc.Done?
    ensures var t := Transacted(s, h, cmd, pc, w);
      && h in t.jobs
      && Transacted(System(s.unique, s.events, s.keys, map[]), h, cmd, pc, w)
         == System(t.unique, t.events, t.keys, map[h := t.jobs[h]])
  {
    var none: map<nat, Job> := map[];
    assert forall j: Job :: none[h := j] == map[h := j];
  }
}
