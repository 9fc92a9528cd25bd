/** The edge sync loop: read the unsynced events of a line log, send them in one batch, and mark them
    synced by rewriting the log, while other writers append to it. */
module EdgeSync {
  import opened Options
  import opened Runs

  /** A JSON object; `id` is None where "event_id" is missing. */
  datatype Event = Event(id: Option<nat>, synced: bool, body: nat)

  /** A line: blank, not JSON, JSON that is no object, or an event. */
  datatype Line = Blank | Garbage(text: string) | Scalar(text: string) | Json(event: Event)

  type Log = seq<Line>

  /** A scalar has no `get`: reading or marking such a log raises, and leaves it as it is. */
  predicate Readable(log: Log) {
    forall i :: 0 <= i < |log| ==> !log[i].Scalar?
  }

  function Events(log: Log): seq<Event> {
    if log == [] then []
    else if log[|log| - 1].Json? then Events(log[..|log| - 1]) + [log[|log| - 1].event]
    else Events(log[..|log| - 1])
  }

  function Unsynced(log: Log): seq<Event> {
    if log == [] then []
    else
      var rest, l := Unsynced(log[..|log| - 1]), log[|log| - 1];
      if l.Json? && !l.event.synced then rest + [l.event] else rest
  }

  function Ids(events: seq<Event>): set<Option<nat>> {
    set i | 0 <= i < |events| :: events[i].id
  }

  function MarkLine(l: Line, ids: set<Option<nat>>): seq<Line> {
    match l
    case Blank => []
    case Json(e) => [Json(if e.id in ids then e.(synced := true) else e)]
    case _ => [l]
  }

  /** The log rewritten with the events of `ids` marked. */
  function Marked(log: Log, ids: set<Option<nat>>): Log {
    if log == [] then [] else Marked(log[..|log| - 1], ids) + MarkLine(log[|log| - 1], ids)
  }

  class Syncer {
    /** The log file, if it exists. */
    var file: Option<Log>

    constructor (file: Option<Log>)
      ensures this.file == file
    {
      this.file := file;
    }

    method ReadUnsynced() returns (r: Option<seq<Event>>)
      ensures file.None? ==> r == Some([])
      ensures file.Some? ==> r == if Readable(file.value) then Some(Unsynced(file.value)) else None
      ensures r.None? <==> file.Some? && exists i :: 0 <= i < |file.value| && file.value[i].Scalar?
    {
      if file.None? {
        return Some([]);
      }
      var log, events := file.value, [];
      for i := 0 to |log|
        invariant Readable(log[..i]) && events == Unsynced(log[..i])
      {
        assert log[..i + 1][..i] == log[..i];
        match log[i] {
          case Blank =>
          case Garbage(_) =>
          case Scalar(_) =>
            return None;
          case Json(e) =>
            if !e.synced {
              events := events + [e];
            }
        }
      }
      assert log[..|log|] == log;
      return Some(events);
    }

    method MarkSynced(events: seq<Event>) returns (ok: bool)
      modifies this
      ensures ok <==> old(file).None? || Readable(old(file).value)
      ensures ok && old(file).Some? ==> file == Some(Marked(old(file).value, Ids(events)))
      ensures !ok ==> file == old(file)
      ensures !ok <==> old(file).Some? && exists i :: 0 <= i < |old(file).value| && old(file).value[i].Scalar?
    {
      if file.None? {
        return true;
      }
      var ids := Ids(events);
      var log, lines := file.value, [];
      for i := 0 to |log|
        invariant Readable(log[..i]) && lines == Marked(log[..i], ids) && file == old(file)
      {
        assert log[..i + 1][..i] == log[..i];
        match log[i] {
          case Blank =>
            assert Marked(log[..i + 1], ids) == lines + [];
          case Garbage(_) =>
            lines := lines + [log[i]];
          case Scalar(_) =>
            return false;
          case Json(e) =>
            var marked := e;
            if e.id in ids {
              marked := e.(synced := true);
            }
            lines := lines + [Json(marked)];
        }
      }
      assert log[..|log|] == log;
      file := Some(lines);
      return true;
    }

    /** One turn of the main loop. `between` is what other writers append after the read; `accepted` is
        what sending the batch returns; with `stopped` the process ends before it marks anything. */
    method Cycle(between: Log, accepted: bool, stopped: bool)
      modifies this
      ensures old(file).Some? ==> file == Some(AfterCycle(old(file).value, between, accepted, stopped))
      ensures old(file).None? ==> file == if between == [] then None else Some(between)
    {
      var events := ReadUnsynced();
      if file.Some? {
        file := Some(file.value + between);
      } else if between != [] {
        file := Some(between);
      }
      if events.Some? && events.value != [] && accepted && !stopped {
        var _ := MarkSynced(events.value);
      }
    }
  }

  /** The log after a turn that started on `log`. */
  function AfterCycle(log: Log, between: Log, accepted: bool, stopped: bool): Log {
    if Readable(log) && Unsynced(log) != [] && accepted && !stopped && Readable(log + between)
    then Marked(log + between, Ids(Unsynced(log)))
    else log + between
  }

  // ---- What a rewrite keeps ----

  lemma {:induction false} UnsyncedConcat(a: Log, b: Log)
    ensures Unsynced(a + b) == Unsynced(a) + Unsynced(b)
  {
    if b == [] {
      assert a + b == a;
    } else {
      assert (a + b)[..|a + b| - 1] == a + b[..|b| - 1];
      UnsyncedConcat(a, b[..|b| - 1]);
    }
  }

  lemma {:induction false} EventsConcat(a: Log, b: Log)
    ensures Events(a + b) == Events(a) + Events(b)
  {
    if b == [] {
      assert a + b == a;
    } else {
      assert (a + b)[..|a + b| - 1] == a + b[..|b| - 1];
      EventsConcat(a, b[..|b| - 1]);
    }
  }

  lemma {:induction false} GarbledConcat(a: Log, b: Log)
    ensures Garbled(a + b) == Garbled(a) + Garbled(b)
  {
    if b == [] {
      assert a + b == a;
    } else {
      assert (a + b)[..|a + b| - 1] == a + b[..|b| - 1];
      GarbledConcat(a, b[..|b| - 1]);
    }
  }

  /** The lines that are not JSON. */
  function Garbled(log: Log): Log {
    if log == [] then []
    else if log[|log| - 1].Garbage? then Garbled(log[..|log| - 1]) + [log[|log| - 1]]
    else Garbled(log[..|log| - 1])
  }

  /** The events of `events` that are not in `ids`. */
  function Without(events: seq<Event>, ids: set<Option<nat>>): seq<Event> {
    if events == [] then []
    else
      var rest, e := Without(events[..|events| - 1], ids), events[|events| - 1];
      if e.id in ids then rest else rest + [e]
  }

  function Flag(e: Event, ids: set<Option<nat>>): Event {
    e.(synced := e.synced || e.id in ids)
  }

  ghost predicate AllFlagged(before: seq<Event>, after: seq<Event>, ids: set<Option<nat>>) {
    |after| == |before| && forall i :: 0 <= i < |before| ==> after[i] == Flag(before[i], ids)
  }

  lemma OneMoreFlagged(before: seq<Event>, after: seq<Event>, e: Event, ids: set<Option<nat>>)
    requires AllFlagged(before, after, ids)
    ensures AllFlagged(before + [e], after + [Flag(e, ids)], ids)
  {
  }

  /** Marking changes the synced flag of exactly the events named, and keeps every event, in order. */
  lemma {:induction false} MarkingKeepsEvents(log: Log, ids: set<Option<nat>>)
    ensures AllFlagged(Events(log), Events(Marked(log, ids)), ids)
  {
    if log != [] {
      var rest, l := log[..|log| - 1], log[|log| - 1];
      MarkingKeepsEvents(rest, ids);
      EventsConcat(Marked(rest, ids), MarkLine(l, ids));
      OneLine(l, ids);
      if l.Json? { OneMoreFlagged(Events(rest), Events(Marked(rest, ids)), l.event, ids); }
    }
  }

  /** The lines that are not blank. */
  function Filled(log: Log): Log {
    if log == [] then []
    else Filled(log[..|log| - 1]) + if log[|log| - 1].Blank? then [] else [log[|log| - 1]]
  }

  /** The rewritten log line by line: blank lines go, every other stays in its place, and of those only the events
      named change, and in nothing but that they are synced. */
  lemma {:induction false} MarkedInFull(log: Log, ids: set<Option<nat>>, i: nat)
    ensures |Marked(log, ids)| == |Filled(log)|
    ensures i < |Filled(log)| ==>
      var l := Filled(log)[i];
      Marked(log, ids)[i] == if l.Json? && l.event.id in ids then Json(l.event.(synced := true)) else l
  {
    if log != [] { MarkedInFull(log[..|log| - 1], ids, i); }
  }

  /** Marking takes the events named off the unsynced list, and keeps every unparseable line, in order. */
  lemma {:induction false} MarkingKeepsTheRest(log: Log, ids: set<Option<nat>>)
    ensures Garbled(Marked(log, ids)) == Garbled(log)
    ensures Unsynced(Marked(log, ids)) == Without(Unsynced(log), ids)
  {
    if log != [] {
      var rest, l := log[..|log| - 1], log[|log| - 1];
      MarkingKeepsTheRest(rest, ids);
      UnsyncedConcat(Marked(rest, ids), MarkLine(l, ids));
      GarbledConcat(Marked(rest, ids), MarkLine(l, ids));
      OneLine(l, ids);
      if l.Json? && !l.event.synced { assert (Unsynced(rest) + [l.event])[..|Unsynced(rest)|] == Unsynced(rest); }
    }
  }

  lemma OneLine(l: Line, ids: set<Option<nat>>)
    ensures l.Json? ==>
      var e := if l.event.id in ids then l.event.(synced := true) else l.event;
      Events(MarkLine(l, ids)) == [e] && Unsynced(MarkLine(l, ids)) == if e.synced then [] else [e]
    ensures !l.Json? ==> Events(MarkLine(l, ids)) == [] && Unsynced(MarkLine(l, ids)) == []
    ensures Garbled(MarkLine(l, ids)) == if l.Garbage? then [l] else []
  {
    if !l.Blank? {
      var m := MarkLine(l, ids);
      assert m[..0] == [];
    }
  }

  lemma {:induction false} WithoutAll(events: seq<Event>, ids: set<Option<nat>>)
    requires forall i :: 0 <= i < |events| ==> events[i].id in ids
    ensures Without(events, ids) == []
  {
    if events != [] { WithoutAll(events[..|events| - 1], ids); }
  }

  lemma {:induction false} WithoutNone(events: seq<Event>, ids: set<Option<nat>>)
    ensures |Without(events, ids)| <= |events|
    ensures Without(events, ids) == events <==> forall i :: 0 <= i < |events| ==> events[i].id !in ids
  {
    if events != [] {
      var rest, e := events[..|events| - 1], events[|events| - 1];
      WithoutNone(rest, ids);
      if e.id !in ids && Without(rest, ids) + [e] == events {
        assert Without(rest, ids) == (Without(rest, ids) + [e])[..|events| - 1] == rest;
      }
    }
  }

  lemma {:induction false} WithoutConcat(a: seq<Event>, b: seq<Event>, ids: set<Option<nat>>)
    ensures Without(a + b, ids) == Without(a, ids) + Without(b, ids)
  {
    if b == [] {
      assert a + b == a;
    } else {
      assert (a + b)[..|a + b| - 1] == a + b[..|b| - 1];
      WithoutConcat(a, b[..|b| - 1], ids);
    }
  }

  /** After an accepted and marked batch the events left to send are those appended since the read,
      minus any that share an id, or the lack of one, with an event of the batch. */
  lemma AcceptedCycle(log: Log, between: Log)
    requires Readable(log + between) && Unsynced(log) != []
    ensures var after := AfterCycle(log, between, true, false);
      && Unsynced(after) == Without(Unsynced(between), Ids(Unsynced(log)))
      && (Unsynced(after) == Unsynced(between) <==>
            forall i :: 0 <= i < |Unsynced(between)| ==> Unsynced(between)[i].id !in Ids(Unsynced(log)))
      && Garbled(after) == Garbled(log) + Garbled(between)
  {
    assert forall i :: 0 <= i < |log| ==> log[i] == (log + between)[i];
    var batch, ids := Unsynced(log), Ids(Unsynced(log));
    MarkingKeepsTheRest(log + between, ids);
    UnsyncedConcat(log, between);
    GarbledConcat(log, between);
    WithoutConcat(batch, Unsynced(between), ids);
    WithoutAll(batch, ids);
    WithoutNone(Unsynced(between), ids);
  }

  /** Nothing to send, a refused batch, a stop before marking, or a line that is a JSON scalar leaves the log as it
      was but for what was appended, and so every event to be sent again. */
  lemma UnmarkedCycle(log: Log, between: Log, accepted: bool, stopped: bool)
    requires || Unsynced(log) == [] || !accepted || stopped
             || exists i :: 0 <= i < |log + between| && (log + between)[i].Scalar?
    ensures AfterCycle(log, between, accepted, stopped) == log + between
    ensures Unsynced(AfterCycle(log, between, accepted, stopped)) == Unsynced(log) + Unsynced(between)
  {
    UnsyncedConcat(log, between);
  }

  // ---- Whole runs ----

  /** `written` is every event writers appended, in order; `acked` every event of a batch that was accepted. */
  datatype System = System(log: Log, written: seq<Event>, acked: set<Event>)

  datatype Action = Write(lines: Log) | Sync(between: Log, accepted: bool, stopped: bool)

  const EMPTY := System([], [], {})

  function Erased(events: seq<Event>): (r: seq<Event>)
    ensures |r| == |events|
  {
    seq(|events|, i requires 0 <= i < |events| => events[i].(synced := false))
  }

  ghost predicate Distinct(events: seq<Event>) {
    && (forall i :: 0 <= i < |events| ==> events[i].id.Some?)
    && (forall i, j :: 0 <= i < j < |events| ==> events[i].id != events[j].id)
  }

  /** Writers append unsynced events with ids of their own. */
  ghost predicate Fresh(s: System, lines: Log) {
    Erased(Events(lines)) == Events(lines) && Distinct(s.written + Events(lines))
  }

  ghost function Written(s: System, lines: Log): System {
    s.(log := s.log + lines, written := s.written + Events(lines))
  }

  ghost function Step(s: System, a: Action): System {
    match a
    case Write(lines) => if Fresh(s, lines) then Written(s, lines) else s
    case Sync(between, accepted, stopped) =>
      if !Fresh(s, between) then s
      else
        var s' := Written(s, between);
        if !Readable(s.log) || !accepted then s'
        else s'.(log := AfterCycle(s.log, between, accepted, stopped), acked := s.acked + set e | e in Unsynced(s.log))
  }

  /** Nothing is lost and nothing is marked unsent: the log holds every event ever written, in order,
      and an event is synced only if a batch with it was accepted. */
  ghost predicate Inv(s: System) {
    && Distinct(s.written)
    && Erased(Events(s.log)) == s.written
    && (forall i :: 0 <= i < |s.written| && Events(s.log)[i].synced ==> s.written[i] in s.acked)
  }

  lemma WriteKeepsInv(s: System, lines: Log)
    requires Inv(s) && Fresh(s, lines)
    ensures Inv(Written(s, lines))
  {
    EventsConcat(s.log, lines);
    var old', new' := Events(s.log), Events(lines);
    forall i | 0 <= i < |new'| ensures !new'[i].synced { assert Erased(new')[i] == new'[i]; }
    assert Erased(old' + new') == Erased(old') + Erased(new');
  }

  lemma {:induction false} UnsyncedAreEvents(log: Log, e: Event)
    ensures e in Unsynced(log) <==> e in Events(log) && !e.synced
  {
    if log != [] { UnsyncedAreEvents(log[..|log| - 1], e); }
  }

  /** Marking by id reaches only events that were in the batch or already synced. */
  lemma MarkKeepsInv(s: System, log: Log, acked: set<Event>)
    requires Inv(s) && acked == s.acked + set e | e in Unsynced(log)
    requires exists rest :: s.log == log + rest
    ensures Inv(s.(log := Marked(s.log, Ids(Unsynced(log))), acked := acked))
  {
    var ids := Ids(Unsynced(log));
    var before, after := Events(s.log), Events(Marked(s.log, ids));
    MarkingKeepsEvents(s.log, ids);
    assert Erased(after) == Erased(before);
    var rest :| s.log == log + rest;
    EventsConcat(log, rest);
    forall i | 0 <= i < |s.written| && after[i].synced
      ensures s.written[i] in acked
    {
      if !before[i].synced {
        var k :| 0 <= k < |Unsynced(log)| && Unsynced(log)[k].id == before[i].id;
        var e := Unsynced(log)[k];
        UnsyncedAreEvents(log, e);
        var j :| 0 <= j < |Events(log)| && Events(log)[j] == e;
        assert before[j] == e && s.written[j] == Erased(before)[j] && s.written[i] == Erased(before)[i];
        assert i == j;
      }
    }
  }

  lemma StepKeepsInv(s: System, a: Action)
    requires Inv(s)
    ensures Inv(Step(s, a))
  {
    match a
    case Write(lines) => if Fresh(s, lines) { WriteKeepsInv(s, lines); }
    case Sync(between, accepted, stopped) =>
      if Fresh(s, between) {
        WriteKeepsInv(s, between);
        if Readable(s.log) && accepted {
          MarkKeepsInv(Written(s, between), s.log, s.acked + set e | e in Unsynced(s.log));
        }
      }
  }

  /** Main result on the sync loop: over every run of writers, turns, refused batches and stops, an event
      written is in the log for good, synced only after a batch containing it was accepted; so whatever
      no batch has got accepted is still there to be read and sent. */
  lemma NothingLostNothingMarkedUnsent(actions: seq<Action>)
    ensures var s := Exec(Step, EMPTY, actions);
      Inv(s) && forall e :: e in s.written && e !in s.acked ==> e in Unsynced(s.log)
  {
    forall s, a | Inv(s) ensures Inv(Step(s, a)) { StepKeepsInv(s, a); }
    ExecKeeps(Step, Inv, EMPTY, actions);
    var s := Exec(Step, EMPTY, actions);
    forall e | e in s.written && e !in s.acked
      ensures e in Unsynced(s.log)
    {
      var i :| 0 <= i < |s.written| && s.written[i] == e;
      assert Erased(Events(s.log))[i] == e && Events(s.log)[i] == e;
      UnsyncedAreEvents(s.log, e);
    }
  }
}
