/** Rebuilding a session from its events. */
module SessionReplay {
  import opened Options
  import AppendEvent
  import EventVersions
  import Runs

  datatype SessionEvent =
    | SessionCreated(session: nat, tenant: nat, phone: string, at: int)
    | MenuNavigated(session: nat, menu: string, at: int)
    | InputReceived(session: nat, input: string, at: int)
    | SessionEnded(session: nat, reason: string, at: int)
    | Unrecognised

  datatype Status = Unset | Active | Completed

  datatype View = View(
    id: nat, tenant: nat, phone: string, menu: string, version: nat,
    createdAt: int, lastActivity: int, status: Status)

  /** The zero value of a session. */
  const BLANK := View(0, 0, "", "", 0, 0, 0, Unset)

  class Session {
    var id: nat
    var tenant: nat
    var phone: string
    var menu: string
    var version: nat
    var createdAt: int
    var lastActivity: int
    var status: Status

    constructor ()
      ensures Current() == BLANK
    {
      id, tenant, phone, menu, version, createdAt, lastActivity, status := 0, 0, "", "", 0, 0, 0, Unset;
    }

    function Current(): View
      reads this
    {
      View(id, tenant, phone, menu, version, createdAt, lastActivity, status)
    }

    method ApplyEvent(e: SessionEvent)
      modifies this
      ensures Current() == Applied(old(Current()), e)
    {
      match e
      case SessionCreated(s, t, p, at) =>
        id := s;
        tenant := t;
        phone := p;
        status := Active;
        createdAt := at;
        lastActivity := at;
        version := version + 1;
      case MenuNavigated(_, m, at) =>
        menu := m;
        lastActivity := at;
        version := version + 1;
      case InputReceived(_, _, at) =>
        lastActivity := at;
        version := version + 1;
      case SessionEnded(_, _, at) =>
        status := Completed;
        lastActivity := at;
        version := version + 1;
      case Unrecognised =>
    }

    /** Replays a stream onto this session. */
    method ReplayAll(events: seq<SessionEvent>)
      requires Current() == BLANK
      modifies this
      ensures Current() == Replay(events)
    {
      for i := 0 to |events|
        invariant Current() == Replay(events[..i])
      {
        assert events[..i + 1][..i] == events[..i];
        ApplyEvent(events[i]);
      }
      assert events[..|events|] == events;
    }
  }

  function Applied(s: View, e: SessionEvent): View {
    match e
    case SessionCreated(id, tenant, phone, at) =>
      View(id, tenant, phone, s.menu, s.version + 1, at, at, Active)
    case MenuNavigated(_, menu, at) => s.(menu := menu, lastActivity := at, version := s.version + 1)
    case InputReceived(_, _, at) => s.(lastActivity := at, version := s.version + 1)
    case SessionEnded(_, _, at) => s.(status := Completed, lastActivity := at, version := s.version + 1)
    case Unrecognised => s
  }

  function Replay(events: seq<SessionEvent>): View {
    if events == [] then BLANK else Applied(Replay(events[..|events| - 1]), events[|events| - 1])
  }

  /** The last event that `p` accepts. */
  function Last(events: seq<SessionEvent>, p: SessionEvent -> bool): Option<SessionEvent> {
    if events == [] then None
    else if p(events[|events| - 1]) then Some(events[|events| - 1])
    else Last(events[..|events| - 1], p)
  }

  function Recognised(events: seq<SessionEvent>): (n: nat)
    ensures n <= |events|
  {
    if events == [] then 0
    else Recognised(events[..|events| - 1]) + if events[|events| - 1].Unrecognised? then 0 else 1
  }

  /** A replayed session is put together from the last event of each kind. */
  lemma {:induction false} ReplayIsLastOfEachKind(events: seq<SessionEvent>)
    ensures var s := Replay(events);
      && s.version == Recognised(events)
      && s.status == (match Last(events, (e: SessionEvent) => e.SessionCreated? || e.SessionEnded?)
                      case Some(SessionCreated(_, _, _, _)) => Active
                      case Some(_) => Completed
                      case None => Unset)
      && s.menu == (match Last(events, (e: SessionEvent) => e.MenuNavigated?)
                    case Some(MenuNavigated(_, m, _)) => m
                    case _ => "")
      && s.lastActivity == (match Last(events, (e: SessionEvent) => !e.Unrecognised?)
                            case None => 0
                            case Some(Unrecognised) => 0
                            case Some(e) => e.at)
      && (match Last(events, (e: SessionEvent) => e.SessionCreated?)
          case Some(SessionCreated(id, tenant, phone, at)) =>
            s.id == id && s.tenant == tenant && s.phone == phone && s.createdAt == at
          case _ => s.id == 0 && s.tenant == 0 && s.phone == "" && s.createdAt == 0)
  {
    if events != [] {
      ReplayIsLastOfEachKind(events[..|events| - 1]);
    }
  }

  // ---- Replaying what the append handlers committed ----

  /** The events of an aggregate, in commit order, decoded. */
  function Stream(events: seq<AppendEvent.Event>, a: nat, decode: AppendEvent.Event -> SessionEvent): seq<SessionEvent> {
    if events == [] then []
    else
      var rest, e := Stream(events[..|events| - 1], a, decode), events[|events| - 1];
      if e.aggregate == a then rest + [decode(e)] else rest
  }

  lemma {:induction false} StreamCounts(events: seq<AppendEvent.Event>, a: nat, decode: AppendEvent.Event -> SessionEvent)
    ensures |Stream(events, a, decode)| == EventVersions.CountOf(events, a)
  {
    if events != [] {
      StreamCounts(events[..|events| - 1], a, decode);
    }
  }

  /** After any interleaving, on either kind of store, a stream is as long as its latest version says exactly
      when its versions are in sequence, and never shorter. */
  lemma StreamLengthIsLatest(unique: bool, actions: seq<AppendEvent.Action>, a: nat,
                             decode: AppendEvent.Event -> SessionEvent)
    ensures var events := Runs.Exec(AppendEvent.Step, AppendEvent.Start(unique), actions).events;
      var stream := Stream(events, a, decode);
      && AppendEvent.Latest(events, a) <= |stream|
      && (|stream| == AppendEvent.Latest(events, a) <==> EventVersions.InSequence(events, a))
  {
    var events := Runs.Exec(AppendEvent.Step, AppendEvent.Start(unique), actions).events;
    EventVersions.NoVersionLeftOut(unique, actions, a);
    EventVersions.InSequenceIffCounted(events, a);
    StreamCounts(events, a, decode);
  }

  lemma {:induction false} AllRecognisedIff(events: seq<SessionEvent>)
    ensures Recognised(events) == |events| <==> forall i :: 0 <= i < |events| ==> !events[i].Unrecognised?
  {
    if events != [] {
      AllRecognisedIff(events[..|events| - 1]);
    }
  }

  /** Main result on replay: after any interleaving, on either kind of store,
      - a stream of recognised events replays to its latest stored version if and only if its versions are in
        sequence, as they always are where the store rejects repeats;
      - a stream in sequence replays to it if and only if every event is one the session recognises. */
  lemma ReplayedVersionIsLatest(unique: bool, actions: seq<AppendEvent.Action>, a: nat,
                                decode: AppendEvent.Event -> SessionEvent)
    ensures var events := Runs.Exec(AppendEvent.Step, AppendEvent.Start(unique), actions).events;
      var stream := Stream(events, a, decode);
      var faithful := Replay(stream).version == AppendEvent.Latest(events, a);
      var recognised := forall i :: 0 <= i < |stream| ==> !stream[i].Unrecognised?;
      && (unique ==> EventVersions.InSequence(events, a))
      && (recognised ==> (faithful <==> EventVersions.InSequence(events, a)))
      && (EventVersions.InSequence(events, a) ==> (faithful <==> recognised))
  {
    if unique { EventVersions.VersionsStayInSequence(actions); }
    var events := Runs.Exec(AppendEvent.Step, AppendEvent.Start(unique), actions).events;
    StreamLengthIsLatest(unique, actions, a, decode);
    ReplayIsLastOfEachKind(Stream(events, a, decode));
    AllRecognisedIff(Stream(events, a, decode));
  }
}
