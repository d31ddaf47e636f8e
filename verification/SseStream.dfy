/**
 The event stream end to end: the bus on the server, a connection that may be cut anywhere,
 and the client's highest-sequence filter.
 */
module SseStream {
  import opened Text
  import opened EventBus
  import opened EventBusRuns

  // ----- the client -----

  const CLIENT_RING := 500

  /** `accepted` is everything handed to `onEvent` so far; `shown` is the bounded list on screen. */
  datatype Client = Client(highest: nat, accepted: seq<Event>, shown: seq<Event>)

  const NEW_CLIENT := Client(0, [], [])

  function Handle(cl: Client, e: Event): Client {
    if e.sequence <= cl.highest then cl
    else Client(e.sequence, cl.accepted + [e], Last(cl.shown + [e], CLIENT_RING))
  }

  function HandleAll(cl: Client, events: seq<Event>): Client
    decreases |events|
  {
    if events == [] then cl else HandleAll(Handle(cl, events[0]), events[1..])
  }

  class SseStreamClient {
    var highestSequence: nat
    var events: seq<Event>
    var handed: seq<Event>

    function State(): Client
      reads this
    {
      Client(highestSequence, handed, events)
    }

    constructor ()
      ensures State() == NEW_CLIENT
    {
      highestSequence, events, handed := 0, [], [];
    }

    /** A frame that does not parse is ignored; `handed` stands for the `onEvent` callbacks. */
    method HandleIncomingEvent(parsed: Option<Event>)
      modifies this
      ensures State() == match parsed case None => old(State()) case Some(e) => Handle(old(State()), e)
    {
      if parsed.None? {
        return;
      }
      var e := parsed.value;
      if e.sequence <= highestSequence {
        return;
      }
      highestSequence := e.sequence;
      var next := events + [e];
      if |next| > CLIENT_RING {
        next := next[|next| - CLIENT_RING..];
      }
      events := next;
      handed := handed + [e];
    }
  }

  ghost predicate Increasing(events: seq<Event>) {
    forall i, j :: 0 <= i < j < |events| ==> events[i].sequence < events[j].sequence
  }

  ghost predicate Orderly(cl: Client) {
    && Increasing(cl.accepted)
    && (forall e :: e in cl.accepted ==> e.sequence <= cl.highest)
    && cl.shown == Last(cl.accepted, CLIENT_RING)
  }

  lemma {:induction false} HandleKeepsOrder(cl: Client, e: Event)
    requires Orderly(cl)
    ensures Orderly(Handle(cl, e))
  {
    LastOfPush(cl.accepted, e, CLIENT_RING);
  }

  /** Whatever is delivered, in whatever order and however often, what is accepted strictly increases. */
  lemma {:induction false} AnyDeliveryIsOrderly(cl: Client, events: seq<Event>)
    requires Orderly(cl)
    ensures Orderly(HandleAll(cl, events))
    decreases |events|
  {
    if events != [] {
      HandleKeepsOrder(cl, events[0]);
      AnyDeliveryIsOrderly(Handle(cl, events[0]), events[1..]);
    }
  }

  // ----- the whole system, seen from one scan -----

  datatype System = System(bus: Bus, histories: History, client: Client, connected: bool, inFlight: seq<Event>)

  datatype Move =
    | Publish(eventType: string, body: string, now: int)   // to the watched scan
    | Elsewhere(action: Action)                            // any call about another scan
    | Connect(afterSequence: real)                         // replay, then subscribe
    | Deliver                                              // the next frame arrives
    | Cut                                                  // the connection drops, frames in flight are lost

  function Full(s: System, key: string): seq<Event> {
    Get(s.histories, key, [])
  }

  /**
   What the property asks of a move: the watched scan is not released or evicted, and a
   reconnect does not ask for events beyond the client's next one, nor come when that one has
   already left the ring.
   */
  predicate Allowed(c: Config, key: string, s: System, m: Move) {
    match m
    case Elsewhere(a) => BoundScanId(a.scanId) != Some(key)
                         && (key in s.bus.sequences ==> key in Step(c, s.bus, a).sequences)
    case Connect(after) => after < (s.client.highest + 1) as real && |Full(s, key)| - c.ringPerScan <= s.client.highest
    case Deliver => s.inFlight != []
    case _ => true
  }

  function Next(c: Config, key: string, s: System, m: Move): System
    requires m.Deliver? ==> s.inFlight != []
  {
    match m
    case Publish(eventType, body, now) =>
      var room := MakeRoom(c, s.bus, key);
      s.(bus := PublishKey(c, s.bus, key, eventType, body, now),
         histories := PublishHistory(Restrict(s.histories, room.sequences.Keys), key, eventType, body),
         inFlight := if s.connected then s.inFlight + [NextEvent(room, key, eventType, body)] else s.inFlight)
    case Elsewhere(a) => s.(bus := Step(c, s.bus, a), histories := StepHistory(c, s.bus, s.histories, a))
    case Connect(after) => s.(connected := true, inFlight := ReplayKey(s.bus, key, after))
    case Deliver => s.(client := Handle(s.client, s.inFlight[0]), inFlight := s.inFlight[1..])
    case Cut => s.(connected := false, inFlight := [])
  }

  predicate Behaviour(c: Config, key: string, s: System, moves: seq<Move>)
    decreases |moves|
  {
    moves == [] || (Allowed(c, key, s, moves[0]) && Behaviour(c, key, Next(c, key, s, moves[0]), moves[1..]))
  }

  function Outcome(c: Config, key: string, s: System, moves: seq<Move>): System
    requires Behaviour(c, key, s, moves)
    decreases |moves|
  {
    if moves == [] then s else Outcome(c, key, Next(c, key, s, moves[0]), moves[1..])
  }

  /** What is in flight is the end of the history, starting no later than the client has got. */
  ghost predicate EndOfHistory(full: seq<Event>, highest: nat, connected: bool, inFlight: seq<Event>) {
    if connected then |inFlight| <= |full| && |full| - |inFlight| <= highest && inFlight == full[|full| - |inFlight|..]
    else inFlight == []
  }

  predicate ClientHasPrefix(full: seq<Event>, cl: Client) {
    cl.highest <= |full| && cl.accepted == full[..cl.highest]
  }

  ghost predicate Inv(c: Config, key: string, s: System) {
    && Agrees(c, s.bus, s.histories) && TouchesAgree(s.bus)
    && ClientHasPrefix(Full(s, key), s.client)
    && EndOfHistory(Full(s, key), s.client.highest, s.connected, s.inFlight)
    && Orderly(s.client)
  }

  lemma {:induction false} FullIsNumbered(c: Config, b: Bus, h: History, key: string)
    requires Agrees(c, b, h)
    ensures Numbered(key, Get(h, key, []))
  {}

  lemma {:induction false} DeliverKeepsPrefix(key: string, full: seq<Event>, cl: Client, inFlight: seq<Event>)
    requires Numbered(key, full) && inFlight != []
    requires ClientHasPrefix(full, cl) && EndOfHistory(full, cl.highest, true, inFlight)
    ensures ClientHasPrefix(full, Handle(cl, inFlight[0]))
    ensures EndOfHistory(full, Handle(cl, inFlight[0]).highest, true, inFlight[1..])
  {
    var from := |full| - |inFlight|;
    assert inFlight[0] == full[from] && full[from].sequence == from + 1;
    assert inFlight[1..] == full[from + 1..];
    if from == cl.highest {
      assert full[..from + 1] == full[..from] + [full[from]];
    }
  }

  lemma {:induction false} GrowKeepsPrefix(full: seq<Event>, cl: Client, connected: bool, inFlight: seq<Event>, e: Event)
    requires ClientHasPrefix(full, cl) && EndOfHistory(full, cl.highest, connected, inFlight)
    ensures ClientHasPrefix(full + [e], cl)
    ensures EndOfHistory(full + [e], cl.highest, connected, if connected then inFlight + [e] else inFlight)
  {
    assert (full + [e])[..cl.highest] == full[..cl.highest];
  }

  /** A publish to the watched scan appends exactly the event that live subscribers get. */
  lemma {:induction false} PublishGrows(c: Config, b: Bus, h: History, key: string, eventType: string, body: string)
    requires Agrees(c, b, h) && TouchesAgree(b)
    ensures var room := MakeRoom(c, b, key);
      Get(PublishHistory(Restrict(h, room.sequences.Keys), key, eventType, body), key, [])
      == Get(h, key, []) + [NextEvent(room, key, eventType, body)]
  {
    var room := MakeRoom(c, b, key);
    assert key in h ==> key in b.sequences;
    MakeRoomAgrees(c, b, h, key);
    hide MakeRoom, Agrees, TouchesAgree, Numbered, Last;
    RecordEntries(c, room, Restrict(h, room.sequences.Keys), key, eventType, body, 0);
    hide Record, NextEvent;
    assert Get(Restrict(h, room.sequences.Keys), key, []) == Get(h, key, []);
  }

  /** A call about another scan that keeps the watched one tracked leaves its history alone. */
  lemma {:induction false} ElsewhereKeeps(c: Config, b: Bus, h: History, key: string, a: Action)
    requires Agrees(c, b, h)
    requires BoundScanId(a.scanId) != Some(key) && (key in b.sequences ==> key in Step(c, b, a).sequences)
    ensures Get(StepHistory(c, b, h, a), key, []) == Get(h, key, [])
  {
    hide BoundScanId, MakeRoom, SetTouch, Last, ScanAgrees, ReleaseKey;
  }

  /** First position in the history that a reconnect at `afterSequence` still delivers. */
  function ReplayFrom(c: Config, n: nat, afterSequence: real): nat {
    var point := ReplayPoint(afterSequence);
    if n > c.ringPerScan && n - c.ringPerScan > point then n - c.ringPerScan else point
  }

  lemma {:induction false} AllowedIsFrom(c: Config, n: nat, afterSequence: real, highest: nat)
    ensures afterSequence < (highest + 1) as real && n - c.ringPerScan <= highest
       <==> ReplayFrom(c, n, afterSequence) <= highest
  {
    ReplayPointExactly(afterSequence, highest);
  }

  lemma {:induction false} ConnectDeliversEnd(c: Config, b: Bus, h: History, key: string, after: real)
    requires Agrees(c, b, h)
    ensures var full := Get(h, key, []);
      ReplayKey(b, key, after) == Suffix(full, ReplayFrom(c, |full|, after))
  {
    if key in h {
      ReplayIsSuffix(c, b, h, key, after);
    }
    hide ScanAgrees;
  }

  /** The honest reconnect, with the highest number the client has, is allowed exactly while its next event is in the ring. */
  lemma {:induction false} HonestReconnectIsAllowed(c: Config, key: string, s: System)
    ensures Allowed(c, key, s, Connect(s.client.highest as real)) <==> |Full(s, key)| - c.ringPerScan <= s.client.highest
  {}

  /** It delivers exactly what the client is missing. */
  lemma {:induction false} HonestReconnectDelivers(c: Config, key: string, s: System)
    requires Inv(c, key, s) && |Full(s, key)| - c.ringPerScan <= s.client.highest
    ensures Next(c, key, s, Connect(s.client.highest as real)).inFlight == Full(s, key)[s.client.highest..]
  {
    var n, highest := |Full(s, key)|, s.client.highest;
    ConnectDeliversEnd(c, s.bus, s.histories, key, highest as real);
    AllowedIsFrom(c, n, highest as real, highest);
    if highest > 0 {
      AllowedIsFrom(c, n, highest as real, highest - 1);
    }
    hide ReplayFrom, ReplayKey, Agrees, TouchesAgree, Orderly, EndOfHistory;
    assert ReplayFrom(c, n, highest as real) == highest;
  }

  lemma {:induction false} MoveKeepsInv(c: Config, key: string, s: System, m: Move)
    requires Inv(c, key, s) && Allowed(c, key, s, m)
    ensures Inv(c, key, Next(c, key, s, m))
  {
    var full := Full(s, key);
    FullIsNumbered(c, s.bus, s.histories, key);
    hide Agrees, TouchesAgree, Orderly, BoundScanId, PublishKey, MakeRoom, Numbered, Restrict, PublishHistory,
      StepHistory, Step, ReplayKey, NextEvent, Handle;
    match m {
      case Publish(eventType, body, now) =>
        PublishAgrees(c, s.bus, s.histories, key, eventType, body, now);
        PublishGrows(c, s.bus, s.histories, key, eventType, body);
        GrowKeepsPrefix(
          full, s.client, s.connected, s.inFlight, NextEvent(MakeRoom(c, s.bus, key), key, eventType, body));
      case Elsewhere(a) =>
        StepAgrees(c, s.bus, s.histories, a);
        ElsewhereKeeps(c, s.bus, s.histories, key, a);
      case Connect(after) =>
        AllowedIsFrom(c, |full|, after, s.client.highest);
        ConnectDeliversEnd(c, s.bus, s.histories, key, after);
      case Deliver =>
        DeliverKeepsPrefix(key, full, s.client, s.inFlight);
        HandleKeepsOrder(s.client, s.inFlight[0]);
      case Cut =>
    }
  }

  /**
   Main theorem. However the bus is used, wherever connections are cut, and whatever is
   delivered twice: while the watched scan stays tracked and each reconnect asks from within
   the window, the client's accepted events are always a prefix of the published history, in
   order and without duplicates or holes, and the screen shows the last of them.
   */
  lemma {:induction false} ExactlyOnce(c: Config, key: string, s: System, moves: seq<Move>)
    requires Inv(c, key, s) && Behaviour(c, key, s, moves)
    ensures Inv(c, key, Outcome(c, key, s, moves))
    ensures var end := Outcome(c, key, s, moves);
      && end.client.accepted <= Full(end, key)
      && |end.client.accepted| == end.client.highest
      && end.client.shown == Last(end.client.accepted, CLIENT_RING)
      && (end.connected && end.inFlight == [] ==> end.client.accepted == Full(end, key))
    decreases |moves|
  {
    if moves != [] {
      MoveKeepsInv(c, key, s, moves[0]);
      hide Inv, Allowed, Next;
      ExactlyOnce(c, key, Next(c, key, s, moves[0]), moves[1..]);
    }
  }

  /** A new client may join any reachable bus at any time. */
  lemma {:induction false} NewClientStarts(c: Config, key: string, actions: seq<Action>)
    ensures Inv(c, key, System(Run(c, actions), RunHistory(c, actions), NEW_CLIENT, false, []))
  {
    BusCachesHistory(c, actions);
    hide Agrees, TouchesAgree, Run, RunHistory;
  }

  /**
   The guard on reconnects is exact: whenever a reconnect has something to replay, its first
   frame leaves a hole if and only if the replay starts beyond what the client has.
   */
  lemma {:induction false} ReconnectGuardIsExact(c: Config, key: string, s: System, after: real)
    requires Inv(c, key, s) && ReplayKey(s.bus, key, after) != []
    ensures var s' := Next(c, key, s, Connect(after));
      ClientHasPrefix(Full(s', key), Next(c, key, s', Deliver).client) <==> Allowed(c, key, s, Connect(after))
  {
    var full, from := Full(s, key), ReplayFrom(c, |Full(s, key)|, after);
    FullIsNumbered(c, s.bus, s.histories, key);
    ConnectDeliversEnd(c, s.bus, s.histories, key, after);
    AllowedIsFrom(c, |full|, after, s.client.highest);
    hide Agrees, TouchesAgree, Orderly, ReplayKey;
    var e := full[from];
    assert ReplayKey(s.bus, key, after)[0] == e && e.sequence == from + 1;
    if from <= s.client.highest {
      DeliverKeepsPrefix(key, full, s.client, full[from..]);
    } else {
      assert |s.client.accepted + [e]| != from + 1;
    }
  }
}
