/**
 The in-memory event bus: per-scan sequence numbers, bounded rings, a cap on tracked
 scans with least-recently-published eviction, replay and subscriptions.
 */
module EventBus {
  import opened Text

  // ----- scan ids -----

  const MAX_SCAN_ID_CHARS := 64

  /** White space and line terminators that `String.prototype.trim` removes. */
  predicate IsSpace(c: char) {
    c == '\t' || c == '\n' || c == '\U{000B}' || c == '\U{000C}' || c == '\r' || c == ' '
    || c == '\U{00A0}' || c == '\U{1680}' || '\U{2000}' <= c <= '\U{200A}' || c == '\U{2028}' || c == '\U{2029}'
    || c == '\U{202F}' || c == '\U{205F}' || c == '\U{3000}' || c == '\U{FEFF}'
  }

  function TrimStart(s: string): string {
    if s != "" && IsSpace(s[0]) then TrimStart(s[1..]) else s
  }

  function TrimEnd(s: string): string {
    if s != "" && IsSpace(s[|s| - 1]) then TrimEnd(s[..|s| - 1]) else s
  }

  /** Trimmed, refused when empty, cut to 64 characters. The cut is not trimmed again. */
  function BoundScanId(scanId: string): Option<string> {
    var trimmed := TrimEnd(TrimStart(scanId));
    if trimmed == "" then None
    else if |trimmed| > MAX_SCAN_ID_CHARS then Some(trimmed[..MAX_SCAN_ID_CHARS])
    else Some(trimmed)
  }

  /** A key that bounding leaves alone. */
  predicate Stable(key: string) {
    BoundScanId(key) == Some(key)
  }

  // ----- state -----

  datatype Event = Event(scanId: string, sequence: nat, eventType: string, body: string)

  datatype Touch = Touch(scanId: string, at: int)

  type Subscriber = nat

  datatype Config = Config(ringPerScan: nat, maxScans: int, eventTypes: set<string>)

  /**
   The bus's five maps. `touched` keeps insertion order, which decides ties; a subscriber
   set has an identity because an unsubscribe closure holds on to the set it was made for.
   */
  datatype Bus = Bus(
    sequences: map<string, nat>,
    rings: map<string, seq<Event>>,
    touched: seq<Touch>,
    counts: map<string, nat>,
    subscribers: map<string, nat>,
    sets: map<nat, set<Subscriber>>)

  const EMPTY := Bus(map[], map[], [], map[], map[], map[])

  function Get<T>(m: map<string, T>, key: string, default: T): T {
    if key in m then m[key] else default
  }

  /** The last `n` elements, all of them if there are fewer. */
  function Last<T>(s: seq<T>, n: nat): seq<T> {
    if |s| > n then s[|s| - n..] else s
  }

  /** `Map.set`: an existing key keeps its place, a new one goes to the end. */
  function SetTouch(touched: seq<Touch>, key: string, at: int): seq<Touch> {
    if touched == [] then [Touch(key, at)]
    else if touched[0].scanId == key then [Touch(key, at)] + touched[1..]
    else [touched[0]] + SetTouch(touched[1..], key, at)
  }

  function DropTouch(touched: seq<Touch>, key: string): seq<Touch> {
    if touched == [] then []
    else if touched[0].scanId == key then DropTouch(touched[1..], key)
    else [touched[0]] + DropTouch(touched[1..], key)
  }

  /** The first entry with the least time, `best` standing for those already passed. */
  function OldestFrom(best: Option<Touch>, touched: seq<Touch>): Option<Touch>
    decreases |touched|
  {
    if touched == [] then best
    else if best.None? || touched[0].at < best.value.at then OldestFrom(Some(touched[0]), touched[1..])
    else OldestFrom(best, touched[1..])
  }

  function Oldest(touched: seq<Touch>): Option<Touch> {
    OldestFrom(None, touched)
  }

  // ----- operations on keys -----

  function ReleaseKey(b: Bus, key: string): Bus {
    b.(sequences := b.sequences - {key}, rings := b.rings - {key}, touched := DropTouch(b.touched, key),
       counts := b.counts - {key}, subscribers := b.subscribers - {key})
  }

  /** `release`: bounds its argument again, also when the argument is a key already. */
  function Release(b: Bus, scanId: string): Bus {
    match BoundScanId(scanId)
    case None => b
    case Some(key) => ReleaseKey(b, key)
  }

  function Evict(b: Bus): Bus {
    match Oldest(b.touched)
    case None => b
    case Some(t) => Release(b, t.scanId)
  }

  function MakeRoom(c: Config, b: Bus, key: string): Bus {
    if |b.sequences| >= c.maxScans && key !in b.sequences then Evict(b) else b
  }

  /** The event that the next publish under `key` stores. */
  function NextEvent(b: Bus, key: string, eventType: string, body: string): Event {
    Event(key, Get(b.sequences, key, 0) + 1, eventType, body)
  }

  function Record(c: Config, b: Bus, key: string, e: Event, now: int): Bus {
    b.(sequences := b.sequences[key := e.sequence],
       rings := b.rings[key := Last(Get(b.rings, key, []) + [e], c.ringPerScan)],
       touched := SetTouch(b.touched, key, now),
       counts := b.counts[key := Get(b.counts, key, 0) + 1])
  }

  function PublishKey(c: Config, b: Bus, key: string, eventType: string, body: string, now: int): Bus {
    var room := MakeRoom(c, b, key);
    Record(c, room, key, NextEvent(room, key, eventType, body), now)
  }

  function After(events: seq<Event>, sequence: int): seq<Event> {
    if events == [] then []
    else if events[0].sequence > sequence then [events[0]] + After(events[1..], sequence)
    else After(events[1..], sequence)
  }

  /** `Math.max(0, Math.floor(afterSequence))`. */
  function ReplayPoint(afterSequence: real): nat {
    if afterSequence.Floor > 0 then afterSequence.Floor else 0
  }

  function ReplayKey(b: Bus, key: string, afterSequence: real): seq<Event> {
    if key in b.rings then After(b.rings[key], ReplayPoint(afterSequence)) else []
  }

  /** Who is told about an event of `key`. */
  function Listeners(b: Bus, key: string): set<Subscriber> {
    if key in b.subscribers && b.subscribers[key] in b.sets then b.sets[b.subscribers[key]] else {}
  }

  function SubscribeKey(b: Bus, key: string, id: nat, s: Subscriber): Bus {
    var own := if key in b.subscribers then b.subscribers[key] else id;
    b.(subscribers := b.subscribers[key := own],
       sets := b.sets[own := (if own in b.sets then b.sets[own] else {}) + {s}])
  }

  function SubscribeScan(b: Bus, scanId: string, id: nat, s: Subscriber): Bus {
    match BoundScanId(scanId)
    case None => b
    case Some(key) => SubscribeKey(b, key, id, s)
  }

  /** Every key's set exists, and no two keys share one. */
  ghost predicate Owned(b: Bus) {
    && (forall k :: k in b.subscribers ==> b.subscribers[k] in b.sets)
    && (forall k, l :: k in b.subscribers && l in b.subscribers && k != l ==> b.subscribers[k] != b.subscribers[l])
  }

  /** Where no sets are shared, subscribing adds one listener to one scan. */
  lemma {:induction false} SubscribeListeners(b: Bus, key: string, id: nat, s: Subscriber, k: string)
    requires Owned(b) && id !in b.sets
    ensures Listeners(SubscribeKey(b, key, id, s), k) == Listeners(b, k) + (if k == key then {s} else {})
  {}

  /** The closure made by `subscribe`: shrinks its own set, and if that is empty drops whatever set the key has now. */
  function UnsubscribeKey(b: Bus, key: string, id: nat, s: Subscriber): Bus {
    var left := (if id in b.sets then b.sets[id] else {}) - {s};
    var b' := b.(sets := b.sets[id := left]);
    if left == {} then b'.(subscribers := b.subscribers - {key}) else b'
  }

  // ----- the class -----

  datatype PublishOutcome = Published(event: Event, notified: set<Subscriber>) | InvalidEvent(reason: string)

  class InMemoryEventBus {
    const config: Config
    var sequences: map<string, nat>
    var rings: map<string, seq<Event>>
    var touched: seq<Touch>
    var counts: map<string, nat>
    var subscribers: map<string, nat>
    var sets: map<nat, set<Subscriber>>

    function State(): Bus
      reads this
    {
      Bus(sequences, rings, touched, counts, subscribers, sets)
    }

    constructor (config: Config)
      ensures this.config == config && State() == EMPTY
    {
      this.config := config;
      sequences, rings, touched, counts, subscribers, sets := map[], map[], [], map[], map[], map[];
    }

    /** A refused event changes nothing; an accepted one is recorded and told to the key's listeners. */
    method Publish(scanId: string, eventType: string, body: string, now: int) returns (r: PublishOutcome)
      modifies this
      ensures r.InvalidEvent? <==> eventType !in config.eventTypes || BoundScanId(scanId).None?
      ensures r.InvalidEvent? ==> State() == old(State())
      ensures r.Published? ==>
        var key := BoundScanId(scanId).value;
        && State() == PublishKey(config, old(State()), key, eventType, body, now)
        && r.event == NextEvent(MakeRoom(config, old(State()), key), key, eventType, body)
        && r.notified == Listeners(State(), key)
    {
      hide BoundScanId, SetTouch, Evict, Last, Listeners;
      if eventType !in config.eventTypes {
        return InvalidEvent("unknown eventType '" + eventType + "'");
      }
      var bounded := BoundScanId(scanId);
      if bounded.None? {
        return InvalidEvent("scanId is required");
      }
      var key := bounded.value;
      if |sequences| >= config.maxScans && key !in sequences {
        EvictLeastRecentlyPublished();
      }
      var event := Event(key, Get(sequences, key, 0) + 1, eventType, body);
      sequences := sequences[key := event.sequence];
      RingPush(key, event);
      touched := SetTouch(touched, key, now);
      counts := counts[key := Get(counts, key, 0) + 1];
      r := Published(event, Listeners(State(), key));
    }

    /** Push, then shift while the ring is over its cap. */
    method RingPush(key: string, event: Event)
      modifies this`rings
      ensures rings == old(rings)[key := Last(Get(old(rings), key, []) + [event], config.ringPerScan)]
    {
      var ring := Get(rings, key, []) + [event];
      ghost var pushed := ring;
      while |ring| > config.ringPerScan
        invariant |ring| <= |pushed| && ring == pushed[|pushed| - |ring|..]
        invariant |ring| >= config.ringPerScan || ring == pushed
      {
        ring := ring[1..];
      }
      rings := rings[key := ring];
    }

    /** Scans the touch times for the first least one and releases that scan. */
    method EvictLeastRecentlyPublished()
      modifies this
      ensures State() == Evict(old(State()))
    {
      var oldest: Option<Touch> := None;
      var i := 0;
      assert touched[0..] == touched;
      while i < |touched|
        invariant 0 <= i <= |touched|
        invariant OldestFrom(oldest, touched[i..]) == Oldest(touched)
        invariant State() == old(State())
      {
        assert touched[i..][1..] == touched[i + 1..];
        if oldest.None? || touched[i].at < oldest.value.at {
          oldest := Some(touched[i]);
        }
        i := i + 1;
      }
      if oldest.Some? {
        var released := ReleaseScan(oldest.value.scanId);
      }
    }

    method ReleaseScan(scanId: string) returns (accepted: bool)
      modifies this
      ensures accepted <==> BoundScanId(scanId).Some?
      ensures State() == Release(old(State()), scanId)
    {
      var bounded := BoundScanId(scanId);
      accepted := bounded.Some?;
      if accepted {
        var key := bounded.value;
        sequences := sequences - {key};
        rings := rings - {key};
        subscribers := subscribers - {key};
        touched := DropTouch(touched, key);
        counts := counts - {key};
      }
    }

    /** Everything in the ring after a sequence number, oldest first; an empty id is refused. */
    method Replay(scanId: string, afterSequence: real) returns (r: Option<seq<Event>>)
      ensures r == match BoundScanId(scanId) case None => None case Some(key) => Some(ReplayKey(State(), key, afterSequence))
    {
      var bounded := BoundScanId(scanId);
      if bounded.None? {
        return None;
      }
      if bounded.value !in rings {
        return Some([]);
      }
      var ring, point := rings[bounded.value], ReplayPoint(afterSequence);
      var events: seq<Event> := [];
      var i := 0;
      assert ring[0..] == ring;
      while i < |ring|
        invariant 0 <= i <= |ring|
        invariant events + After(ring[i..], point) == After(ring, point)
      {
        assert ring[i..][1..] == ring[i + 1..];
        if ring[i].sequence > point {
          Associate(events, [ring[i]], After(ring[i + 1..], point));
          events := events + [ring[i]];
        }
        i := i + 1;
      }
      assert ring[|ring|..] == [] && events + [] == events;
      r := Some(events);
    }

    /** `freshId` is the identity of the set made if the key has none; an empty id is refused. */
    method Subscribe(scanId: string, s: Subscriber, freshId: nat) returns (handle: Option<(string, nat)>)
      requires freshId !in sets
      modifies this
      ensures State() == SubscribeScan(old(State()), scanId, freshId, s)
      ensures handle.Some? <==> BoundScanId(scanId).Some?
      ensures handle.Some? ==>
        BoundScanId(scanId) == Some(handle.value.0) && handle.value.0 in subscribers
        && handle.value.1 == subscribers[handle.value.0]
      // exactly this subscriber joins exactly this scan's listeners
      ensures old(Owned(State())) ==> forall k ::
        Listeners(State(), k) == old(Listeners(State(), k)) + (if BoundScanId(scanId) == Some(k) then {s} else {})
    {
      hide BoundScanId, Owned, Listeners;
      ghost var before := State();
      var bounded := BoundScanId(scanId);
      if bounded.None? {
        return None;
      }
      var key := bounded.value;
      var id := if key in subscribers then subscribers[key] else freshId;
      subscribers := subscribers[key := id];
      sets := sets[id := (if id in sets then sets[id] else {}) + {s}];
      handle := Some((key, id));
      assert State() == SubscribeKey(before, key, freshId, s);
      if Owned(before) {
        forall k ensures Listeners(State(), k) == Listeners(before, k) + (if Some(key) == Some(k) then {s} else {}) {
          SubscribeListeners(before, key, freshId, s, k);
        }
      }
    }

    method Unsubscribe(key: string, id: nat, s: Subscriber)
      modifies this
      ensures State() == UnsubscribeKey(old(State()), key, id, s)
    {
      var left := (if id in sets then sets[id] else {}) - {s};
      sets := sets[id := left];
      if left == {} {
        subscribers := subscribers - {key};
      }
    }
  }
}
