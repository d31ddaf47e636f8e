/**
 The bus over whole runs: it is a bounded cache of full per-scan histories, its tracked
 scans are a least-recently-published list, and its size stays within the cap.
 */
module EventBusRuns {
  import opened Text
  import opened EventBus

  datatype Action =
    | Pub(scanId: string, eventType: string, body: string, now: int)
    | Rel(scanId: string)

  /** One call on the bus; calls with an id that bounding refuses do nothing. */
  function Step(c: Config, b: Bus, a: Action): Bus {
    match a
    case Pub(id, eventType, body, now) =>
      (match BoundScanId(id)
       case None => b
       case Some(key) => PublishKey(c, b, key, eventType, body, now))
    case Rel(id) => Release(b, id)
  }

  function Run(c: Config, actions: seq<Action>): Bus {
    if actions == [] then EMPTY else Step(c, Run(c, Front(actions)), Final(actions))
  }

  function Front<T>(s: seq<T>): seq<T>
    requires s != []
  {
    s[..|s| - 1]
  }

  function Final<T>(s: seq<T>): T
    requires s != []
  {
    s[|s| - 1]
  }

  // ----- the full history of each tracked scan -----

  type History = map<string, seq<Event>>

  /**
   The reference: nothing is ever dropped from a history while its scan stays tracked; the
   i-th event of a history carries number i. It uses none of the bus's numbers or rings.
   */
  function StepHistory(c: Config, b: Bus, h: History, a: Action): History {
    match a
    case Rel(_) => Restrict(h, Step(c, b, a).sequences.Keys)
    case Pub(id, eventType, body, now) =>
      match BoundScanId(id)
      case None => h
      case Some(key) => PublishHistory(Restrict(h, MakeRoom(c, b, key).sequences.Keys), key, eventType, body)
  }

  /** The published scan's history grows by one event; no other history changes. */
  function PublishHistory(h: History, key: string, eventType: string, body: string): History {
    var own := Get(h, key, []);
    h[key := own + [Event(key, |own| + 1, eventType, body)]]
  }

  /** Histories of scans that are no longer tracked are forgotten. */
  function Restrict(h: History, keys: set<string>): History {
    map k | k in h && k in keys :: h[k]
  }

  function RunHistory(c: Config, actions: seq<Action>): History {
    if actions == [] then map[]
    else StepHistory(c, Run(c, Front(actions)), RunHistory(c, Front(actions)), Final(actions))
  }

  predicate Numbered(key: string, events: seq<Event>) {
    forall i :: 0 <= i < |events| ==> events[i].scanId == key && events[i].sequence == i + 1
  }

  function TouchKeys(touched: seq<Touch>): set<string> {
    set t | t in touched :: t.scanId
  }

  predicate DistinctTouches(touched: seq<Touch>) {
    forall i, j :: 0 <= i < j < |touched| ==> touched[i].scanId != touched[j].scanId
  }

  /** What the maps hold for one scan is determined by its history. */
  predicate ScanAgrees(c: Config, key: string, events: seq<Event>, sequence: nat, ring: seq<Event>, count: nat) {
    |events| == sequence == count && Numbered(key, events) && ring == Last(events, c.ringPerScan)
  }

  ghost predicate MapsAgree(
      c: Config, sequences: map<string, nat>, rings: map<string, seq<Event>>, counts: map<string, nat>, h: History) {
    && sequences.Keys == h.Keys && rings.Keys == h.Keys && counts.Keys == h.Keys
    && forall k :: k in h ==> |h[k]| >= 1 && ScanAgrees(c, k, h[k], sequences[k], rings[k], counts[k])
  }

  ghost predicate Agrees(c: Config, b: Bus, h: History) {
    MapsAgree(c, b.sequences, b.rings, b.counts, h)
  }

  ghost predicate TouchesAgree(b: Bus) {
    DistinctTouches(b.touched) && TouchKeys(b.touched) == b.sequences.Keys
  }

  // ----- touch lists -----

  lemma {:induction false} SetTouchEntries(touched: seq<Touch>, key: string, at: int)
    requires DistinctTouches(touched)
    ensures DistinctTouches(SetTouch(touched, key, at))
    ensures forall t :: t in SetTouch(touched, key, at) <==> t == Touch(key, at) || (t in touched && t.scanId != key)
    decreases |touched|
  {
    if touched != [] {
      var first, rest := touched[0], touched[1..];
      assert touched == [first] + rest;
      assert forall t :: t in rest ==> t.scanId != first.scanId;
      if first.scanId == key {
        DistinctCons(Touch(key, at), rest);
      } else {
        SetTouchEntries(rest, key, at);
        DistinctCons(first, SetTouch(rest, key, at));
      }
      hide DistinctTouches;
    }
  }

  lemma {:induction false} DistinctCons(t: Touch, l: seq<Touch>)
    requires DistinctTouches(l) && forall x :: x in l ==> t.scanId != x.scanId
    ensures DistinctTouches([t] + l)
  {}

  lemma {:induction false} DropTouchEntries(touched: seq<Touch>, key: string)
    requires DistinctTouches(touched)
    ensures DistinctTouches(DropTouch(touched, key))
    ensures forall t :: t in DropTouch(touched, key) <==> t in touched && t.scanId != key
    decreases |touched|
  {
    if touched != [] {
      assert touched == [touched[0]] + touched[1..];
      DropTouchEntries(touched[1..], key);
    }
  }

  lemma {:induction false} DropTouchCount(l: seq<Touch>, key: string)
    requires DistinctTouches(l)
    ensures key !in TouchKeys(l) ==> DropTouch(l, key) == l
    ensures key in TouchKeys(l) ==> |DropTouch(l, key)| == |l| - 1
    decreases |l|
  {
    if l != [] {
      assert l == [l[0]] + l[1..];
      DropTouchCount(l[1..], key);
      assert TouchKeys(l) == {l[0].scanId} + TouchKeys(l[1..]);
      assert l[0].scanId !in TouchKeys(l[1..]);
      hide DistinctTouches, TouchKeys;
    }
  }

  lemma {:induction false} SetTouchAbsent(touched: seq<Touch>, key: string, at: int)
    requires key !in TouchKeys(touched)
    ensures SetTouch(touched, key, at) == touched + [Touch(key, at)]
    decreases |touched|
  {
    if touched != [] {
      assert touched == [touched[0]] + touched[1..];
      assert touched[0].scanId in TouchKeys(touched) && TouchKeys(touched[1..]) <= TouchKeys(touched);
      SetTouchAbsent(touched[1..], key, at);
    }
  }

  lemma {:induction false} OldestFromSnoc(best: Option<Touch>, touched: seq<Touch>, last: Touch)
    requires OldestFrom(best, touched).Some? && OldestFrom(best, touched).value.at <= last.at
    ensures OldestFrom(best, touched + [last]) == OldestFrom(best, touched)
    decreases |touched|
  {
    if touched == [] {
      assert (touched + [last])[1..] == [];
    } else {
      assert (touched + [last])[1..] == touched[1..] + [last];
      OldestFromSnoc(if best.None? || touched[0].at < best.value.at then Some(touched[0]) else best, touched[1..], last);
    }
  }

  lemma {:induction false} OldestFromIsLeast(best: Option<Touch>, touched: seq<Touch>)
    ensures OldestFrom(best, touched).None? <==> best.None? && touched == []
    ensures OldestFrom(best, touched).Some? ==>
      var o := OldestFrom(best, touched).value;
      && (Some(o) == best || o in touched)
      && (forall t :: t in touched ==> o.at <= t.at)
      && (best.Some? ==> o.at <= best.value.at)
    decreases |touched|
  {
    if touched != [] {
      assert touched == [touched[0]] + touched[1..];
      if best.None? || touched[0].at < best.value.at {
        OldestFromIsLeast(Some(touched[0]), touched[1..]);
      } else {
        OldestFromIsLeast(best, touched[1..]);
      }
    }
  }

  /** Under any clock the scan picked for eviction has the least last-publish time. */
  lemma {:induction false} OldestIsLeast(touched: seq<Touch>)
    ensures Oldest(touched).None? <==> touched == []
    ensures Oldest(touched).Some? ==>
      Oldest(touched).value in touched && forall t :: t in touched ==> Oldest(touched).value.at <= t.at
  {
    OldestFromIsLeast(None, touched);
  }

  // ----- the cache agrees with the history -----

  lemma {:induction false} ReleaseAgrees(c: Config, b: Bus, h: History, id: string)
    requires Agrees(c, b, h)
    ensures Agrees(c, Release(b, id), Restrict(h, Release(b, id).sequences.Keys))
    ensures Release(b, id).sequences.Keys <= b.sequences.Keys
  {
    hide BoundScanId, ScanAgrees, DropTouch;
  }

  lemma {:induction false} ReleaseTouches(b: Bus, id: string)
    requires TouchesAgree(b)
    ensures TouchesAgree(Release(b, id))
  {
    hide BoundScanId, DistinctTouches;
    match BoundScanId(id) {
      case None =>
      case Some(key) =>
        DropTouchEntries(b.touched, key);
        assert TouchKeys(DropTouch(b.touched, key)) == TouchKeys(b.touched) - {key};
    }
  }

  lemma {:induction false} MakeRoomAgrees(c: Config, b: Bus, h: History, key: string)
    requires Agrees(c, b, h) && TouchesAgree(b)
    ensures TouchesAgree(MakeRoom(c, b, key))
    ensures Agrees(c, MakeRoom(c, b, key), Restrict(h, MakeRoom(c, b, key).sequences.Keys))
    ensures MakeRoom(c, b, key).sequences.Keys <= b.sequences.Keys
    ensures key in b.sequences ==> MakeRoom(c, b, key) == b
  {
    hide Release, ScanAgrees, DistinctTouches, TouchKeys;
    assert h == Restrict(h, b.sequences.Keys);
    if Oldest(b.touched).Some? {
      ReleaseAgrees(c, b, h, Oldest(b.touched).value.scanId);
      ReleaseTouches(b, Oldest(b.touched).value.scanId);
    }
  }

  lemma {:induction false} LastOfPush<T>(s: seq<T>, x: T, n: nat)
    ensures Last(Last(s, n) + [x], n) == Last(s + [x], n)
  {}

  lemma {:induction false} RecordTouches(c: Config, b: Bus, key: string, e: Event, now: int)
    requires TouchesAgree(b)
    ensures TouchesAgree(Record(c, b, key, e, now))
  {
    hide DistinctTouches, Last;
    SetTouchEntries(b.touched, key, now);
    assert Touch(key, now) in SetTouch(b.touched, key, now);
    assert TouchKeys(SetTouch(b.touched, key, now)) == TouchKeys(b.touched) + {key};
  }

  /** What recording does to the maps, entry by entry. */
  lemma {:induction false} RecordEntries(c: Config, b: Bus, h: History, key: string, eventType: string, body: string, now: int)
    requires Agrees(c, b, h)
    ensures var own, e := Get(h, key, []), NextEvent(b, key, eventType, body);
      var b', h' := Record(c, b, key, e, now), PublishHistory(h, key, eventType, body);
      && e.scanId == key && e.sequence == |own| + 1
      && b'.sequences == b.sequences[key := |own| + 1] && b'.counts == b.counts[key := |own| + 1]
      && b'.rings == b.rings[key := Last(Last(own, c.ringPerScan) + [e], c.ringPerScan)]
      && h' == h[key := own + [e]] && Numbered(key, own)
  {
    hide SetTouch, Numbered, Last;
    var own := Get(h, key, []);
    if key in h {
      assert ScanAgrees(c, key, own, b.sequences[key], b.rings[key], b.counts[key]);
    } else {
      assert Get(b.rings, key, []) == [] == Last(own, c.ringPerScan) by { LastOfEmpty<Event>(c.ringPerScan); }
      assert Numbered(key, own) by { NumberedEmpty(key); }
    }
  }

  lemma {:induction false} LastOfEmpty<T>(n: nat)
    ensures Last<T>([], n) == []
  {}

  lemma {:induction false} NumberedEmpty(key: string)
    ensures Numbered(key, [])
  {}

  lemma {:induction false} MapsPush(
      c: Config, sequences: map<string, nat>, rings: map<string, seq<Event>>, counts: map<string, nat>, h: History,
      key: string, events: seq<Event>, n: nat, ring: seq<Event>)
    requires MapsAgree(c, sequences, rings, counts, h)
    requires |events| >= 1 && ScanAgrees(c, key, events, n, ring, n)
    ensures MapsAgree(c, sequences[key := n], rings[key := ring], counts[key := n], h[key := events])
  {
    hide ScanAgrees;
  }

  /** The next event continues the numbering and is the only change to any history. */
  lemma {:induction false} RecordAgrees(c: Config, b: Bus, h: History, key: string, eventType: string, body: string, now: int)
    requires Agrees(c, b, h)
    ensures Agrees(
      c, Record(c, b, key, NextEvent(b, key, eventType, body), now), PublishHistory(h, key, eventType, body))
  {
    RecordEntries(c, b, h, key, eventType, body, now);
    hide MapsAgree, Record, PublishHistory, NextEvent, ScanAgrees, Last, Numbered;
    var own, e := Get(h, key, []), NextEvent(b, key, eventType, body);
    ScanPush(c, key, own, e);
    hide Get;
    MapsPush(
      c, b.sequences, b.rings, b.counts, h, key, own + [e], |own| + 1,
      Last(Last(own, c.ringPerScan) + [e], c.ringPerScan));
  }

  lemma {:induction false} ScanPush(c: Config, key: string, own: seq<Event>, e: Event)
    requires Numbered(key, own) && e.scanId == key && e.sequence == |own| + 1
    ensures ScanAgrees(c, key, own + [e], |own| + 1, Last(Last(own, c.ringPerScan) + [e], c.ringPerScan), |own| + 1)
  {
    LastOfPush(own, e, c.ringPerScan);
  }

  lemma {:induction false} PublishAgrees(c: Config, b: Bus, h: History, key: string, eventType: string, body: string, now: int)
    requires Agrees(c, b, h) && TouchesAgree(b)
    ensures TouchesAgree(PublishKey(c, b, key, eventType, body, now))
    ensures Agrees(
      c, PublishKey(c, b, key, eventType, body, now),
      PublishHistory(Restrict(h, MakeRoom(c, b, key).sequences.Keys), key, eventType, body))
  {
    hide MakeRoom, Agrees, TouchesAgree, PublishHistory, Record, NextEvent, Restrict;
    var room := MakeRoom(c, b, key);
    MakeRoomAgrees(c, b, h, key);
    RecordAgrees(c, room, Restrict(h, room.sequences.Keys), key, eventType, body, now);
    RecordTouches(c, room, key, NextEvent(room, key, eventType, body), now);
  }

  lemma {:induction false} StepAgrees(c: Config, b: Bus, h: History, a: Action)
    requires Agrees(c, b, h) && TouchesAgree(b)
    ensures Agrees(c, Step(c, b, a), StepHistory(c, b, h, a)) && TouchesAgree(Step(c, b, a))
  {
    hide Agrees, TouchesAgree, BoundScanId, PublishHistory, PublishKey;
    match a {
      case Rel(id) =>
        ReleaseAgrees(c, b, h, id);
        ReleaseTouches(b, id);
      case Pub(id, eventType, body, now) =>
        if BoundScanId(id).Some? {
          PublishAgrees(c, b, h, BoundScanId(id).value, eventType, body, now);
        }
    }
  }

  /**
   Main invariant. After any calls at any times, each tracked scan's sequence number and
   publish count are the length of its full history, the i-th event has number i, the ring
   is the end of that history, and the maps hold exactly the same scans.
   */
  lemma {:induction false} BusCachesHistory(c: Config, actions: seq<Action>)
    ensures Agrees(c, Run(c, actions), RunHistory(c, actions)) && TouchesAgree(Run(c, actions))
  {
    if actions != [] {
      BusCachesHistory(c, Front(actions));
      hide Agrees, TouchesAgree;
      StepAgrees(c, Run(c, Front(actions)), RunHistory(c, Front(actions)), Final(actions));
    }
  }

  // ----- replay -----

  function Suffix(events: seq<Event>, from: nat): seq<Event> {
    if from <= |events| then events[from..] else []
  }

  lemma {:induction false} AfterOfNumbered(key: string, events: seq<Event>, from: nat, point: nat)
    requires Numbered(key, events) && from <= |events|
    ensures After(events[from..], point) == Suffix(events, if point > from then point else from)
    decreases |events| - from
  {
    if from < |events| {
      assert events[from..][1..] == events[from + 1..];
      AfterOfNumbered(key, events, from + 1, point);
    }
  }

  /**
   Replay is always an end piece of the full history, and it is everything after the given
   sequence number if and only if that number is not before the ring's window.
   */
  lemma {:induction false} ReplayIsSuffix(c: Config, b: Bus, h: History, key: string, afterSequence: real)
    requires Agrees(c, b, h) && key in h
    ensures var n, point := |h[key]|, ReplayPoint(afterSequence);
      var dropped := if n > c.ringPerScan then n - c.ringPerScan else 0;
      && ReplayKey(b, key, afterSequence) == Suffix(h[key], if point > dropped then point else dropped)
      && (ReplayKey(b, key, afterSequence) == Suffix(h[key], point) <==> point >= n - c.ringPerScan)
  {
    var events, n, point := h[key], |h[key]|, ReplayPoint(afterSequence);
    var dropped := if n > c.ringPerScan then n - c.ringPerScan else 0;
    assert ScanAgrees(c, key, events, b.sequences[key], b.rings[key], b.counts[key]);
    assert b.rings[key] == events[dropped..];
    AfterOfNumbered(key, events, dropped, point);
    assert point < dropped ==> |Suffix(events, point)| == n - point && |Suffix(events, dropped)| == n - dropped;
  }

  /** Position `i` of a history of `n` events is still in the ring and comes after `afterSequence`. */
  predicate Replayed(c: Config, n: nat, i: nat, afterSequence: real) {
    n - i <= c.ringPerScan && (i + 1) as real > afterSequence
  }

  lemma {:induction false} ReplayPointExactly(afterSequence: real, i: nat)
    ensures (i + 1) as real > afterSequence <==> i >= ReplayPoint(afterSequence)
  {}

  /**
   What a replay returns, exactly, in every reachable state and for every real number: of the
   scan's history, in order, the events with a greater sequence number that are among the last
   `ringPerScan`; nothing for a scan that is not tracked.
   */
  lemma {:induction false} ReplayExactly(c: Config, actions: seq<Action>, key: string, afterSequence: real)
    ensures var b, h := Run(c, actions), RunHistory(c, actions);
      && (key !in h ==> ReplayKey(b, key, afterSequence) == [])
      && (key in h ==> Numbered(key, h[key]) && exists from: nat ::
            && from <= |h[key]| && ReplayKey(b, key, afterSequence) == h[key][from..]
            && forall i :: 0 <= i < |h[key]| ==> (from <= i <==> Replayed(c, |h[key]|, i, afterSequence)))
  {
    BusCachesHistory(c, actions);
    var b, h := Run(c, actions), RunHistory(c, actions);
    hide Run, RunHistory, TouchesAgree, ReplayPoint;
    if key in h {
      ReplayIsSuffix(c, b, h, key, afterSequence);
      assert ScanAgrees(c, key, h[key], b.sequences[key], b.rings[key], b.counts[key]);
      hide Agrees, Numbered, ReplayKey;
      var n, point := |h[key]|, ReplayPoint(afterSequence);
      var dropped := if n > c.ringPerScan then n - c.ringPerScan else 0;
      var start := if point > dropped then point else dropped;
      var from := if start <= n then start else n;
      assert Suffix(h[key], start) == h[key][from..];
      forall i | 0 <= i < n ensures from <= i <==> Replayed(c, n, i, afterSequence) {
        ReplayPointExactly(afterSequence, i);
      }
    }
  }

  // ----- the cap on tracked scans -----

  function Capacity(c: Config): nat {
    if c.maxScans < 1 then 1 else c.maxScans
  }

  lemma {:induction false} TrimStartFixed(s: string)
    ensures TrimStart(s) == s <==> s == "" || !IsSpace(s[0])
    ensures |TrimStart(s)| <= |s| && (TrimStart(s) != "" ==> !IsSpace(TrimStart(s)[0]))
    decreases |s|
  {
    if s != "" && IsSpace(s[0]) {
      TrimStartFixed(s[1..]);
    }
  }

  lemma {:induction false} TrimEndFixed(s: string)
    ensures TrimEnd(s) == s <==> s == "" || !IsSpace(s[|s| - 1])
    ensures |TrimEnd(s)| <= |s| && TrimEnd(s) == s[..|TrimEnd(s)|]
    ensures TrimEnd(s) != "" ==> !IsSpace(TrimEnd(s)[|TrimEnd(s)| - 1])
    decreases |s|
  {
    if s != "" && IsSpace(s[|s| - 1]) {
      TrimEndFixed(s[..|s| - 1]);
    }
  }

  predicate AllSpaces(s: string) {
    forall c :: c in s ==> IsSpace(c)
  }

  predicate Trimmed(s: string) {
    s != "" && !IsSpace(s[0]) && !IsSpace(s[|s| - 1])
  }

  lemma {:induction false} TrimStartDrops(left: string, rest: string)
    requires AllSpaces(left) && (rest != "" ==> !IsSpace(rest[0]))
    ensures TrimStart(left + rest) == rest
  {
    hide IsSpace;
    if left == "" {
      assert left + rest == rest;
    } else {
      assert (left + rest)[1..] == left[1..] + rest && left[0] in left;
      assert forall c :: c in left[1..] ==> c in left;
      TrimStartDrops(left[1..], rest);
    }
  }

  lemma {:induction false} TrimEndDrops(rest: string, right: string)
    requires AllSpaces(right) && (rest != "" ==> !IsSpace(rest[|rest| - 1]))
    ensures TrimEnd(rest + right) == rest
  {
    hide IsSpace;
    if right == "" {
      assert rest + right == rest;
    } else {
      var n := |right| - 1;
      assert (rest + right)[..|rest| + n] == rest + right[..n] && right[n] in right;
      assert forall c :: c in right[..n] ==> c in right;
      TrimEndDrops(rest, right[..n]);
    }
  }

  /** What an id's key is: without the spaces around it, and without what goes beyond 64 characters. */
  lemma {:induction false} BoundExactly(left: string, core: string, right: string)
    requires AllSpaces(left) && AllSpaces(right)
    ensures Trimmed(core) ==> BoundScanId(left + core + right) == Some(Cut(core, 64))
    ensures BoundScanId(left) == None
  {
    hide IsSpace;
    assert left + [] == left;
    TrimStartDrops(left, []);
    if Trimmed(core) {
      Associate(left, core, right);
      TrimStartDrops(left, core + right);
      TrimEndDrops(core, right);
    }
  }

  /** Which ids give a key that bounding leaves alone: those whose cut does not fall behind a space. */
  lemma {:induction false} StableIff(id: string)
    requires BoundScanId(id).Some?
    ensures var trimmed := TrimEnd(TrimStart(id));
      Stable(BoundScanId(id).value) <==> |trimmed| <= MAX_SCAN_ID_CHARS || !IsSpace(trimmed[MAX_SCAN_ID_CHARS - 1])
  {
    var trimmed, key := TrimEnd(TrimStart(id)), BoundScanId(id).value;
    TrimStartFixed(id);
    TrimEndFixed(TrimStart(id));
    hide IsSpace, TrimStart, TrimEnd;
    assert trimmed[0] == TrimStart(id)[0];
    TrimStartFixed(key);
    TrimEndFixed(key);
  }

  /** Eviction releases the scan it picked exactly when bounding leaves that scan's key alone. */
  lemma {:induction false} EvictionHitsItsTarget(b: Bus)
    requires TouchesAgree(b) && Oldest(b.touched).Some?
    ensures var key := Oldest(b.touched).value.scanId;
      && key in b.sequences
      && (key !in Evict(b).sequences <==> Stable(key))
      && (Stable(key) ==> Evict(b).sequences.Keys == b.sequences.Keys - {key})
  {
    hide BoundScanId;
    OldestIsLeast(b.touched);
    assert Oldest(b.touched).value.scanId in TouchKeys(b.touched);
  }

  predicate StableAction(a: Action) {
    a.Pub? && BoundScanId(a.scanId).Some? ==> Stable(BoundScanId(a.scanId).value)
  }

  /** With stable keys the cap holds in every reachable state, under any clock. */
  lemma {:induction false} CapHolds(c: Config, actions: seq<Action>)
    requires forall a :: a in actions ==> StableAction(a)
    ensures |Run(c, actions).sequences| <= Capacity(c)
    ensures forall k :: k in Run(c, actions).sequences ==> Stable(k)
  {
    if actions != [] {
      var b, a := Run(c, Front(actions)), Final(actions);
      assert a in actions;
      CapHolds(c, Front(actions));
      BusCachesHistory(c, Front(actions));
      hide Agrees, BoundScanId, DistinctTouches, Run;
      match a {
        case Rel(id) => KeysOnlyShrink(b, id);
        case Pub(id, _, _, _) =>
          if BoundScanId(id).Some? {
            CapKept(c, b, BoundScanId(id).value);
          }
      }
    }
  }

  lemma {:induction false} SubsetCount<T>(a: set<T>, b: set<T>)
    requires a <= b
    ensures |a| <= |b|
  {
    if a != {} {
      var x :| x in a;
      SubsetCount(a - {x}, b - {x});
    }
  }

  lemma {:induction false} KeysOnlyShrink(b: Bus, id: string)
    ensures |Release(b, id).sequences| <= |b.sequences|
    ensures Release(b, id).sequences.Keys <= b.sequences.Keys
  {
    hide BoundScanId;
    SubsetCount(Release(b, id).sequences.Keys, b.sequences.Keys);
  }

  lemma {:induction false} CapKept(c: Config, b: Bus, key: string)
    requires TouchesAgree(b) && |b.sequences| <= Capacity(c) && forall k :: k in b.sequences ==> Stable(k)
    ensures MakeRoom(c, b, key).sequences.Keys <= b.sequences.Keys
    ensures |MakeRoom(c, b, key).sequences.Keys + {key}| <= Capacity(c)
  {
    hide BoundScanId, DistinctTouches, Evict, Stable;
    OldestIsLeast(b.touched);
    var keys := b.sequences.Keys;
    assert |keys| == |b.sequences|;
    if |b.sequences| >= c.maxScans && key !in b.sequences {
      if Oldest(b.touched).Some? {
        EvictionHitsItsTarget(b);
        var out := Oldest(b.touched).value.scanId;
        assert |keys - {out}| == |keys| - 1;
      } else {
        assert Evict(b) == b by { EvictNothing(b); }
        assert TouchKeys([]) == {};
        assert keys == {};
      }
    } else if key in b.sequences {
      assert keys + {key} == keys;
    }
  }

  lemma {:induction false} EvictNothing(b: Bus)
    requires Oldest(b.touched).None?
    ensures Evict(b) == b
  {}

  /** What an eviction releases, exactly: the bounded form of the oldest scan's key, and nothing else. */
  lemma {:induction false} EvictReleasesExactly(b: Bus)
    requires Oldest(b.touched).Some?
    ensures Evict(b).sequences.Keys
         == b.sequences.Keys - (match BoundScanId(Oldest(b.touched).value.scanId) case None => {} case Some(k) => {k})
  {
    hide BoundScanId, DropTouch, Oldest;
  }

  lemma {:induction false} PublishTouches(c: Config, b: Bus, key: string, eventType: string, body: string, now: int)
    ensures var room, b' := MakeRoom(c, b, key), PublishKey(c, b, key, eventType, body, now);
      b'.sequences.Keys == room.sequences.Keys + {key} && b'.touched == SetTouch(room.touched, key, now)
  {
    hide MakeRoom, SetTouch, Last;
  }

  lemma {:induction false} CountAfterSwap(keys: set<string>, gone: Option<string>, key: string)
    requires key !in keys
    ensures var n := |keys - (match gone case None => {} case Some(k) => {k}) + {key}|;
      && (n == |keys| + 1 <==> gone.None? || gone.value !in keys)
      && |keys| <= n <= |keys| + 1
  {
    var left := keys - (match gone case None => {} case Some(k) => {k});
    assert |left + {key}| == |left| + 1;
    if gone.Some? && gone.value in keys {
      assert |keys - {gone.value}| == |keys| - 1;
    } else {
      assert left == keys;
    }
  }

  /**
   When a publish of a new scan on a full bus breaks the cap, exactly: if the bounded form of the
   oldest scan's key is not tracked, so that the eviction releases nothing.
   */
  lemma {:induction false} GrowsPastCapIff(c: Config, b: Bus, key: string, eventType: string, body: string, now: int)
    requires TouchesAgree(b) && Oldest(b.touched).Some? && |b.sequences| >= c.maxScans && key !in b.sequences
    ensures var n, bounded := |PublishKey(c, b, key, eventType, body, now).sequences|,
                              BoundScanId(Oldest(b.touched).value.scanId);
      && (n == |b.sequences| + 1 <==> bounded.None? || bounded.value !in b.sequences)
      && |b.sequences| <= n <= |b.sequences| + 1
  {
    hide BoundScanId, TouchesAgree, Oldest, Evict, SetTouch, PublishKey;
    EvictReleasesExactly(b);
    PublishTouches(c, b, key, eventType, body, now);
    var after := PublishKey(c, b, key, eventType, body, now);
    assert |after.sequences.Keys| == |after.sequences| && |b.sequences.Keys| == |b.sequences|;
    CountAfterSwap(b.sequences.Keys, BoundScanId(Oldest(b.touched).value.scanId), key);
  }

  lemma {:induction false} FirstPublish(c: Config, key: string, eventType: string, body: string, now: int)
    ensures var b := PublishKey(c, EMPTY, key, eventType, body, now);
      && b.sequences == map[key := 1] && b.touched == [Touch(key, now)]
      && Oldest(b.touched) == Some(Touch(key, now)) && TouchesAgree(b)
  {
    var t := Touch(key, now);
    assert [t][1..] == [] && OldestFrom(Some(t), []) == Some(t);
    assert TouchKeys([Touch(key, now)]) == {key};
  }

  lemma {:induction false} EvictionMisses(b: Bus, u: string)
    requires TouchesAgree(b) && Oldest(b.touched).Some? && Oldest(b.touched).value.scanId == u
    requires !Stable(u) && (BoundScanId(u).Some? ==> BoundScanId(u).value !in b.sequences)
    ensures Evict(b).sequences == b.sequences && Evict(b).touched == b.touched
  {
    hide BoundScanId, DistinctTouches;
    if BoundScanId(u).Some? {
      DropTouchCount(b.touched, BoundScanId(u).value);
    }
  }

  /** An unstable oldest scan survives the publish of a new one, and stays the oldest. */
  lemma {:induction false} UnstableOldestStays(
      c: Config, b: Bus, u: string, t0: int, key: string, eventType: string, body: string, now: int)
    requires TouchesAgree(b) && Oldest(b.touched) == Some(Touch(u, t0)) && key !in b.sequences && t0 <= now
    requires !Stable(u) && (BoundScanId(u).Some? ==> BoundScanId(u).value !in b.sequences)
    ensures var b' := PublishKey(c, b, key, eventType, body, now);
      && b'.sequences.Keys == b.sequences.Keys + {key} && |b'.sequences| == |b.sequences| + 1
      && Oldest(b'.touched) == Some(Touch(u, t0))
  {
    hide BoundScanId, DistinctTouches, Evict;
    EvictionMisses(b, u);
    SetTouchAbsent(b.touched, key, now);
    OldestFromSnoc(None, b.touched, Touch(key, now));
    assert |b.sequences.Keys + {key}| == |b.sequences| + 1;
  }

  /** Publishes of scans other than `u`, no two of the same scan, none before `t0`. */
  predicate OtherScans(pubs: seq<Action>, u: string, t0: int) {
    && (forall a :: a in pubs ==>
          a.Pub? && t0 <= a.now && BoundScanId(a.scanId).Some? && BoundScanId(a.scanId) != Some(u)
          && BoundScanId(a.scanId) != BoundScanId(u))
    && (forall i, j :: 0 <= i < j < |pubs| ==> BoundScanId(pubs[i].scanId) != BoundScanId(pubs[j].scanId))
  }

  function PubKeys(pubs: seq<Action>): set<string> {
    set a | a in pubs && BoundScanId(a.scanId).Some? :: BoundScanId(a.scanId).value
  }

  lemma {:induction false} OtherScansFront(pubs: seq<Action>, u: string, t0: int)
    requires OtherScans(pubs, u, t0) && pubs != []
    ensures OtherScans(Front(pubs), u, t0)
    ensures var a := Final(pubs);
      && a.Pub? && t0 <= a.now && BoundScanId(a.scanId).Some?
      && BoundScanId(a.scanId).value != u && BoundScanId(a.scanId).value !in PubKeys(Front(pubs))
      && PubKeys(pubs) == PubKeys(Front(pubs)) + {BoundScanId(a.scanId).value}
    ensures BoundScanId(u).Some? ==> BoundScanId(u).value !in PubKeys(Front(pubs))
  {
    hide BoundScanId;
    assert Final(pubs) in pubs;
    assert pubs == Front(pubs) + [Final(pubs)];
  }

  /** `n` scans are tracked, `u` and `keys`, and `u` is the next victim. */
  ghost predicate Outgrown(b: Bus, u: string, t0: int, keys: set<string>, n: nat) {
    b.sequences.Keys == {u} + keys && |b.sequences| == n && Oldest(b.touched) == Some(Touch(u, t0))
  }

  lemma {:induction false} OneRun(c: Config, id: string, t0: int)
    requires BoundScanId(id).Some?
    ensures Outgrown(Run(c, [Pub(id, "e", "", t0)]), BoundScanId(id).value, t0, {}, 1)
  {
    hide BoundScanId;
    var first := Pub(id, "e", "", t0);
    assert Front([first]) == [] && Final([first]) == first && Run(c, []) == EMPTY;
    FirstPublish(c, BoundScanId(id).value, "e", "", t0);
  }

  lemma {:induction false} OutgrownStep(c: Config, b: Bus, u: string, t0: int, keys: set<string>, n: nat, a: Action)
    requires Outgrown(b, u, t0, keys, n) && TouchesAgree(b) && !Stable(u)
    requires BoundScanId(u).Some? ==> BoundScanId(u).value !in keys
    requires a.Pub? && t0 <= a.now && BoundScanId(a.scanId).Some?
    requires BoundScanId(a.scanId).value != u && BoundScanId(a.scanId).value !in keys
    ensures Outgrown(Step(c, b, a), u, t0, keys + {BoundScanId(a.scanId).value}, n + 1)
  {
    hide BoundScanId, PublishKey, TouchesAgree, Oldest;
    UnstableOldestStays(c, b, u, t0, BoundScanId(a.scanId).value, a.eventType, a.body, a.now);
  }

  lemma {:induction false} UnstableRun(c: Config, id: string, t0: int, pubs: seq<Action>)
    requires BoundScanId(id).Some? && !Stable(BoundScanId(id).value) && OtherScans(pubs, BoundScanId(id).value, t0)
    ensures Outgrown(
      Run(c, [Pub(id, "e", "", t0)] + pubs), BoundScanId(id).value, t0, PubKeys(pubs), |pubs| + 1)
    decreases |pubs|
  {
    var first, u := [Pub(id, "e", "", t0)], BoundScanId(id).value;
    if pubs == [] {
      assert first + pubs == first && PubKeys(pubs) == {};
      hide *;
      OneRun(c, id, t0);
    } else {
      var before, a := Front(pubs), Final(pubs);
      assert Front(first + pubs) == first + before && Final(first + pubs) == a;
      hide *;
      OtherScansFront(pubs, u, t0);
      UnstableRun(c, id, t0, before);
      BusCachesHistory(c, first + before);
      RunStep(c, first + pubs);
      OutgrownStep(c, Run(c, first + before), u, t0, PubKeys(before), |before| + 1, a);
      assert |pubs| == |before| + 1 by { FrontLength(pubs); }
    }
  }

  lemma {:induction false} FrontLength<T>(s: seq<T>)
    requires s != []
    ensures |s| == |Front(s)| + 1
  {}

  lemma {:induction false} RunStep(c: Config, actions: seq<Action>)
    requires actions != []
    ensures Run(c, actions) == Step(c, Run(c, Front(actions)), Final(actions))
  {}

  /**
   So the cap fails for every id with such a key, whatever the cap is: after its publish and the
   publishes of any number of other scans, all of them are still tracked.
   */
  lemma {:induction false} UnstableKeyBreaksCap(c: Config, id: string, t0: int, pubs: seq<Action>)
    requires BoundScanId(id).Some? && !Stable(BoundScanId(id).value) && OtherScans(pubs, BoundScanId(id).value, t0)
    ensures |Run(c, [Pub(id, "e", "", t0)] + pubs).sequences| == |pubs| + 1
    ensures |pubs| >= Capacity(c) ==> |Run(c, [Pub(id, "e", "", t0)] + pubs).sequences| > Capacity(c)
  {
    hide BoundScanId, Stable, OtherScans, Run, Oldest;
    UnstableRun(c, id, t0, pubs);
  }

  lemma {:induction false} BoundsToLetters()
    ensures var letters := seq(63, _ => 'a');
      BoundScanId(letters + " ") == Some(letters) && Stable(letters)
  {
    var letters := seq(63, _ => 'a');
    var key := letters + " ";
    assert letters[0] == 'a' && letters[62] == 'a' && key[0] == 'a' && key[63] == ' ';
    TrimStartFixed(key);
    TrimStartFixed(letters);
    TrimEndFixed(letters);
    assert TrimEnd(key) == TrimEnd(key[..63]) && key[..63] == letters;
  }

  /** Such an id exists: 63 letters, a space and one more letter. */
  lemma {:induction false} UnstableIdExists()
    ensures var id := seq(63, _ => 'a') + " b";
      && BoundScanId(id) == Some(seq(63, _ => 'a') + " ")
      && !Stable(seq(63, _ => 'a') + " ")
      && BoundScanId(seq(63, _ => 'a') + " ") == Some(seq(63, _ => 'a')) && Stable(seq(63, _ => 'a'))
  {
    var id, key := seq(63, _ => 'a') + " b", seq(63, _ => 'a') + " ";
    assert |id| == 65 && id[0] == 'a' && id[64] == 'b' && id[63] == ' ';
    TrimStartFixed(id);
    TrimEndFixed(id);
    assert id[..64] == key;
    StableIff(id);
    BoundsToLetters();
  }

  // ----- subscribing and unsubscribing -----

  /** A call on the bus, subscriptions included; `id` is the identity of a set, new when one is made. */
  datatype Call =
    | OnScans(action: Action)
    | Sub(scanId: string, id: nat, s: Subscriber)
    | Unsub(key: string, id: nat, s: Subscriber)

  function CallStep(c: Config, b: Bus, call: Call): Bus {
    match call
    case OnScans(a) => Step(c, b, a)
    case Sub(scanId, id, s) => SubscribeScan(b, scanId, id, s)
    case Unsub(key, id, s) => UnsubscribeKey(b, key, id, s)
  }

  function CallRun(c: Config, calls: seq<Call>): Bus {
    if calls == [] then EMPTY else CallStep(c, CallRun(c, Front(calls)), Final(calls))
  }

  /** New sets are new: no set made by a subscription had its identity before. */
  predicate FreshSets(c: Config, calls: seq<Call>) {
    calls == []
    || (FreshSets(c, Front(calls)) && (Final(calls).Sub? ==> Final(calls).id !in CallRun(c, Front(calls)).sets))
  }

  /** `after` has lost some subscriber sets, and nothing else about subscriptions has changed. */
  ghost predicate SubsShrink(b: Bus, after: Bus) {
    after.sets == b.sets
    && forall k :: k in after.subscribers ==> k in b.subscribers && after.subscribers[k] == b.subscribers[k]
  }

  lemma {:induction false} ReleaseShrinksSubs(b: Bus, id: string)
    ensures SubsShrink(b, Release(b, id))
  {
    hide BoundScanId, DropTouch;
  }

  lemma {:induction false} PublishShrinksSubs(c: Config, b: Bus, key: string, eventType: string, body: string, now: int)
    ensures SubsShrink(b, PublishKey(c, b, key, eventType, body, now))
  {
    hide Release, SetTouch, Last, Get, NextEvent, Oldest;
    if Oldest(b.touched).Some? {
      ReleaseShrinksSubs(b, Oldest(b.touched).value.scanId);
    }
  }

  lemma {:induction false} ScansKeepOwned(c: Config, b: Bus, a: Action)
    requires Owned(b)
    ensures Owned(Step(c, b, a))
  {
    hide BoundScanId, PublishKey, Release;
    match a {
      case Rel(id) => ReleaseShrinksSubs(b, id);
      case Pub(id, eventType, body, now) =>
        if BoundScanId(id).Some? {
          PublishShrinksSubs(c, b, BoundScanId(id).value, eventType, body, now);
        }
    }
  }

  /** In every reachable state, whatever is published, released, subscribed or unsubscribed, no two scans share a set. */
  lemma {:induction false} SetsStayOwned(c: Config, calls: seq<Call>)
    requires FreshSets(c, calls)
    ensures Owned(CallRun(c, calls))
  {
    if calls != [] {
      SetsStayOwned(c, Front(calls));
      var b := CallRun(c, Front(calls));
      hide Step;
      match Final(calls) {
        case OnScans(a) => ScansKeepOwned(c, b, a);
        case _ =>
      }
    }
  }

  /** A released scan has no listeners left; those of every other scan stay. */
  lemma {:induction false} ReleaseListeners(b: Bus, scanId: string, k: string)
    ensures Listeners(Release(b, scanId), k) == if BoundScanId(scanId) == Some(k) then {} else Listeners(b, k)
  {
    hide BoundScanId, DropTouch;
  }

  /** The scan whose state a publish under `key` releases first, if any. */
  function Released(c: Config, b: Bus, key: string): Option<string> {
    if |b.sequences| >= c.maxScans && key !in b.sequences && Oldest(b.touched).Some?
      then BoundScanId(Oldest(b.touched).value.scanId) else None
  }

  /** A publish takes away the listeners of the scan it evicts and of no other; with the scan tracked, of none. */
  lemma {:induction false} PublishListeners(
      c: Config, b: Bus, key: string, eventType: string, body: string, now: int, k: string)
    ensures Listeners(PublishKey(c, b, key, eventType, body, now), k)
         == if Released(c, b, key) == Some(k) then {} else Listeners(b, k)
    ensures key in b.sequences ==> Released(c, b, key) == None
  {
    hide BoundScanId, SetTouch, Last, Get, NextEvent, Oldest, Release, Listeners;
    var room := MakeRoom(c, b, key);
    if Oldest(b.touched).Some? {
      ReleaseListeners(b, Oldest(b.touched).value.scanId, k);
    }
    assert Listeners(room, k) == if Released(c, b, key) == Some(k) then {} else Listeners(b, k) by {
      if Oldest(b.touched).None? {
        EvictNothing(b);
      }
    }
    SameSubscriptions(PublishKey(c, b, key, eventType, body, now), room, k);
  }

  lemma {:induction false} SameSubscriptions(b: Bus, other: Bus, k: string)
    requires b.subscribers == other.subscribers && b.sets == other.sets
    ensures Listeners(b, k) == Listeners(other, k)
  {}

  lemma {:induction false} UnsubscribeListeners(b: Bus, key: string, id: nat, s: Subscriber, k: string)
    requires Owned(b) && key in b.subscribers && b.subscribers[key] == id
    ensures Listeners(UnsubscribeKey(b, key, id, s), k) == Listeners(b, k) - (if k == key then {s} else {})
  {}

  /** In any reachable state, subscribing adds exactly this subscriber to exactly this scan's listeners. */
  lemma {:induction false} SubscribeAddsExactly(c: Config, calls: seq<Call>, scanId: string, id: nat, s: Subscriber, k: string)
    requires FreshSets(c, calls) && id !in CallRun(c, calls).sets
    ensures var b := CallRun(c, calls);
      Listeners(SubscribeScan(b, scanId, id, s), k) == Listeners(b, k) + (if BoundScanId(scanId) == Some(k) then {s} else {})
  {
    hide BoundScanId, CallRun, FreshSets, Owned, Listeners, SubscribeKey;
    SetsStayOwned(c, calls);
    if BoundScanId(scanId).Some? {
      SubscribeListeners(CallRun(c, calls), BoundScanId(scanId).value, id, s, k);
    }
  }

  /** Calling its closure right away takes back exactly that, for the listeners of every scan. */
  lemma {:induction false} SubscribeThenUnsubscribe(
      c: Config, calls: seq<Call>, scanId: string, id: nat, s: Subscriber, k: string)
    requires FreshSets(c, calls) && id !in CallRun(c, calls).sets && BoundScanId(scanId).Some?
    ensures var b, key := CallRun(c, calls), BoundScanId(scanId).value;
      var made := SubscribeScan(b, scanId, id, s);
      && key in made.subscribers
      && Listeners(UnsubscribeKey(made, key, made.subscribers[key], s), k)
         == Listeners(b, k) - (if k == key then {s} else {})
  {
    hide BoundScanId;
    var b, key := CallRun(c, calls), BoundScanId(scanId).value;
    var made := SubscribeScan(b, scanId, id, s);
    var longer := calls + [Sub(scanId, id, s)];
    assert Front(longer) == calls && Final(longer) == Sub(scanId, id, s);
    SetsStayOwned(c, calls);
    SetsStayOwned(c, longer);
    assert key in made.subscribers;
    assert CallRun(c, longer) == made;
    hide Owned, Listeners, UnsubscribeKey, SubscribeKey, CallRun, FreshSets;
    SubscribeListeners(b, key, id, s, k);
    UnsubscribeListeners(made, key, made.subscribers[key], s, k);
    assert Listeners(b, k) + {s} - {s} == Listeners(b, k) - {s};
  }

  /**
   The unsubscribe closure removes exactly its own subscriber if and only if the key still has
   the set the closure was made for, or, when that set was replaced, either the old set stays
   non-empty and the subscriber is not in the new one, or the new one has nobody else in it.
   */
  lemma {:induction false} UnsubscribeExactly(b: Bus, key: string, id: nat, s: Subscriber)
    ensures var left := (if id in b.sets then b.sets[id] else {}) - {s};
      (Listeners(UnsubscribeKey(b, key, id, s), key) == Listeners(b, key) - {s})
      <==>
      ((key in b.subscribers && b.subscribers[key] == id)
       || (if left == {} then Listeners(b, key) <= {s} else s !in Listeners(b, key)))
  {
    var left := (if id in b.sets then b.sets[id] else {}) - {s};
    var b' := UnsubscribeKey(b, key, id, s);
    if !(key in b.subscribers && b.subscribers[key] == id) {
      if left == {} {
        assert Listeners(b', key) == {};
        assert Listeners(b, key) - {s} == {} <==> Listeners(b, key) <= {s};
      } else {
        assert Listeners(b', key) == Listeners(b, key);
        assert Listeners(b, key) == Listeners(b, key) - {s} <==> s !in Listeners(b, key);
      }
    }
  }
}
