/** Which scans the bus tracks: a least-recently-published list. */
module EventBusLru {
  import opened Text
  import opened EventBus
  import opened EventBusRuns

  /** Reference: a move-to-front list of at most `m` scans, most recent first. */
  function Lru(m: nat, actions: seq<Action>): seq<Touch> {
    if actions == [] then [] else LruStep(m, Lru(m, Front(actions)), Final(actions))
  }

  function LruStep(m: nat, l: seq<Touch>, a: Action): seq<Touch> {
    match BoundScanId(a.scanId)
    case None => l
    case Some(key) => if a.Rel? then DropTouch(l, key) else Cut([Touch(key, a.now)] + DropTouch(l, key), m)
  }

  /** All scans ever published, most recently published first. */
  function Recency(actions: seq<Action>): seq<Touch> {
    if actions == [] then []
    else
      var l, a := Recency(Front(actions)), Final(actions);
      match BoundScanId(a.scanId)
      case None => l
      case Some(key) => if a.Rel? then l else [Touch(key, a.now)] + DropTouch(l, key)
  }

  predicate MostRecentFirst(l: seq<Touch>) {
    forall i, j :: 0 <= i < j < |l| ==> l[i].at > l[j].at
  }

  ghost predicate SameTouches(l: seq<Touch>, touched: seq<Touch>) {
    forall t :: t in l <==> t in touched
  }

  /** The clock moves on between any two publishes. */
  predicate Ticking(actions: seq<Action>) {
    forall i, j :: 0 <= i < j < |actions| && actions[i].Pub? && actions[j].Pub? ==> actions[i].now < actions[j].now
  }

  ghost predicate LruAgrees(m: nat, b: Bus, l: seq<Touch>) {
    DistinctTouches(l) && MostRecentFirst(l) && SameTouches(l, b.touched) && |l| <= m
  }

  lemma {:induction false} MostRecentCons(t: Touch, l: seq<Touch>)
    requires MostRecentFirst(l) && forall x :: x in l ==> t.at > x.at
    ensures MostRecentFirst([t] + l)
  {}

  lemma {:induction false} MostRecentHead(l: seq<Touch>)
    requires MostRecentFirst(l) && l != []
    ensures MostRecentFirst(l[1..]) && forall x :: x in l[1..] ==> l[0].at > x.at
  {}

  lemma {:induction false} DropTouchKeepsOrder(l: seq<Touch>, key: string)
    requires DistinctTouches(l) && MostRecentFirst(l)
    ensures MostRecentFirst(DropTouch(l, key))
    decreases |l|
  {
    if l != [] {
      MostRecentHead(l);
      DropTouchEntries(l[1..], key);
      DropTouchKeepsOrder(l[1..], key);
      hide MostRecentFirst;
      if l[0].scanId != key {
        MostRecentCons(l[0], DropTouch(l[1..], key));
      }
    }
  }

  lemma {:induction false} DistinctCount(l: seq<Touch>)
    requires DistinctTouches(l)
    ensures |TouchKeys(l)| == |l|
    decreases |l|
  {
    if l != [] {
      assert l == [l[0]] + l[1..];
      DistinctCount(l[1..]);
      assert TouchKeys(l) == {l[0].scanId} + TouchKeys(l[1..]);
    }
  }

  /** The eviction victim is the last scan of the list. */
  lemma {:induction false} OldestIsFinal(m: nat, b: Bus, l: seq<Touch>)
    requires LruAgrees(m, b, l) && l != []
    ensures Oldest(b.touched) == Some(Final(l))
  {
    OldestIsLeast(b.touched);
    assert Final(l) in l;
    var t := Oldest(b.touched).value;
    assert t in l;
  }

  lemma {:induction false} FrontEntries(l: seq<Touch>)
    requires DistinctTouches(l) && l != []
    ensures forall t :: t in Front(l) <==> t in l && t.scanId != Final(l).scanId
    ensures DistinctTouches(Front(l))
  {
    assert l == Front(l) + [Final(l)];
  }

  lemma {:induction false} ReleaseLru(m: nat, b: Bus, l: seq<Touch>, key: string)
    requires LruAgrees(m, b, l) && DistinctTouches(b.touched)
    ensures LruAgrees(m, ReleaseKey(b, key), DropTouch(l, key))
  {
    DropTouchEntries(l, key);
    DropTouchEntries(b.touched, key);
    DropTouchKeepsOrder(l, key);
    DropTouchCount(l, key);
    hide DropTouch, DistinctTouches, MostRecentFirst;
  }

  lemma {:induction false} RecordLru(c: Config, m: nat, b: Bus, l: seq<Touch>, key: string, e: Event, now: int)
    requires LruAgrees(m, b, l) && DistinctTouches(b.touched)
    requires forall t :: t in l ==> t.at < now
    requires |DropTouch(l, key)| < m
    ensures LruAgrees(m, Record(c, b, key, e, now), [Touch(key, now)] + DropTouch(l, key))
  {
    var rest := DropTouch(l, key);
    DropTouchEntries(l, key);
    SetTouchEntries(b.touched, key, now);
    DropTouchKeepsOrder(l, key);
    MostRecentCons(Touch(key, now), rest);
    DistinctCons(Touch(key, now), rest);
    hide DropTouch, SetTouch, Last, DistinctTouches, MostRecentFirst;
    var touched := Record(c, b, key, e, now).touched;
    forall t ensures t in [Touch(key, now)] + rest <==> t in touched {
      assert t in l <==> t in b.touched;
    }
  }

  lemma {:induction false} ListCountsScans(m: nat, b: Bus, l: seq<Touch>)
    requires LruAgrees(m, b, l) && TouchesAgree(b)
    ensures TouchKeys(l) == b.sequences.Keys && |l| == |b.sequences|
    ensures l == [] ==> b.touched == []
  {
    DistinctCount(l);
    hide DistinctTouches, MostRecentFirst;
    assert |b.sequences.Keys| == |b.sequences|;
    assert b.touched != [] ==> b.touched[0] in l;
  }

  lemma {:induction false} EvictLru(m: nat, b: Bus, l: seq<Touch>)
    requires LruAgrees(m, b, l) && DistinctTouches(b.touched) && l != [] && Stable(Final(l).scanId)
    ensures Evict(b) == ReleaseKey(b, Final(l).scanId)
    ensures LruAgrees(m - 1, Evict(b), Front(l))
    ensures DistinctTouches(Evict(b).touched)
  {
    OldestIsFinal(m, b, l);
    var out := Final(l).scanId;
    FrontEntries(l);
    DropTouchEntries(b.touched, out);
    assert Evict(b).touched == DropTouch(b.touched, out);
    hide BoundScanId, DropTouch, DistinctTouches, Evict;
  }

  /** Making room for an untracked scan cuts the list to one below its capacity. */
  lemma {:induction false} RoomLru(c: Config, b: Bus, l: seq<Touch>, key: string)
    requires LruAgrees(Capacity(c), b, l) && TouchesAgree(b)
    requires forall k :: k in b.sequences ==> Stable(k)
    requires key !in b.sequences
    ensures LruAgrees(Capacity(c), MakeRoom(c, b, key), Cut(l, Capacity(c) - 1))
    ensures DistinctTouches(MakeRoom(c, b, key).touched)
  {
    hide BoundScanId, DistinctTouches, MostRecentFirst, SameTouches, Evict, Stable;
    ListCountsScans(Capacity(c), b, l);
    if l == [] {
      EvictNothingTouched(b);
    } else if |l| >= c.maxScans {
      assert Final(l) in l;
      assert Final(l).scanId in TouchKeys(l);
      EvictLru(Capacity(c), b, l);
      hide TouchKeys;
      assert Cut(l, Capacity(c) - 1) == Front(l);
    }
  }

  lemma {:induction false} EvictNothingTouched(b: Bus)
    requires b.touched == []
    ensures Evict(b) == b
  {}

  lemma {:induction false} DropAbsentFromFront(l: seq<Touch>, key: string, n: nat)
    requires DistinctTouches(l) && key !in TouchKeys(l)
    ensures DropTouch(l, key) == l && DropTouch(Cut(l, n), key) == Cut(l, n)
    ensures forall t :: t in Cut(l, n) ==> t in l
  {
    DropTouchCount(l, key);
    assert forall t :: t in Cut(l, n) ==> t in l;
    DropTouchCount(Cut(l, n), key);
  }

  lemma {:induction false} CutCons<T>(x: T, l: seq<T>, m: nat)
    requires m >= 1
    ensures Cut([x] + l, m) == [x] + Cut(l, m - 1)
  {}

  lemma {:induction false} PublishTrackedLru(c: Config, b: Bus, l: seq<Touch>, key: string, e: Event, now: int)
    requires LruAgrees(Capacity(c), b, l) && TouchesAgree(b) && key in b.sequences
    requires forall t :: t in l ==> t.at < now
    ensures LruAgrees(
      Capacity(c), Record(c, b, key, e, now), Cut([Touch(key, now)] + DropTouch(l, key), Capacity(c)))
  {
    ListCountsScans(Capacity(c), b, l);
    DropTouchCount(l, key);
    assert |DropTouch(l, key)| < Capacity(c);
    RecordLru(c, Capacity(c), b, l, key, e, now);
    hide LruAgrees, DropTouch, DistinctTouches, TouchKeys, Record;
  }

  lemma {:induction false} PublishUntrackedLru(c: Config, b: Bus, l: seq<Touch>, key: string, e: Event, now: int)
    requires LruAgrees(Capacity(c), b, l) && TouchesAgree(b) && key !in b.sequences
    requires forall k :: k in b.sequences ==> Stable(k)
    requires forall t :: t in l ==> t.at < now
    ensures LruAgrees(
      Capacity(c), Record(c, MakeRoom(c, b, key), key, e, now), Cut([Touch(key, now)] + DropTouch(l, key), Capacity(c)))
  {
    var m := Capacity(c);
    ListCountsScans(m, b, l);
    RoomLru(c, b, l, key);
    DropAbsentFromFront(l, key, m - 1);
    CutCons(Touch(key, now), l, m);
    hide LruAgrees, DropTouch, DistinctTouches, TouchKeys, Record, MakeRoom;
    RecordLru(c, m, MakeRoom(c, b, key), Cut(l, m - 1), key, e, now);
  }

  lemma {:induction false} PublishLru(c: Config, b: Bus, l: seq<Touch>, key: string, eventType: string, body: string, now: int)
    requires LruAgrees(Capacity(c), b, l) && TouchesAgree(b)
    requires forall k :: k in b.sequences ==> Stable(k)
    requires forall t :: t in l ==> t.at < now
    ensures LruAgrees(
      Capacity(c), PublishKey(c, b, key, eventType, body, now), Cut([Touch(key, now)] + DropTouch(l, key), Capacity(c)))
  {
    var e := NextEvent(MakeRoom(c, b, key), key, eventType, body);
    assert key in b.sequences ==> MakeRoom(c, b, key) == b;
    hide LruAgrees, DropTouch, TouchesAgree, Record, MakeRoom, Cut, Stable, NextEvent;
    if key in b.sequences {
      PublishTrackedLru(c, b, l, key, e, now);
    } else {
      PublishUntrackedLru(c, b, l, key, e, now);
    }
  }

  /** The list describes the touch times of every reachable bus. */
  lemma {:induction false} LruDescribesBus(c: Config, actions: seq<Action>, bound: int)
    requires Ticking(actions) && forall a :: a in actions ==> StableAction(a) && (a.Pub? ==> a.now < bound)
    ensures LruAgrees(Capacity(c), Run(c, actions), Lru(Capacity(c), actions))
    ensures forall t :: t in Lru(Capacity(c), actions) ==> t.at < bound
  {
    if actions != [] {
      var before, a := Front(actions), Final(actions);
      var b, l := Run(c, before), Lru(Capacity(c), before);
      assert a in actions;
      LruDescribesBus(c, before, if a.Pub? then a.now else bound);
      BusCachesHistory(c, before);
      CapHolds(c, before);
      hide LruAgrees, Agrees, BoundScanId, PublishKey, Ticking, Stable;
      if BoundScanId(a.scanId).Some? {
        var key := BoundScanId(a.scanId).value;
        assert DistinctTouches(l) by { LruIsDistinct(Capacity(c), b, l); }
        DropTouchEntries(l, key);
        hide DistinctTouches;
        match a {
          case Rel(id) => ReleaseLru(Capacity(c), b, l, key);
          case Pub(id, eventType, body, now) => PublishLru(c, b, l, key, eventType, body, now);
        }
      }
    }
  }

  lemma {:induction false} LruIsDistinct(m: nat, b: Bus, l: seq<Touch>)
    requires LruAgrees(m, b, l)
    ensures DistinctTouches(l)
  {}

  lemma {:induction false} LatestBound(actions: seq<Action>) returns (bound: int)
    ensures forall a :: a in actions && a.Pub? ==> a.now < bound
  {
    bound := 0;
    if actions != [] {
      bound := LatestBound(actions[1..]);
      if actions[0].Pub? && actions[0].now >= bound {
        bound := actions[0].now + 1;
      }
      assert actions == [actions[0]] + actions[1..];
    }
  }

  /**
   Main theorem. With a ticking clock and stable keys, the tracked scans of every reachable
   bus are exactly those of the move-to-front list, releases included.
   */
  lemma {:induction false} TrackedAreTheList(c: Config, actions: seq<Action>)
    requires Ticking(actions) && forall a :: a in actions ==> StableAction(a)
    ensures Run(c, actions).sequences.Keys == TouchKeys(Lru(Capacity(c), actions))
  {
    var bound := LatestBound(actions);
    LruDescribesBus(c, actions, bound);
    BusCachesHistory(c, actions);
    ListCountsScans(Capacity(c), Run(c, actions), Lru(Capacity(c), actions));
  }

  lemma {:induction false} DropThenCut(l: seq<Touch>, key: string, n: nat)
    requires DistinctTouches(l)
    ensures Cut(DropTouch(l, key), n) == Cut(DropTouch(Cut(l, n + 1), key), n)
    decreases |l|
  {
    if l != [] && n > 0 {
      var first, rest := l[0], l[1..];
      CutCons(first, rest, n + 1);
      assert l == [first] + rest;
      assert ([first] + Cut(rest, n))[1..] == Cut(rest, n);
      if first.scanId == key {
        assert key !in TouchKeys(rest);
        DropAbsentFromFront(rest, key, n);
      } else {
        DropThenCut(rest, key, n - 1);
        CutCons(first, DropTouch(rest, key), n);
        CutCons(first, DropTouch(Cut(rest, n), key), n);
      }
    }
  }

  lemma {:induction false} RecencyIsDistinct(actions: seq<Action>)
    ensures DistinctTouches(Recency(actions))
  {
    if actions != [] {
      var a := Final(actions);
      RecencyIsDistinct(Front(actions));
      if BoundScanId(a.scanId).Some? && a.Pub? {
        var key := BoundScanId(a.scanId).value;
        DropTouchEntries(Recency(Front(actions)), key);
        DistinctCons(Touch(key, a.now), DropTouch(Recency(Front(actions)), key));
      }
    }
  }

  /** Cutting the list before moving a scan to the front makes no difference. */
  lemma {:induction false} CutBeforeMove(t: Touch, l: seq<Touch>, m: nat)
    requires DistinctTouches(l) && m >= 1
    ensures Cut([t] + DropTouch(Cut(l, m), t.scanId), m) == Cut([t] + DropTouch(l, t.scanId), m)
  {
    DropThenCut(l, t.scanId, m - 1);
    CutCons(t, DropTouch(l, t.scanId), m);
    CutCons(t, DropTouch(Cut(l, m), t.scanId), m);
  }

  /** Without releases the list is the front of the full publish recency. */
  lemma {:induction false} LruIsFrontOfRecency(m: nat, actions: seq<Action>)
    requires m >= 1 && forall a :: a in actions ==> a.Pub?
    ensures Lru(m, actions) == Cut(Recency(actions), m)
  {
    if actions != [] {
      var before, a := Front(actions), Final(actions);
      LruIsFrontOfRecency(m, before);
      RecencyIsDistinct(before);
      hide BoundScanId, DistinctTouches, Cut, DropTouch;
      assert a in actions;
      if BoundScanId(a.scanId).Some? {
        CutBeforeMove(Touch(BoundScanId(a.scanId).value, a.now), Recency(before), m);
      }
    } else {
      assert Cut<Touch>([], m) == [];
    }
  }

  /**
   Without an explicit release, the tracked scans are exactly the `maxScans` most recently
   published distinct scan ids.
   */
  lemma {:induction false} TrackedAreMostRecentlyPublished(c: Config, actions: seq<Action>)
    requires Ticking(actions) && forall a :: a in actions ==> a.Pub? && StableAction(a)
    ensures Run(c, actions).sequences.Keys == TouchKeys(Cut(Recency(actions), Capacity(c)))
  {
    TrackedAreTheList(c, actions);
    LruIsFrontOfRecency(Capacity(c), actions);
  }

  /** Publishing to a tracked scan never evicts. */
  lemma {:induction false} PublishToTrackedNeverEvicts(c: Config, b: Bus, key: string, eventType: string, body: string, now: int)
    requires key in b.sequences
    ensures PublishKey(c, b, key, eventType, body, now).sequences.Keys == b.sequences.Keys
    ensures forall k :: k in b.sequences && k != key && k in b.rings ==>
      k in PublishKey(c, b, key, eventType, body, now).rings
      && PublishKey(c, b, key, eventType, body, now).rings[k] == b.rings[k]
  {
    hide Evict, Last, SetTouch;
    assert MakeRoom(c, b, key) == b;
  }

  // ----- without a ticking clock -----

  /** Entry `i` has the least time, and all entries before it a greater one. */
  predicate IsFirstLeast(touched: seq<Touch>, i: nat)
    requires i < |touched|
  {
    (forall j :: 0 <= j < |touched| ==> touched[i].at <= touched[j].at)
    && (forall j :: 0 <= j < i ==> touched[i].at < touched[j].at)
  }

  lemma {:induction false} OldestFromFinds(best: Option<Touch>, touched: seq<Touch>, i: nat)
    requires i < |touched| && IsFirstLeast(touched, i)
    requires best.Some? ==> touched[i].at < best.value.at
    ensures OldestFrom(best, touched) == Some(touched[i])
    decreases |touched|
  {
    var rest := touched[1..];
    if i == 0 {
      OldestFromKeeps(touched[0], rest);
    } else {
      assert IsFirstLeast(rest, i - 1);
      assert touched[i].at < touched[0].at;
      OldestFromFinds(if best.None? || touched[0].at < best.value.at then Some(touched[0]) else best, rest, i - 1);
    }
  }

  lemma {:induction false} OldestFromKeeps(best: Touch, touched: seq<Touch>)
    requires forall t :: t in touched ==> best.at <= t.at
    ensures OldestFrom(Some(best), touched) == Some(best)
    decreases |touched|
  {
    if touched != [] {
      OldestFromKeeps(best, touched[1..]);
    }
  }

  lemma {:induction false} FirstLeastExists(touched: seq<Touch>) returns (i: nat)
    requires touched != []
    ensures i < |touched| && IsFirstLeast(touched, i)
  {
    i := 0;
    var n := 1;
    while n < |touched|
      invariant i < n <= |touched| && IsFirstLeast(touched[..n], i)
    {
      if touched[n].at < touched[i].at {
        i := n;
      }
      n := n + 1;
    }
    assert touched[..n] == touched;
  }

  /**
   Under any clock, exactly one entry is picked for eviction: the one that has the least time
   and comes first, in insertion order, among those that do.
   */
  lemma {:induction false} OldestExactly(touched: seq<Touch>, i: nat)
    requires DistinctTouches(touched) && i < |touched|
    ensures Oldest(touched) == Some(touched[i]) <==> IsFirstLeast(touched, i)
  {
    var k := FirstLeastExists(touched);
    OldestFromFinds(None, touched, k);
    if i != k {
      assert touched[i].scanId != touched[k].scanId;
      assert i < k ==> touched[k].at < touched[i].at;
      assert k < i ==> touched[k].at <= touched[i].at;
    }
  }

  /** The clock never goes back from one publish to the next. */
  predicate NeverBack(actions: seq<Action>) {
    forall i, j :: 0 <= i < j < |actions| && actions[i].Pub? && actions[j].Pub? ==> actions[i].now <= actions[j].now
  }

  predicate NewestFirst(l: seq<Touch>) {
    forall i, j :: 0 <= i < j < |l| ==> l[i].at >= l[j].at
  }

  /** `t` belongs to a tracked scan, and no tracked scan was last published before it. */
  ghost predicate LeastRecent(recency: seq<Touch>, tracked: set<string>, t: Touch) {
    exists p: nat :: IsLastTracked(recency, tracked, p, t)
  }

  predicate IsLastTracked(recency: seq<Touch>, tracked: set<string>, p: nat, t: Touch) {
    p < |recency| && recency[p] == t && t.scanId in tracked
    && forall q :: p < q < |recency| ==> recency[q].scanId !in tracked
  }

  lemma {:induction false} NewestCons(t: Touch, l: seq<Touch>)
    requires NewestFirst(l) && forall x :: x in l ==> t.at >= x.at
    ensures NewestFirst([t] + l)
  {}

  lemma {:induction false} DropTouchKeepsNewest(l: seq<Touch>, key: string)
    requires DistinctTouches(l) && NewestFirst(l)
    ensures NewestFirst(DropTouch(l, key))
    decreases |l|
  {
    if l != [] {
      assert NewestFirst(l[1..]) && forall x :: x in l[1..] ==> l[0].at >= x.at;
      DropTouchEntries(l[1..], key);
      DropTouchKeepsNewest(l[1..], key);
      hide NewestFirst;
      if l[0].scanId != key {
        NewestCons(l[0], DropTouch(l[1..], key));
      }
    }
  }

  lemma {:induction false} RecencyIsNewestFirst(actions: seq<Action>, bound: int)
    requires NeverBack(actions) && forall a :: a in actions && a.Pub? ==> a.now <= bound
    ensures NewestFirst(Recency(actions)) && forall t :: t in Recency(actions) ==> t.at <= bound
  {
    if actions != [] {
      var before, a := Front(actions), Final(actions);
      assert a in actions;
      RecencyIsNewestFirst(before, if a.Pub? then a.now else bound);
      RecencyIsDistinct(before);
      hide BoundScanId, DistinctTouches, NewestFirst, NeverBack;
      if BoundScanId(a.scanId).Some? && a.Pub? {
        var key := BoundScanId(a.scanId).value;
        DropTouchEntries(Recency(before), key);
        DropTouchKeepsNewest(Recency(before), key);
        NewestCons(Touch(key, a.now), DropTouch(Recency(before), key));
      }
    }
  }

  lemma {:induction false} ReleaseTouchesShrink(b: Bus, id: string)
    requires DistinctTouches(b.touched)
    ensures forall t :: t in Release(b, id).touched ==> t in b.touched
  {
    hide BoundScanId;
    if BoundScanId(id).Some? {
      DropTouchEntries(b.touched, BoundScanId(id).value);
    }
  }

  lemma {:induction false} RoomTouchesShrink(c: Config, b: Bus, key: string)
    requires DistinctTouches(b.touched)
    ensures forall t :: t in MakeRoom(c, b, key).touched ==> t in b.touched
  {
    hide Release, DistinctTouches;
    if Oldest(b.touched).Some? {
      ReleaseTouchesShrink(b, Oldest(b.touched).value.scanId);
    }
  }

  lemma {:induction false} RoomIsDistinct(c: Config, actions: seq<Action>, key: string)
    ensures DistinctTouches(MakeRoom(c, Run(c, actions), key).touched)
  {
    BusCachesHistory(c, actions);
    MakeRoomAgrees(c, Run(c, actions), RunHistory(c, actions), key);
  }

  /** Under any clock, with any ids and releases, a touch entry records the scan's last publish. */
  lemma {:induction false} TouchesAreRecent(c: Config, actions: seq<Action>)
    ensures forall t :: t in Run(c, actions).touched ==> t in Recency(actions)
  {
    if actions != [] {
      var before, a := Front(actions), Final(actions);
      var b := Run(c, before);
      TouchesAreRecent(c, before);
      BusCachesHistory(c, before);
      RecencyIsDistinct(before);
      hide BoundScanId, Agrees, DistinctTouches, TouchKeys;
      match a {
        case Rel(id) => ReleaseTouchesShrink(b, id);
        case Pub(id, _, _, now) =>
          if BoundScanId(id).Some? {
            var key := BoundScanId(id).value;
            RoomTouchesShrink(c, b, key);
            RoomIsDistinct(c, before, key);
            SetTouchEntries(MakeRoom(c, b, key).touched, key, now);
            DropTouchEntries(Recency(before), key);
          }
      }
    }
  }

  /** The least recently published tracked scan has the least time. */
  lemma {:induction false} LeastRecentIsLeast(recency: seq<Touch>, tracked: set<string>, t: Touch, x: Touch)
    requires NewestFirst(recency) && LeastRecent(recency, tracked, t)
    requires x in recency && x.scanId in tracked
    ensures t.at <= x.at
  {
    var p: nat :| IsLastTracked(recency, tracked, p, t);
    var q: nat :| q < |recency| && recency[q] == x;
    assert q <= p;
    if q < p {
      assert recency[q].at >= recency[p].at;
    }
  }

  /** The first entry, in insertion order, with this time. */
  function FirstAt(touched: seq<Touch>, at: int): (j: nat)
    ensures j <= |touched| && (forall m :: 0 <= m < j ==> touched[m].at != at)
    ensures j < |touched| ==> touched[j].at == at
  {
    if touched == [] || touched[0].at == at then 0 else 1 + FirstAt(touched[1..], at)
  }

  lemma {:induction false} LeastRecentVictim(recency: seq<Touch>, tracked: set<string>, touched: seq<Touch>, i: nat)
    requires NewestFirst(recency)
    requires forall t :: t in touched ==> t in recency && t.scanId in tracked
    requires i < |touched| && LeastRecent(recency, tracked, touched[i])
    ensures FirstAt(touched, touched[i].at) <= i
    ensures Oldest(touched) == Some(touched[FirstAt(touched, touched[i].at)])
  {
    hide NewestFirst, LeastRecent, Oldest;
    forall j | 0 <= j < |touched| ensures touched[i].at <= touched[j].at {
      assert touched[j] in touched;
      LeastRecentIsLeast(recency, tracked, touched[i], touched[j]);
    }
    OldestFound(touched, FirstAt(touched, touched[i].at));
  }

  lemma {:induction false} OldestFound(touched: seq<Touch>, j: nat)
    requires j < |touched| && IsFirstLeast(touched, j)
    ensures Oldest(touched) == Some(touched[j])
  {
    OldestFromFinds(None, touched, j);
  }

  lemma {:induction false} TouchesAreTracked(b: Bus)
    requires TouchesAgree(b)
    ensures DistinctTouches(b.touched) && forall t :: t in b.touched ==> t.scanId in b.sequences.Keys
  {}

  lemma {:induction false} OldestOfRun(c: Config, actions: seq<Action>, i: nat)
    requires NeverBack(actions)
    requires var b := Run(c, actions);
      i < |b.touched| && LeastRecent(Recency(actions), b.sequences.Keys, b.touched[i])
    ensures var touched := Run(c, actions).touched;
      && FirstAt(touched, touched[i].at) <= i
      && Oldest(touched) == Some(touched[FirstAt(touched, touched[i].at)])
  {
    hide *;
    var b := Run(c, actions);
    var bound := LatestBound(actions);
    RecencyIsNewestFirst(actions, bound);
    TouchesAreRecent(c, actions);
    BusCachesHistory(c, actions);
    TouchesAreTracked(b);
    LeastRecentVictim(Recency(actions), b.sequences.Keys, b.touched, i);
  }

  /** An eviction takes away exactly scan `k`. */
  ghost predicate EvictsOnly(b: Bus, k: string) {
    Evict(b).sequences.Keys == b.sequences.Keys - {k}
  }

  lemma {:induction false} EvictsOnlyIff(b: Bus, k: string)
    requires Oldest(b.touched).Some? && k in b.sequences
    ensures EvictsOnly(b, k) <==> BoundScanId(Oldest(b.touched).value.scanId) == Some(k)
  {
    hide BoundScanId, Evict, Oldest;
    EvictReleasesExactly(b);
    var bounded := BoundScanId(Oldest(b.touched).value.scanId);
    assert k in b.sequences.Keys && k !in b.sequences.Keys - {k};
    if bounded != Some(k) {
      assert k in Evict(b).sequences.Keys;
    }
  }

  /**
   When eviction is least recently published, exactly. Under a clock that never goes back, with
   any ids, releases and earlier evictions: the scan that leaves is the least recently published
   tracked one, and only that, if and only if it is the bounded form of the first key, in insertion
   order, with its time. Where that key is stable, this says that no tracked scan with the same
   time stands before it.
   */
  lemma {:induction false} EvictsLeastRecentIff(c: Config, actions: seq<Action>, i: nat)
    requires NeverBack(actions)
    requires var b := Run(c, actions);
      i < |b.touched| && LeastRecent(Recency(actions), b.sequences.Keys, b.touched[i])
    ensures var b := Run(c, actions);
      var k, first := b.touched[i].scanId, FirstAt(b.touched, b.touched[i].at);
      && first <= i
      && (EvictsOnly(b, k) <==> BoundScanId(b.touched[first].scanId) == Some(k))
      && (Stable(b.touched[first].scanId) ==>
            (EvictsOnly(b, k) <==> forall j :: 0 <= j < i ==> b.touched[j].at != b.touched[i].at))
  {
    hide Run, Recency, Oldest, LeastRecent, Evict, Agrees, BoundScanId, TouchKeys;
    var b := Run(c, actions);
    var first := FirstAt(b.touched, b.touched[i].at);
    OldestOfRun(c, actions, i);
    BusCachesHistory(c, actions);
    TouchesAreTracked(b);
    assert b.touched[i] in b.touched;
    hide TouchesAgree;
    EvictsOnlyIff(b, b.touched[i].scanId);
    assert first < i ==> b.touched[first].scanId != b.touched[i].scanId;
  }

  // ----- the two ways in which the wrong scan leaves -----

  lemma {:induction false} TwoTouches(a: string, ta: int, b: string, tb: int)
    requires a != b && ta <= tb
    ensures SetTouch([], a, ta) == [Touch(a, ta)]
    ensures SetTouch([Touch(a, ta)], b, tb) == [Touch(a, ta), Touch(b, tb)]
    ensures SetTouch([Touch(a, ta), Touch(b, tb)], a, ta) == [Touch(a, ta), Touch(b, tb)]
    ensures Oldest([Touch(a, ta), Touch(b, tb)]) == Some(Touch(a, ta))
  {
    var x, y := Touch(a, ta), Touch(b, tb);
    assert [x][1..] == [] && SetTouch([x], b, tb) == [x] + SetTouch([], b, tb) == [x, y];
    assert [x, y][1..] == [y] && [y][1..] == [];
    assert SetTouch([x, y], a, ta) == [x] + [y];
    assert OldestFrom(Some(x), [y]) == OldestFrom(Some(x), []);
  }

  function PubAt(id: string, t: int): Action {
    Pub(id, "e", "", t)
  }

  lemma {:induction false} RunSnoc(c: Config, actions: seq<Action>, a: Action)
    ensures Run(c, actions + [a]) == Step(c, Run(c, actions), a)
  {
    hide BoundScanId;
    assert Front(actions + [a]) == actions && Final(actions + [a]) == a;
  }

  lemma {:induction false} RecencySnoc(actions: seq<Action>, id: string, key: string, t: int)
    requires BoundScanId(id) == Some(key)
    ensures Recency(actions + [PubAt(id, t)]) == [Touch(key, t)] + DropTouch(Recency(actions), key)
  {
    hide BoundScanId;
    assert Front(actions + [PubAt(id, t)]) == actions && Final(actions + [PubAt(id, t)]) == PubAt(id, t);
  }

  lemma {:induction false} StartOfRun(c: Config)
    ensures Run(c, []) == EMPTY && Recency([]) == []
  {}

  /** Two scans on a bus for two, published one after the other. */
  lemma {:induction false} PublishTwo(c: Config, id: string, a: string, ta: int, b: string, tb: int)
    requires c.maxScans == 2 && a != b && ta <= tb && BoundScanId(id) == Some(a) && Stable(b)
    ensures var bus := Run(c, [PubAt(id, ta), PubAt(b, tb)]);
      bus.sequences.Keys == {a, b} && bus.touched == [Touch(a, ta), Touch(b, tb)]
    ensures Recency([PubAt(id, ta), PubAt(b, tb)]) == [Touch(b, tb), Touch(a, ta)]
  {
    var one, two := [PubAt(id, ta)], [PubAt(id, ta), PubAt(b, tb)];
    assert [] + [PubAt(id, ta)] == one && one + [PubAt(b, tb)] == two;
    StartOfRun(c);
    RunSnoc(c, [], PubAt(id, ta));
    RunSnoc(c, one, PubAt(b, tb));
    RecencySnoc([], id, a, ta);
    RecencySnoc(one, b, b, tb);
    PublishTouches(c, EMPTY, a, "e", "", ta);
    PublishTouches(c, Run(c, one), b, "e", "", tb);
    TwoTouches(a, ta, b, tb);
    DropFromTwo(Touch(a, ta), Touch(b, tb));
    hide BoundScanId, SetTouch, DropTouch, PublishKey, Evict, Run, Recency, Oldest;
    assert |Run(c, one).sequences.Keys| == |Run(c, one).sequences|;
    assert {a} + {b} == {a, b};
    assert [Touch(a, ta)] + [] == [Touch(a, ta)];
    assert [Touch(b, tb)] + [Touch(a, ta)] == [Touch(b, tb), Touch(a, ta)];
  }

  lemma {:induction false} DropFromTwo(ta: Touch, tb: Touch)
    requires ta.scanId != tb.scanId
    ensures DropTouch([], ta.scanId) == [] && DropTouch([ta], tb.scanId) == [ta]
    ensures DropTouch([tb, ta], ta.scanId) == [tb]
  {
    assert [ta][1..] == [] && [tb, ta][1..] == [ta];
    assert DropTouch([ta], ta.scanId) == DropTouch([], ta.scanId) == [];
  }

  /** ... and the first of them once more at the same time: its place in insertion order stays. */
  lemma {:induction false} PublishAgain(c: Config, a: string, b: string, t: int)
    requires c.maxScans == 2 && a != b && Stable(a) && Stable(b)
    ensures var full := [PubAt(a, t), PubAt(b, t), PubAt(a, t)];
      && Run(c, full).sequences.Keys == {a, b} && Run(c, full).touched == [Touch(a, t), Touch(b, t)]
      && Recency(full) == [Touch(a, t), Touch(b, t)]
  {
    var two := [PubAt(a, t), PubAt(b, t)];
    assert two + [PubAt(a, t)] == [PubAt(a, t), PubAt(b, t), PubAt(a, t)];
    PublishTwo(c, a, a, t, b, t);
    RunSnoc(c, two, PubAt(a, t));
    RecencySnoc(two, a, a, t);
    PublishTouches(c, Run(c, two), a, "e", "", t);
    TwoTouches(a, t, b, t);
    DropFromTwo(Touch(a, t), Touch(b, t));
    hide BoundScanId, SetTouch, DropTouch, PublishKey, Evict, Run, Recency, Oldest;
    assert {a, b} + {a} == {a, b};
    assert [Touch(a, t)] + [Touch(b, t)] == [Touch(a, t), Touch(b, t)];
  }

  /** A third scan on a full bus for two: what leaves is the bounded form of the first entry. */
  lemma {:induction false} PublishThird(
      c: Config, actions: seq<Action>, a: string, ta: int, b: string, tb: int, out: string, d: string, t: int)
    requires c.maxScans == 2 && a != b && ta <= tb && d != a && d != b && Stable(d)
    requires Run(c, actions).sequences.Keys == {a, b} && Run(c, actions).touched == [Touch(a, ta), Touch(b, tb)]
    requires BoundScanId(a) == Some(out)
    ensures Run(c, actions + [PubAt(d, t)]).sequences.Keys == {a, b} - {out} + {d}
  {
    var bus := Run(c, actions);
    TwoTouches(a, ta, b, tb);
    RunSnoc(c, actions, PubAt(d, t));
    PublishTouches(c, bus, d, "e", "", t);
    EvictReleasesExactly(bus);
    hide BoundScanId, SetTouch, PublishKey, Evict, Run, Oldest;
    assert |bus.sequences.Keys| == |bus.sequences| && |{a, b}| == 2;
  }

  /**
   The first failing input: on a bus for two scans, publishing to `a`, `b`, `a` and then to `d`
   within one millisecond evicts `a`, although `b` is the least recently published.
   */
  lemma {:induction false} TieEvictsTheWrongScan(c: Config, a: string, b: string, d: string, t: int)
    requires c.maxScans == 2 && Stable(a) && Stable(b) && Stable(d)
    requires a != b && a != d && b != d
    ensures var full := [PubAt(a, t), PubAt(b, t), PubAt(a, t)];
      && Run(c, full).sequences.Keys == {a, b}
      && LeastRecent(Recency(full), {a, b}, Touch(b, t))
      && Run(c, full + [PubAt(d, t)]).sequences.Keys == {b, d}
  {
    var full := [PubAt(a, t), PubAt(b, t), PubAt(a, t)];
    assert IsLastTracked([Touch(a, t), Touch(b, t)], {a, b}, 1, Touch(b, t));
    hide Run, Recency, IsLastTracked, BoundScanId;
    PublishAgain(c, a, b, t);
    PublishThird(c, full, a, t, b, t, a, d, t);
    assert {a, b} - {a} + {d} == {b, d};
  }

  /**
   The second: `u` ends in a space behind the cut and is the least recently published, at a time of
   its own; the eviction meant for it drops the more recent scan of its trimmed form `k` instead.
   */
  lemma {:induction false} UnstableVictimDropsAnother(c: Config, id: string, u: string, k: string, d: string, t: int)
    requires c.maxScans == 2 && BoundScanId(id) == Some(u) && BoundScanId(u) == Some(k) && u != k
    requires Stable(k) && Stable(d) && d != u && d != k
    ensures var full := [PubAt(id, t), PubAt(k, t + 1)];
      && Run(c, full).sequences.Keys == {u, k}
      && LeastRecent(Recency(full), {u, k}, Touch(u, t))
      && Run(c, full + [PubAt(d, t + 2)]).sequences.Keys == {u, d}
  {
    var full := [PubAt(id, t), PubAt(k, t + 1)];
    assert IsLastTracked([Touch(k, t + 1), Touch(u, t)], {u, k}, 1, Touch(u, t));
    hide Run, Recency, IsLastTracked, BoundScanId;
    PublishTwo(c, id, u, t, k, t + 1);
    PublishThird(c, full, u, t, k, t + 1, k, d, t + 2);
    assert {u, k} - {k} + {d} == {u, d};
  }
}
