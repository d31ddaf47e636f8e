/** `[...items].sort((a, b) => key(b) - key(a))`: a stable sort, larger keys first. */
module StableSort {
  predicate Descending<T>(key: T -> int, items: seq<T>) {
    forall i, j :: 0 <= i < j < |items| ==> key(items[i]) >= key(items[j])
  }

  function Insert<T>(key: T -> int, x: T, sorted: seq<T>): seq<T> {
    if sorted == [] || key(x) >= key(sorted[0]) then [x] + sorted
    else [sorted[0]] + Insert(key, x, sorted[1..])
  }

  function Sort<T>(key: T -> int, items: seq<T>): seq<T> {
    if items == [] then [] else Insert(key, items[0], Sort(key, items[1..]))
  }

  /** The items with one key, in order. */
  function WithKey<T>(key: T -> int, items: seq<T>, k: int): seq<T> {
    if items == [] then [] else (if key(items[0]) == k then [items[0]] else []) + WithKey(key, items[1..], k)
  }

  lemma {:induction false} DescendingCons<T>(key: T -> int, x: T, items: seq<T>)
    requires Descending(key, items) && forall y :: y in items ==> key(x) >= key(y)
    ensures Descending(key, [x] + items)
  {}

  lemma {:induction false} DescendingHead<T>(key: T -> int, items: seq<T>)
    requires Descending(key, items) && items != []
    ensures Descending(key, items[1..]) && forall y :: y in items ==> key(items[0]) >= key(y)
  {}

  lemma {:induction false} InsertKeepsOrder<T>(key: T -> int, x: T, sorted: seq<T>)
    requires Descending(key, sorted)
    ensures Descending(key, Insert(key, x, sorted))
    ensures multiset(Insert(key, x, sorted)) == multiset([x]) + multiset(sorted)
  {
    hide Descending;
    if sorted == [] || key(x) >= key(sorted[0]) {
      if sorted != [] {
        DescendingHead(key, sorted);
      }
      DescendingCons(key, x, sorted);
    } else {
      DescendingHead(key, sorted);
      var rest := Insert(key, x, sorted[1..]);
      InsertKeepsOrder(key, x, sorted[1..]);
      assert sorted == [sorted[0]] + sorted[1..];
      forall y | y in rest ensures key(sorted[0]) >= key(y) {
        assert y in multiset(rest);
      }
      DescendingCons(key, sorted[0], rest);
    }
  }

  lemma {:induction false} InsertIsStable<T>(key: T -> int, x: T, sorted: seq<T>, k: int)
    requires Descending(key, sorted)
    ensures WithKey(key, Insert(key, x, sorted), k) == WithKey(key, [x] + sorted, k)
  {
    assert ([x] + sorted)[1..] == sorted;
    if sorted != [] && key(x) < key(sorted[0]) {
      InsertIsStable(key, x, sorted[1..], k);
      assert ([x] + sorted[1..])[1..] == sorted[1..];
      assert Insert(key, x, sorted)[1..] == Insert(key, x, sorted[1..]);
    }
  }

  /** Sorting only reorders, puts larger keys first and keeps the order among equal keys. */
  lemma {:induction false} SortIsStable<T>(key: T -> int, items: seq<T>, k: int)
    ensures Descending(key, Sort(key, items))
    ensures multiset(Sort(key, items)) == multiset(items)
    ensures WithKey(key, Sort(key, items), k) == WithKey(key, items, k)
  {
    if items != [] {
      var rest := Sort(key, items[1..]);
      SortIsStable(key, items[1..], k);
      InsertKeepsOrder(key, items[0], rest);
      InsertIsStable(key, items[0], rest, k);
      assert items == [items[0]] + items[1..];
      assert ([items[0]] + rest)[1..] == rest;
    }
  }
}
