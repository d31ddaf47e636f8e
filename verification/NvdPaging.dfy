/** The bounded paging loop of the NVD source against a fixed server list. */
module NvdPaging {
  import opened Text

  /** A record of the server's list: normalisable to a document, or malformed. */
  datatype Item = Valid(document: string) | Malformed

  function Documents(items: seq<Item>): seq<string> {
    if items == [] then []
    else (if items[0].Valid? then [items[0].document] else []) + Documents(items[1..])
  }

  function CountMalformed(items: seq<Item>): nat {
    if items == [] then 0 else (if items[0].Malformed? then 1 else 0) + CountMalformed(items[1..])
  }

  /** The server's answer: at most `size` items from `start` on. */
  function Page(list: seq<Item>, start: nat, size: nat): seq<Item> {
    if start >= |list| then [] else if start + size > |list| then list[start..] else list[start..start + size]
  }

  datatype FetchResult = FetchResult(documents: seq<string>, hasMore: bool, malformed: nat)

  lemma {:induction false} DocumentsOfSum(a: seq<Item>, b: seq<Item>)
    ensures Documents(a + b) == Documents(a) + Documents(b)
    ensures CountMalformed(a + b) == CountMalformed(a) + CountMalformed(b)
    ensures |Documents(a)| + CountMalformed(a) == |a|
  {
    if a == [] {
      assert a + b == b;
    } else {
      DocumentsOfSum(a[1..], b);
      assert (a + b)[1..] == a[1..] + b;
    }
  }

  /** The inner loop over one page. */
  method Collect(documents: seq<string>, malformed: nat, fetched: nat, items: seq<Item>)
      returns (documents': seq<string>, malformed': nat, fetched': nat)
    ensures documents' == documents + Documents(items)
    ensures malformed' == malformed + CountMalformed(items) && fetched' == fetched + |Documents(items)|
  {
    documents', malformed', fetched' := documents, malformed, fetched;
    var i := 0;
    assert items[0..] == items;
    while i < |items|
      invariant 0 <= i <= |items|
      invariant documents' + Documents(items[i..]) == documents + Documents(items)
      invariant malformed' + CountMalformed(items[i..]) == malformed + CountMalformed(items)
      invariant fetched' + |Documents(items[i..])| == fetched + |Documents(items)|
    {
      assert items[i..][1..] == items[i + 1..];
      match items[i] {
        case Valid(d) =>
          Associate(documents', [d], Documents(items[i + 1..]));
          documents', fetched' := documents' + [d], fetched' + 1;
        case Malformed =>
          malformed' := malformed' + 1;
      }
      i := i + 1;
    }
    assert items[|items|..] == [];
  }

  lemma {:induction false} PageExtendsPrefix(list: seq<Item>, start: nat, size: nat)
    requires start <= |list|
    ensures var page := Page(list, start, size);
      && |page| <= size && start + |page| <= |list|
      && list[..start + |page|] == list[..start] + page
      && (|page| < size ==> start + |page| == |list|)
  {}

  /**
   Some prefix of the list is examined, each item once and in order: its valid items are the
   documents, the others are counted. `maxItems` is never exceeded, at most `maxPages` pages are
   read, and unless the call was told to fetch nothing, `hasMore` is false only if the whole
   list was examined. It is true only if `maxItems` documents were collected or `maxPages` full
   pages were read, each as large as the remaining budget allows; without `maxItems`, how much is
   examined and when more is announced depend on the three numbers alone.
   */
  method Fetch(list: seq<Item>, pageSize: nat, maxPages: int, maxItems: Option<int>)
      returns (r: FetchResult, ghost examined: nat)
    ensures examined <= |list|
    ensures r.documents == Documents(list[..examined]) && r.malformed == CountMalformed(list[..examined])
    ensures maxItems.Some? ==> |r.documents| <= if maxItems.value < 0 then 0 else maxItems.value
    ensures examined <= if maxPages < 0 then 0 else maxPages * pageSize
    ensures !r.hasMore ==> examined == |list| || maxPages < 1 || (maxItems.Some? && maxItems.value < 1)
    ensures examined == |r.documents| + r.malformed
    ensures maxItems.None? && maxPages >= 1 ==>
      && examined == (if maxPages * pageSize < |list| then maxPages * pageSize else |list|)
      && (r.hasMore <==> maxPages * pageSize <= |list|)
    ensures r.hasMore && maxItems.Some? ==>
      var left := maxItems.value - |r.documents|;
      left == 0 || examined >= maxPages * (if left < pageSize then left else pageSize)
    ensures maxPages < 1 || (maxItems.Some? && maxItems.value < 1) ==> examined == 0 && !r.hasMore
  {
    hide Documents, CountMalformed, Page;
    NothingExamined(list);
    var documents: seq<string> := [];
    var malformed: nat, startIndex: nat, fetched: nat, hasMore := 0, 0, 0, false;
    var page := 0;
    while page < maxPages
      invariant 0 <= page && (page <= maxPages || page == 0)
      invariant startIndex <= |list| && startIndex <= page * pageSize
      invariant maxItems.None? ==> startIndex == page * pageSize
      invariant maxItems.Some? && page > 0 ==>
        startIndex >= page * (if maxItems.value - fetched < pageSize then maxItems.value - fetched else pageSize)
      invariant documents == Documents(list[..startIndex]) && fetched == |documents|
      invariant malformed == CountMalformed(list[..startIndex])
      invariant maxItems.Some? && page > 0 ==> fetched < maxItems.value
      invariant page == 0 ==> startIndex == 0 && documents == []
      invariant hasMore <==> page > 0 && page == maxPages
    {
      if maxItems.Some? && maxItems.value - fetched <= 0 {
        break;
      }
      var size := if maxItems.Some? && maxItems.value - fetched < pageSize then maxItems.value - fetched else pageSize;
      var items := Page(list, startIndex, size);
      PageExtendsPrefix(list, startIndex, size);
      DocumentsOfSum(list[..startIndex], items);
      DocumentsOfSum(items, []);
      OnePageMore(page, pageSize, maxPages);
      ghost var before := fetched;
      documents, malformed, fetched := Collect(documents, malformed, fetched, items);
      if maxItems.Some? && fetched < maxItems.value {
        PageIsLarge(page, startIndex, pageSize, maxItems.value - before, maxItems.value - fetched);
      }
      startIndex := startIndex + |items|;
      if |items| < size {
        hasMore := false;
        break;
      }
      if maxItems.Some? && fetched >= maxItems.value {
        hasMore := true;
        break;
      }
      if page == maxPages - 1 {
        hasMore := true;
      }
      page := page + 1;
    }
    r, examined := FetchResult(documents, hasMore, malformed), startIndex;
    PagesBound(page, pageSize, maxPages);
    DocumentsOfSum(list[..startIndex], []);
  }

  /** One more full page: the budget left only shrinks, so every page so far was at least this large. */
  lemma {:induction false} PageIsLarge(page: nat, start: nat, pageSize: nat, budget: nat, left: nat)
    requires left <= budget && (page > 0 ==> start >= page * (if budget < pageSize then budget else pageSize))
    ensures var size := if budget < pageSize then budget else pageSize;
      start + size >= (page + 1) * (if left < pageSize then left else pageSize)
  {
    var small, size := if left < pageSize then left else pageSize, if budget < pageSize then budget else pageSize;
    assert page * small <= page * size;
    assert (page + 1) * small == page * small + small;
  }

  lemma {:induction false} NothingExamined(list: seq<Item>)
    ensures Documents(list[..0]) == [] && CountMalformed(list[..0]) == 0
  {}

  lemma {:induction false} OnePageMore(page: nat, pageSize: nat, maxPages: int)
    requires page < maxPages
    ensures (page + 1) * pageSize == page * pageSize + pageSize
    ensures (page + 1) * pageSize <= maxPages * pageSize
  {}

  lemma {:induction false} PagesBound(page: nat, pageSize: nat, maxPages: int)
    ensures page <= maxPages ==> page * pageSize <= maxPages * pageSize
  {}
}
