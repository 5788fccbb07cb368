/** The public auction board (components/auction/auction-board.tsx): the
    realtime merge of item updates, the search filter, the four orderings,
    the list of services and the per-service sections. */
module Board {
  import opened Common

  /** The joined bidder the board shows. */
  datatype Contact = Contact(fullName: string, email: string)

  /** An item as the board holds it; amounts are cents. */
  datatype BoardItem = BoardItem(
    id: string,
    title: string,
    service: string,
    honor: string,
    description: Option<string>,
    currentBid: int,
    startingBid: int,
    minimumIncrement: int,
    displayOrder: int,
    currentBidder: Option<Contact>)

  /** The new row of a realtime UPDATE: the table's own columns (None where
      a column is not carried), never the joined bidder. */
  datatype ItemChange = ItemChange(
    id: string,
    title: Option<string>,
    service: Option<string>,
    honor: Option<string>,
    description: Option<Option<string>>,
    currentBid: Option<int>,
    startingBid: Option<int>,
    minimumIncrement: Option<int>,
    displayOrder: Option<int>)

  /** `{ ...item, ...payload.new }`: every carried column wins. */
  function Spread(it: BoardItem, c: ItemChange): (r: BoardItem)
    ensures r.id == c.id && r.currentBidder == it.currentBidder
    ensures r.title == c.title.GetOr(it.title) && r.service == c.service.GetOr(it.service)
    ensures r.honor == c.honor.GetOr(it.honor) && r.description == c.description.GetOr(it.description)
    ensures r.currentBid == c.currentBid.GetOr(it.currentBid)
    ensures r.startingBid == c.startingBid.GetOr(it.startingBid)
    ensures r.minimumIncrement == c.minimumIncrement.GetOr(it.minimumIncrement)
    ensures r.displayOrder == c.displayOrder.GetOr(it.displayOrder)
  {
    BoardItem(c.id, c.title.GetOr(it.title), c.service.GetOr(it.service), c.honor.GetOr(it.honor),
              c.description.GetOr(it.description), c.currentBid.GetOr(it.currentBid),
              c.startingBid.GetOr(it.startingBid), c.minimumIncrement.GetOr(it.minimumIncrement),
              c.displayOrder.GetOr(it.displayOrder), it.currentBidder)
  }

  /** The UPDATE handler: the item with the change's id takes the change,
      the others and the length stay. */
  function MergeUpdate(items: seq<BoardItem>, c: ItemChange): (r: seq<BoardItem>)
    ensures |r| == |items|
    ensures forall k :: 0 <= k < |items| && items[k].id != c.id ==> r[k] == items[k]
    ensures forall k :: 0 <= k < |items| && items[k].id == c.id ==> r[k] == Spread(items[k], c)
  {
    seq(|items|, k requires 0 <= k < |items| => if items[k].id == c.id then Spread(items[k], c) else items[k])
  }

  /** Applying the same change twice is applying it once. */
  lemma MergeUpdateIdempotent(items: seq<BoardItem>, c: ItemChange)
    ensures MergeUpdate(MergeUpdate(items, c), c) == MergeUpdate(items, c)
  {
  }

  // ---------------------------------------------------------------------------
  // Search

  /** The board's search: the lower-cased query in the title, honor,
      service, description or bidder name. */
  predicate Matches(it: BoardItem, query: string) {
    ContainsIgnoreCase(it.title, query) || ContainsIgnoreCase(it.honor, query) ||
    ContainsIgnoreCase(it.service, query) ||
    (it.description.Some? && ContainsIgnoreCase(it.description.value, query)) ||
    (it.currentBidder.Some? && ContainsIgnoreCase(it.currentBidder.value.fullName, query))
  }

  function Search(items: seq<BoardItem>, query: string): (r: seq<BoardItem>)
    ensures forall k :: 0 <= k < |r| ==> Matches(r[k], query) && r[k] in items
    ensures forall k :: 0 <= k < |items| && Matches(items[k], query) ==> items[k] in r
    ensures Subsequence(r, items)
  {
    FilterIsSubsequence(items, (it: BoardItem) => Matches(it, query));
    Filter(items, (it: BoardItem) => Matches(it, query))
  }

  /** An empty query keeps every item, in order. */
  lemma EmptySearchKeepsAll(items: seq<BoardItem>)
    ensures Search(items, "") == items
  {
    forall k | 0 <= k < |items|
      ensures Matches(items[k], "")
    {
      EmptyIsContained(Lower(items[k].title));
    }
    FilterAll(items, (it: BoardItem) => Matches(it, ""));
  }

  // ---------------------------------------------------------------------------
  // Ordering

  datatype SortFilter = Default | Highest | Lowest | Newest

  /** The key each ordering sorts ascending on: descending orders negate. */
  function SortKey(f: SortFilter): BoardItem -> int {
    match f
    case Default => (it: BoardItem) => it.displayOrder
    case Highest => (it: BoardItem) => -it.currentBid
    case Lowest => (it: BoardItem) => it.currentBid
    case Newest => (it: BoardItem) => -it.displayOrder
  }

  /** `[...filteredItems].sort(...)` with the chosen comparator (a stable
      sort). */
  function Order(items: seq<BoardItem>, f: SortFilter): (r: seq<BoardItem>)
    ensures multiset(r) == multiset(items) && |r| == |items|
    ensures f == Default ==> forall i, j :: 0 <= i < j < |r| ==> r[i].displayOrder <= r[j].displayOrder
    ensures f == Highest ==> forall i, j :: 0 <= i < j < |r| ==> r[i].currentBid >= r[j].currentBid
    ensures f == Lowest ==> forall i, j :: 0 <= i < j < |r| ==> r[i].currentBid <= r[j].currentBid
    ensures f == Newest ==> forall i, j :: 0 <= i < j < |r| ==> r[i].displayOrder >= r[j].displayOrder
  {
    var r := SortOn(items, SortKey(f));
    assert forall i, j :: 0 <= i < j < |r| ==> SortKey(f)(r[i]) <= SortKey(f)(r[j]);
    r
  }

  /** What the board lists: the searched items in the chosen order. */
  function Listed(items: seq<BoardItem>, query: string, f: SortFilter): (r: seq<BoardItem>)
    ensures multiset(r) == multiset(Search(items, query))
  {
    Order(Search(items, query), f)
  }

  /** "No honors found" shows exactly when nothing is listed, which is
      exactly when no item matches the query. */
  predicate ShowsNoResults(items: seq<BoardItem>, query: string, f: SortFilter) {
    |Listed(items, query, f)| == 0
  }

  lemma NoResultsIffNoMatch(items: seq<BoardItem>, query: string, f: SortFilter)
    ensures ShowsNoResults(items, query, f) <==> forall k :: 0 <= k < |items| ==> !Matches(items[k], query)
  {
    var s := Search(items, query);
    if |Listed(items, query, f)| == 0 {
      assert |multiset(s)| == 0;
    } else {
      assert |multiset(s)| > 0;
      assert s[0] in items;
    }
  }

  // ---------------------------------------------------------------------------
  // Services and sections

  /** Position of the first occurrence of `x`. */
  function FirstIndex<T(==)>(s: seq<T>, x: T): (i: nat)
    requires x in s
    ensures i < |s| && s[i] == x && x !in s[..i]
  {
    if s[0] == x then 0 else 1 + FirstIndex(s[1..], x)
  }

  lemma {:induction false} FirstIndexAppend<T>(s: seq<T>, y: T, x: T)
    requires x in s
    ensures x in s + [y] && FirstIndex(s + [y], x) == FirstIndex(s, x)
  {
    if s[0] != x {
      assert (s + [y])[1..] == s[1..] + [y];
      FirstIndexAppend(s[1..], y, x);
    }
  }

  /** `[...new Set(s)]`: each value once, in order of first appearance. */
  function Dedup<T(==)>(s: seq<T>): (r: seq<T>)
    ensures Distinct(r)
    ensures forall k :: 0 <= k < |s| ==> s[k] in r
    ensures forall k :: 0 <= k < |r| ==> r[k] in s
    ensures forall i, j :: 0 <= i < j < |r| ==> FirstIndex(s, r[i]) < FirstIndex(s, r[j])
  {
    if |s| == 0 then []
    else
      var init := s[..|s| - 1];
      var last := s[|s| - 1];
      var d := Dedup(init);
      assert s == init + [last];
      forall x | x in init
        ensures FirstIndex(s, x) == FirstIndex(init, x)
      {
        FirstIndexAppend(init, last, x);
      }
      if last in d then d
      else
        assert last !in init;
        assert FirstIndex(s, last) == |init|;
        d + [last]
  }

  /** The services the board groups by: distinct, non-empty, in order of
      first appearance among all items (not only the searched ones). */
  function Services(items: seq<BoardItem>): (r: seq<string>)
    ensures Distinct(r)
    ensures forall k :: 0 <= k < |r| ==> r[k] != ""
    ensures forall k :: 0 <= k < |items| && items[k].service != "" ==> items[k].service in r
    ensures forall k :: 0 <= k < |r| ==> r[k] in ServiceColumn(items)
    ensures forall i, j :: 0 <= i < j < |r| ==>
      FirstIndex(ServiceColumn(items), r[i]) < FirstIndex(ServiceColumn(items), r[j])
  {
    var col := ServiceColumn(items);
    var d := Dedup(col);
    ServicesCovered(items, d);
    FilterDistinct(d, NonEmpty);
    ServicesInFirstOrder(col, d);
    Filter(d, NonEmpty)
  }

  /** The non-empty values of `[...new Set(col)]` come from `col` and keep
      the order of their first appearance there. */
  lemma ServicesInFirstOrder(col: seq<string>, d: seq<string>)
    requires d == Dedup(col)
    ensures forall k :: 0 <= k < |Filter(d, NonEmpty)| ==> Filter(d, NonEmpty)[k] in col
    ensures forall i, j :: 0 <= i < j < |Filter(d, NonEmpty)| ==>
      FirstIndex(col, Filter(d, NonEmpty)[i]) < FirstIndex(col, Filter(d, NonEmpty)[j])
  {
    var pos := (x: string) => Position(col, x);
    DedupPositionsIncrease(col, d, pos);
    FilterKeepsIncreasing(d, NonEmpty, pos);
    var r := Filter(d, NonEmpty);
    forall i, j | 0 <= i < j < |r|
      ensures FirstIndex(col, r[i]) < FirstIndex(col, r[j])
    {
      assert pos(r[i]) < pos(r[j]);
    }
  }

  /** The first position of `x`, or past the end when it is absent. */
  function Position<T(==)>(s: seq<T>, x: T): int {
    if x in s then FirstIndex(s, x) else |s|
  }

  lemma DedupPositionsIncrease<T>(s: seq<T>, d: seq<T>, pos: T -> int)
    requires d == Dedup(s) && forall x :: pos(x) == Position(s, x)
    ensures Increasing(d, pos)
  {
  }

  /** Keeping some elements of a sequence whose keys increase leaves keys
      that still increase. */
  lemma {:induction false} FilterKeepsIncreasing<T>(s: seq<T>, p: T -> bool, f: T -> int)
    requires Increasing(s, f)
    ensures Increasing(Filter(s, p), f)
  {
    if |s| > 0 {
      var t := s[1..];
      IncreasingTail(s, f);
      FilterKeepsIncreasing(t, p, f);
      var rt := Filter(t, p);
      if p(s[0]) {
        HeadBelowFiltered(s, p, f);
        IncreasingCons(s[0], rt, f);
        assert Filter(s, p) == [s[0]] + rt;
      } else {
        assert Filter(s, p) == rt;
      }
    }
  }

  predicate Increasing<T>(s: seq<T>, f: T -> int) {
    forall i, j :: 0 <= i < j < |s| ==> f(s[i]) < f(s[j])
  }

  lemma IncreasingTail<T>(s: seq<T>, f: T -> int)
    requires |s| > 0 && Increasing(s, f)
    ensures Increasing(s[1..], f)
  {
    var t := s[1..];
    forall i, j | 0 <= i < j < |t|
      ensures f(t[i]) < f(t[j])
    {
      assert t[i] == s[i + 1] && t[j] == s[j + 1];
    }
  }

  lemma HeadBelowFiltered<T>(s: seq<T>, p: T -> bool, f: T -> int)
    requires |s| > 0 && Increasing(s, f)
    ensures forall x :: x in Filter(s[1..], p) ==> f(s[0]) < f(x)
  {
    var t := s[1..];
    forall x | x in Filter(t, p)
      ensures f(s[0]) < f(x)
    {
      var m :| 0 <= m < |t| && t[m] == x;
      assert t[m] == s[m + 1];
    }
  }

  lemma IncreasingCons<T>(x: T, s: seq<T>, f: T -> int)
    requires Increasing(s, f)
    requires forall y :: y in s ==> f(x) < f(y)
    ensures Increasing([x] + s, f)
  {
    var r := [x] + s;
    forall i, j | 0 <= i < j < |r|
      ensures f(r[i]) < f(r[j])
    {
      assert r[j] == s[j - 1];
      if i > 0 {
        assert r[i] == s[i - 1];
      }
    }
  }

  predicate NonEmpty(s: string) {
    s != ""
  }

  /** `items.map(item => item.service)`. */
  function ServiceColumn(items: seq<BoardItem>): (r: seq<string>)
    ensures |r| == |items|
    ensures forall k :: 0 <= k < |items| ==> r[k] == items[k].service
  {
    seq(|items|, k requires 0 <= k < |items| => items[k].service)
  }

  lemma ServicesCovered(items: seq<BoardItem>, d: seq<string>)
    requires forall k :: 0 <= k < |items| ==> ServiceColumn(items)[k] in d
    ensures forall k :: 0 <= k < |items| && items[k].service != "" ==> items[k].service in Filter(d, NonEmpty)
  {
    forall k | 0 <= k < |items| && items[k].service != ""
      ensures items[k].service in Filter(d, NonEmpty)
    {
      assert ServiceColumn(items)[k] == items[k].service;
      var j :| 0 <= j < |d| && d[j] == items[k].service;
      assert NonEmpty(d[j]);
    }
  }

  lemma {:induction false} FilterDistinct<T>(s: seq<T>, p: T -> bool)
    requires Distinct(s)
    ensures Distinct(Filter(s, p))
  {
    if |s| > 0 {
      assert Distinct(s[1..]);
      FilterDistinct(s[1..], p);
      assert s[0] !in s[1..];
      assert s[0] !in Filter(s[1..], p);
    }
  }

  /** One section of the grouped view: the listed items of that service,
      in listed order. */
  function Section(listed: seq<BoardItem>, service: string): (r: seq<BoardItem>)
    ensures forall k :: 0 <= k < |r| ==> r[k].service == service && r[k] in listed
    ensures forall k :: 0 <= k < |listed| && listed[k].service == service ==> listed[k] in r
    ensures Subsequence(r, listed)
  {
    FilterIsSubsequence(listed, (it: BoardItem) => it.service == service);
    Filter(listed, (it: BoardItem) => it.service == service)
  }

  /** A candidate section for each service, empty ones included. */
  function AllSections(listed: seq<BoardItem>, services: seq<string>): (r: seq<(string, seq<BoardItem>)>)
    ensures |r| == |services|
    ensures forall k :: 0 <= k < |services| ==> r[k] == (services[k], Section(listed, services[k]))
  {
    seq(|services|, k requires 0 <= k < |services| => (services[k], Section(listed, services[k])))
  }

  predicate NonEmptySection(e: (string, seq<BoardItem>)) {
    |e.1| > 0
  }

  /** The grouped view (no sort chosen): a section per service that has
      listed items, in service order. */
  function Sections(items: seq<BoardItem>, query: string): (r: seq<(string, seq<BoardItem>)>)
    ensures forall k :: 0 <= k < |r| ==> r[k].0 in Services(items) && |r[k].1| > 0
    ensures forall k :: 0 <= k < |r| ==> r[k].1 == Section(Listed(items, query, Default), r[k].0)
  {
    var listed := Listed(items, query, Default);
    var services := Services(items);
    Filter(AllSections(listed, services), NonEmptySection)
  }

  /** No two sections share a service. */
  lemma SectionsDistinct(items: seq<BoardItem>, query: string)
    ensures DistinctFirst(Sections(items, query))
  {
    var all := AllSections(Listed(items, query, Default), Services(items));
    assert DistinctFirst(all);
    FilterDistinctKeys(all, NonEmptySection);
  }

  /** An item with an empty service is in no section. */
  lemma EmptyServiceInNoSection(items: seq<BoardItem>, query: string, it: BoardItem)
    requires it.service == ""
    ensures forall k :: 0 <= k < |Sections(items, query)| ==> it !in Sections(items, query)[k].1
  {
  }

  /** A listed item's non-empty service is among the board's services. */
  lemma ListedServiceKnown(items: seq<BoardItem>, query: string, it: BoardItem)
    requires it in Listed(items, query, Default) && it.service != ""
    ensures it.service in Services(items)
  {
    assert it in multiset(Listed(items, query, Default));
    assert it in Search(items, query);
    var j :| 0 <= j < |items| && items[j] == it;
  }

  /** A listed item with a service is in the section of that service. */
  lemma ListedItemHasSection(items: seq<BoardItem>, query: string, it: BoardItem)
    requires it in Listed(items, query, Default) && it.service != ""
    ensures exists k :: 0 <= k < |Sections(items, query)| && FiledUnder(Sections(items, query)[k], it)
  {
    var listed := Listed(items, query, Default);
    var services := Services(items);
    var all := AllSections(listed, services);
    ListedServiceKnown(items, query, it);
    var k :| 0 <= k < |services| && services[k] == it.service;
    assert it in Section(listed, services[k]);
    assert FiledUnder(all[k], it) && NonEmptySection(all[k]);
    var f := Filter(all, NonEmptySection);
    assert all[k] in f;
    var m :| 0 <= m < |f| && f[m] == all[k];
    assert Sections(items, query) == f;
    assert FiledUnder(Sections(items, query)[m], it);
  }

  /** The section is the item's service and holds the item. */
  predicate FiledUnder(section: (string, seq<BoardItem>), it: BoardItem) {
    section.0 == it.service && it in section.1
  }

  ghost predicate DistinctFirst<A, B>(s: seq<(A, B)>) {
    forall i, j :: 0 <= i < j < |s| ==> s[i].0 != s[j].0
  }

  lemma {:induction false} FilterDistinctKeys<A, B>(s: seq<(A, B)>, p: ((A, B)) -> bool)
    requires DistinctFirst(s)
    ensures DistinctFirst(Filter(s, p))
  {
    if |s| > 0 {
      FilterDistinctKeys(s[1..], p);
      var t := Filter(s[1..], p);
      forall k | 0 <= k < |t|
        ensures t[k].0 != s[0].0
      {
        var j :| 0 <= j < |s[1..]| && s[1..][j] == t[k];
        assert s[j + 1] == t[k];
      }
    }
  }
}
