/** The admin dashboard's item list (components/admin/admin-dashboard.tsx):
    realtime UPDATE/INSERT/DELETE merging, the search box and the two
    totals. */
module Dashboard {
  import opened Common
  import opened Store

  /** A realtime event on `auction_items`; UPDATE and INSERT carry the new
      row, DELETE the old row's id. */
  datatype Change = Updated(row: Item) | Inserted(row: Item) | Deleted(id: Id)

  /** UPDATE: each item with the row's id is replaced by the row. */
  function ApplyUpdate(items: seq<Item>, row: Item): (r: seq<Item>)
    ensures |r| == |items|
    ensures forall k :: 0 <= k < |items| && items[k].id != row.id ==> r[k] == items[k]
    ensures forall k :: 0 <= k < |items| && items[k].id == row.id ==> r[k] == row
  {
    seq(|items|, k requires 0 <= k < |items| => if items[k].id == row.id then row else items[k])
  }

  predicate Keeps(it: Item, id: Id) {
    it.id != id
  }

  function Apply(items: seq<Item>, c: Change): (r: seq<Item>)
    ensures c.Inserted? ==> r == items + [c.row]
    ensures c.Deleted? ==> forall k :: 0 <= k < |r| ==> r[k].id != c.id
    ensures c.Deleted? ==> Subsequence(r, items)
    ensures c.Deleted? ==> forall k :: 0 <= k < |items| && items[k].id != c.id ==> items[k] in r
  {
    match c
    case Updated(row) => ApplyUpdate(items, row)
    case Inserted(row) => items + [row]
    case Deleted(id) =>
      FilterIsSubsequence(items, (it: Item) => Keeps(it, id));
      Filter(items, (it: Item) => Keeps(it, id))
  }

  /** Deleting a freshly inserted row gives back the list before it. */
  lemma {:induction false} DeleteUndoesInsert(items: seq<Item>, row: Item)
    requires forall k :: 0 <= k < |items| ==> items[k].id != row.id
    ensures Apply(Apply(items, Inserted(row)), Deleted(row.id)) == items
  {
    var p := (it: Item) => Keeps(it, row.id);
    FilterAppend(items, [row], p);
    FilterAll(items, p);
    assert Filter([row], p) == [] + Filter([row][1..], p);
  }

  /** Deleting after an update is deleting. */
  lemma {:induction false} DeleteAbsorbsUpdate(items: seq<Item>, row: Item)
    ensures Apply(Apply(items, Updated(row)), Deleted(row.id)) == Apply(items, Deleted(row.id))
  {
    if |items| > 0 {
      var p := (it: Item) => Keeps(it, row.id);
      var u := ApplyUpdate(items, row);
      assert u[1..] == ApplyUpdate(items[1..], row);
      DeleteAbsorbsUpdate(items[1..], row);
      assert Filter(u, p) == (if p(u[0]) then [u[0]] else []) + Filter(u[1..], p);
    }
  }

  /** The search box: the query in the title or the description, ignoring
      case. */
  predicate Matches(it: Item, query: string) {
    ContainsIgnoreCase(it.title, query) ||
    (it.description.Some? && ContainsIgnoreCase(it.description.value, query))
  }

  function Search(items: seq<Item>, query: string): (r: seq<Item>)
    ensures forall k :: 0 <= k < |r| ==> Matches(r[k], query)
    ensures forall k :: 0 <= k < |items| && Matches(items[k], query) ==> items[k] in r
    ensures Subsequence(r, items)
  {
    FilterIsSubsequence(items, (it: Item) => Matches(it, query));
    Filter(items, (it: Item) => Matches(it, query))
  }

  function CurrentBid(it: Item): int { it.currentBid }

  predicate HasBidder(it: Item) {
    Truthy(it.currentBidderId)
  }

  /** `totalBids`: the sum of current bids over every item, whatever the
      search box holds. */
  function TotalBids(items: seq<Item>): int {
    SumOf(items, CurrentBid)
  }

  /** `itemsWithBids`. */
  function ItemsWithBids(items: seq<Item>): (n: nat)
    ensures n <= |items|
  {
    Count(items, HasBidder)
  }

  /** An INSERT raises the total by the new row's bid and the bid count by
      one exactly when the row has a bidder. */
  lemma {:induction false} InsertTotals(items: seq<Item>, row: Item)
    ensures TotalBids(Apply(items, Inserted(row))) == TotalBids(items) + row.currentBid
    ensures ItemsWithBids(Apply(items, Inserted(row))) == ItemsWithBids(items) + (if HasBidder(row) then 1 else 0)
  {
    assert (items + [row])[..|items|] == items;
    FilterAppend(items, [row], HasBidder);
    assert Filter([row], HasBidder) == (if HasBidder(row) then [row] else []) + Filter([row][1..], HasBidder);
  }

  /** An UPDATE of a row whose id occurs once moves the total by the
      change in that row's bid. */
  lemma {:induction false} UpdateTotal(items: seq<Item>, row: Item, k: nat)
    requires k < |items| && items[k].id == row.id
    requires forall j :: 0 <= j < |items| && j != k ==> items[j].id != row.id
    ensures TotalBids(Apply(items, Updated(row))) == TotalBids(items) - items[k].currentBid + row.currentBid
  {
    var u := ApplyUpdate(items, row);
    assert items == items[..k] + [items[k]] + items[k + 1..];
    assert u == items[..k] + [row] + items[k + 1..];
    SumOfAppend(items[..k] + [items[k]], items[k + 1..], CurrentBid);
    SumOfAppend(items[..k], [items[k]], CurrentBid);
    SumOfAppend(items[..k] + [row], items[k + 1..], CurrentBid);
    SumOfAppend(items[..k], [row], CurrentBid);
    assert SumOf([items[k]], CurrentBid) == items[k].currentBid by {
      assert [items[k]][..0] == [];
    }
    assert SumOf([row], CurrentBid) == row.currentBid by {
      assert [row][..0] == [];
    }
  }
}
