/** Per-auction statistics of the auction history list
    (components/admin/auction-history-modal.tsx). */
module AuctionHistory {
  import opened Common
  import opened Store

  /** An auction with its four statistics; amounts are cents. */
  datatype AuctionWithStats = AuctionWithStats(
    auction: Auction,
    totalItems: nat,
    totalBids: nat,
    totalAmount: int,
    paidAmount: int)

  predicate OfAuction(it: Item, auctionId: Id) {
    it.auctionId == auctionId
  }

  predicate HasBidder(it: Item) {
    Truthy(it.currentBidderId)
  }

  predicate Raised(it: Item) {
    it.currentBid > it.startingBid
  }

  function CurrentBid(it: Item): int { it.currentBid }

  /** The `reduce` of `totalAmount`: a bid counts only when it rose above
      the starting bid. */
  function RaisedBid(it: Item): int {
    if Raised(it) then it.currentBid else 0
  }

  function PaidBid(it: Item): int {
    if it.isPaid then it.currentBid else 0
  }

  /** The statistics of one auction from its item rows; `items` is None
      when the query returned no data, which gives zeros. */
  function WithStats(a: Auction, items: Option<seq<Item>>): (r: AuctionWithStats)
    ensures r.auction == a
    ensures items.None? ==> r.totalItems == 0 && r.totalBids == 0 && r.totalAmount == 0 && r.paidAmount == 0
    ensures items.Some? ==> r.totalItems == |items.value| && r.totalBids <= r.totalItems
  {
    match items
    case None => AuctionWithStats(a, 0, 0, 0, 0)
    case Some(rows) =>
      AuctionWithStats(a, |rows|, Count(rows, HasBidder), SumOf(rows, RaisedBid),
                       SumOf(Filter(rows, (it: Item) => it.isPaid), CurrentBid))
  }

  /** The rows `.eq('auction_id', auction.id)` fetches. */
  function ItemsOf(items: seq<Item>, a: Auction): (r: seq<Item>)
    ensures forall k :: 0 <= k < |r| ==> r[k].auctionId == a.id
  {
    Filter(items, (it: Item) => OfAuction(it, a.id))
  }

  /** The list of the modal: one entry per auction, in the order given. */
  function AllStats(auctions: seq<Auction>, items: seq<Item>): (r: seq<AuctionWithStats>)
    ensures |r| == |auctions|
    ensures forall k :: 0 <= k < |auctions| ==> r[k] == WithStats(auctions[k], Some(ItemsOf(items, auctions[k])))
  {
    seq(|auctions|, k requires 0 <= k < |auctions| => WithStats(auctions[k], Some(ItemsOf(items, auctions[k]))))
  }

  /** An auction without items gets zero for every statistic. */
  lemma EmptyAuctionHasZeroStats(a: Auction)
    ensures WithStats(a, Some([])) == AuctionWithStats(a, 0, 0, 0, 0)
  {
  }

  /** Summing a masked value over a list is summing over the filtered
      list. */
  lemma {:induction false} SumOfMasked(s: seq<Item>, p: Item -> bool, f: Item -> int, g: Item -> int)
    requires forall x :: g(x) == (if p(x) then f(x) else 0)
    ensures SumOf(s, g) == SumOf(Filter(s, p), f)
    decreases |s|
  {
    if |s| > 0 {
      var init := s[..|s| - 1];
      var last := s[|s| - 1];
      assert s == init + [last];
      SumOfMasked(init, p, f, g);
      FilterAppend(init, [last], p);
      SumOfAppend(Filter(init, p), Filter([last], p), f);
      assert Filter([last], p) == (if p(last) then [last] else []) + Filter([last][1..], p);
      if p(last) {
        assert SumOf([last], f) == f(last) by {
          assert [last][..0] == [];
        }
      }
    }
  }

  /** `totalAmount` is the sum of current bids over the items whose bid
      rose, and `paidAmount` the sum over the paid items. */
  lemma AmountsAreFilteredSums(a: Auction, rows: seq<Item>)
    ensures WithStats(a, Some(rows)).totalAmount == SumOf(Filter(rows, Raised), CurrentBid)
    ensures WithStats(a, Some(rows)).paidAmount == SumOf(rows, PaidBid)
  {
    SumOfMasked(rows, Raised, CurrentBid, RaisedBid);
    var paid := (it: Item) => it.isPaid;
    SumOfMasked(rows, paid, CurrentBid, PaidBid);
  }

  /** Neither amount is negative when no bid is. */
  lemma AmountsNonNegative(a: Auction, rows: seq<Item>)
    requires forall k :: 0 <= k < |rows| ==> rows[k].currentBid >= 0
    ensures WithStats(a, Some(rows)).totalAmount >= 0 && WithStats(a, Some(rows)).paidAmount >= 0
  {
    SumOfNonNegative(rows, RaisedBid);
    AmountsAreFilteredSums(a, rows);
    SumOfNonNegative(rows, PaidBid);
  }
}
