/** The two public read routes: a lot's recent outbid history
    (app/api/bid-history/route.ts) and a bidder's unpaid winnings
    (app/api/bidder/unpaid-items/route.ts). */
module Reads {
  import opened Common
  import opened Store

  // ---------------------------------------------------------------------------
  // Bid history

  /** `.limit(5)`. */
  const HistoryLimit := 5

  /** The name shown for a bid whose bidder is missing or nameless. */
  const Anonymous := "Anonymous"

  /** One entry of the reply. */
  datatype HistoryEntry = HistoryEntry(bidderName: string, bidAmount: int, createdAt: int)

  /** A bid on the item that is no longer the winning one. */
  predicate Previous(h: HistoryRow, itemId: Id) {
    h.itemId == itemId && !h.isWinningBid
  }

  /** Sorting ascending on this key puts the newest row first. */
  function Age(h: HistoryRow): int { -h.createdAt }

  /** The item's previous bids, newest first, in storage order on a tie. */
  function NewestFirst(history: seq<HistoryRow>, itemId: Id): (r: seq<HistoryRow>)
    ensures multiset(r) == multiset(Filter(history, (h: HistoryRow) => Previous(h, itemId)))
    ensures forall i, j :: 0 <= i < j < |r| ==> r[i].createdAt >= r[j].createdAt
  {
    var r := SortOn(Filter(history, (h: HistoryRow) => Previous(h, itemId)), Age);
    assert forall i, j :: 0 <= i < j < |r| ==> Age(r[i]) <= Age(r[j]);
    r
  }

  /** The query: `.eq('auction_item_id', itemId).eq('is_winning_bid', false)
      .order('created_at', { ascending: false }).limit(5)`. */
  function Recent(history: seq<HistoryRow>, itemId: Id): (r: seq<HistoryRow>)
    ensures |r| <= HistoryLimit
    ensures |r| == if Count(history, (h: HistoryRow) => Previous(h, itemId)) < HistoryLimit
                   then Count(history, (h: HistoryRow) => Previous(h, itemId)) else HistoryLimit
    ensures forall k :: 0 <= k < |r| ==> r[k] in history && Previous(r[k], itemId)
    ensures forall i, j :: 0 <= i < j < |r| ==> r[i].createdAt >= r[j].createdAt
  {
    var sorted := NewestFirst(history, itemId);
    var f := Filter(history, (h: HistoryRow) => Previous(h, itemId));
    assert |sorted| == |multiset(sorted)| == |multiset(f)| == |f|;
    var r := sorted[..if |sorted| < HistoryLimit then |sorted| else HistoryLimit];
    forall k | 0 <= k < |r|
      ensures r[k] in history && Previous(r[k], itemId)
    {
      assert r[k] == sorted[k];
      assert sorted[k] in multiset(sorted);
      assert sorted[k] in f;
    }
    r
  }

  /** A previous bid that is left out is no newer than any bid shown, and
      a bid is only left out when five are shown. */
  lemma {:induction false} RecentAreNewest(history: seq<HistoryRow>, itemId: Id, h: HistoryRow)
    requires h in history && Previous(h, itemId)
    requires h !in Recent(history, itemId)
    ensures |Recent(history, itemId)| == HistoryLimit
    ensures forall k :: 0 <= k < HistoryLimit ==> Recent(history, itemId)[k].createdAt >= h.createdAt
  {
    var sorted := NewestFirst(history, itemId);
    var f := Filter(history, (x: HistoryRow) => Previous(x, itemId));
    assert h in f;
    assert h in multiset(sorted);
    var j :| 0 <= j < |sorted| && sorted[j] == h;
    var n := if |sorted| < HistoryLimit then |sorted| else HistoryLimit;
    assert Recent(history, itemId) == sorted[..n];
    assert j >= n;
  }

  /** `bidder[0]?.full_name || 'Anonymous'` for an array,
      `bidder?.full_name || 'Anonymous'` otherwise. */
  function BidderName(e: Embedded<Bidder>): (r: string)
    ensures |r| > 0
    ensures Normalize(e).Some? && |Normalize(e).value.fullName| > 0 ==> r == Normalize(e).value.fullName
    ensures Normalize(e).None? || |Normalize(e).value.fullName| == 0 ==> r == Anonymous
  {
    match e
    case EmbedNull => Anonymous
    case EmbedObject(b) => if |b.fullName| > 0 then b.fullName else Anonymous
    case EmbedArray(rs) => if |rs| > 0 && |rs[0].fullName| > 0 then rs[0].fullName else Anonymous
  }

  /** Whatever shape the join takes, the entry names the bid's bidder, or
      "Anonymous" when the bidder is gone or has no name. */
  lemma BidderNameAnyShape(bidders: seq<Bidder>, h: HistoryRow, shape: EmbedShape)
    ensures var b := BidderById(bidders, h.bidderId);
      BidderName(Embed(b, shape)) == if b.Some? && |b.value.fullName| > 0 then b.value.fullName else Anonymous
  {
    NormalizeEmbed(BidderById(bidders, h.bidderId), shape);
  }

  function ToEntry(bidders: seq<Bidder>, h: HistoryRow, shape: EmbedShape): (e: HistoryEntry)
    ensures e.bidAmount == h.bidAmount && e.createdAt == h.createdAt
  {
    HistoryEntry(BidderName(Embed(BidderById(bidders, h.bidderId), shape)), h.bidAmount, h.createdAt)
  }

  /** GET /api/bid-history?item_id=…. */
  function BidHistory(db: Db, itemId: Option<Id>, shape: EmbedShape, readOk: bool)
    : (r: Response<seq<HistoryEntry>>)
    ensures !Truthy(itemId) ==> r == Fail(400, "item_id is required")
    ensures Truthy(itemId) && !readOk ==> r == Fail(500, "Failed to fetch bid history")
    ensures r.status == 200 <==> Truthy(itemId) && readOk
    ensures r.status == 200 ==> r.body.Payload?
    ensures r.status == 200 ==> |r.body.value| == |Recent(db.history, itemId.value)|
    ensures r.status == 200 ==> forall k :: 0 <= k < |r.body.value| ==>
      r.body.value[k] == ToEntry(db.bidders, Recent(db.history, itemId.value)[k], shape)
  {
    if !Truthy(itemId) then Fail(400, "item_id is required")
    else if !readOk then Fail(500, "Failed to fetch bid history")
    else
      var rows := Recent(db.history, itemId.value);
      Ok(seq(|rows|, k requires 0 <= k < |rows| => ToEntry(db.bidders, rows[k], shape)))
  }

  /** Every entry shown is a previous bid on the item, newest first, at
      most five of them. */
  lemma {:induction false} HistoryShowsPreviousBids(db: Db, itemId: Id, shape: EmbedShape, k: nat)
    requires |itemId| > 0 && k < |BidHistory(db, Some(itemId), shape, true).body.value|
    ensures var e := BidHistory(db, Some(itemId), shape, true).body.value;
      |e| <= HistoryLimit &&
      exists h :: h in db.history && Previous(h, itemId) && e[k].bidAmount == h.bidAmount && e[k].createdAt == h.createdAt
    ensures var e := BidHistory(db, Some(itemId), shape, true).body.value;
      k + 1 < |e| ==> e[k].createdAt >= e[k + 1].createdAt
  {
    var rows := Recent(db.history, itemId);
    assert rows[k] in db.history && Previous(rows[k], itemId);
  }

  // ---------------------------------------------------------------------------
  // Unpaid items

  /** The joined bidder as the route selects it. */
  datatype Contact = Contact(fullName: string, email: string)

  /** One returned item: the selected columns and the normalised bidder. */
  datatype UnpaidView = UnpaidView(
    id: Id,
    service: string,
    honor: string,
    description: Option<string>,
    currentBid: int,
    startingBid: int,
    minimumIncrement: int,
    displayOrder: int,
    isPaid: bool,
    currentBidder: Option<Contact>)

  predicate Unpaid(it: Item) {
    !it.isPaid && it.currentBidderId.Some?
  }

  function ContactOf(b: Option<Bidder>): (c: Option<Contact>)
    ensures c.Some? <==> b.Some?
    ensures c.Some? ==> c.value.email == b.value.email && c.value.fullName == b.value.fullName
  {
    match b
    case None => None
    case Some(x) => Some(Contact(x.fullName, x.email))
  }

  /** The fetched row with `current_bidder` normalised from either shape. */
  function ToUnpaid(bidders: seq<Bidder>, it: Item, shape: EmbedShape): (v: UnpaidView)
    ensures v.id == it.id && v.isPaid == it.isPaid && v.currentBid == it.currentBid
    ensures v.currentBidder == ContactOf(BidderById(bidders, it.currentBidderId))
  {
    NormalizeEmbed(BidderById(bidders, it.currentBidderId), shape);
    UnpaidView(it.id, it.service, it.honor, it.description, it.currentBid, it.startingBid,
               it.minimumIncrement, it.displayOrder, it.isPaid,
               ContactOf(Normalize(Embed(BidderById(bidders, it.currentBidderId), shape))))
  }

  function Fetched(db: Db, shape: EmbedShape): (r: seq<UnpaidView>)
    ensures |r| == Count(db.items, Unpaid)
    ensures forall k :: 0 <= k < |r| ==> r[k] == ToUnpaid(db.bidders, Filter(db.items, Unpaid)[k], shape)
  {
    var f := Filter(db.items, Unpaid);
    seq(|f|, k requires 0 <= k < |f| => ToUnpaid(db.bidders, f[k], shape))
  }

  predicate WonBy(v: UnpaidView, email: string) {
    v.currentBidder.Some? && v.currentBidder.value.email == email
  }

  /** GET /api/bidder/unpaid-items?email=…. */
  function UnpaidItems(db: Db, email: Option<string>, shape: EmbedShape, readOk: bool)
    : (r: Response<seq<UnpaidView>>)
    ensures !Truthy(email) ==> r == Fail(400, "Email is required")
    ensures Truthy(email) && !readOk ==> r == Fail(500, "Failed to fetch unpaid items")
    ensures r.status == 200 <==> Truthy(email) && readOk
    ensures r.status == 200 ==> r.body.Payload?
    ensures r.status == 200 ==> forall k :: 0 <= k < |r.body.value| ==>
      !r.body.value[k].isPaid && WonBy(r.body.value[k], email.value)
    ensures r.status == 200 ==> Subsequence(r.body.value, Fetched(db, shape))
  {
    if !Truthy(email) then Fail(400, "Email is required")
    else if !readOk then Fail(500, "Failed to fetch unpaid items")
    else
      var fetched := Fetched(db, shape);
      var r := Filter(fetched, (v: UnpaidView) => WonBy(v, email.value));
      FilterIsSubsequence(fetched, (v: UnpaidView) => WonBy(v, email.value));
      forall k | 0 <= k < |r|
        ensures !r[k].isPaid
      {
        var j :| 0 <= j < |fetched| && fetched[j] == r[k];
        assert Unpaid(Filter(db.items, Unpaid)[j]);
      }
      Ok(r)
  }

  /** Every stored unpaid item won by that email is in the reply. */
  lemma {:induction false} UnpaidItemsComplete(db: Db, email: string, shape: EmbedShape, k: nat)
    requires |email| > 0 && k < |db.items|
    requires !db.items[k].isPaid && BidderEmail(db.bidders, db.items[k]) == Some(email)
    ensures ToUnpaid(db.bidders, db.items[k], shape) in UnpaidItems(db, Some(email), shape, true).body.value
  {
    var it := db.items[k];
    assert Unpaid(it);
    var f := Filter(db.items, Unpaid);
    assert it in f;
    var j :| 0 <= j < |f| && f[j] == it;
    var fetched := Fetched(db, shape);
    assert fetched[j] == ToUnpaid(db.bidders, it, shape);
    assert WonBy(fetched[j], email);
  }
}
