/** The ledger: one record type per table the route handlers touch,
    the store that holds them, and the shape of an HTTP reply. Every money
    column is held in integer cents. */
module Store {
  import opened Common

  type Id = string

  datatype AuctionStatus = Active | Ended

  /** A row of `auction_config`. */
  datatype Auction = Auction(
    id: Id,
    startTime: string,
    endTime: string,
    status: AuctionStatus,
    holidayName: string,
    services: seq<string>)

  /** A row of `auction_items`. */
  datatype Item = Item(
    id: Id,
    auctionId: Id,
    title: string,
    service: string,
    honor: string,
    description: Option<string>,
    startingBid: int,
    minimumIncrement: int,
    currentBid: int,
    currentBidderId: Option<Id>,
    isPaid: bool,
    displayOrder: int)

  /** A row of `bidders`. */
  datatype Bidder = Bidder(id: Id, fullName: string, email: string)

  /** A row of `bid_history`. */
  datatype HistoryRow = HistoryRow(
    itemId: Id,
    bidderId: Option<Id>,
    bidAmount: int,
    createdAt: int,
    isWinningBid: bool)

  datatype PaymentStatus = Pending | Succeeded | Failed

  /** One won item as recorded in a pending payment's metadata. */
  datatype LineItem = LineItem(id: Id, service: string, honor: string, bid: int)

  /** The `metadata` column of `stripe_payments`: the breakdown written when
      the payment is created (its flag None when the request sent null),
      or the processor's own metadata once a failure replaced it. */
  datatype PaymentMetadata =
    | Breakdown(subtotal: int, processingFee: int, total: int,
                coverProcessingFee: Option<bool>, items: seq<LineItem>)
    | IntentMetadata(entries: map<string, string>)

  /** A row of `stripe_payments`. */
  datatype PaymentRecord = PaymentRecord(
    paymentIntentId: string,
    itemIds: seq<Id>,
    bidderEmail: string,
    amount: int,
    status: PaymentStatus,
    metadata: PaymentMetadata)

  datatype EmailKind = Outbid | Winner
  datatype EmailStatus = Sent | SendFailed

  /** A row of `email_log`; `sentAt` is the insertion time in milliseconds. */
  datatype EmailLogRow = EmailLogRow(
    recipient: string,
    kind: EmailKind,
    itemId: Option<Id>,
    status: EmailStatus,
    sentAt: int)

  /** A row of `bid_item_templates`. */
  datatype BidTemplate = BidTemplate(
    id: Id,
    templateId: Id,
    title: string,
    service: string,
    honor: string,
    description: Option<string>,
    startingBid: int,
    minimumIncrement: int,
    displayOrder: int)

  /** A row of `holiday_templates`; `name` carries a unique constraint. */
  datatype HolidayTemplate = HolidayTemplate(id: Id, name: string, services: seq<string>)

  /** A row of `payment_settings`. */
  datatype PaymentSettings = PaymentSettings(id: Id, installmentsEnabled: bool, maxInstallments: int)

  /** A row of `stripe_accounts`; timestamps are milliseconds. */
  datatype StripeAccount = StripeAccount(
    id: Id,
    stripeAccountId: string,
    accessToken: Option<string>,
    refreshToken: Option<string>,
    stripeUserId: Option<string>,
    createdAt: int,
    updatedAt: int)

  /** The whole database, each table as a sequence in storage order. */
  datatype Db = Db(
    auctions: seq<Auction>,
    items: seq<Item>,
    bidders: seq<Bidder>,
    history: seq<HistoryRow>,
    payments: seq<PaymentRecord>,
    emailLog: seq<EmailLogRow>,
    bidTemplates: seq<BidTemplate>,
    holidayTemplates: seq<HolidayTemplate>,
    settings: seq<PaymentSettings>,
    stripeAccounts: seq<StripeAccount>)

  /** An `update(...).eq('id', id)` on `auction_items`: `f` rewrites each
      row carrying that id, the other rows stay as they are. */
  function RewriteItems(items: seq<Item>, id: Id, f: Item -> Item): (r: seq<Item>)
    ensures |r| == |items|
    ensures forall k :: 0 <= k < |items| && items[k].id != id ==> r[k] == items[k]
    ensures forall k :: 0 <= k < |items| && items[k].id == id ==> r[k] == f(items[k])
  {
    seq(|items|, k requires 0 <= k < |items| => if items[k].id == id then f(items[k]) else items[k])
  }

  // ---------------------------------------------------------------------------
  // Replies

  /** A JSON body: `{ error: message }` or the route's own success payload. */
  datatype Body<+T> = Error(message: string) | Payload(value: T)

  datatype Response<+T> = Response(status: int, body: Body<T>)

  function Fail<T>(status: int, message: string): (r: Response<T>)
    ensures r.status == status && r.body == Error(message)
  {
    Response(status, Error(message))
  }

  function Ok<T>(value: T): (r: Response<T>)
    ensures r.status == 200 && r.body == Payload(value)
  {
    Response(200, Payload(value))
  }

  /** The `{ success: true }` body of the admin routes. */
  datatype Done = Done

  /** The reply every admin route gives a caller `verifyAdmin` rejects. */
  function Unauthorized<T>(): (r: Response<T>)
    ensures r.status == 401 && r.body == Error("Unauthorized")
  {
    Fail(401, "Unauthorized")
  }

  // ---------------------------------------------------------------------------
  // Embedded (joined) rows

  /** How the query layer renders a joined to-one row: as an object, or as
      a one-element array. */
  datatype EmbedShape = AsObject | AsArray

  datatype Embedded<+T> = EmbedNull | EmbedObject(row: T) | EmbedArray(rows: seq<T>)

  function Embed<T>(row: Option<T>, shape: EmbedShape): (e: Embedded<T>)
    ensures row.None? <==> e.EmbedNull?
  {
    match row
    case None => EmbedNull
    case Some(b) => if shape == AsObject then EmbedObject(b) else EmbedArray([b])
  }

  /** `Array.isArray(x) ? x[0] : x`: the normalisation the read routes apply. */
  function Normalize<T>(e: Embedded<T>): (r: Option<T>)
  {
    match e
    case EmbedNull => None
    case EmbedObject(b) => Some(b)
    case EmbedArray(rs) => if |rs| > 0 then Some(rs[0]) else None
  }

  /** Normalising an embedded row gives back the row, whatever its shape. */
  lemma NormalizeEmbed<T>(row: Option<T>, shape: EmbedShape)
    ensures Normalize(Embed(row, shape)) == row
  {
  }

  /** The bidder a foreign key points at, if that row exists. */
  function BidderById(bidders: seq<Bidder>, id: Option<Id>): (r: Option<Bidder>)
    ensures r.Some? ==> id.Some? && r.value in bidders && r.value.id == id.value
    ensures r.None? && id.Some? ==> forall k :: 0 <= k < |bidders| ==> bidders[k].id != id.value
  {
    if id.None? || |bidders| == 0 then None
    else if bidders[0].id == id.value then Some(bidders[0])
    else BidderById(bidders[1..], id)
  }

  /** The email of an item's current bidder, if the item has one. */
  function BidderEmail(bidders: seq<Bidder>, it: Item): Option<string> {
    match BidderById(bidders, it.currentBidderId)
    case Some(b) => Some(b.email)
    case None => None
  }
}
