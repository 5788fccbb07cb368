/** Settlement: the payment-intent route that prices a bidder's won items
    and records a pending payment, and the processor webhook that
    reconciles it (app/api/stripe/create-payment-intent/route.ts and
    app/api/stripe/webhook/route.ts). */
module Payments {
  import opened Common
  import opened Store
  import opened Money
  import opened StripeAccounts

  // ---------------------------------------------------------------------------
  // Creating a payment intent

  /** The `itemIds` property of the request body. */
  datatype IdsField = IdsAbsent | IdsNotArray | IdsArray(ids: seq<Id>)

  /** The `coverProcessingFee` property: absent, JSON null, or a boolean. */
  datatype FeeFlag = FeeAbsent | FeeNull | FeeGiven(value: bool)

  /** The value after the destructuring default `coverProcessingFee = true`,
      which replaces only an absent property: null stays null (None). */
  function FeeValue(f: FeeFlag): Option<bool> {
    match f
    case FeeAbsent => Some(true)
    case FeeNull => None
    case FeeGiven(b) => Some(b)
  }

  /** calculatePaymentTotal adds the fee when that value is truthy; null
      is not. */
  predicate CoversFee(f: FeeFlag) {
    FeeValue(f) == Some(true)
  }

  /** The request body. */
  datatype IntentRequest = IntentRequest(
    itemIds: IdsField,
    bidderEmail: Option<string>,
    coverProcessingFee: FeeFlag)

  /** What the processor returns for a created intent. */
  datatype CreatedIntent = CreatedIntent(id: string, clientSecret: string)

  /** The outcomes of the calls the route makes: the account lookup, the
      item query, the processor's create call (None when it throws) and
      the record insert, whose error the route does not inspect. */
  datatype IntentEnv = IntentEnv(
    accountReadOk: bool,
    itemsReadOk: bool,
    created: Option<CreatedIntent>,
    recordInsertOk: bool)

  /** The create call the route sends to the processor. */
  datatype ProcessorCall = ProcessorCall(
    amount: int,
    metadata: map<string, string>,
    receiptEmail: string,
    account: string)

  /** The success payload; money in cents. */
  datatype IntentReply = IntentReply(
    clientSecret: string,
    paymentIntentId: string,
    amount: int,
    subtotal: int,
    processingFee: int,
    stripeAccountId: string)

  datatype IntentOutcome = IntentOutcome(
    response: Response<IntentReply>,
    db: Db,
    call: Option<ProcessorCall>)

  /** The rows `.in('id', itemIds)` returns, in storage order. */
  function FoundItems(items: seq<Item>, ids: seq<Id>): (r: seq<Item>)
    ensures forall k :: 0 <= k < |r| ==> r[k] in items && r[k].id in ids
    ensures forall k :: 0 <= k < |items| && items[k].id in ids ==> items[k] in r
  {
    Filter(items, (it: Item) => it.id in ids)
  }

  /** `bidder?.email === bidderEmail` after normalising the joined bidder;
      normalisation gives back the bidder row in either shape
      (Store.NormalizeEmbed), so the shape plays no part here. */
  predicate OwnedBy(bidders: seq<Bidder>, it: Item, email: string) {
    BidderEmail(bidders, it) == Some(email)
  }

  predicate AllOwnedBy(bidders: seq<Bidder>, items: seq<Item>, email: string) {
    forall k :: 0 <= k < |items| ==> OwnedBy(bidders, items[k], email)
  }

  function CurrentBid(it: Item): int { it.currentBid }

  function ToLineItem(it: Item): (l: LineItem)
    ensures l.id == it.id && l.bid == it.currentBid
  {
    LineItem(it.id, it.service, it.honor, it.currentBid)
  }

  /** The request passes the two body checks. */
  predicate WellFormedIntentRequest(req: IntentRequest) {
    req.itemIds.IdsArray? && |req.itemIds.ids| > 0 && Truthy(req.bidderEmail)
  }

  /** POST /api/stripe/create-payment-intent. */
  function CreatePaymentIntent(db: Db, req: IntentRequest, env: IntentEnv): (out: IntentOutcome)
    // body checks, in source order, and nothing written or sent
    ensures !(req.itemIds.IdsArray? && |req.itemIds.ids| > 0) ==>
      out == IntentOutcome(Fail(400, "Item IDs are required"), db, None)
    ensures req.itemIds.IdsArray? && |req.itemIds.ids| > 0 && !Truthy(req.bidderEmail) ==>
      out == IntentOutcome(Fail(400, "Bidder email is required"), db, None)
    ensures WellFormedIntentRequest(req) &&
            GetStripeAccount(db.stripeAccounts, env.accountReadOk).None? ==>
      out == IntentOutcome(Fail(503, "Stripe not connected. Please contact administrator."), db, None)
    // a 404 exactly when nothing is found; partial matches are accepted
    ensures WellFormedIntentRequest(req) && out.response.status == 404 <==>
      WellFormedIntentRequest(req) &&
      GetStripeAccount(db.stripeAccounts, env.accountReadOk).Some? &&
      (!env.itemsReadOk || |FoundItems(db.items, req.itemIds.ids)| == 0)
    // the store changes only on success, and only the payments table
    ensures out.response.status != 200 ==> out.db == db
    ensures out.db.(payments := db.payments) == db
    ensures WellFormedIntentRequest(req) &&
            GetStripeAccount(db.stripeAccounts, env.accountReadOk).Some? &&
            env.itemsReadOk && |FoundItems(db.items, req.itemIds.ids)| > 0 &&
            !AllOwnedBy(db.bidders, FoundItems(db.items, req.itemIds.ids), req.bidderEmail.value) ==>
      out == IntentOutcome(Fail(403, "Unauthorized - you do not own all these items"), db, None)
    // a well-formed request for owned items reaches the processor: 500 when
    // the create call throws, 200 when it creates the intent
    ensures WellFormedIntentRequest(req) &&
            GetStripeAccount(db.stripeAccounts, env.accountReadOk).Some? &&
            env.itemsReadOk && |FoundItems(db.items, req.itemIds.ids)| > 0 &&
            AllOwnedBy(db.bidders, FoundItems(db.items, req.itemIds.ids), req.bidderEmail.value) ==>
      out.call.Some? &&
      (env.created.None? ==> out.response == Fail(500, "Failed to create payment intent") && out.db == db) &&
      (env.created.Some? ==> out.response.status == 200)
    ensures out.response.status == 403 ==>
      WellFormedIntentRequest(req) &&
      out.response.body == Error("Unauthorized - you do not own all these items") &&
      !AllOwnedBy(db.bidders, FoundItems(db.items, req.itemIds.ids), req.bidderEmail.value)
    ensures out.response.status == 200 ==>
      WellFormedIntentRequest(req) && env.created.Some? && out.call.Some? &&
      |FoundItems(db.items, req.itemIds.ids)| > 0 &&
      AllOwnedBy(db.bidders, FoundItems(db.items, req.itemIds.ids), req.bidderEmail.value)
  {
    if !(req.itemIds.IdsArray? && |req.itemIds.ids| > 0) then
      IntentOutcome(Fail(400, "Item IDs are required"), db, None)
    else if !Truthy(req.bidderEmail) then
      IntentOutcome(Fail(400, "Bidder email is required"), db, None)
    else
      var ids := req.itemIds.ids;
      var email := req.bidderEmail.value;
      var account := GetStripeAccount(db.stripeAccounts, env.accountReadOk);
      if account.None? then
        IntentOutcome(Fail(503, "Stripe not connected. Please contact administrator."), db, None)
      else
        var found := FoundItems(db.items, ids);
        if !env.itemsReadOk || |found| == 0 then
          IntentOutcome(Fail(404, "Items not found"), db, None)
        else if !AllOwnedBy(db.bidders, found, email) then
          IntentOutcome(Fail(403, "Unauthorized - you do not own all these items"), db, None)
        else
          Charge(db, ids, email, account.value, found, req.coverProcessingFee, env)
  }

  /** The priced part of the route: the processor call for the found
      items and, when the processor creates the intent, the pending
      record and the reply. */
  function Charge(db: Db, ids: seq<Id>, email: string, account: StripeAccount, found: seq<Item>,
                  fee: FeeFlag, env: IntentEnv): (out: IntentOutcome)
    requires |found| > 0
    ensures out.call.Some?
    ensures out.db.(payments := db.payments) == db
    ensures env.created.None? ==> out.response == Fail(500, "Failed to create payment intent") && out.db == db
    ensures env.created.Some? ==> out.response.status == 200
  {
    var t := CalculatePaymentTotal(SumOf(found, CurrentBid), CoversFee(fee));
    var amount := DollarsToCents(CentsToDollars(t.total));
    var call := ProcessorCall(amount, GeneratePaymentMetadata(ids, email, found[0].auctionId),
                              email, account.stripeAccountId);
    if env.created.None? then
      IntentOutcome(Fail(500, "Failed to create payment intent"), db, Some(call))
    else
      var intent := env.created.value;
      var lines := seq(|found|, k requires 0 <= k < |found| => ToLineItem(found[k]));
      var record := PaymentRecord(intent.id, ids, email, amount, Pending,
                                  Breakdown(t.subtotal, t.processingFee, t.total, FeeValue(fee), lines));
      var db' := if env.recordInsertOk then db.(payments := db.payments + [record]) else db;
      IntentOutcome(Ok(IntentReply(intent.clientSecret, intent.id, t.total, t.subtotal,
                                   t.processingFee, account.stripeAccountId)),
                    db', Some(call))
  }

  /** On success the reply carries the computed breakdown, the processor
      receives the generated metadata, and exactly one pending record for
      the requested ids is appended (when its insert succeeds). */
  lemma IntentSuccessRecordsPending(db: Db, req: IntentRequest, env: IntentEnv)
    requires CreatePaymentIntent(db, req, env).response.status == 200
    ensures var out := CreatePaymentIntent(db, req, env);
      var found := FoundItems(db.items, req.itemIds.ids);
      var email := req.bidderEmail.value;
      var t := CalculatePaymentTotal(SumOf(found, CurrentBid), CoversFee(req.coverProcessingFee));
      |found| > 0 && AllOwnedBy(db.bidders, found, email) &&
      out.response.body == Payload(IntentReply(
        env.created.value.clientSecret, env.created.value.id, t.total, t.subtotal, t.processingFee,
        GetStripeAccount(db.stripeAccounts, env.accountReadOk).value.stripeAccountId)) &&
      out.call.Some? &&
      out.call.value.metadata == GeneratePaymentMetadata(req.itemIds.ids, email, found[0].auctionId) &&
      out.db.payments == db.payments + (if env.recordInsertOk then [PaymentRecord(
        env.created.value.id, req.itemIds.ids, email, out.call.value.amount, Pending,
        Breakdown(t.subtotal, t.processingFee, t.total, FeeValue(req.coverProcessingFee),
                  seq(|found|, k requires 0 <= k < |found| => ToLineItem(found[k]))))] else [])
  {
  }

  /** The amount charged and recorded in cents is the breakdown's total:
      the dollars-to-cents conversion loses nothing. With the fee covered
      it is the subtotal plus the processor fee, otherwise the subtotal. */
  lemma {:induction false} IntentAmountIsTotal(db: Db, req: IntentRequest, env: IntentEnv)
    requires CreatePaymentIntent(db, req, env).response.status == 200
    ensures var out := CreatePaymentIntent(db, req, env);
      var sub := SumOf(FoundItems(db.items, req.itemIds.ids), CurrentBid);
      out.call.value.amount == out.response.body.value.amount &&
      out.call.value.amount ==
        sub + (if CoversFee(req.coverProcessingFee) then StripeFee(sub) else 0)
  {
    var t := CalculatePaymentTotal(SumOf(FoundItems(db.items, req.itemIds.ids), CurrentBid),
                                   CoversFee(req.coverProcessingFee));
    CentsRoundTrip(t.total);
  }

  /** A null `coverProcessingFee` escapes the default: the charge is the
      bare subtotal and the record stores null for the flag. */
  lemma NullFeeFlagChargesNoFee(db: Db, req: IntentRequest, env: IntentEnv)
    requires CreatePaymentIntent(db, req, env).response.status == 200
    requires req.coverProcessingFee == FeeNull && env.recordInsertOk
    ensures var out := CreatePaymentIntent(db, req, env);
      out.call.value.amount == SumOf(FoundItems(db.items, req.itemIds.ids), CurrentBid) &&
      out.db.payments[|db.payments|].metadata.Breakdown? &&
      out.db.payments[|db.payments|].metadata.coverProcessingFee.None?
  {
    IntentAmountIsTotal(db, req, env);
    IntentSuccessRecordsPending(db, req, env);
  }

  // ---------------------------------------------------------------------------
  // The webhook

  /** The parts of a processor payment intent the handlers read. */
  datatype PaymentIntent = PaymentIntent(
    id: string,
    metadata: map<string, string>,
    lastPaymentError: Option<string>)

  datatype Event = Event(eventType: string, intent: PaymentIntent)

  /** The request as the route sees it: the signature header, and the
      event signature verification yields (None when it throws). */
  datatype WebhookRequest = WebhookRequest(signature: Option<string>, verified: Option<Event>)

  /** The outcomes of the handlers' writes: the items update, whose error
      stops the success handler, and the payment-record updates, whose
      errors are not inspected. */
  datatype WebhookEnv = WebhookEnv(itemsUpdateOk: bool, recordUpdateOk: bool)

  const SucceededEvent := "payment_intent.succeeded"
  const FailedEvent := "payment_intent.payment_failed"

  /** `{ received: true }`. */
  datatype Received = Received

  /** The ids `item_ids.split(',')` yields, when the metadata has a
      non-empty `item_ids`. */
  function ListedIds(metadata: map<string, string>): (r: Option<seq<Id>>)
    ensures r.Some? <==> "item_ids" in metadata && metadata["item_ids"] != ""
  {
    if "item_ids" in metadata && metadata["item_ids"] != "" then Some(Split(metadata["item_ids"], ','))
    else None
  }

  /** `update({is_paid: true}).in('id', ids)`. */
  function MarkPaid(items: seq<Item>, ids: seq<Id>): (r: seq<Item>)
    ensures |r| == |items|
    ensures forall k :: 0 <= k < |r| ==>
      r[k] == if items[k].id in ids then items[k].(isPaid := true) else items[k]
  {
    seq(|items|, k requires 0 <= k < |items| =>
      if items[k].id in ids then items[k].(isPaid := true) else items[k])
  }

  /** `update({status, …}).eq('payment_intent_id', id)` on the records. */
  function UpdateRecords(ps: seq<PaymentRecord>, intentId: string, f: PaymentRecord -> PaymentRecord)
    : (r: seq<PaymentRecord>)
    ensures |r| == |ps|
    ensures forall k :: 0 <= k < |r| ==>
      r[k] == if ps[k].paymentIntentId == intentId then f(ps[k]) else ps[k]
  {
    seq(|ps|, k requires 0 <= k < |ps| =>
      if ps[k].paymentIntentId == intentId then f(ps[k]) else ps[k])
  }

  function MarkSucceeded(p: PaymentRecord): PaymentRecord { p.(status := Succeeded) }

  /** The failure reason recorded: the processor's message, or
      'Unknown error' when it has none. */
  function FailureReason(intent: PaymentIntent): (s: string)
    ensures Truthy(intent.lastPaymentError) ==> s == intent.lastPaymentError.value
    ensures !Truthy(intent.lastPaymentError) ==> s == "Unknown error"
  {
    if Truthy(intent.lastPaymentError) then intent.lastPaymentError.value else "Unknown error"
  }

  function FailedMetadata(intent: PaymentIntent): (m: map<string, string>)
    ensures m.Keys == intent.metadata.Keys + {"last_payment_error"}
    ensures m["last_payment_error"] == FailureReason(intent)
    ensures forall key :: key in intent.metadata && key != "last_payment_error" ==>
      m[key] == intent.metadata[key]
  {
    intent.metadata["last_payment_error" := FailureReason(intent)]
  }

  /** handlePaymentSuccess. */
  function HandlePaymentSuccess(db: Db, intent: PaymentIntent, env: WebhookEnv): (db': Db)
    ensures ListedIds(intent.metadata).None? || !env.itemsUpdateOk ==> db' == db
    ensures db'.(items := db.items, payments := db.payments) == db
  {
    var ids := ListedIds(intent.metadata);
    if ids.None? || !env.itemsUpdateOk then db
    else
      var items' := MarkPaid(db.items, ids.value);
      var payments' := if env.recordUpdateOk then UpdateRecords(db.payments, intent.id, MarkSucceeded)
                       else db.payments;
      db.(items := items', payments := payments')
  }

  /** handlePaymentFailed. */
  function HandlePaymentFailed(db: Db, intent: PaymentIntent, env: WebhookEnv): (db': Db)
    ensures db'.(payments := db.payments) == db
    ensures |db'.payments| == |db.payments|
    ensures forall k :: 0 <= k < |db.payments| ==>
      db'.payments[k] ==
        if env.recordUpdateOk && db.payments[k].paymentIntentId == intent.id
        then db.payments[k].(status := Failed, metadata := IntentMetadata(FailedMetadata(intent)))
        else db.payments[k]
  {
    if !env.recordUpdateOk then db
    else
      var meta := IntentMetadata(FailedMetadata(intent));
      db.(payments := UpdateRecords(db.payments, intent.id,
                                    (p: PaymentRecord) => p.(status := Failed, metadata := meta)))
  }

  /** POST /api/stripe/webhook. */
  function Webhook(db: Db, req: WebhookRequest, env: WebhookEnv): (out: (Response<Received>, Db))
    ensures !Truthy(req.signature) ==> out == (Fail(400, "No signature"), db)
    ensures Truthy(req.signature) && req.verified.None? ==> out == (Fail(400, "Invalid signature"), db)
    // a verified event is always acknowledged, whatever its handling did
    ensures Truthy(req.signature) && req.verified.Some? ==> out.0 == Ok(Received)
    ensures (req.verified.Some? && req.verified.value.eventType != SucceededEvent &&
             req.verified.value.eventType != FailedEvent) ==> out.1 == db
  {
    if !Truthy(req.signature) then (Fail(400, "No signature"), db)
    else if req.verified.None? then (Fail(400, "Invalid signature"), db)
    else
      var ev := req.verified.value;
      var db' := if ev.eventType == SucceededEvent then HandlePaymentSuccess(db, ev.intent, env)
                 else if ev.eventType == FailedEvent then HandlePaymentFailed(db, ev.intent, env)
                 else db;
      (Ok(Received), db')
  }

  /** On a succeeded event with item ids, every listed item becomes paid and
      every other item is untouched; the matching records become succeeded
      and no other record changes. */
  lemma SucceededMarksListedItems(db: Db, intent: PaymentIntent)
    requires ListedIds(intent.metadata).Some?
    ensures var db' := HandlePaymentSuccess(db, intent, WebhookEnv(true, true));
      var ids := Split(intent.metadata["item_ids"], ',');
      |db'.items| == |db.items| && |db'.payments| == |db.payments| &&
      (forall k :: 0 <= k < |db.items| && db.items[k].id in ids ==> db'.items[k].isPaid) &&
      (forall k :: 0 <= k < |db.items| ==> db'.items[k].(isPaid := db.items[k].isPaid) == db.items[k]) &&
      (forall k :: 0 <= k < |db.items| && db.items[k].id !in ids ==> db'.items[k] == db.items[k]) &&
      (forall k :: 0 <= k < |db.payments| && db.payments[k].paymentIntentId == intent.id ==>
         db'.payments[k] == db.payments[k].(status := Succeeded)) &&
      (forall k :: 0 <= k < |db.payments| && db.payments[k].paymentIntentId != intent.id ==>
         db'.payments[k] == db.payments[k])
  {
  }

  /** Marking the listed items paid and the record succeeded is idempotent:
      delivering the same succeeded event twice gives the store one
      delivery gives. */
  lemma {:induction false} SucceededIdempotent(db: Db, req: WebhookRequest, env: WebhookEnv)
    requires req.verified.Some? && req.verified.value.eventType == SucceededEvent
    ensures var once := Webhook(db, req, env).1;
      Webhook(once, req, env).1 == once
  {
    var intent := req.verified.value.intent;
    var once := Webhook(db, req, env).1;
    var ids := ListedIds(intent.metadata);
    if Truthy(req.signature) && ids.Some? && env.itemsUpdateOk {
      var twice := Webhook(once, req, env).1;
      assert twice.items == once.items;
      assert twice.payments == once.payments;
    }
  }

  /** The failed handler is idempotent as well. */
  lemma {:induction false} FailedIdempotent(db: Db, req: WebhookRequest, env: WebhookEnv)
    requires req.verified.Some? && req.verified.value.eventType == FailedEvent
    ensures var once := Webhook(db, req, env).1;
      Webhook(once, req, env).1 == once
  {
    var once := Webhook(db, req, env).1;
    if Truthy(req.signature) && env.recordUpdateOk {
      var twice := Webhook(once, req, env).1;
      assert twice.payments == once.payments;
    }
  }

  /** The handlers do not look at a record's current status: a failure
      event delivered after a success turns the record back to failed. */
  lemma FailedAfterSucceededOverwrites(p: PaymentRecord, intent: PaymentIntent)
    requires p.paymentIntentId == intent.id && p.status == Succeeded
    ensures var db := Db([], [], [], [], [p], [], [], [], [], []);
      HandlePaymentFailed(db, intent, WebhookEnv(true, true)).payments[0].status == Failed
  {
  }

  /** End to end: after a successful payment-intent request, the succeeded
      event for that intent, carrying the metadata the route sent, marks
      paid exactly the requested items that exist, and marks the new
      record succeeded. Ids are non-empty and never contain ','. */
  lemma {:induction false} CreateThenSucceed(db: Db, req: IntentRequest, env: IntentEnv, sig: string)
    requires CreatePaymentIntent(db, req, env).response.status == 200
    requires env.recordInsertOk && sig != ""
    requires forall k :: 0 <= k < |req.itemIds.ids| ==> req.itemIds.ids[k] != "" && ',' !in req.itemIds.ids[k]
    ensures var out := CreatePaymentIntent(db, req, env);
      var intent := PaymentIntent(env.created.value.id, out.call.value.metadata, None);
      var db' := Webhook(out.db, WebhookRequest(Some(sig), Some(Event(SucceededEvent, intent))),
                         WebhookEnv(true, true)).1;
      |db'.items| == |db.items| && |db'.payments| == |db.payments| + 1 &&
      (forall k :: 0 <= k < |db.items| ==>
         db'.items[k] == if db.items[k].id in req.itemIds.ids then db.items[k].(isPaid := true)
                         else db.items[k]) &&
      (forall k :: |db.payments| <= k < |db'.payments| ==> db'.payments[k].status == Succeeded)
  {
    var out := CreatePaymentIntent(db, req, env);
    CreatedRecord(db, req, env);
    SplitJoin(req.itemIds.ids, ',');
    JoinEmptyOnlyForEmptyId(req.itemIds.ids);
    SucceedAfterCreate(db, out.db, req.itemIds.ids,
                       PaymentIntent(env.created.value.id, out.call.value.metadata, None), sig);
  }

  /** What a successful create leaves for the webhook: the items as they
      were, one new record under the intent's id, and the ids joined into
      the metadata. */
  lemma CreatedRecord(db: Db, req: IntentRequest, env: IntentEnv)
    requires CreatePaymentIntent(db, req, env).response.status == 200 && env.recordInsertOk
    ensures var out := CreatePaymentIntent(db, req, env);
      out.db.items == db.items && |out.db.payments| == |db.payments| + 1 &&
      out.db.payments[|db.payments|].paymentIntentId == env.created.value.id &&
      "item_ids" in out.call.value.metadata &&
      out.call.value.metadata["item_ids"] == Join(req.itemIds.ids, ",") && |req.itemIds.ids| >= 1
  {
    IntentSuccessRecordsPending(db, req, env);
  }

  /** The succeeded event of a freshly recorded intent whose metadata
      lists `ids`. */
  lemma SucceedAfterCreate(db: Db, created: Db, ids: seq<Id>, intent: PaymentIntent, sig: string)
    requires created.items == db.items && |created.payments| == |db.payments| + 1
    requires created.payments[|db.payments|].paymentIntentId == intent.id
    requires "item_ids" in intent.metadata && Split(intent.metadata["item_ids"], ',') == ids
    requires intent.metadata["item_ids"] != "" && sig != ""
    ensures var db' := Webhook(created, WebhookRequest(Some(sig), Some(Event(SucceededEvent, intent))),
                               WebhookEnv(true, true)).1;
      |db'.items| == |db.items| && |db'.payments| == |db.payments| + 1 &&
      (forall k :: 0 <= k < |db.items| ==>
         db'.items[k] == if db.items[k].id in ids then db.items[k].(isPaid := true) else db.items[k]) &&
      (forall k :: |db.payments| <= k < |db'.payments| ==> db'.payments[k].status == Succeeded)
  {
    var db' := HandlePaymentSuccess(created, intent, WebhookEnv(true, true));
    assert db'.payments[|db.payments|] == created.payments[|db.payments|].(status := Succeeded);
  }

  /** The join of a non-empty id list is empty only when the list is one
      empty id. */
  lemma {:induction false} JoinEmptyOnlyForEmptyId(ids: seq<Id>)
    requires |ids| >= 1
    ensures Join(ids, [',']) == "" ==> ids == [""]
  {
    if |ids| > 1 {
      assert |Join(ids, [','])| >= 1;
    }
  }
}
