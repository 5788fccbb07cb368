/** The auction lifecycle of the admin routes: starting an auction
    (app/api/admin/auction/route.ts), ending it, adding one item, and
    deleting an item or a whole auction. Each route is a transition of the
    store; the outcome of each write it issues is an input. */
module Lifecycle {
  import opened Common
  import opened Store
  import opened Validators

  // ---------------------------------------------------------------------------
  // The start-auction schema

  /** One entry of `items` in the request body. For the two coerced
      amounts `Given(n)` stands for any value `Number()` maps to n and
      `Mistyped` for one it maps to NaN. */
  datatype AdminItemBody = AdminItemBody(
    title: Field<string>,
    service: Field<string>,
    honor: Field<string>,
    description: Field<string>,
    startingBid: Field<int>,
    minimumIncrement: Field<int>,
    displayOrder: Field<int>)

  datatype StartBody = StartBody(
    startDate: Field<string>,
    endDate: Field<string>,
    holidayName: Field<string>,
    services: Field<seq<string>>,
    items: Field<seq<AdminItemBody>>)

  datatype AdminItem = AdminItem(
    title: string,
    service: string,
    honor: string,
    description: Option<string>,
    startingBid: int,
    minimumIncrement: int,
    displayOrder: int)

  datatype StartInput = StartInput(
    startDate: string,
    endDate: string,
    holidayName: string,
    services: seq<string>,
    items: seq<AdminItem>)

  /** `z.coerce.number()`: null becomes 0, a missing or non-numeric value
      NaN (None). */
  function CoerceNumber(f: Field<int>): (r: Option<int>)
    ensures r.Some? <==> f.Given? || f.Null?
    ensures f.Null? ==> r == Some(0)
    ensures f.Given? ==> r == Some(f.value)
  {
    match f
    case Given(n) => Some(n)
    case Null => Some(0)
    case _ => None
  }

  /** An item passes when title, service and honor are non-empty, the
      description is a string, null or missing, startingBid coerces to at
      least 0, minimumIncrement is missing or coerces to at least one
      dollar, and displayOrder is a number. */
  predicate AdminItemValid(b: AdminItemBody) {
    StringMin(b.title, 1) && StringMin(b.service, 1) && StringMin(b.honor, 1) &&
    !b.description.Mistyped? &&
    CoerceNumber(b.startingBid).Some? && CoerceNumber(b.startingBid).value >= 0 &&
    (b.minimumIncrement.Absent? ||
     (CoerceNumber(b.minimumIncrement).Some? && CoerceNumber(b.minimumIncrement).value >= CentsPerDollar)) &&
    b.displayOrder.Given?
  }

  function ParseAdminItem(b: AdminItemBody): (r: Option<AdminItem>)
    ensures r.Some? <==> AdminItemValid(b)
    ensures r.Some? ==>
      r.value.title == b.title.value && r.value.service == b.service.value &&
      r.value.honor == b.honor.value && r.value.displayOrder == b.displayOrder.value &&
      r.value.startingBid == CoerceNumber(b.startingBid).value
    ensures r.Some? ==> (r.value.description.Some? <==> b.description.Given?)
    ensures r.Some? && b.description.Given? ==> r.value.description == Some(b.description.value)
    ensures r.Some? && b.minimumIncrement.Absent? ==> r.value.minimumIncrement == CentsPerDollar
    ensures r.Some? && !b.minimumIncrement.Absent? ==>
      r.value.minimumIncrement == CoerceNumber(b.minimumIncrement).value
  {
    if AdminItemValid(b) then
      var desc := if b.description.Given? then Some(b.description.value) else None;
      var inc := if b.minimumIncrement.Absent? then CentsPerDollar else CoerceNumber(b.minimumIncrement).value;
      Some(AdminItem(b.title.value, b.service.value, b.honor.value, desc,
                     CoerceNumber(b.startingBid).value, inc, b.displayOrder.value))
    else None
  }

  /** The object rules, and the refinement that the start instant lies
      before the end instant. */
  predicate StartBodyValid(body: StartBody, checks: FormatChecks) {
    body.startDate.Given? && checks.datetime(body.startDate.value).Some? &&
    body.endDate.Given? && checks.datetime(body.endDate.value).Some? &&
    StringMin(body.holidayName, 1) &&
    body.services.Given? && |body.services.value| >= 1 &&
    body.items.Given? && |body.items.value| >= 1 &&
    ParseEach(body.items.value, ParseAdminItem).Some? &&
    checks.datetime(body.startDate.value).value < checks.datetime(body.endDate.value).value
  }

  /** StartAuctionSchema.parse; None is the ZodError. */
  function ParseStart(body: StartBody, checks: FormatChecks): (r: Option<StartInput>)
    ensures r.Some? <==> StartBodyValid(body, checks)
    ensures r.Some? ==>
      r.value.startDate == body.startDate.value && r.value.endDate == body.endDate.value &&
      r.value.holidayName == body.holidayName.value && r.value.services == body.services.value &&
      r.value.items == ParseEach(body.items.value, ParseAdminItem).value
    ensures r.Some? ==> |r.value.items| == |body.items.value| >= 1
  {
    if StartBodyValid(body, checks) then
      Some(StartInput(body.startDate.value, body.endDate.value, body.holidayName.value,
                      body.services.value, ParseEach(body.items.value, ParseAdminItem).value))
    else None
  }

  /** An item with an empty title, service or honor sinks the whole body. */
  lemma {:induction false} BlankItemRejectsBody(body: StartBody, checks: FormatChecks, k: nat)
    requires body.items.Given? && k < |body.items.value|
    requires var b := body.items.value[k]; !StringMin(b.title, 1) || !StringMin(b.service, 1) || !StringMin(b.honor, 1)
    ensures ParseStart(body, checks).None?
  {
    assert ParseAdminItem(body.items.value[k]).None?;
  }

  // ---------------------------------------------------------------------------
  // Starting and ending

  /** `update({ status: 'ended' }).eq('status', 'active')`. */
  function EndActive(auctions: seq<Auction>): (r: seq<Auction>)
    ensures |r| == |auctions|
    ensures forall k :: 0 <= k < |r| ==> r[k].status == Ended
    ensures forall k :: 0 <= k < |r| ==> r[k].(status := auctions[k].status) == auctions[k]
  {
    seq(|auctions|, k requires 0 <= k < |auctions| => auctions[k].(status := Ended))
  }

  /** The outcomes of the three writes of a start: ending the active
      auction (its error is not inspected), inserting the auction, and the
      single bulk insert of its items; and the ids the store assigns. */
  datatype StartEnv = StartEnv(
    endActiveOk: bool,
    auctionInsertOk: bool,
    itemsInsertOk: bool,
    auctionId: Id,
    itemId: nat -> Id)

  /** `{ success: true, auctionId, clearStorage: true }`. */
  datatype StartReply = StartReply(auctionId: Id, clearStorage: bool)

  function NewAuction(input: StartInput, id: Id): Auction {
    Auction(id, input.startDate, input.endDate, Active, input.holidayName, input.services)
  }

  /** The rows `itemsToInsert` builds, one per input item. */
  function ItemRows(items: seq<AdminItem>, auctionId: Id, ids: nat -> Id): (rows: seq<Item>)
    ensures |rows| == |items|
    ensures forall k :: 0 <= k < |items| ==>
      rows[k].id == ids(k) && rows[k].auctionId == auctionId &&
      rows[k].title == items[k].title && rows[k].service == items[k].service &&
      rows[k].honor == items[k].honor && rows[k].description == items[k].description &&
      rows[k].startingBid == items[k].startingBid && rows[k].currentBid == items[k].startingBid &&
      rows[k].minimumIncrement == items[k].minimumIncrement &&
      rows[k].displayOrder == items[k].displayOrder &&
      rows[k].currentBidderId.None? && !rows[k].isPaid
  {
    seq(|items|, k requires 0 <= k < |items| =>
      Item(ids(k), auctionId, items[k].title, items[k].service, items[k].honor, items[k].description,
           items[k].startingBid, items[k].minimumIncrement, items[k].startingBid, None, false,
           items[k].displayOrder))
  }

  /** POST /api/admin/auction. */
  function StartAuction(db: Db, isAdmin: bool, body: StartBody, checks: FormatChecks, env: StartEnv)
    : (out: (Response<StartReply>, Db))
    ensures !isAdmin ==> out == (Unauthorized(), db)
    ensures isAdmin && ParseStart(body, checks).None? ==> out == (Fail(400, "Invalid input data"), db)
    ensures out.0.status == 200 <==>
      isAdmin && ParseStart(body, checks).Some? && env.auctionInsertOk && env.itemsInsertOk
    ensures out.0.status == 200 ==> out.0 == Ok(StartReply(env.auctionId, true))
    ensures isAdmin && ParseStart(body, checks).Some? && !(env.auctionInsertOk && env.itemsInsertOk) ==>
      out.0 == Fail(500, "Failed to start auction")
    ensures out.1.(auctions := db.auctions, items := db.items) == db
  {
    if !isAdmin then (Unauthorized(), db)
    else match ParseStart(body, checks)
      case None => (Fail(400, "Invalid input data"), db)
      case Some(input) =>
        var ended := if env.endActiveOk then EndActive(db.auctions) else db.auctions;
        if !env.auctionInsertOk then (Fail(500, "Failed to start auction"), db.(auctions := ended))
        else
          var started := db.(auctions := ended + [NewAuction(input, env.auctionId)]);
          if !env.itemsInsertOk then (Fail(500, "Failed to start auction"), started)
          else (Ok(StartReply(env.auctionId, true)),
                started.(items := db.items + ItemRows(input.items, env.auctionId, env.itemId)))
  }

  /** Once the auction row is inserted, the new auction is the last row
      and, provided ending the old ones worked, the only active one. */
  lemma StartLeavesOneActive(db: Db, body: StartBody, checks: FormatChecks, env: StartEnv)
    requires ParseStart(body, checks).Some? && env.auctionInsertOk
    ensures var a := StartAuction(db, true, body, checks, env).1.auctions;
      |a| == |db.auctions| + 1 &&
      a[|db.auctions|] == NewAuction(ParseStart(body, checks).value, env.auctionId) &&
      (env.endActiveOk ==> forall k :: 0 <= k < |a| ==> (a[k].status == Active <==> k == |db.auctions|))
  {
  }

  /** The items written by a start: one row per input item on success,
      none when the bulk insert fails, and in that case the new auction is
      left in place with no items (nothing is rolled back). */
  lemma StartItems(db: Db, body: StartBody, checks: FormatChecks, env: StartEnv)
    requires ParseStart(body, checks).Some? && env.auctionInsertOk
    ensures var db' := StartAuction(db, true, body, checks, env).1;
      db'.items == db.items +
        (if env.itemsInsertOk then ItemRows(ParseStart(body, checks).value.items, env.auctionId, env.itemId)
         else [])
  {
  }

  /** When the item insert fails and the new id is fresh, the store holds
      an active auction that no item belongs to. */
  lemma FailedItemInsertLeavesEmptyAuction(db: Db, body: StartBody, checks: FormatChecks, env: StartEnv)
    requires ParseStart(body, checks).Some? && env.auctionInsertOk && !env.itemsInsertOk
    requires forall k :: 0 <= k < |db.items| ==> db.items[k].auctionId != env.auctionId
    ensures var db' := StartAuction(db, true, body, checks, env).1;
      (exists k :: 0 <= k < |db'.auctions| && db'.auctions[k].id == env.auctionId &&
                   db'.auctions[k].status == Active) &&
      forall k :: 0 <= k < |db'.items| ==> db'.items[k].auctionId != env.auctionId
  {
    var db' := StartAuction(db, true, body, checks, env).1;
    assert db'.auctions[|db.auctions|].id == env.auctionId;
  }

  /** POST /api/admin/end-auction; `writeOk` is the outcome of the update. */
  function EndAuction(db: Db, isAdmin: bool, writeOk: bool): (out: (Response<Done>, Db))
    ensures !isAdmin ==> out == (Unauthorized(), db)
    ensures isAdmin && !writeOk ==> out == (Fail(500, "Failed to end auction"), db)
    ensures isAdmin && writeOk ==> out.0 == Ok(Done)
    ensures out.1.(auctions := db.auctions) == db
    ensures |out.1.auctions| == |db.auctions|
    ensures isAdmin && writeOk ==> forall k :: 0 <= k < |db.auctions| ==> out.1.auctions[k].status == Ended
    ensures forall k :: 0 <= k < |db.auctions| && db.auctions[k].status != Active ==>
      out.1.auctions[k] == db.auctions[k]
    ensures forall k :: 0 <= k < |db.auctions| ==>
      out.1.auctions[k].(status := db.auctions[k].status) == db.auctions[k]
  {
    if !isAdmin then (Unauthorized(), db)
    else if !writeOk then (Fail(500, "Failed to end auction"), db)
    else (Ok(Done), db.(auctions := EndActive(db.auctions)))
  }

  /** Ending twice is ending once, and the second call still succeeds. */
  lemma EndAuctionIdempotent(db: Db)
    ensures var once := EndAuction(db, true, true);
      EndAuction(once.1, true, true) == once
  {
    var once := EndAuction(db, true, true);
    var twice := EndAuction(once.1, true, true);
    assert twice.1.auctions == once.1.auctions;
  }

  // ---------------------------------------------------------------------------
  // Adding an item

  /** The body of POST /api/admin/create-item, passed on unvalidated. */
  datatype NewItemBody = NewItemBody(
    title: string,
    description: Option<string>,
    startingBid: int,
    minimumIncrement: int)

  /** The outcomes of the highest-position read (whose error the route
      ignores, reading a null row) and of the insert, and the id the store
      assigns. */
  datatype CreateEnv = CreateEnv(orderReadOk: bool, insertOk: bool, itemId: Id)

  /** Some item of the auction sits at position `order`. */
  predicate HasOrder(items: seq<Item>, auctionId: Id, order: int) {
    exists k :: 0 <= k < |items| && items[k].auctionId == auctionId && items[k].displayOrder == order
  }

  /** The highest `display_order` among the items of an auction. */
  function MaxDisplayOrder(items: seq<Item>, auctionId: Id): (r: Option<int>)
    ensures r.None? <==> forall k :: 0 <= k < |items| ==> items[k].auctionId != auctionId
    ensures r.Some? ==> forall k :: 0 <= k < |items| && items[k].auctionId == auctionId ==>
      items[k].displayOrder <= r.value
    ensures r.Some? ==> HasOrder(items, auctionId, r.value)
  {
    if |items| == 0 then None
    else
      var init := items[..|items| - 1];
      var last := items[|items| - 1];
      var rest := MaxDisplayOrder(init, auctionId);
      assert forall k :: 0 <= k < |init| ==> init[k] == items[k];
      if last.auctionId != auctionId then rest
      else if rest.None? || last.displayOrder > rest.value then Some(last.displayOrder)
      else rest
  }

  /** `(maxOrderItem?.display_order || 0) + 1`: one past the last position,
      or 1 when the auction is empty or its highest position is 0. */
  function NextDisplayOrder(items: seq<Item>, auctionId: Id): (n: int)
    ensures forall k :: 0 <= k < |items| && items[k].auctionId == auctionId ==> items[k].displayOrder < n
    ensures n == 1 || HasOrder(items, auctionId, n - 1)
  {
    OrDefault(MaxDisplayOrder(items, auctionId), 0) + 1
  }

  /** The create-item transition once the target auction is known:
      `lookup` is the row the auction query returned, if any. */
  function CreateItemWith(db: Db, isAdmin: bool, body: NewItemBody, env: CreateEnv, lookup: Option<Auction>)
    : (out: (Response<Done>, Db))
    ensures !isAdmin ==> out == (Unauthorized(), db)
    ensures isAdmin && lookup.None? ==> out == (Fail(400, "No active auction found"), db)
    ensures isAdmin && lookup.Some? && !env.insertOk ==> out == (Fail(500, "Failed to create item"), db)
    ensures out.0.status == 200 <==> isAdmin && lookup.Some? && env.insertOk
    ensures out.0.status == 200 ==>
      out.0 == Ok(Done) && |out.1.items| == |db.items| + 1 &&
      out.1 == db.(items := db.items + [out.1.items[|db.items|]]) &&
      var it := out.1.items[|db.items|];
      it.id == env.itemId && it.auctionId == lookup.value.id && it.title == body.title &&
      it.description == EmptyToNull(body.description) &&
      it.startingBid == body.startingBid && it.currentBid == body.startingBid &&
      it.minimumIncrement == body.minimumIncrement &&
      it.displayOrder == (if env.orderReadOk then NextDisplayOrder(db.items, lookup.value.id) else 1)
    ensures out.0.status != 200 ==> out.1 == db
  {
    if !isAdmin then (Unauthorized(), db)
    else if lookup.None? then (Fail(400, "No active auction found"), db)
    else if !env.insertOk then (Fail(500, "Failed to create item"), db)
    else
      var aid := lookup.value.id;
      var it := Item(env.itemId, aid, body.title, "", "", EmptyToNull(body.description),
                     body.startingBid, body.minimumIncrement, body.startingBid, None, false,
                     if env.orderReadOk then NextDisplayOrder(db.items, aid) else 1);
      (Ok(Done), db.(items := db.items + [it]))
  }

  /** The new item sorts after every item already in its auction, as long
      as the highest-position read succeeds. */
  lemma NewItemGoesLast(db: Db, body: NewItemBody, env: CreateEnv, lookup: Option<Auction>)
    requires CreateItemWith(db, true, body, env, lookup).0.status == 200 && env.orderReadOk
    ensures var items' := CreateItemWith(db, true, body, env, lookup).1.items;
      forall k :: 0 <= k < |db.items| && db.items[k].auctionId == lookup.value.id ==>
        db.items[k].displayOrder < items'[|db.items|].displayOrder
  {
  }

  /** When that read fails, `(undefined || 0) + 1` puts the new item at
      position 1, beside an item of the auction already there. */
  lemma FailedOrderReadReusesFirstPosition(db: Db, body: NewItemBody, env: CreateEnv, lookup: Option<Auction>)
    requires CreateItemWith(db, true, body, env, lookup).0.status == 200 && !env.orderReadOk
    requires HasOrder(db.items, lookup.value.id, 1)
    ensures var items' := CreateItemWith(db, true, body, env, lookup).1.items;
      HasOrder(db.items, lookup.value.id, items'[|db.items|].displayOrder) &&
      items'[|db.items|].auctionId == lookup.value.id
  {
  }

  predicate ActiveOrEnded(a: Auction) {
    a.status == Active || a.status == Ended
  }

  predicate IsActive(a: Auction) {
    a.status == Active
  }

  /** The source's auction query, `.in('status', ['active', 'ended'])
      .single()`: every auction matches, so a row comes back only while
      the store holds exactly one auction. */
  function CreateItemAsWritten(db: Db, isAdmin: bool, body: NewItemBody, env: CreateEnv)
    : (out: (Response<Done>, Db))
    ensures isAdmin && Count(db.auctions, ActiveOrEnded) != 1 ==>
      out == (Fail(400, "No active auction found"), db)
  {
    CreateItemWith(db, isAdmin, body, env, Single(db.auctions, ActiveOrEnded))
  }

  /** As written, create-item is refused as soon as two auctions exist,
      ended or not. */
  lemma {:induction false} CreateItemAsWrittenRefusesSecondAuction(db: Db, body: NewItemBody, env: CreateEnv)
    requires |db.auctions| >= 2
    ensures CreateItemAsWritten(db, true, body, env) == (Fail(400, "No active auction found"), db)
  {
    FilterAll(db.auctions, ActiveOrEnded);
  }

  /** Starting an auction never deletes the previous one, so after any
      second start, create-item as written always answers 400. */
  lemma RestartBlocksCreateItem(db: Db, body: StartBody, checks: FormatChecks, env: StartEnv,
                                item: NewItemBody, cenv: CreateEnv)
    requires |db.auctions| >= 1
    requires StartAuction(db, true, body, checks, env).0.status == 200
    ensures var db' := StartAuction(db, true, body, checks, env).1;
      CreateItemAsWritten(db', true, item, cenv) == (Fail(400, "No active auction found"), db')
  {
    var db' := StartAuction(db, true, body, checks, env).1;
    CreateItemAsWrittenRefusesSecondAuction(db', item, cenv);
  }

  /** POST /api/admin/create-item with the auction query the comment
      describes: the single active auction. */
  function CreateItem(db: Db, isAdmin: bool, body: NewItemBody, env: CreateEnv): (out: (Response<Done>, Db))
    ensures isAdmin && env.insertOk && Count(db.auctions, IsActive) == 1 ==>
      out.0 == Ok(Done) && |out.1.items| == |db.items| + 1 &&
      IsActive(Single(db.auctions, IsActive).value) &&
      out.1.items[|db.items|].auctionId == Single(db.auctions, IsActive).value.id
  {
    CreateItemWith(db, isAdmin, body, env, Single(db.auctions, IsActive))
  }

  /** After a successful start, an item created with the corrected query
      joins the auction just started, however many auctions came before. */
  lemma {:induction false} CreateItemJoinsStartedAuction(db: Db, body: StartBody, checks: FormatChecks,
                                                         env: StartEnv, item: NewItemBody, cenv: CreateEnv)
    requires env.endActiveOk && cenv.insertOk
    requires StartAuction(db, true, body, checks, env).0.status == 200
    ensures var db' := StartAuction(db, true, body, checks, env).1;
      var out := CreateItem(db', true, item, cenv);
      out.0 == Ok(Done) && out.1.items[|db'.items|].auctionId == env.auctionId
  {
    var db' := StartAuction(db, true, body, checks, env).1;
    StartLeavesOneActive(db, body, checks, env);
    SingleMatch(db'.auctions, |db.auctions|, IsActive);
  }

  // ---------------------------------------------------------------------------
  // Deleting

  /** POST /api/admin/delete-item: `delete().eq('id', itemId)`. */
  function DeleteItem(db: Db, isAdmin: bool, itemId: Id, writeOk: bool): (out: (Response<Done>, Db))
    ensures !isAdmin ==> out == (Unauthorized(), db)
    ensures isAdmin && !writeOk ==> out == (Fail(500, "Failed to delete item"), db)
    ensures isAdmin && writeOk ==> out.0 == Ok(Done)
    ensures out.1.(items := db.items) == db
    ensures forall k :: 0 <= k < |out.1.items| ==> out.1.items[k] in db.items
    ensures isAdmin && writeOk ==> forall k :: 0 <= k < |out.1.items| ==> out.1.items[k].id != itemId
    ensures forall k :: 0 <= k < |db.items| && db.items[k].id != itemId ==> db.items[k] in out.1.items
  {
    if !isAdmin then (Unauthorized(), db)
    else if !writeOk then (Fail(500, "Failed to delete item"), db)
    else (Ok(Done), db.(items := Filter(db.items, (it: Item) => it.id != itemId)))
  }

  /** Deleting an id no item carries changes nothing and still succeeds. */
  lemma DeleteMissingItemIsNoOp(db: Db, itemId: Id)
    requires forall k :: 0 <= k < |db.items| ==> db.items[k].id != itemId
    ensures DeleteItem(db, true, itemId, true) == (Ok(Done), db)
  {
    FilterAll(db.items, (it: Item) => it.id != itemId);
  }

  /** The surviving items keep their storage order. */
  lemma DeleteItemKeepsOrder(db: Db, itemId: Id)
    ensures Subsequence(DeleteItem(db, true, itemId, true).1.items, db.items)
  {
    FilterIsSubsequence(db.items, (it: Item) => it.id != itemId);
  }

  /** POST /api/admin/delete-auction: the auction's items first, then the
      auction row; `itemsOk` and `auctionOk` are the outcomes of the two
      deletes. */
  function DeleteAuction(db: Db, isAdmin: bool, auctionId: Id, itemsOk: bool, auctionOk: bool)
    : (out: (Response<Done>, Db))
    ensures !isAdmin ==> out == (Unauthorized(), db)
    ensures isAdmin && !itemsOk ==> out == (Fail(500, "Failed to delete auction"), db)
    ensures isAdmin && itemsOk && !auctionOk ==>
      out.0 == Fail(500, "Failed to delete auction") && out.1.auctions == db.auctions
    ensures out.0.status == 200 <==> isAdmin && itemsOk && auctionOk
    ensures out.0.status == 200 ==> out.0 == Ok(Done)
    ensures out.1.(auctions := db.auctions, items := db.items) == db
    ensures isAdmin && itemsOk ==> forall k :: 0 <= k < |out.1.items| ==> out.1.items[k].auctionId != auctionId
    ensures out.0.status == 200 ==> forall k :: 0 <= k < |out.1.auctions| ==> out.1.auctions[k].id != auctionId
    ensures forall k :: 0 <= k < |db.items| && db.items[k].auctionId != auctionId ==> db.items[k] in out.1.items
    ensures forall k :: 0 <= k < |db.auctions| && db.auctions[k].id != auctionId ==>
      db.auctions[k] in out.1.auctions
    ensures forall k :: 0 <= k < |out.1.items| ==> out.1.items[k] in db.items
  {
    if !isAdmin then (Unauthorized(), db)
    else if !itemsOk then (Fail(500, "Failed to delete auction"), db)
    else
      var pruned := db.(items := Filter(db.items, (it: Item) => it.auctionId != auctionId));
      if !auctionOk then (Fail(500, "Failed to delete auction"), pruned)
      else (Ok(Done), pruned.(auctions := Filter(db.auctions, (a: Auction) => a.id != auctionId)))
  }
}
