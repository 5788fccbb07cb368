/** The admin edits of a single item: app/api/admin/auction-items/update
    (item details, with the conditional current-bid reset), update-bid and
    restore-bid (set a bid, finding or creating the bidder by email),
    reset-bid and mark-paid. */
module ItemAdmin {
  import opened Common
  import opened Store

  // ---------------------------------------------------------------------------
  // Editing an item's details

  /** `startingBid || 18` and `minimumIncrement || 1`, in cents. */
  const DefaultStartingBid := 18 * CentsPerDollar
  const DefaultIncrement := CentsPerDollar

  /** The PUT body; None is a property the body leaves out. */
  datatype ItemEdit = ItemEdit(
    id: Option<Id>,
    service: Option<string>,
    honor: Option<string>,
    description: Option<string>,
    startingBid: Option<int>,
    minimumIncrement: Option<int>)

  /** The outcomes of the lookup of the current row and of the update. */
  datatype EditEnv = EditEnv(lookupOk: bool, writeOk: bool)

  predicate HasId(it: Item, id: Id) {
    it.id == id
  }

  /** The current row as the route reads it (`.eq('id', id).single()`). */
  function CurrentRow(items: seq<Item>, e: ItemEdit, env: EditEnv): (r: Option<Item>)
    ensures r.Some? ==> env.lookupOk && e.id.Some? && r.value in items && r.value.id == e.id.value
  {
    if env.lookupOk && e.id.Some? then Single(items, (it: Item) => HasId(it, e.id.value)) else None
  }

  /** The source's test for touching `current_bid`: the row was found, it
      was never bid above its starting bid, and the request's startingBid
      differs from the stored one. */
  predicate ResetAsWritten(e: ItemEdit, found: Option<Item>) {
    found.Some? && found.value.currentBid == found.value.startingBid &&
    e.startingBid != Some(found.value.startingBid)
  }

  /** The fields every edit writes, whatever happens to `current_bid`. */
  predicate EditsDetails(it: Item, e: ItemEdit, r: Item) {
    r.id == it.id && r.auctionId == it.auctionId && r.title == it.title &&
    r.currentBidderId == it.currentBidderId && r.isPaid == it.isPaid &&
    r.displayOrder == it.displayOrder &&
    r.service == e.service.GetOr("") && r.honor == e.honor.GetOr("") &&
    r.description == EmptyToNull(e.description) &&
    r.startingBid == OrDefault(e.startingBid, DefaultStartingBid) &&
    r.minimumIncrement == OrDefault(e.minimumIncrement, DefaultIncrement)
  }

  /** The row as the source's `updateData` rewrites it. The reset writes
      the raw startingBid, and a missing one is dropped from the update. */
  function EditRowAsWritten(it: Item, e: ItemEdit, found: Option<Item>): (r: Item)
    ensures EditsDetails(it, e, r)
    ensures ResetAsWritten(e, found) && e.startingBid.Some? ==> r.currentBid == e.startingBid.value
    ensures !(ResetAsWritten(e, found) && e.startingBid.Some?) ==> r.currentBid == it.currentBid
  {
    it.(service := e.service.GetOr(""), honor := e.honor.GetOr(""),
        description := EmptyToNull(e.description),
        startingBid := OrDefault(e.startingBid, DefaultStartingBid),
        minimumIncrement := OrDefault(e.minimumIncrement, DefaultIncrement),
        currentBid := if ResetAsWritten(e, found) && e.startingBid.Some? then e.startingBid.value
                      else it.currentBid)
  }

  /** The reset as the comment describes it: an item not yet bid on
      follows its new (defaulted) starting bid. */
  predicate Reset(e: ItemEdit, found: Option<Item>) {
    found.Some? && found.value.currentBid == found.value.startingBid &&
    OrDefault(e.startingBid, DefaultStartingBid) != found.value.startingBid
  }

  function EditRow(it: Item, e: ItemEdit, found: Option<Item>): (r: Item)
    ensures EditsDetails(it, e, r)
    ensures Reset(e, found) ==> r.currentBid == r.startingBid
    ensures !Reset(e, found) ==> r.currentBid == it.currentBid
  {
    it.(service := e.service.GetOr(""), honor := e.honor.GetOr(""),
        description := EmptyToNull(e.description),
        startingBid := OrDefault(e.startingBid, DefaultStartingBid),
        minimumIncrement := OrDefault(e.minimumIncrement, DefaultIncrement),
        currentBid := if Reset(e, found) then OrDefault(e.startingBid, DefaultStartingBid)
                      else it.currentBid)
  }

  /** The PUT route around a row rewrite `f`: the guards, then
      `update(...).eq('id', id).select().single()`, which succeeds only
      when exactly one row carries the id and otherwise changes nothing. */
  function ApplyEdit(db: Db, isAdmin: bool, e: ItemEdit, env: EditEnv, f: Item -> Item)
    : (out: (Response<Item>, Db))
    ensures !isAdmin ==> out == (Unauthorized(), db)
    ensures isAdmin && !Truthy(e.id) ==> out == (Fail(400, "id is required"), db)
    ensures isAdmin && Truthy(e.id) && !(Truthy(e.service) && Truthy(e.honor)) ==>
      out == (Fail(400, "service and honor are required"), db)
    ensures out.0.status == 200 <==>
      isAdmin && Truthy(e.id) && Truthy(e.service) && Truthy(e.honor) && env.writeOk &&
      Count(db.items, (it: Item) => HasId(it, e.id.value)) == 1
    ensures out.0.status != 200 ==> out.1 == db
    ensures out.0.status == 200 ==>
      out.1 == db.(items := RewriteItems(db.items, e.id.value, f)) &&
      out.0 == Ok(f(Single(db.items, (it: Item) => HasId(it, e.id.value)).value))
    ensures out.0.status >= 500 ==> out.0 == Fail(500, "Failed to update auction item")
  {
    if !isAdmin then (Unauthorized(), db)
    else if !Truthy(e.id) then (Fail(400, "id is required"), db)
    else if !(Truthy(e.service) && Truthy(e.honor)) then (Fail(400, "service and honor are required"), db)
    else
      var row := Single(db.items, (it: Item) => HasId(it, e.id.value));
      if !env.writeOk || row.None? then (Fail(500, "Failed to update auction item"), db)
      else (Ok(f(row.value)), db.(items := RewriteItems(db.items, e.id.value, f)))
  }

  /** PUT /api/admin/auction-items/update as written. */
  function UpdateItemAsWritten(db: Db, isAdmin: bool, e: ItemEdit, env: EditEnv): (out: (Response<Item>, Db))
    ensures out.0.status == 200 ==> e.id.Some? && |out.1.items| == |db.items|
    ensures out.0.status == 200 ==> forall k :: 0 <= k < |db.items| ==>
      out.1.items[k] == (if db.items[k].id == e.id.value
                         then EditRowAsWritten(db.items[k], e, CurrentRow(db.items, e, env))
                         else db.items[k])
  {
    var found := CurrentRow(db.items, e, env);
    ApplyEdit(db, isAdmin, e, env, (it: Item) => EditRowAsWritten(it, e, found))
  }

  /** A stored item at 18.00 that was never bid on, edited with a
      startingBid of 0: the stored starting bid stays 18.00 (0 defaults to
      18) while the current bid becomes 0. */
  function UnbidItem(): Item {
    Item("i1", "a1", "Aliyah", "Shacharis", "Shlishi", None, 1800, 100, 1800, None, false, 1)
  }

  function ZeroStartEdit(): ItemEdit {
    ItemEdit(Some("i1"), Some("Shacharis"), Some("Shlishi"), None, Some(0), Some(100))
  }

  lemma ZeroStartingBidZeroesCurrentBid(db: Db)
    requires db.items == [UnbidItem()]
    ensures var out := UpdateItemAsWritten(db, true, ZeroStartEdit(), EditEnv(true, true));
      out.0.status == 200 &&
      out.1.items[0].startingBid == 1800 && out.1.items[0].currentBid == 0
  {
    var e := ZeroStartEdit();
    SingleMatch(db.items, 0, (it: Item) => HasId(it, e.id.value));
  }

  /** PUT /api/admin/auction-items/update with the reset writing the
      defaulted starting bid. */
  function UpdateItem(db: Db, isAdmin: bool, e: ItemEdit, env: EditEnv): (out: (Response<Item>, Db))
    ensures out.0.status == 200 ==> e.id.Some? && |out.1.items| == |db.items|
    ensures out.0.status == 200 ==> forall k :: 0 <= k < |db.items| ==>
      out.1.items[k] == (if db.items[k].id == e.id.value
                         then EditRow(db.items[k], e, CurrentRow(db.items, e, env))
                         else db.items[k])
  {
    var found := CurrentRow(db.items, e, env);
    ApplyEdit(db, isAdmin, e, env, (it: Item) => EditRow(it, e, found))
  }

  /** With the corrected reset, an item that was never bid above its
      starting bid still has its current bid equal to its starting bid
      after an edit, and a bid-on item keeps its current bid. */
  lemma {:induction false} UnbidItemTracksStartingBid(db: Db, e: ItemEdit, k: nat)
    requires k < |db.items| && e.id == Some(db.items[k].id)
    requires UpdateItem(db, true, e, EditEnv(true, true)).0.status == 200
    ensures var it' := UpdateItem(db, true, e, EditEnv(true, true)).1.items[k];
      (db.items[k].currentBid == db.items[k].startingBid ==> it'.currentBid == it'.startingBid) &&
      (db.items[k].currentBid != db.items[k].startingBid ==> it'.currentBid == db.items[k].currentBid)
  {
    var p := (it: Item) => HasId(it, e.id.value);
    var found := CurrentRow(db.items, e, EditEnv(true, true));
    assert found.Some?;
    OnlyMatchIsSingle(db.items, k, p);
    assert found.value == db.items[k];
  }

  // ---------------------------------------------------------------------------
  // Setting a bid

  /** The body of update-bid (`currentBid`) and restore-bid (`bidAmount`). */
  datatype BidEdit = BidEdit(
    itemId: Id,
    amount: int,
    bidderName: Option<string>,
    bidderEmail: Option<string>)

  /** The outcomes of the bidder lookup, the bidder insert and the item
      update, and the id the store gives a new bidder. */
  datatype BidderEnv = BidderEnv(lookupOk: bool, insertOk: bool, freshId: Id, writeOk: bool)

  /** The `bidderId` the route ends with: null, an id, or undefined (a
      failed insert leaves `newBidder?.id` undefined, and the update then
      omits the column). */
  datatype BidderRef = NoBidder | Resolved(id: Id) | Unresolved

  /** `current_bidder_id` after the update: null, the resolved id, or the
      old value when the column was omitted. */
  function BidderAfter(ref: BidderRef, prior: Option<Id>): Option<Id> {
    match ref
    case NoBidder => None
    case Resolved(id) => Some(id)
    case Unresolved => prior
  }

  predicate HasEmail(b: Bidder, email: string) {
    b.email == email
  }

  /** Find-or-create by email, run only when both name and email are
      given. An existing bidder is reused as it is. */
  function ResolveBidder(bidders: seq<Bidder>, name: Option<string>, email: Option<string>, env: BidderEnv)
    : (out: (BidderRef, seq<Bidder>))
    ensures !(Truthy(name) && Truthy(email)) ==> out == (NoBidder, bidders)
    ensures Truthy(name) && Truthy(email) && env.lookupOk &&
            Count(bidders, (b: Bidder) => HasEmail(b, email.value)) == 1 ==>
      out.1 == bidders && out.0.Resolved? &&
      exists k :: 0 <= k < |bidders| && bidders[k].id == out.0.id && bidders[k].email == email.value
    ensures out.1 != bidders ==>
      out == (Resolved(env.freshId), bidders + [Bidder(env.freshId, name.value, email.value)])
    ensures out.0.Unresolved? ==> out.1 == bidders && !env.insertOk
  {
    if !(Truthy(name) && Truthy(email)) then (NoBidder, bidders)
    else
      var found := if env.lookupOk then Single(bidders, (b: Bidder) => HasEmail(b, email.value)) else None;
      if found.Some? then (Resolved(found.value.id), bidders)
      else if env.insertOk then
        (Resolved(env.freshId), bidders + [Bidder(env.freshId, name.value, email.value)])
      else (Unresolved, bidders)
  }

  predicate UniqueEmails(bidders: seq<Bidder>) {
    forall i, j :: 0 <= i < j < |bidders| ==> bidders[i].email != bidders[j].email
  }

  /** With a working lookup, find-or-create keeps bidder emails unique:
      a bidder is inserted only when none has the email. */
  lemma {:induction false} ResolveKeepsEmailsUnique(bidders: seq<Bidder>, name: Option<string>,
                                                    email: Option<string>, env: BidderEnv)
    requires UniqueEmails(bidders) && env.lookupOk
    ensures UniqueEmails(ResolveBidder(bidders, name, email, env).1)
  {
    var out := ResolveBidder(bidders, name, email, env);
    if email.Some? {
      var p := (b: Bidder) => HasEmail(b, email.value);
      forall i | 0 <= i < |bidders| && p(bidders[i])
        ensures out.1 == bidders
      {
        SingleMatch(bidders, i, p);
      }
    }
  }

  /** The store change shared by update-bid and restore-bid: resolve the
      bidder, then set the item's bid and bidder. `failure` is the route's
      error text. */
  function SetBid(db: Db, isAdmin: bool, edit: BidEdit, env: BidderEnv, failure: string)
    : (out: (Response<Done>, Db))
    ensures !isAdmin ==> out == (Unauthorized(), db)
    ensures isAdmin ==> out.1.bidders == ResolveBidder(db.bidders, edit.bidderName, edit.bidderEmail, env).1
    ensures out.1.(bidders := db.bidders, items := db.items) == db
    ensures isAdmin && !env.writeOk ==> out.0 == Fail(500, failure) && out.1.items == db.items
    ensures isAdmin && env.writeOk ==> out.0 == Ok(Done)
    ensures isAdmin && env.writeOk ==>
      var ref := ResolveBidder(db.bidders, edit.bidderName, edit.bidderEmail, env).0;
      |out.1.items| == |db.items| &&
      forall k :: 0 <= k < |db.items| ==>
        if db.items[k].id != edit.itemId then out.1.items[k] == db.items[k]
        else out.1.items[k].(currentBid := db.items[k].currentBid,
                             currentBidderId := db.items[k].currentBidderId) == db.items[k] &&
             out.1.items[k].currentBid == edit.amount &&
             out.1.items[k].currentBidderId == BidderAfter(ref, db.items[k].currentBidderId)
  {
    if !isAdmin then (Unauthorized(), db)
    else
      var (ref, bidders') := ResolveBidder(db.bidders, edit.bidderName, edit.bidderEmail, env);
      var db1 := db.(bidders := bidders');
      if !env.writeOk then (Fail(500, failure), db1)
      else
        var assign := (it: Item) => it.(currentBid := edit.amount,
                                        currentBidderId := BidderAfter(ref, it.currentBidderId));
        (Ok(Done), db1.(items := RewriteItems(db.items, edit.itemId, assign)))
  }

  /** POST /api/admin/update-bid. */
  function UpdateBid(db: Db, isAdmin: bool, edit: BidEdit, env: BidderEnv): (out: (Response<Done>, Db))
    ensures isAdmin && !env.writeOk ==> out.0 == Fail(500, "Failed to update bid")
    ensures |out.1.items| == |db.items|
    ensures isAdmin && Truthy(edit.bidderName) && Truthy(edit.bidderEmail) && env.writeOk && env.insertOk ==>
      forall k :: 0 <= k < |db.items| && db.items[k].id == edit.itemId ==>
        out.1.items[k].currentBidderId.Some? && out.1.items[k].currentBid == edit.amount
  {
    SetBid(db, isAdmin, edit, env, "Failed to update bid")
  }

  /** POST /api/admin/restore-bid. */
  function RestoreBid(db: Db, isAdmin: bool, edit: BidEdit, env: BidderEnv): (out: (Response<Done>, Db))
    ensures isAdmin && !env.writeOk ==> out.0 == Fail(500, "Failed to restore bid")
    ensures out.1.history == db.history
  {
    SetBid(db, isAdmin, edit, env, "Failed to restore bid")
  }

  /** Restoring a bid changes the store exactly as updating it does, and
      both succeed together. */
  lemma RestoreMatchesUpdate(db: Db, isAdmin: bool, edit: BidEdit, env: BidderEnv)
    ensures RestoreBid(db, isAdmin, edit, env).1 == UpdateBid(db, isAdmin, edit, env).1
    ensures RestoreBid(db, isAdmin, edit, env).0.status == UpdateBid(db, isAdmin, edit, env).0.status
  {
  }

  // ---------------------------------------------------------------------------
  // Resetting a bid and the paid flag

  /** POST /api/admin/reset-bid: the request's startingBid becomes the
      current bid and the bidder is cleared. */
  function ResetBid(db: Db, isAdmin: bool, itemId: Id, startingBid: int, writeOk: bool)
    : (out: (Response<Done>, Db))
    ensures !isAdmin ==> out == (Unauthorized(), db)
    ensures isAdmin && !writeOk ==> out == (Fail(500, "Failed to reset bid"), db)
    ensures isAdmin && writeOk ==> out.0 == Ok(Done)
    ensures out.1.(items := db.items) == db
    ensures |out.1.items| == |db.items|
    ensures forall k :: 0 <= k < |db.items| && db.items[k].id != itemId ==> out.1.items[k] == db.items[k]
    ensures isAdmin && writeOk ==> forall k :: 0 <= k < |db.items| && db.items[k].id == itemId ==>
      out.1.items[k].currentBid == startingBid && out.1.items[k].currentBidderId.None? &&
      out.1.items[k].(currentBid := db.items[k].currentBid,
                      currentBidderId := db.items[k].currentBidderId) == db.items[k]
  {
    if !isAdmin then (Unauthorized(), db)
    else if !writeOk then (Fail(500, "Failed to reset bid"), db)
    else (Ok(Done), db.(items := RewriteItems(db.items, itemId,
                          (it: Item) => it.(currentBid := startingBid, currentBidderId := None))))
  }

  /** POST /api/admin/mark-paid: sets `is_paid` to the requested value,
      true or false. */
  function MarkPaid(db: Db, isAdmin: bool, itemId: Id, isPaid: bool, writeOk: bool)
    : (out: (Response<Done>, Db))
    ensures !isAdmin ==> out == (Unauthorized(), db)
    ensures isAdmin && !writeOk ==> out == (Fail(500, "Failed to update paid status"), db)
    ensures isAdmin && writeOk ==> out.0 == Ok(Done)
    ensures out.1.(items := db.items) == db
    ensures |out.1.items| == |db.items|
    ensures forall k :: 0 <= k < |db.items| && db.items[k].id != itemId ==> out.1.items[k] == db.items[k]
    ensures isAdmin && writeOk ==> forall k :: 0 <= k < |db.items| && db.items[k].id == itemId ==>
      out.1.items[k] == db.items[k].(isPaid := isPaid)
  {
    if !isAdmin then (Unauthorized(), db)
    else if !writeOk then (Fail(500, "Failed to update paid status"), db)
    else (Ok(Done), db.(items := RewriteItems(db.items, itemId, (it: Item) => it.(isPaid := isPaid))))
  }

  /** Marking the same item twice with the same flag is marking it once. */
  lemma MarkPaidIdempotent(db: Db, itemId: Id, isPaid: bool)
    ensures var once := MarkPaid(db, true, itemId, isPaid, true);
      MarkPaid(once.1, true, itemId, isPaid, true) == once
  {
    var once := MarkPaid(db, true, itemId, isPaid, true);
    var twice := MarkPaid(once.1, true, itemId, isPaid, true);
    assert twice.1.items == once.1.items;
  }

  /** Resetting twice to the same amount is resetting once. */
  lemma ResetBidIdempotent(db: Db, itemId: Id, startingBid: int)
    ensures var once := ResetBid(db, true, itemId, startingBid, true);
      ResetBid(once.1, true, itemId, startingBid, true) == once
  {
    var once := ResetBid(db, true, itemId, startingBid, true);
    var twice := ResetBid(once.1, true, itemId, startingBid, true);
    assert twice.1.items == once.1.items;
  }
}
