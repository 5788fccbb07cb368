/** The public bid endpoint of app/api/bid/route.ts. The competitive check
    itself is the `place_bid` database function, which is not part of
    this model: its answer is an input of the route. */
module BidRoute {
  import opened Common
  import opened Store
  import opened Validators
  import opened Notifications

  /** What `place_bid` answered: its result row, or a database error with
      its SQLSTATE code and message. */
  datatype RpcOutcome =
    | RpcOk(currentBid: int, previousBidderEmail: Option<string>, itemTitle: string)
    | RpcError(code: string, message: string)

  /** The code `place_bid` raises for a rejected bid. */
  const RejectedBidCode := "P0001"

  /** `{ success: true, currentBid }`. */
  datatype BidReply = BidReply(currentBid: int)

  /** The route's reply and store, the arguments it passed to `place_bid`
      (None when it never called it), and the outbid notification it
      requested. */
  datatype BidOutcome = BidOutcome(
    response: Response<BidReply>,
    db: Db,
    call: Option<Bid>,
    notice: Option<OutbidNotification>)

  /** POST /api/bid. `rpcDb` is the store `place_bid` leaves behind when
      it succeeds; a raised error aborts the function and leaves `db`.
      The notification is sent without waiting: its outcome `env` touches
      only the email log, never the reply. */
  function PlaceBid(db: Db, body: BidBody, checks: FormatChecks,
                    rpc: RpcOutcome, rpcDb: Db, env: OutbidEnv, now: int): (out: BidOutcome)
    ensures ParseBid(body, checks).None? ==>
      out == BidOutcome(Fail(400, "Invalid input data"), db, None, None)
    ensures ParseBid(body, checks).Some? ==> out.call == ParseBid(body, checks)
    ensures ParseBid(body, checks).Some? && rpc.RpcError? ==>
      out.db == db && out.notice.None? &&
      out.response == (if rpc.code == RejectedBidCode then Fail(400, rpc.message)
                       else Fail(500, "Failed to place bid"))
    ensures ParseBid(body, checks).Some? && rpc.RpcOk? ==>
      out.response == Ok(BidReply(rpc.currentBid)) &&
      out.db == rpcDb.(emailLog := out.db.emailLog)
    // with no previous bidder nothing is sent and the log is the function's
    ensures ParseBid(body, checks).Some? && rpc.RpcOk? && !Truthy(rpc.previousBidderEmail) ==>
      out.db == rpcDb
    ensures out.notice.Some? <==> ParseBid(body, checks).Some? && rpc.RpcOk? && Truthy(rpc.previousBidderEmail)
  {
    match ParseBid(body, checks)
    case None => BidOutcome(Fail(400, "Invalid input data"), db, None, None)
    case Some(bid) =>
      match rpc
      case RpcError(code, message) =>
        if code == RejectedBidCode then BidOutcome(Fail(400, message), db, Some(bid), None)
        else BidOutcome(Fail(500, "Failed to place bid"), db, Some(bid), None)
      case RpcOk(currentBid, previous, title) =>
        if Truthy(previous) then
          var n := OutbidNotification(previous.value, title, bid.itemId, bid.bidAmount, bid.fullName);
          var sent := SendOutbid(rpcDb.emailLog, n, now, env);
          BidOutcome(Ok(BidReply(currentBid)), rpcDb.(emailLog := sent.log), Some(bid), Some(n))
        else BidOutcome(Ok(BidReply(currentBid)), rpcDb, Some(bid), None)
  }

  /** The outbid notice goes to the previous bidder and carries the item
      id, amount and name of the bid just placed. */
  lemma NoticeDescribesNewBid(db: Db, body: BidBody, checks: FormatChecks,
                              rpc: RpcOutcome, rpcDb: Db, env: OutbidEnv, now: int)
    requires PlaceBid(db, body, checks, rpc, rpcDb, env, now).notice.Some?
    ensures var out := PlaceBid(db, body, checks, rpc, rpcDb, env, now);
      var bid := ParseBid(body, checks).value;
      out.notice.value == OutbidNotification(rpc.previousBidderEmail.value, rpc.itemTitle,
                                             bid.itemId, bid.bidAmount, bid.fullName) &&
      out.db.emailLog == SendOutbid(rpcDb.emailLog, out.notice.value, now, env).log
  {
  }

  /** The reply never depends on how the notification fares. */
  lemma ResponseIgnoresNotification(db: Db, body: BidBody, checks: FormatChecks,
                                    rpc: RpcOutcome, rpcDb: Db, env1: OutbidEnv, env2: OutbidEnv,
                                    now: int)
    ensures PlaceBid(db, body, checks, rpc, rpcDb, env1, now).response ==
            PlaceBid(db, body, checks, rpc, rpcDb, env2, now).response
  {
  }

  /** A body with a non-positive amount is turned away before `place_bid`. */
  lemma NonPositiveAmountNeverReachesRpc(db: Db, body: BidBody, checks: FormatChecks,
                                         rpc: RpcOutcome, rpcDb: Db, env: OutbidEnv, now: int)
    requires body.bidAmount.Given? && body.bidAmount.value <= 0
    ensures var out := PlaceBid(db, body, checks, rpc, rpcDb, env, now);
      out.call.None? && out.db == db && out.response.status == 400
  {
    NonPositiveBidRejected(body, checks);
  }
}

/** The client-side bid form of components/auction/bid-modal.tsx. Amounts
    are cents; the amount field holds a number or is empty. */
module BidModal {
  import opened Common
  import opened Validators

  /** The item the modal is opened on. */
  datatype ModalItem = ModalItem(id: string, currentBid: int, minimumIncrement: int)

  datatype BidForm = BidForm(fullName: string, email: string, bidAmount: Option<int>)

  /** The message under each field, None when the field is valid. */
  datatype FormErrors = FormErrors(
    fullName: Option<string>,
    email: Option<string>,
    bidAmount: Option<string>)

  /** The lowest amount the form lets through. */
  function MinimumBid(item: ModalItem): (m: int)
    ensures m - item.minimumIncrement == item.currentBid
  {
    item.currentBid + item.minimumIncrement
  }

  // ---------------------------------------------------------------------------
  // The email pattern /^[A-Z0-9._%+-]+@[A-Z0-9.-]+\.[A-Z]{2,}$/i

  predicate IsAsciiLetter(c: char) {
    ('a' <= c <= 'z') || ('A' <= c <= 'Z')
  }

  predicate IsAsciiDigit(c: char) {
    '0' <= c <= '9'
  }

  predicate IsLocalChar(c: char) {
    IsAsciiLetter(c) || IsAsciiDigit(c) || c in {'.', '_', '%', '+', '-'}
  }

  predicate IsDomainChar(c: char) {
    IsAsciiLetter(c) || IsAsciiDigit(c) || c == '.' || c == '-'
  }

  /** The pattern matches with '@' at `at` and the final '.' at `dot`. */
  predicate EmailSplit(s: string, at: int, dot: int) {
    0 < at && at + 1 < dot && dot + 3 <= |s| && s[at] == '@' && s[dot] == '.' &&
    (forall k :: 0 <= k < at ==> IsLocalChar(s[k])) &&
    (forall k :: at < k < dot ==> IsDomainChar(s[k])) &&
    (forall k :: dot < k < |s| ==> IsAsciiLetter(s[k]))
  }

  predicate EmailPattern(s: string) {
    exists at, dot | 0 <= at < |s| && 0 <= dot < |s| :: EmailSplit(s, at, dot)
  }

  /** The regular expression's test, as one scan for the '@' and one scan
      back for the final '.'. */
  method MatchesEmailPattern(s: string) returns (ok: bool)
    ensures ok <==> EmailPattern(s)
  {
    var at := 0;
    while at < |s| && IsLocalChar(s[at])
      invariant 0 <= at <= |s|
      invariant forall k :: 0 <= k < at ==> IsLocalChar(s[k])
    {
      at := at + 1;
    }
    AtIsPinned(s, at);
    if at == 0 || at == |s| || s[at] != '@' {
      return false;
    }
    var dot := |s| - 1;
    while dot > at && IsAsciiLetter(s[dot])
      invariant at <= dot < |s|
      invariant forall k :: dot < k < |s| ==> IsAsciiLetter(s[k])
    {
      dot := dot - 1;
    }
    DotIsPinned(s, at, dot);
    if s[dot] != '.' || dot <= at + 1 || dot + 3 > |s| {
      return false;
    }
    var k := at + 1;
    while k < dot
      invariant at + 1 <= k <= dot
      invariant forall j :: at < j < k ==> IsDomainChar(s[j])
    {
      if !IsDomainChar(s[k]) {
        return false;
      }
      k := k + 1;
    }
    assert EmailSplit(s, at, dot);
    return true;
  }

  /** The '@' of any match is the first character outside the local set. */
  lemma AtIsPinned(s: string, at: int)
    requires 0 <= at <= |s|
    requires forall k :: 0 <= k < at ==> IsLocalChar(s[k])
    requires at == |s| || !IsLocalChar(s[at])
    ensures forall a, d :: EmailSplit(s, a, d) ==> a == at
  {
    forall a, d | EmailSplit(s, a, d)
      ensures a == at
    {
      assert !IsLocalChar(s[a]);
    }
  }

  /** The '.' of a match with '@' at `at` is the last character outside
      the letters. */
  lemma DotIsPinned(s: string, at: int, dot: int)
    requires 0 <= at <= dot < |s|
    requires forall k :: dot < k < |s| ==> IsAsciiLetter(s[k])
    requires dot == at || !IsAsciiLetter(s[dot])
    ensures forall d :: EmailSplit(s, at, d) ==> d == dot
  {
    forall d | EmailSplit(s, at, d)
      ensures d == dot
    {
      assert !IsAsciiLetter(s[d]);
    }
  }

  // ---------------------------------------------------------------------------
  // The form

  /** The field rules: a required name, a required email matching the
      pattern, a required amount of at least the minimum bid. */
  function Validate(item: ModalItem, f: BidForm): (e: FormErrors)
    ensures e.fullName.None? <==> f.fullName != ""
    ensures e.email.None? <==> f.email != "" && EmailPattern(f.email)
    ensures e.bidAmount.None? <==> f.bidAmount.Some? && f.bidAmount.value >= MinimumBid(item)
    ensures f.bidAmount.Some? && f.bidAmount.value < MinimumBid(item) ==>
      e.bidAmount == Some("Minimum bid is $" + DollarString(MinimumBid(item)))
  {
    FormErrors(
      if f.fullName == "" then Some("Name is required") else None,
      if f.email == "" then Some("Email is required")
      else if !EmailPattern(f.email) then Some("Invalid email address")
      else None,
      if f.bidAmount.None? then Some("Bid amount is required")
      else if f.bidAmount.value < MinimumBid(item) then Some("Minimum bid is $" + DollarString(MinimumBid(item)))
      else None)
  }

  predicate NoErrors(e: FormErrors) {
    e.fullName.None? && e.email.None? && e.bidAmount.None?
  }

  /** handleSubmit: the request body when every field is valid, None when
      submission is blocked. */
  function Submit(item: ModalItem, f: BidForm): (r: Option<BidBody>)
    ensures r.Some? <==> NoErrors(Validate(item, f))
    ensures r.Some? ==>
      r.value == BidBody(Given(item.id), Given(f.fullName), Given(f.email), Given(f.bidAmount.value))
  {
    if NoErrors(Validate(item, f))
    then Some(BidBody(Given(item.id), Given(f.fullName), Given(f.email), Given(f.bidAmount.value)))
    else None
  }

  /** On a sensible item (non-negative current bid, increment of at least
      one cent) any amount the form lets through is positive, so the
      server's amount rule never rejects it. */
  lemma SubmittedAmountIsPositive(item: ModalItem, f: BidForm)
    requires item.currentBid >= 0 && item.minimumIncrement >= 1
    requires Submit(item, f).Some?
    ensures Submit(item, f).value.bidAmount.value > 0
    ensures StringMin(Submit(item, f).value.fullName, 1)
  {
  }

  /** The modal after the server answered: whether it stays open and the
      toast it shows. */
  datatype AfterReply = AfterReply(open: bool, toast: string, success: bool)

  /** The response handling: a non-OK status shows the server's error, or
      a fixed text when it gave none, and keeps the modal open. */
  function OnResponse(ok: bool, error: Option<string>): (a: AfterReply)
    ensures a.open <==> !ok
    ensures a.success <==> ok
    ensures ok ==> a.toast == "Bid placed successfully!"
    ensures !ok && Truthy(error) ==> a.toast == error.value
    ensures !ok && !Truthy(error) ==> a.toast == "Failed to place bid"
  {
    if ok then AfterReply(false, "Bid placed successfully!", true)
    else AfterReply(true, if Truthy(error) then error.value else "Failed to place bid", false)
  }
}
