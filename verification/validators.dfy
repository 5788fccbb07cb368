/** The request schemas of lib/validators.ts. A JSON property is a
    `Field`; zod's uuid, email and datetime format checks are taken as
    given predicates. Numbers are cents. */
module Validators {
  import opened Common

  /** One property of a parsed JSON body: missing, null, a value of the
      expected type, or a value of another type. */
  datatype Field<+T> = Absent | Null | Given(value: T) | Mistyped

  /** zod's string formats, as predicates on the string. `datetime`
      yields the instant in milliseconds of a valid ISO date-time. */
  datatype FormatChecks = FormatChecks(
    isUuid: string -> bool,
    isEmail: string -> bool,
    datetime: string -> Option<int>)

  /** `z.string().min(n)`. */
  predicate StringMin(f: Field<string>, n: nat) {
    f.Given? && |f.value| >= n
  }

  /** `z.array(schema)`: every entry parsed, or None when one fails. */
  function ParseEach<A, B>(bs: seq<A>, parse: A -> Option<B>): (r: Option<seq<B>>)
    ensures r.Some? <==> forall k :: 0 <= k < |bs| ==> parse(bs[k]).Some?
    ensures r.Some? ==> |r.value| == |bs|
    ensures r.Some? ==> forall k :: 0 <= k < |bs| ==> r.value[k] == parse(bs[k]).value
  {
    if |bs| == 0 then Some([])
    else
      var first := parse(bs[0]);
      var rest := ParseEach(bs[1..], parse);
      if first.None? then None
      else if rest.None? then
        var k :| 0 <= k < |bs[1..]| && parse(bs[1..][k]).None?;
        assert parse(bs[k + 1]).None?;
        None
      else
        assert forall k :: 1 <= k < |bs| ==> bs[k] == bs[1..][k - 1];
        Some([first.value] + rest.value)
  }

  // ---------------------------------------------------------------------------
  // BidSchema

  datatype BidBody = BidBody(
    itemId: Field<string>,
    fullName: Field<string>,
    email: Field<string>,
    bidAmount: Field<int>)

  /** A body BidSchema accepted. */
  datatype Bid = Bid(itemId: string, fullName: string, email: string, bidAmount: int)

  /** BidSchema.parse: None is the ZodError. */
  function ParseBid(body: BidBody, checks: FormatChecks): (r: Option<Bid>)
    ensures r.Some? <==>
      body.itemId.Given? && checks.isUuid(body.itemId.value) &&
      StringMin(body.fullName, 1) &&
      body.email.Given? && checks.isEmail(body.email.value) &&
      body.bidAmount.Given? && body.bidAmount.value > 0
    ensures r.Some? ==>
      r.value == Bid(body.itemId.value, body.fullName.value, body.email.value, body.bidAmount.value)
  {
    if body.itemId.Given? && checks.isUuid(body.itemId.value) &&
       StringMin(body.fullName, 1) &&
       body.email.Given? && checks.isEmail(body.email.value) &&
       body.bidAmount.Given? && body.bidAmount.value > 0
    then Some(Bid(body.itemId.value, body.fullName.value, body.email.value, body.bidAmount.value))
    else None
  }

  /** A zero or negative amount never passes, whatever the other fields. */
  lemma NonPositiveBidRejected(body: BidBody, checks: FormatChecks)
    requires body.bidAmount.Given? && body.bidAmount.value <= 0
    ensures ParseBid(body, checks).None?
  {
  }

  // ---------------------------------------------------------------------------
  // The legacy StartAuctionSchema

  datatype LegacyItemBody = LegacyItemBody(
    title: Field<string>,
    description: Field<string>,
    startingBid: Field<int>,
    minimumIncrement: Field<int>)

  datatype LegacyItem = LegacyItem(
    title: string,
    description: Option<string>,
    startingBid: int,
    minimumIncrement: int)

  datatype LegacyStart = LegacyStart(endDate: string, items: seq<LegacyItem>)

  /** One entry of `items`: a non-empty title, an optional string
      description, startingBid >= 0 and a minimumIncrement of at least one
      dollar, which is one dollar when missing. */
  function ParseLegacyItem(b: LegacyItemBody): (r: Option<LegacyItem>)
    ensures r.Some? <==>
      StringMin(b.title, 1) &&
      (b.description.Absent? || b.description.Given?) &&
      b.startingBid.Given? && b.startingBid.value >= 0 &&
      (b.minimumIncrement.Absent? || (b.minimumIncrement.Given? && b.minimumIncrement.value >= CentsPerDollar))
    ensures r.Some? ==> r.value.title == b.title.value && r.value.startingBid == b.startingBid.value
    ensures r.Some? && b.minimumIncrement.Absent? ==> r.value.minimumIncrement == CentsPerDollar
    ensures r.Some? && b.minimumIncrement.Given? ==> r.value.minimumIncrement == b.minimumIncrement.value
    ensures r.Some? ==> (r.value.description.Some? <==> b.description.Given?)
  {
    if StringMin(b.title, 1) &&
       (b.description.Absent? || b.description.Given?) &&
       b.startingBid.Given? && b.startingBid.value >= 0 &&
       (b.minimumIncrement.Absent? || (b.minimumIncrement.Given? && b.minimumIncrement.value >= CentsPerDollar))
    then
      var inc := if b.minimumIncrement.Absent? then CentsPerDollar else b.minimumIncrement.value;
      var desc := if b.description.Given? then Some(b.description.value) else None;
      Some(LegacyItem(b.title.value, desc, b.startingBid.value, inc))
    else None
  }

  /** StartAuctionSchema.parse (the legacy form): a datetime end date and
      at least one valid item. */
  function ParseLegacyStart(endDate: Field<string>, items: Field<seq<LegacyItemBody>>, checks: FormatChecks)
    : (r: Option<LegacyStart>)
    ensures r.Some? ==> |r.value.items| >= 1 && items.Given? && |r.value.items| == |items.value|
    ensures r.Some? <==>
      endDate.Given? && checks.datetime(endDate.value).Some? &&
      items.Given? && |items.value| >= 1 && ParseEach(items.value, ParseLegacyItem).Some?
  {
    if endDate.Given? && checks.datetime(endDate.value).Some? && items.Given? && |items.value| >= 1 then
      match ParseEach(items.value, ParseLegacyItem)
      case Some(parsed) => Some(LegacyStart(endDate.value, parsed))
      case None => None
    else None
  }

  // ---------------------------------------------------------------------------
  // LoginSchema

  /** LoginSchema: a non-empty password string. */
  function ParseLogin(password: Field<string>): (r: Option<string>)
    ensures r.Some? <==> password.Given? && password.value != ""
    ensures r.Some? ==> r.value == password.value
  {
    if StringMin(password, 1) then Some(password.value) else None
  }
}
