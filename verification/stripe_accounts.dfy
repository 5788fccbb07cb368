/** The single connected processor account of lib/stripe/database.ts,
    kept in the `stripe_accounts` table. */
module StripeAccounts {
  import opened Common
  import opened Store

  /** The id the "delete all" query excludes (`.neq('id', …)`). */
  const NilId := "00000000-0000-0000-0000-000000000000"

  /** Index of the most recently created row; the first such row on ties. */
  function LatestIndex(rows: seq<StripeAccount>): (k: nat)
    requires |rows| > 0
    ensures k < |rows|
    ensures forall j :: 0 <= j < |rows| ==> rows[j].createdAt <= rows[k].createdAt
    ensures forall j :: 0 <= j < k ==> rows[j].createdAt < rows[k].createdAt
  {
    if |rows| == 1 then 0
    else
      var k := LatestIndex(rows[..|rows| - 1]);
      if rows[|rows| - 1].createdAt > rows[k].createdAt then |rows| - 1 else k
  }

  /** getStripeAccount: the newest row, or null when there is none or the
      query fails. */
  function GetStripeAccount(rows: seq<StripeAccount>, readOk: bool): (r: Option<StripeAccount>)
    ensures r.Some? <==> readOk && |rows| > 0
    ensures r.Some? ==> r.value in rows
    ensures r.Some? ==> forall j :: 0 <= j < |rows| ==> rows[j].createdAt <= r.value.createdAt
  {
    if !readOk || |rows| == 0 then None else Some(rows[LatestIndex(rows)])
  }

  /** The credentials saveStripeAccount receives; absent optional fields
      are dropped from the update and keep their stored value. */
  datatype AccountData = AccountData(
    stripeAccountId: string,
    accessToken: Option<string>,
    refreshToken: Option<string>,
    stripeUserId: Option<string>)

  function Overlay(stored: Option<string>, given: Option<string>): Option<string> {
    if given.Some? then given else stored
  }

  /** The row after `update({...data, updated_at})`. */
  function ApplyUpdate(a: StripeAccount, data: AccountData, now: int): (r: StripeAccount)
    ensures r.id == a.id && r.createdAt == a.createdAt && r.updatedAt == now
    ensures r.stripeAccountId == data.stripeAccountId
    // a passed credential replaces the stored one; an absent one is kept
    ensures r.accessToken == (if data.accessToken.Some? then data.accessToken else a.accessToken)
    ensures r.refreshToken == (if data.refreshToken.Some? then data.refreshToken else a.refreshToken)
    ensures r.stripeUserId == (if data.stripeUserId.Some? then data.stripeUserId else a.stripeUserId)
  {
    a.(stripeAccountId := data.stripeAccountId,
       accessToken := Overlay(a.accessToken, data.accessToken),
       refreshToken := Overlay(a.refreshToken, data.refreshToken),
       stripeUserId := Overlay(a.stripeUserId, data.stripeUserId),
       updatedAt := now)
  }

  /** saveStripeAccount. It updates the newest row when one is found and
      inserts otherwise; `freshId` is the id the store assigns on insert,
      `readOk`/`writeOk` the outcomes of the lookup and of the write. */
  function SaveStripeAccount(rows: seq<StripeAccount>, data: AccountData, now: int,
                             freshId: Id, readOk: bool, writeOk: bool)
    : (out: (Option<StripeAccount>, seq<StripeAccount>))
    ensures !writeOk ==> out == (None, rows)
    ensures writeOk && GetStripeAccount(rows, readOk).Some? ==>
      |out.1| == |rows| && out.0.Some? && out.0.value.id == GetStripeAccount(rows, readOk).value.id
    // the update rewrites the row with that id (the primary key) and no other
    ensures writeOk && GetStripeAccount(rows, readOk).Some? && UniqueIds(rows) ==>
      forall k :: 0 <= k < |rows| ==>
        out.1[k] == if rows[k].id == out.0.value.id then out.0.value else rows[k]
    ensures writeOk && GetStripeAccount(rows, readOk).None? ==>
      out.0.Some? && out.1 == rows + [out.0.value] && out.0.value.createdAt == now
    ensures out.0.Some? ==> out.0.value.stripeAccountId == data.stripeAccountId
  {
    var existing := GetStripeAccount(rows, readOk);
    if !writeOk then (None, rows)
    else if existing.Some? then
      var id := existing.value.id;
      var rows' := seq(|rows|, k requires 0 <= k < |rows| =>
        if rows[k].id == id then ApplyUpdate(rows[k], data, now) else rows[k]);
      (Some(ApplyUpdate(existing.value, data, now)), rows')
    else
      var row := StripeAccount(freshId, data.stripeAccountId, data.accessToken,
                               data.refreshToken, data.stripeUserId, now, now);
      (Some(row), rows + [row])
  }

  /** Row ids are distinct, as a primary key keeps them. */
  predicate UniqueIds(rows: seq<StripeAccount>) {
    forall i, j :: 0 <= i < j < |rows| ==> rows[i].id != rows[j].id
  }

  /** The newest row depends on the creation times alone. */
  lemma {:induction false} LatestIndexByTimes(rows: seq<StripeAccount>, rows': seq<StripeAccount>)
    requires |rows| > 0 && |rows'| == |rows|
    requires forall k :: 0 <= k < |rows| ==> rows'[k].createdAt == rows[k].createdAt
    ensures LatestIndex(rows') == LatestIndex(rows)
  {
    if |rows| > 1 {
      LatestIndexByTimes(rows[..|rows| - 1], rows'[..|rows| - 1]);
    }
  }

  /** Reading the account after a successful save gives back the row the
      save returned. */
  lemma GetAfterSave(rows: seq<StripeAccount>, data: AccountData, now: int, freshId: Id)
    ensures var out := SaveStripeAccount(rows, data, now, freshId, true, true);
      GetStripeAccount(out.1, true) == out.0
  {
    var out := SaveStripeAccount(rows, data, now, freshId, true, true);
    if |rows| > 0 {
      LatestIndexByTimes(rows, out.1);
    }
  }

  /** Saving never creates a second row: from at most one row there is
      still at most one, provided the lookup succeeded. */
  lemma SaveKeepsSingleRow(rows: seq<StripeAccount>, data: AccountData, now: int,
                           freshId: Id, writeOk: bool)
    requires |rows| <= 1
    ensures |SaveStripeAccount(rows, data, now, freshId, true, writeOk).1| <= 1
  {
  }

  /** A failed lookup makes saveStripeAccount insert beside the existing
      row: the single-row property needs the lookup to succeed. */
  lemma SaveAfterFailedLookupDuplicates(a: StripeAccount, data: AccountData, now: int, freshId: Id)
    ensures |SaveStripeAccount([a], data, now, freshId, false, true).1| == 2
  {
  }

  /** deleteStripeAccount: removes every row whose id is not the nil id;
      returns false and keeps the rows when the delete fails. */
  function DeleteStripeAccount(rows: seq<StripeAccount>, writeOk: bool): (out: (bool, seq<StripeAccount>))
    ensures out.0 == writeOk
    ensures !writeOk ==> out.1 == rows
    ensures writeOk ==> forall k :: 0 <= k < |out.1| ==> out.1[k].id == NilId
    ensures writeOk ==> forall k :: 0 <= k < |rows| && rows[k].id == NilId ==> rows[k] in out.1
  {
    if writeOk then (true, Filter(rows, (a: StripeAccount) => a.id == NilId)) else (false, rows)
  }

  /** After a successful delete no account is reported, unless a row
      carries the nil id itself. */
  lemma DeleteThenGetIsNull(rows: seq<StripeAccount>, readOk: bool)
    requires forall k :: 0 <= k < |rows| ==> rows[k].id != NilId
    ensures GetStripeAccount(DeleteStripeAccount(rows, true).1, readOk).None?
  {
  }

  /** isStripeConnected. */
  function IsStripeConnected(rows: seq<StripeAccount>, readOk: bool): (b: bool)
    ensures b <==> readOk && |rows| > 0 && rows[LatestIndex(rows)].stripeAccountId != ""
  {
    var acct := GetStripeAccount(rows, readOk);
    acct.Some? && acct.value.stripeAccountId != ""
  }
}
