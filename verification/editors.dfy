/** The admin's in-browser list editors: the new-auction item list
    (components/admin/auction-setup.tsx), the holiday-template service list
    shared by components/admin/holiday-template-manager.tsx and
    components/admin/add-template-modal.tsx, and the move-bid dialog
    (components/admin/move-bid-modal.tsx). */

module AuctionSetup {
  import opened Common
  import Countdown

  /** A drafted item; the numbers are whatever the form fields hold. */
  datatype SetupItem = SetupItem(title: string, description: string, startingBid: int, minimumIncrement: int)

  const BlankDraft := SetupItem("", "", 0, 1)

  /** The component's state: the drafted list, the item being typed, and
      the end date and time fields. */
  datatype Setup = Setup(items: seq<SetupItem>, draft: SetupItem, endDate: string, endTime: string)

  /** `addItem`: an untitled draft is refused; otherwise it goes at the end
      and the form is cleared. */
  function AddItem(s: Setup): (r: Setup)
    ensures s.draft.title == "" ==> r == s
    ensures s.draft.title != "" ==> r.items == s.items + [s.draft] && r.draft == BlankDraft
    ensures r.endDate == s.endDate && r.endTime == s.endTime
  {
    if s.draft.title == "" then s
    else s.(items := s.items + [s.draft], draft := BlankDraft)
  }

  /** `items.filter((_, i) => i !== index)`, walking the list with the
      index shifted by one per step. */
  function RemoveAt(items: seq<SetupItem>, index: int): (r: seq<SetupItem>)
    ensures !(0 <= index < |items|) ==> r == items
    ensures 0 <= index < |items| ==> r == items[..index] + items[index + 1..]
    decreases |items|
  {
    if |items| == 0 then []
    else
      var rest := RemoveAt(items[1..], index - 1);
      if index == 0 then rest
      else
        assert 0 <= index < |items| ==> items[1..][..index - 1] == items[1..index];
        [items[0]] + rest
  }

  function RemoveItem(s: Setup, index: int): (r: Setup)
    ensures r.draft == s.draft && r.endDate == s.endDate && r.endTime == s.endTime
    ensures !(0 <= index < |s.items|) ==> r.items == s.items
    ensures 0 <= index < |s.items| ==> |r.items| == |s.items| - 1
    ensures forall k :: 0 <= k < |r.items| ==> r.items[k] == s.items[if 0 <= index <= k then k + 1 else k]
  {
    s.(items := RemoveAt(s.items, index))
  }

  /** Every drafted item has a title. */
  predicate AllTitled(items: seq<SetupItem>) {
    forall k :: 0 <= k < |items| ==> items[k].title != ""
  }

  lemma EditingKeepsTitles(s: Setup, index: int)
    requires AllTitled(s.items)
    ensures AllTitled(AddItem(s).items)
    ensures AllTitled(RemoveItem(s, index).items)
  {
  }

  /** Removing the item just added gives back the list before it. */
  lemma RemoveUndoesAdd(s: Setup)
    requires s.draft.title != ""
    ensures RemoveItem(AddItem(s), |s.items|).items == s.items
  {
    assert (s.items + [s.draft])[..|s.items|] == s.items;
  }

  /** What `startAuction` does before any network traffic. */
  datatype StartOutcome =
    | Refused(message: string)
    | Send(endDate: string, endTime: string, items: seq<SetupItem>)

  function StartAuction(s: Setup): (r: StartOutcome)
    ensures (s.endDate == "" || s.endTime == "") ==> r == Refused("Please set end date and time")
    ensures s.endDate != "" && s.endTime != "" && |s.items| == 0 ==> r == Refused("Please add at least one item")
    ensures r.Send? <==> s.endDate != "" && s.endTime != "" && |s.items| > 0
    ensures r.Send? ==> r == Send(s.endDate, s.endTime, s.items)
  {
    if s.endDate == "" || s.endTime == "" then Refused("Please set end date and time")
    else if |s.items| == 0 then Refused("Please add at least one item")
    else Send(s.endDate, s.endTime, s.items)
  }

  /** The start button's `disabled` attribute. */
  predicate Disabled(s: Setup, submitting: bool) {
    submitting || |s.items| == 0 || s.endDate == "" || s.endTime == ""
  }

  /** The button is enabled, when no submission is running, exactly when a
      click would send the request. */
  lemma EnabledIffSends(s: Setup)
    ensures !Disabled(s, false) <==> StartAuction(s).Send?
  {
  }

  /** The storage keys the countdown sets for the previous auction. */
  predicate CountdownKey(key: string) {
    key == Countdown.NotificationsFlag || StartsWith(key, Countdown.ConfettiPrefix)
  }

  /** The `clearStorage` reply: the notification flag and every confetti
      key go, everything else stays. */
  function ClearStorage(storage: set<string>): (r: set<string>)
    ensures r <= storage
    ensures forall key :: key in storage ==> (key in r <==> !CountdownKey(key))
  {
    set key | key in storage && !CountdownKey(key)
  }

  /** After clearing, the first tick past any end time celebrates again and
      sends the winner notifications once more. */
  lemma ClearedStorageCelebratesAgain(storage: set<string>, status: string, endTime: string, difference: int)
    requires difference <= 0
    ensures Countdown.Tick(Countdown.Initial(ClearStorage(storage), status), endTime, difference).0.confettiShown == 1
    ensures Countdown.Tick(Countdown.Initial(ClearStorage(storage), status), endTime, difference).0.notificationsPosted == 1
  {
    var key := Countdown.ConfettiKey(endTime);
    assert key[..|Countdown.ConfettiPrefix|] == Countdown.ConfettiPrefix;
    assert CountdownKey(key);
    assert CountdownKey(Countdown.NotificationsFlag);
  }
}

/** The service list of a new holiday template, edited the same way in the
    template manager and in the add-template dialog. */
module ServiceList {
  import opened Common
  import opened Store
  import HolidayTemplates

  /** `addService` with the text typed so far; the result is the new list
      and the new input text. */
  function AddService(services: seq<string>, input: string): (r: (seq<string>, string))
    ensures Trim(input) != "" && Trim(input) !in services ==> r == (services + [Trim(input)], "")
    ensures !(Trim(input) != "" && Trim(input) !in services) ==> r == (services, input)
  {
    var t := Trim(input);
    if t != "" && t !in services then (services + [t], "") else (services, input)
  }

  /** `removeService`: every entry equal to the argument goes. */
  function RemoveService(services: seq<string>, name: string): (r: seq<string>)
    ensures name !in r
    ensures forall k :: 0 <= k < |services| && services[k] != name ==> services[k] in r
    ensures Subsequence(r, services)
  {
    FilterIsSubsequence(services, (s: string) => s != name);
    Filter(services, (s: string) => s != name)
  }

  /** The list the editors keep: no blank entry and no entry twice. */
  predicate Clean(services: seq<string>) {
    Distinct(services) && forall k :: 0 <= k < |services| ==> services[k] != ""
  }

  lemma AddKeepsClean(services: seq<string>, input: string)
    requires Clean(services)
    ensures Clean(AddService(services, input).0)
  {
    var t := Trim(input);
    if t != "" && t !in services {
      var r := services + [t];
      forall i, j | 0 <= i < j < |r|
        ensures r[i] != r[j]
      {
        assert r[i] == services[i];
        if j < |services| {
          assert r[j] == services[j];
        }
      }
    }
  }

  lemma {:induction false} SubsequenceOfClean(r: seq<string>, s: seq<string>)
    requires Clean(s) && Subsequence(r, s)
    ensures Clean(r)
    decreases |s|
  {
    if |r| > 0 && |s| > 0 {
      assert Clean(s[1..]) by {
        forall i, j | 0 <= i < j < |s[1..]|
          ensures s[1..][i] != s[1..][j]
        {
          assert s[1..][i] == s[i + 1] && s[1..][j] == s[j + 1];
        }
      }
      if r[0] == s[0] {
        SubsequenceOfClean(r[1..], s[1..]);
        SubsequenceIn(r[1..], s[1..]);
        forall j | 0 < j < |r|
          ensures r[0] != r[j]
        {
          assert r[1..][j - 1] == r[j];
        }
        forall i, j | 0 <= i < j < |r|
          ensures r[i] != r[j]
        {
          if i > 0 {
            assert r[1..][i - 1] == r[i] && r[1..][j - 1] == r[j];
          }
        }
      } else {
        SubsequenceOfClean(r, s[1..]);
      }
    }
  }

  /** Every element of a subsequence occurs after the head of a clean list. */
  lemma {:induction false} SubsequenceIn(r: seq<string>, s: seq<string>)
    requires Subsequence(r, s)
    ensures forall k :: 0 <= k < |r| ==> r[k] in s
    decreases |s|
  {
    if |r| > 0 && |s| > 0 {
      if r[0] == s[0] {
        SubsequenceIn(r[1..], s[1..]);
        forall k | 0 < k < |r|
          ensures r[k] in s
        {
          assert r[1..][k - 1] == r[k];
        }
      } else {
        SubsequenceIn(r, s[1..]);
      }
    }
  }

  lemma RemoveKeepsClean(services: seq<string>, name: string)
    requires Clean(services)
    ensures Clean(RemoveService(services, name))
  {
    SubsequenceOfClean(RemoveService(services, name), services);
  }

  /** Removing the service just added gives back the list before it. */
  lemma RemoveUndoesAdd(services: seq<string>, input: string)
    requires Trim(input) != "" && Trim(input) !in services
    ensures RemoveService(AddService(services, input).0, Trim(input)) == services
  {
    var t := Trim(input);
    var p := (s: string) => s != t;
    FilterAppend(services, [t], p);
    FilterAll(services, p);
    assert Filter([t], p) == [] + Filter([t][1..], p);
  }

  /** The create button of either editor. */
  datatype SubmitOutcome =
    | Refused(message: string)
    | Request(name: string, services: seq<string>)

  function Submit(name: string, services: seq<string>): (r: SubmitOutcome)
    ensures Trim(name) == "" ==> r == Refused("Please enter a template name")
    ensures Trim(name) != "" && |services| == 0 ==> r == Refused("Please add at least one service")
    ensures r.Request? <==> Trim(name) != "" && |services| > 0
    ensures r.Request? ==> r == Request(Trim(name), services)
  {
    if Trim(name) == "" then Refused("Please enter a template name")
    else if |services| == 0 then Refused("Please add at least one service")
    else Request(Trim(name), services)
  }

  /** A request the editor sends passes the route's required-fields check,
      so only the name clash or a store failure can refuse it. */
  lemma SubmittedPassesRouteCheck(db: Db, name: string, services: seq<string>, freshId: Id, insertOk: bool)
    requires Submit(name, services).Request?
    ensures HolidayTemplates.CreateHolidayTemplate(db, true, Some(Submit(name, services).name),
              HolidayTemplates.Services(Submit(name, services).services), freshId, insertOk).0
            != Fail(400, "Name and services array are required")
  {
  }

  /** The template manager's form. */
  datatype Form = Form(name: string, services: seq<string>, input: string, open: bool)

  /** A 2xx reply to the create request clears the name and the list and
      closes the form; a failure leaves it as it was. */
  function AfterReply(f: Form, ok: bool): (r: Form)
    ensures ok ==> r.name == "" && r.services == [] && !r.open && r.input == f.input
    ensures !ok ==> r == f
  {
    if ok then f.(name := "", services := [], open := false) else f
  }

  const DefaultTemplateNames: seq<string> := ["Yom Kippur", "Rosh Hashanah", "Shabbos"]

  predicate IsDefault(name: string) {
    name in DefaultTemplateNames
  }

  /** The ids of the listed templates that get a delete button. */
  function Deletable(templates: seq<HolidayTemplate>): (r: seq<Id>)
    ensures |r| <= |templates|
  {
    if |templates| == 0 then []
    else (if IsDefault(templates[0].name) then [] else [templates[0].id]) + Deletable(templates[1..])
  }

  /** A template gets a delete button exactly when its name is not one of
      the three defaults (given distinct ids). */
  lemma {:induction false} DeletableIffNotDefault(templates: seq<HolidayTemplate>, k: nat)
    requires k < |templates|
    requires forall i, j :: 0 <= i < j < |templates| ==> templates[i].id != templates[j].id
    ensures templates[k].id in Deletable(templates) <==> !IsDefault(templates[k].name)
  {
    if k == 0 {
      DeletableIds(templates[1..]);
      assert forall j :: 0 <= j < |templates[1..]| ==> templates[1..][j].id != templates[0].id by {
        forall j | 0 <= j < |templates[1..]|
          ensures templates[1..][j].id != templates[0].id
        {
          assert templates[1..][j] == templates[j + 1];
        }
      }
    } else {
      assert templates[1..][k - 1] == templates[k];
      DeletableIffNotDefault(templates[1..], k - 1);
    }
  }

  lemma {:induction false} DeletableIds(templates: seq<HolidayTemplate>)
    ensures forall x :: x in Deletable(templates) ==> exists j :: 0 <= j < |templates| && templates[j].id == x
  {
    if |templates| > 0 {
      DeletableIds(templates[1..]);
      forall x | x in Deletable(templates)
        ensures exists j :: 0 <= j < |templates| && templates[j].id == x
      {
        if x in Deletable(templates[1..]) {
          var j :| 0 <= j < |templates[1..]| && templates[1..][j].id == x;
          assert templates[j + 1].id == x;
        } else {
          assert templates[0].id == x;
        }
      }
    }
  }

  /** The three defaults never get a delete button. */
  lemma DefaultsAreProtected(templates: seq<HolidayTemplate>, k: nat)
    requires k < |templates| && IsDefault(templates[k].name)
    requires forall i, j :: 0 <= i < j < |templates| ==> templates[i].id != templates[j].id
    ensures templates[k].id !in Deletable(templates)
  {
    DeletableIffNotDefault(templates, k);
  }
}

/** The move-bid dialog. */
module MoveBid {
  import opened Common
  import opened Store

  datatype MoveBidder = MoveBidder(fullName: string, email: string)

  /** The item rows the dialog receives. */
  datatype MoveItem = MoveItem(id: Id, title: string, currentBid: int, currentBidder: Option<MoveBidder>)

  datatype MoveOutcome =
    | MoveError(message: string)
    | MoveRequest(fromItemId: Id, toItemId: Id, bidAmount: int, bidderName: string, bidderEmail: string,
                  resetFrom: bool)

  /** `resetOriginal` starts checked. */
  const DefaultResetFrom := true

  /** `handleMove` with the selected target (`""` when none) and the
      reset checkbox. */
  function HandleMove(item: MoveItem, targetId: Id, resetFrom: bool): (r: MoveOutcome)
    ensures targetId == "" ==> r == MoveError("Please select a target item")
    ensures targetId != "" && targetId == item.id ==> r == MoveError("Cannot move bid to the same item")
    ensures targetId != "" && targetId != item.id && item.currentBidder.None? ==> r == MoveError("No bidder to move")
    ensures r.MoveRequest? <==> targetId != "" && targetId != item.id && item.currentBidder.Some?
    ensures r.MoveRequest? ==>
      r == MoveRequest(item.id, targetId, item.currentBid, item.currentBidder.value.fullName,
                       item.currentBidder.value.email, resetFrom)
  {
    if targetId == "" then MoveError("Please select a target item")
    else if targetId == item.id then MoveError("Cannot move bid to the same item")
    else if item.currentBidder.None? then MoveError("No bidder to move")
    else MoveRequest(item.id, targetId, item.currentBid, item.currentBidder.value.fullName,
                     item.currentBidder.value.email, resetFrom)
  }

  /** The targets offered: every other item, in order. */
  function AvailableItems(all: seq<MoveItem>, item: MoveItem): (r: seq<MoveItem>)
    ensures forall k :: 0 <= k < |r| ==> r[k].id != item.id
    ensures forall k :: 0 <= k < |all| && all[k].id != item.id ==> all[k] in r
    ensures Subsequence(r, all)
  {
    FilterIsSubsequence(all, (i: MoveItem) => i.id != item.id);
    Filter(all, (i: MoveItem) => i.id != item.id)
  }

  /** A target picked from the offered list never meets the same-item
      guard: the move is sent as soon as the source has a bidder. */
  lemma OfferedTargetMoves(all: seq<MoveItem>, item: MoveItem, k: nat, resetFrom: bool)
    requires k < |AvailableItems(all, item)| && AvailableItems(all, item)[k].id != ""
    ensures HandleMove(item, AvailableItems(all, item)[k].id, resetFrom).MoveRequest? <==> item.currentBidder.Some?
  {
  }
}
