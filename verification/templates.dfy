/** Item templates per holiday template (app/api/admin/bid-templates and
    its update route) and the holiday templates themselves
    (app/api/admin/holiday-templates/route.ts). */
module BidTemplates {
  import opened Common
  import opened Store

  /** `startingBid || 18`, `minimumIncrement || 1`, `displayOrder || 0`;
      amounts in cents. */
  const DefaultStartingBid := 18 * CentsPerDollar
  const DefaultIncrement := CentsPerDollar
  const DefaultDisplayOrder := 0

  // ---------------------------------------------------------------------------
  // GET

  /** One entry of the GET reply: the row with camel-case names and an
      empty description left out. */
  datatype TemplateItemView = TemplateItemView(
    id: Id,
    title: string,
    service: string,
    honor: string,
    description: Option<string>,
    startingBid: int,
    minimumIncrement: int,
    displayOrder: int)

  function ToView(t: BidTemplate): (v: TemplateItemView)
    ensures v.id == t.id && v.title == t.title && v.service == t.service && v.honor == t.honor
    ensures v.description.Some? <==> Truthy(t.description)
    ensures v.description.Some? ==> v.description == t.description
    ensures v.startingBid == t.startingBid && v.minimumIncrement == t.minimumIncrement
    ensures v.displayOrder == t.displayOrder
  {
    TemplateItemView(t.id, t.title, t.service, t.honor, EmptyToNull(t.description),
                     t.startingBid, t.minimumIncrement, t.displayOrder)
  }

  function DisplayOrder(t: BidTemplate): int { t.displayOrder }

  predicate OfTemplate(t: BidTemplate, templateId: Id) {
    t.templateId == templateId
  }

  /** `.eq('template_id', templateId).order('display_order')`. */
  function TemplateRows(rows: seq<BidTemplate>, templateId: Id): (r: seq<BidTemplate>)
    ensures SortedOn(r, DisplayOrder)
    ensures multiset(r) == multiset(Filter(rows, (t: BidTemplate) => OfTemplate(t, templateId)))
  {
    SortOn(Filter(rows, (t: BidTemplate) => OfTemplate(t, templateId)), DisplayOrder)
  }

  /** GET /api/admin/bid-templates?templateId=… (no admin check). */
  function ListTemplateItems(rows: seq<BidTemplate>, templateId: Option<Id>, readOk: bool)
    : (r: Response<seq<TemplateItemView>>)
    ensures !Truthy(templateId) ==> r == Fail(400, "templateId is required")
    ensures Truthy(templateId) && !readOk ==> r == Fail(500, "Failed to fetch bid templates")
    ensures r.status == 200 <==> Truthy(templateId) && readOk
    ensures r.status == 200 ==> r.body.Payload?
    ensures r.status == 200 ==> |r.body.value| == |TemplateRows(rows, templateId.value)|
    ensures r.status == 200 ==> forall k :: 0 <= k < |r.body.value| ==>
      r.body.value[k] == ToView(TemplateRows(rows, templateId.value)[k])
  {
    if !Truthy(templateId) then Fail(400, "templateId is required")
    else if !readOk then Fail(500, "Failed to fetch bid templates")
    else
      var sorted := TemplateRows(rows, templateId.value);
      Ok(seq(|sorted|, k requires 0 <= k < |sorted| => ToView(sorted[k])))
  }

  /** The listed rows are exactly the template's rows: each listed row is
      a stored row of the template, and each stored row of the template is
      listed. */
  lemma ListedRowsAreTheTemplates(rows: seq<BidTemplate>, templateId: Id)
    ensures forall k :: 0 <= k < |TemplateRows(rows, templateId)| ==>
      TemplateRows(rows, templateId)[k] in rows && TemplateRows(rows, templateId)[k].templateId == templateId
    ensures forall k :: 0 <= k < |rows| && rows[k].templateId == templateId ==>
      rows[k] in TemplateRows(rows, templateId)
  {
    var sorted := TemplateRows(rows, templateId);
    var f := Filter(rows, (t: BidTemplate) => OfTemplate(t, templateId));
    forall k | 0 <= k < |sorted|
      ensures sorted[k] in rows && sorted[k].templateId == templateId
    {
      assert sorted[k] in multiset(sorted);
      assert sorted[k] in multiset(f);
      assert sorted[k] in f;
    }
    forall k | 0 <= k < |rows| && rows[k].templateId == templateId
      ensures rows[k] in sorted
    {
      assert OfTemplate(rows[k], templateId);
      assert rows[k] in f;
      assert rows[k] in multiset(f);
      assert rows[k] in multiset(sorted);
    }
  }

  // ---------------------------------------------------------------------------
  // POST, PUT, DELETE

  /** The JSON body of POST (all properties) and PUT (no templateId or
      displayOrder); None is a property left out. */
  datatype TemplateItemBody = TemplateItemBody(
    id: Option<Id>,
    templateId: Option<Id>,
    title: Option<string>,
    service: Option<string>,
    honor: Option<string>,
    description: Option<string>,
    startingBid: Option<int>,
    minimumIncrement: Option<int>,
    displayOrder: Option<int>)

  /** The outcome of the write and the id the store gives a new row. */
  datatype SaveEnv = SaveEnv(writeOk: bool, freshId: Id)

  /** The columns both update paths write, defaults applied. */
  function FillDetails(t: BidTemplate, b: TemplateItemBody): (r: BidTemplate)
    ensures r.id == t.id && r.templateId == t.templateId && r.displayOrder == t.displayOrder
    ensures r.title == b.title.GetOr("") && r.service == b.service.GetOr("") && r.honor == b.honor.GetOr("")
    ensures r.description == EmptyToNull(b.description)
    ensures r.startingBid == OrDefault(b.startingBid, DefaultStartingBid)
    ensures r.minimumIncrement == OrDefault(b.minimumIncrement, DefaultIncrement)
  {
    t.(title := b.title.GetOr(""), service := b.service.GetOr(""), honor := b.honor.GetOr(""),
       description := EmptyToNull(b.description),
       startingBid := OrDefault(b.startingBid, DefaultStartingBid),
       minimumIncrement := OrDefault(b.minimumIncrement, DefaultIncrement))
  }

  predicate HasId(t: BidTemplate, id: Id) {
    t.id == id
  }

  /** `update(...).eq('id', id).select().single()` on the templates: the
      row is rewritten only when exactly one row carries the id. */
  function UpdateOne(rows: seq<BidTemplate>, id: Id, f: BidTemplate -> BidTemplate)
    : (r: Option<(BidTemplate, seq<BidTemplate>)>)
    ensures r.Some? <==> Count(rows, (t: BidTemplate) => HasId(t, id)) == 1
    ensures r.Some? ==> |r.value.1| == |rows|
    ensures r.Some? ==> forall k :: 0 <= k < |rows| ==>
      r.value.1[k] == (if rows[k].id == id then f(rows[k]) else rows[k])
    ensures r.Some? ==> r.value.0 == f(Single(rows, (t: BidTemplate) => HasId(t, id)).value)
    ensures r.Some? ==> forall k :: 0 <= k < |rows| && rows[k].id == id ==> r.value.1[k] == r.value.0
  {
    match Single(rows, (t: BidTemplate) => HasId(t, id))
    case None => None
    case Some(t) =>
      forall k | 0 <= k < |rows| && rows[k].id == id
        ensures rows[k] == t
      {
        OnlyMatchIsSingle(rows, k, (t: BidTemplate) => HasId(t, id));
      }
      Some((f(t), seq(|rows|, k requires 0 <= k < |rows| => if rows[k].id == id then f(rows[k]) else rows[k])))
  }

  /** The row POST writes over an existing one. */
  function SaveRow(t: BidTemplate, b: TemplateItemBody): BidTemplate {
    FillDetails(t, b).(displayOrder := OrDefault(b.displayOrder, DefaultDisplayOrder))
  }

  /** POST /api/admin/bid-templates: update the row named by `id`, or
      insert a new row under `templateId`. */
  function SaveTemplateItem(db: Db, isAdmin: bool, b: TemplateItemBody, env: SaveEnv)
    : (out: (Response<BidTemplate>, Db))
    ensures !isAdmin ==> out == (Unauthorized(), db)
    ensures isAdmin && !(Truthy(b.templateId) && Truthy(b.title) && Truthy(b.service) && Truthy(b.honor)) ==>
      out == (Fail(400, "templateId, title, service, and honor are required"), db)
    ensures out.1.(bidTemplates := db.bidTemplates) == db
    ensures out.0.status != 200 ==> out.1 == db
    ensures out.0.status >= 500 ==> out.0 == Fail(500, "Failed to save bid template")
    ensures out.0.status == 200 ==> out.0.body.Payload?
    ensures out.0.status == 200 && Truthy(b.id) ==> |out.1.bidTemplates| == |db.bidTemplates|
    ensures out.0.status == 200 && Truthy(b.id) ==>
      forall k :: 0 <= k < |db.bidTemplates| && db.bidTemplates[k].id != b.id.value ==>
        out.1.bidTemplates[k] == db.bidTemplates[k]
    ensures out.0.status == 200 && !Truthy(b.id) ==>
      out.1.bidTemplates == db.bidTemplates + [out.0.body.value]
    ensures out.0.status == 200 && !Truthy(b.id) ==>
      out.0.body.value.id == env.freshId && out.0.body.value.templateId == b.templateId.value
    ensures out.0.status == 200 ==> out.0.body.value.title == b.title.value
    ensures out.0.status == 200 ==>
      out.0.body.value.service == b.service.value && out.0.body.value.honor == b.honor.value &&
      out.0.body.value.description == EmptyToNull(b.description)
    // the row named by the id takes the body's details and is the reply
    ensures out.0.status == 200 && Truthy(b.id) ==>
      forall k :: 0 <= k < |db.bidTemplates| && db.bidTemplates[k].id == b.id.value ==>
        out.1.bidTemplates[k] == SaveRow(db.bidTemplates[k], b) &&
        out.1.bidTemplates[k] == out.0.body.value
    ensures out.0.status == 200 ==> out.0.body.value.startingBid == OrDefault(b.startingBid, DefaultStartingBid)
    ensures out.0.status == 200 ==>
      out.0.body.value.minimumIncrement == OrDefault(b.minimumIncrement, DefaultIncrement)
    ensures out.0.status == 200 ==> out.0.body.value.displayOrder == OrDefault(b.displayOrder, DefaultDisplayOrder)
  {
    if !isAdmin then (Unauthorized(), db)
    else if !(Truthy(b.templateId) && Truthy(b.title) && Truthy(b.service) && Truthy(b.honor)) then
      (Fail(400, "templateId, title, service, and honor are required"), db)
    else if !env.writeOk then (Fail(500, "Failed to save bid template"), db)
    else if Truthy(b.id) then
      match UpdateOne(db.bidTemplates, b.id.value, (t: BidTemplate) => SaveRow(t, b))
      case None => (Fail(500, "Failed to save bid template"), db)
      case Some((row, rows)) => (Ok(row), db.(bidTemplates := rows))
    else
      var row := BidTemplate(env.freshId, b.templateId.value, b.title.value, b.service.value, b.honor.value,
                             EmptyToNull(b.description),
                             OrDefault(b.startingBid, DefaultStartingBid),
                             OrDefault(b.minimumIncrement, DefaultIncrement),
                             OrDefault(b.displayOrder, DefaultDisplayOrder));
      (Ok(row), db.(bidTemplates := db.bidTemplates + [row]))
  }

  /** An update through POST keeps the row's id and template. */
  lemma SaveByIdKeepsTemplate(db: Db, b: TemplateItemBody, env: SaveEnv, k: nat)
    requires Truthy(b.id) && k < |db.bidTemplates| && db.bidTemplates[k].id == b.id.value
    requires SaveTemplateItem(db, true, b, env).0.status == 200
    ensures var t := SaveTemplateItem(db, true, b, env).1.bidTemplates[k];
      t.id == db.bidTemplates[k].id && t.templateId == db.bidTemplates[k].templateId &&
      t.title == b.title.value
  {
  }

  /** PUT /api/admin/bid-templates/update: the details of one row; its
      template and display order are left alone. */
  function UpdateTemplateItem(db: Db, isAdmin: bool, b: TemplateItemBody, writeOk: bool)
    : (out: (Response<BidTemplate>, Db))
    ensures !isAdmin ==> out == (Unauthorized(), db)
    ensures isAdmin && !Truthy(b.id) ==> out == (Fail(400, "id is required"), db)
    ensures isAdmin && Truthy(b.id) && !(Truthy(b.title) && Truthy(b.service) && Truthy(b.honor)) ==>
      out == (Fail(400, "title, service, and honor are required"), db)
    ensures out.1.(bidTemplates := db.bidTemplates) == db
    ensures out.0.status != 200 ==> out.1 == db
    ensures out.0.status >= 500 ==> out.0 == Fail(500, "Failed to update bid template")
    ensures out.0.status == 200 ==> Truthy(b.id) && |out.1.bidTemplates| == |db.bidTemplates|
    ensures out.0.status == 200 ==> forall k :: 0 <= k < |db.bidTemplates| ==>
      if db.bidTemplates[k].id != b.id.value then out.1.bidTemplates[k] == db.bidTemplates[k]
      else out.1.bidTemplates[k] == FillDetails(db.bidTemplates[k], b) &&
           out.1.bidTemplates[k].templateId == db.bidTemplates[k].templateId &&
           out.1.bidTemplates[k].displayOrder == db.bidTemplates[k].displayOrder
    // the update succeeds exactly when the guards pass, the write works and
    // `.single()` finds one row with the id
    ensures out.0.status == 200 <==>
      isAdmin && Truthy(b.id) && Truthy(b.title) && Truthy(b.service) && Truthy(b.honor) && writeOk &&
      Count(db.bidTemplates, (t: BidTemplate) => HasId(t, b.id.value)) == 1
    // and answers with the rewritten row
    ensures out.0.status == 200 ==> out.0.body.Payload?
    ensures out.0.status == 200 ==>
      forall k :: 0 <= k < |db.bidTemplates| && db.bidTemplates[k].id == b.id.value ==>
        out.0.body.value == out.1.bidTemplates[k]
  {
    if !isAdmin then (Unauthorized(), db)
    else if !Truthy(b.id) then (Fail(400, "id is required"), db)
    else if !(Truthy(b.title) && Truthy(b.service) && Truthy(b.honor)) then
      (Fail(400, "title, service, and honor are required"), db)
    else if !writeOk then (Fail(500, "Failed to update bid template"), db)
    else
      match UpdateOne(db.bidTemplates, b.id.value, (t: BidTemplate) => FillDetails(t, b))
      case None => (Fail(500, "Failed to update bid template"), db)
      case Some((row, rows)) => (Ok(row), db.(bidTemplates := rows))
  }

  /** Sending the same PUT twice leaves the store and the reply of one. */
  lemma UpdateTemplateItemIdempotent(db: Db, b: TemplateItemBody, writeOk: bool)
    ensures var once := UpdateTemplateItem(db, true, b, writeOk);
      UpdateTemplateItem(once.1, true, b, writeOk) == once
  {
    var once := UpdateTemplateItem(db, true, b, writeOk);
    var twice := UpdateTemplateItem(once.1, true, b, writeOk);
    if once.0.status == 200 {
      var id := b.id.value;
      assert forall k :: 0 <= k < |db.bidTemplates| ==> (once.1.bidTemplates[k].id == id <==> db.bidTemplates[k].id == id);
      CountSameMatches(db.bidTemplates, once.1.bidTemplates, id);
      assert twice.1.bidTemplates == once.1.bidTemplates;
    }
  }

  /** Two tables whose rows agree on where the id occurs count it alike. */
  lemma {:induction false} CountSameMatches(a: seq<BidTemplate>, c: seq<BidTemplate>, id: Id)
    requires |a| == |c|
    requires forall k :: 0 <= k < |a| ==> (a[k].id == id <==> c[k].id == id)
    ensures Count(a, (t: BidTemplate) => HasId(t, id)) == Count(c, (t: BidTemplate) => HasId(t, id))
  {
    if |a| > 0 {
      CountSameMatches(a[1..], c[1..], id);
    }
  }

  /** DELETE /api/admin/bid-templates?id=…. */
  function DeleteTemplateItem(db: Db, isAdmin: bool, id: Option<Id>, writeOk: bool)
    : (out: (Response<Done>, Db))
    ensures !isAdmin ==> out == (Unauthorized(), db)
    ensures isAdmin && !Truthy(id) ==> out == (Fail(400, "id is required"), db)
    ensures isAdmin && Truthy(id) && !writeOk ==> out == (Fail(500, "Failed to delete bid template"), db)
    ensures out.0.status == 200 <==> isAdmin && Truthy(id) && writeOk
    ensures out.1.(bidTemplates := db.bidTemplates) == db
    ensures out.0.status == 200 ==> forall k :: 0 <= k < |out.1.bidTemplates| ==> out.1.bidTemplates[k].id != id.value
    ensures out.0.status == 200 ==> forall k :: 0 <= k < |db.bidTemplates| && db.bidTemplates[k].id != id.value ==>
      db.bidTemplates[k] in out.1.bidTemplates
    ensures forall k :: 0 <= k < |out.1.bidTemplates| ==> out.1.bidTemplates[k] in db.bidTemplates
  {
    if !isAdmin then (Unauthorized(), db)
    else if !Truthy(id) then (Fail(400, "id is required"), db)
    else if !writeOk then (Fail(500, "Failed to delete bid template"), db)
    else (Ok(Done), db.(bidTemplates := Filter(db.bidTemplates, (t: BidTemplate) => !HasId(t, id.value))))
  }
}

module HolidayTemplates {
  import opened Common
  import opened Store

  // ---------------------------------------------------------------------------
  // Ordering by name

  lemma {:induction false} StringLeTotal(a: string, b: string)
    ensures StringLe(a, b) || StringLe(b, a)
  {
    if |a| > 0 && |b| > 0 && a[0] == b[0] {
      StringLeTotal(a[1..], b[1..]);
    }
  }

  /** Each name is no greater than the next one. */
  predicate SortedByName(s: seq<HolidayTemplate>) {
    forall i :: 0 <= i < |s| - 1 ==> StringLe(s[i].name, s[i + 1].name)
  }

  function InsertByName(x: HolidayTemplate, s: seq<HolidayTemplate>): (r: seq<HolidayTemplate>)
    requires SortedByName(s)
    ensures SortedByName(r)
    ensures |r| == |s| + 1
    ensures r[0] == x || (|s| > 0 && r[0] == s[0])
    ensures multiset(r) == multiset(s) + multiset{x}
  {
    if |s| == 0 then [x]
    else if StringLe(x.name, s[0].name) then [x] + s
    else
      StringLeTotal(x.name, s[0].name);
      var tail := InsertByName(x, s[1..]);
      assert s == [s[0]] + s[1..];
      [s[0]] + tail
  }

  /** `.order('name')`: the templates sorted by name, code point by code
      point. */
  function SortByName(s: seq<HolidayTemplate>): (r: seq<HolidayTemplate>)
    ensures SortedByName(r)
    ensures multiset(r) == multiset(s)
  {
    if |s| == 0 then []
    else
      var rest := SortByName(s[..|s| - 1]);
      assert s == s[..|s| - 1] + [s[|s| - 1]];
      InsertByName(s[|s| - 1], rest)
  }

  /** GET /api/admin/holiday-templates. */
  function ListHolidayTemplates(db: Db, readOk: bool): (r: Response<seq<HolidayTemplate>>)
    ensures !readOk ==> r == Fail(500, "Failed to fetch templates")
    ensures readOk ==> r.status == 200 && r.body.Payload?
    ensures readOk ==> SortedByName(r.body.value) && multiset(r.body.value) == multiset(db.holidayTemplates)
  {
    if readOk then Ok(SortByName(db.holidayTemplates)) else Fail(500, "Failed to fetch templates")
  }

  /** The `services` property: an array of names, or anything else. */
  datatype ServicesField = NoServices | NotArray | Services(names: seq<string>)

  /** The store's unique constraint on `name` (code 23505). */
  predicate NameTaken(rows: seq<HolidayTemplate>, name: string) {
    exists k :: 0 <= k < |rows| && rows[k].name == name
  }

  predicate UniqueNames(rows: seq<HolidayTemplate>) {
    forall i, j :: 0 <= i < j < |rows| ==> rows[i].name != rows[j].name
  }

  /** POST /api/admin/holiday-templates. `insertOk` is the outcome of the
      insert apart from the unique constraint, which the store itself
      decides. */
  function CreateHolidayTemplate(db: Db, isAdmin: bool, name: Option<string>, services: ServicesField,
                                 freshId: Id, insertOk: bool)
    : (out: (Response<HolidayTemplate>, Db))
    ensures !isAdmin ==> out == (Unauthorized(), db)
    ensures isAdmin && !(Truthy(name) && services.Services? && |services.names| > 0) ==>
      out == (Fail(400, "Name and services array are required"), db)
    ensures isAdmin && Truthy(name) && services.Services? && |services.names| > 0 &&
            NameTaken(db.holidayTemplates, name.value) ==>
      out == (Fail(400, "A template with this name already exists"), db)
    ensures out.0.status == 200 <==>
      isAdmin && Truthy(name) && services.Services? && |services.names| > 0 &&
      !NameTaken(db.holidayTemplates, name.value) && insertOk
    ensures out.0.status == 200 ==>
      out.0 == Ok(HolidayTemplate(freshId, name.value, services.names)) &&
      out.1 == db.(holidayTemplates := db.holidayTemplates + [HolidayTemplate(freshId, name.value, services.names)])
    ensures out.0.status != 200 ==> out.1 == db
    ensures out.0.status >= 500 ==> out.0 == Fail(500, "Failed to create template")
  {
    if !isAdmin then (Unauthorized(), db)
    else if !(Truthy(name) && services.Services? && |services.names| > 0) then
      (Fail(400, "Name and services array are required"), db)
    else if NameTaken(db.holidayTemplates, name.value) then
      (Fail(400, "A template with this name already exists"), db)
    else if !insertOk then (Fail(500, "Failed to create template"), db)
    else
      var row := HolidayTemplate(freshId, name.value, services.names);
      (Ok(row), db.(holidayTemplates := db.holidayTemplates + [row]))
  }

  /** Template names stay unique under every POST. */
  lemma CreateKeepsNamesUnique(db: Db, isAdmin: bool, name: Option<string>, services: ServicesField,
                               freshId: Id, insertOk: bool)
    requires UniqueNames(db.holidayTemplates)
    ensures UniqueNames(CreateHolidayTemplate(db, isAdmin, name, services, freshId, insertOk).1.holidayTemplates)
  {
  }
}
