/** Notification bookkeeping of lib/email/sender.ts: the outbid mail with
    its one-minute de-duplication window, and the winner mails grouped by
    bidder email and de-duplicated by the `email_log` table. Delivery
    itself is an input: whether each send succeeds. */
module Notifications {
  import opened Common
  import opened Store

  // ---------------------------------------------------------------------------
  // Outbid notifications

  /** The de-duplication window, in milliseconds. */
  const OutbidWindowMs := 60000

  datatype OutbidNotification = OutbidNotification(
    email: string,
    itemTitle: string,
    itemId: Id,
    newBidAmount: int,
    newBidderName: string)

  /** The outcomes of the calls sendOutbidNotification makes: the log
      lookup (a failed lookup reads as "no row"), the send, and the log
      insert, whose error is not inspected. */
  datatype OutbidEnv = OutbidEnv(lookupOk: bool, sendOk: bool, logInsertOk: bool)

  datatype OutbidResult = OutbidResult(log: seq<EmailLogRow>, attempted: bool)

  predicate SameOutbidKey(r: EmailLogRow, email: string, itemId: Id) {
    r.kind == Outbid && r.recipient == email && r.itemId == Some(itemId)
  }

  /** The lookup's filter: same key, whatever the status, and `sent_at`
      no earlier than one window before `now`. */
  predicate RecentOutbid(r: EmailLogRow, email: string, itemId: Id, now: int) {
    SameOutbidKey(r, email, itemId) && r.sentAt >= now - OutbidWindowMs
  }

  function RecentOutbids(log: seq<EmailLogRow>, email: string, itemId: Id, now: int): (n: nat)
    ensures n == 0 <==> forall k :: 0 <= k < |log| ==> !RecentOutbid(log[k], email, itemId, now)
  {
    CountPositiveHasWitness(log, (row: EmailLogRow) => RecentOutbid(row, email, itemId, now));
    Count(log, (row: EmailLogRow) => RecentOutbid(row, email, itemId, now))
  }

  /** sendOutbidNotification at time `now`. The lookup uses `.single()`,
      so it finds a row only when exactly one row matches. */
  function SendOutbid(log: seq<EmailLogRow>, n: OutbidNotification, now: int, env: OutbidEnv)
    : (r: OutbidResult)
    ensures env.lookupOk && RecentOutbids(log, n.email, n.itemId, now) == 1 ==>
      r == OutbidResult(log, false)
    ensures !(env.lookupOk && RecentOutbids(log, n.email, n.itemId, now) == 1) ==>
      r.attempted &&
      r.log == log + (if env.logInsertOk then
        [EmailLogRow(n.email, Outbid, Some(n.itemId), if env.sendOk then Sent else SendFailed, now)]
        else [])
  {
    if env.lookupOk && RecentOutbids(log, n.email, n.itemId, now) == 1 then OutbidResult(log, false)
    else
      var row := EmailLogRow(n.email, Outbid, Some(n.itemId), if env.sendOk then Sent else SendFailed, now);
      OutbidResult(if env.logInsertOk then log + [row] else log, true)
  }

  /** Two outbid rows for the same recipient and item lie more than one
      window apart, later rows later in the log. */
  predicate OutbidSpaced(log: seq<EmailLogRow>) {
    forall i, j :: (0 <= i < j < |log| && log[i].kind == Outbid && log[j].kind == Outbid &&
                    log[i].recipient == log[j].recipient && log[i].itemId == log[j].itemId) ==>
      log[j].sentAt - log[i].sentAt > OutbidWindowMs
  }

  /** Every row was written no later than `now`. */
  predicate LoggedBy(log: seq<EmailLogRow>, now: int) {
    forall k :: 0 <= k < |log| ==> log[k].sentAt <= now
  }

  /** In a spaced log at most one row falls in the window, so `.single()`
      finds a row exactly when some row matches. */
  lemma {:induction false} SpacedLogHasOneRecentRow(log: seq<EmailLogRow>, email: string, itemId: Id, now: int)
    requires OutbidSpaced(log) && LoggedBy(log, now)
    ensures RecentOutbids(log, email, itemId, now) <= 1
  {
    var p := (row: EmailLogRow) => RecentOutbid(row, email, itemId, now);
    if Count(log, p) >= 2 {
      CountTwoHasPair(log, p);
    }
  }

  /** A row with no recent predecessor under its key keeps the log
      spaced. */
  lemma SpacedSnoc(log: seq<EmailLogRow>, row: EmailLogRow, now: int)
    requires OutbidSpaced(log) && LoggedBy(log, now)
    requires row.sentAt == now && row.kind == Outbid && row.itemId.Some?
    requires RecentOutbids(log, row.recipient, row.itemId.value, now) == 0
    ensures OutbidSpaced(log + [row]) && LoggedBy(log + [row], now)
  {
    var l := log + [row];
    forall i, j | 0 <= i < j < |l| && l[i].kind == Outbid && l[j].kind == Outbid &&
      l[i].recipient == l[j].recipient && l[i].itemId == l[j].itemId
      ensures l[j].sentAt - l[i].sentAt > OutbidWindowMs
    {
      assert l[i] == log[i];
      if j == |log| {
        assert !RecentOutbid(log[i], row.recipient, row.itemId.value, now);
      } else {
        assert l[j] == log[j];
      }
    }
  }

  /** Sending keeps the log spaced, given a working lookup and a clock
      that does not run backwards. */
  lemma SendOutbidKeepsSpacing(log: seq<EmailLogRow>, n: OutbidNotification, now: int, env: OutbidEnv)
    requires OutbidSpaced(log) && LoggedBy(log, now) && env.lookupOk
    ensures OutbidSpaced(SendOutbid(log, n, now, env).log)
    ensures LoggedBy(SendOutbid(log, n, now, env).log, now)
  {
    SpacedLogHasOneRecentRow(log, n.email, n.itemId, now);
    var r := SendOutbid(log, n, now, env);
    if r.attempted && env.logInsertOk {
      var row := EmailLogRow(n.email, Outbid, Some(n.itemId), if env.sendOk then Sent else SendFailed, now);
      SpacedSnoc(log, row, now);
    }
  }

  /** Once a row is written, a repeat within the window is suppressed:
      nothing is sent and nothing is logged. The row's status plays no
      part, so a failed send suppresses retries as well. */
  lemma {:induction false} OutbidSuppressedWithinWindow(log: seq<EmailLogRow>, n: OutbidNotification,
                                                        now: int, env: OutbidEnv, later: int, env2: OutbidEnv)
    requires OutbidSpaced(log) && LoggedBy(log, now) && env.lookupOk && env.logInsertOk
    requires now <= later <= now + OutbidWindowMs && env2.lookupOk
    requires SendOutbid(log, n, now, env).attempted
    ensures var log' := SendOutbid(log, n, now, env).log;
      SendOutbid(log', n, later, env2) == OutbidResult(log', false)
  {
    var log' := SendOutbid(log, n, now, env).log;
    SendOutbidKeepsSpacing(log, n, now, env);
    assert LoggedBy(log', later);
    SpacedLogHasOneRecentRow(log', n.email, n.itemId, later);
    assert RecentOutbid(log'[|log|], n.email, n.itemId, later);
  }

  // ---------------------------------------------------------------------------
  // Winner notifications

  datatype WonItem = WonItem(title: string, amount: int)

  /** One combined invoice: the bidder's name, the items in query order
      and their total. */
  datatype WinnerInvoice = WinnerInvoice(email: string, name: string, items: seq<WonItem>, total: int)

  /** An item whose joined bidder was read. */
  datatype Winning = Winning(bidder: Bidder, item: WonItem)

  function Amount(w: WonItem): int { w.amount }

  /** The items of `ws` won under `email`, in order. */
  function ItemsOf(ws: seq<Winning>, email: string): seq<WonItem> {
    if |ws| == 0 then []
    else ItemsOf(ws[..|ws| - 1], email) +
         (if ws[|ws| - 1].bidder.email == email then [ws[|ws| - 1].item] else [])
  }

  /** The position of the invoice for `email`, if there is one. */
  function FindInvoice(gs: seq<WinnerInvoice>, email: string): (k: Option<nat>)
    ensures k.Some? ==> k.value < |gs| && gs[k.value].email == email
    ensures k.None? ==> forall i :: 0 <= i < |gs| ==> gs[i].email != email
  {
    if |gs| == 0 then None
    else if gs[|gs| - 1].email == email then Some(|gs| - 1)
    else FindInvoice(gs[..|gs| - 1], email)
  }

  predicate DistinctEmails(gs: seq<WinnerInvoice>) {
    forall i, j :: 0 <= i < j < |gs| ==> gs[i].email != gs[j].email
  }

  /** One step of the `reduce`: add the item to its bidder's invoice,
      opening one at the end when the email is new. */
  function AddWinning(gs: seq<WinnerInvoice>, w: Winning): seq<WinnerInvoice> {
    var k := FindInvoice(gs, w.bidder.email);
    if k.Some? then
      gs[k.value := gs[k.value].(items := gs[k.value].items + [w.item],
                                 total := gs[k.value].total + w.item.amount)]
    else gs + [WinnerInvoice(w.bidder.email, w.bidder.fullName, [w.item], w.item.amount)]
  }

  /** Each invoice holds exactly its email's items, in order, with their sum. */
  predicate ExactInvoices(ws: seq<Winning>, gs: seq<WinnerInvoice>) {
    forall i :: 0 <= i < |gs| ==>
      gs[i].items == ItemsOf(ws, gs[i].email) && gs[i].total == SumOf(gs[i].items, Amount)
  }

  /** Every winning email has an invoice. */
  predicate CoversAll(ws: seq<Winning>, gs: seq<WinnerInvoice>) {
    forall k :: 0 <= k < |ws| ==> FindInvoice(gs, ws[k].bidder.email).Some?
  }

  /** Every invoice belongs to a winning email. */
  predicate OnlyWinners(ws: seq<Winning>, gs: seq<WinnerInvoice>) {
    forall i :: 0 <= i < |gs| ==> WonBy(ws, gs[i].email)
  }

  /** Some item of `ws` was won under `email`. */
  predicate WonBy(ws: seq<Winning>, email: string) {
    exists k :: 0 <= k < |ws| && ws[k].bidder.email == email
  }

  /** `gs` groups `ws` by email: one invoice per distinct email, each
      holding exactly that email's items in order, with their sum. */
  predicate IsGrouping(ws: seq<Winning>, gs: seq<WinnerInvoice>) {
    DistinctEmails(gs) && ExactInvoices(ws, gs) && CoversAll(ws, gs) && OnlyWinners(ws, gs)
  }

  /** The grouping of sendWinnerNotifications, a left-to-right `reduce`;
      invoices appear in order of their email's first appearance. */
  function GroupByEmail(ws: seq<Winning>): (gs: seq<WinnerInvoice>)
    ensures IsGrouping(ws, gs)
  {
    if |ws| == 0 then []
    else
      var gs := GroupByEmail(ws[..|ws| - 1]);
      GroupLast(ws, gs);
      AddWinning(gs, ws[|ws| - 1])
  }

  /** Adding the last item to the grouping of the others keeps the
      grouping exact. */
  lemma GroupLast(ws: seq<Winning>, gs: seq<WinnerInvoice>)
    requires |ws| > 0 && IsGrouping(ws[..|ws| - 1], gs)
    ensures IsGrouping(ws, AddWinning(gs, ws[|ws| - 1]))
  {
    StepDistinct(gs, ws[|ws| - 1]);
    StepExact(ws, gs);
    StepCovers(ws, gs);
    StepOnly(ws, gs);
  }

  lemma StepDistinct(gs: seq<WinnerInvoice>, w: Winning)
    requires DistinctEmails(gs)
    ensures DistinctEmails(AddWinning(gs, w))
  {
    var gs' := AddWinning(gs, w);
    if FindInvoice(gs, w.bidder.email).Some? {
      assert forall i :: 0 <= i < |gs| ==> gs'[i].email == gs[i].email;
    }
  }

  lemma StepExact(ws: seq<Winning>, gs: seq<WinnerInvoice>)
    requires |ws| > 0
    requires ExactInvoices(ws[..|ws| - 1], gs) && CoversAll(ws[..|ws| - 1], gs) && DistinctEmails(gs)
    ensures ExactInvoices(ws, AddWinning(gs, ws[|ws| - 1]))
  {
    var found := FindInvoice(gs, ws[|ws| - 1].bidder.email);
    if found.Some? {
      StepExactFound(ws, gs, found.value);
    } else {
      StepExactNew(ws, gs);
    }
  }

  /** The last item joins the invoice already open for its email, at `k`. */
  lemma StepExactFound(ws: seq<Winning>, gs: seq<WinnerInvoice>, k: nat)
    requires |ws| > 0 && ExactInvoices(ws[..|ws| - 1], gs) && DistinctEmails(gs)
    requires FindInvoice(gs, ws[|ws| - 1].bidder.email) == Some(k)
    ensures ExactInvoices(ws, AddWinning(gs, ws[|ws| - 1]))
  {
    var w := ws[|ws| - 1];
    var gs' := AddWinning(gs, w);
    assert gs' == gs[k := gs[k].(items := gs[k].items + [w.item], total := gs[k].total + w.item.amount)];
    forall i | 0 <= i < |gs'|
      ensures gs'[i].items == ItemsOf(ws, gs'[i].email)
      ensures gs'[i].total == SumOf(gs'[i].items, Amount)
    {
      if i == k {
        SumOfAppend(gs[i].items, [w.item], Amount);
      } else {
        assert gs[i].email != gs[k].email;
      }
    }
  }

  /** The last item opens a new invoice at the end. */
  lemma StepExactNew(ws: seq<Winning>, gs: seq<WinnerInvoice>)
    requires |ws| > 0 && ExactInvoices(ws[..|ws| - 1], gs) && CoversAll(ws[..|ws| - 1], gs)
    requires FindInvoice(gs, ws[|ws| - 1].bidder.email).None?
    ensures ExactInvoices(ws, AddWinning(gs, ws[|ws| - 1]))
  {
    var w := ws[|ws| - 1];
    var g := WinnerInvoice(w.bidder.email, w.bidder.fullName, [w.item], w.item.amount);
    var gs' := AddWinning(gs, w);
    assert gs' == gs + [g];
    forall i | 0 <= i < |gs'|
      ensures gs'[i].items == ItemsOf(ws, gs'[i].email)
      ensures gs'[i].total == SumOf(gs'[i].items, Amount)
    {
      if i < |gs| {
        assert gs'[i] == gs[i];
      } else {
        assert gs'[i] == g;
        NewInvoiceItems(ws, gs);
      }
    }
  }

  /** An email without an invoice has exactly the new item. */
  lemma NewInvoiceItems(ws: seq<Winning>, gs: seq<WinnerInvoice>)
    requires |ws| > 0 && CoversAll(ws[..|ws| - 1], gs)
    requires FindInvoice(gs, ws[|ws| - 1].bidder.email).None?
    ensures ItemsOf(ws, ws[|ws| - 1].bidder.email) == [ws[|ws| - 1].item]
    ensures SumOf([ws[|ws| - 1].item], Amount) == ws[|ws| - 1].item.amount
  {
    var prefix := ws[..|ws| - 1];
    var w := ws[|ws| - 1];
    var e := w.bidder.email;
    forall k | 0 <= k < |prefix| ensures prefix[k].bidder.email != e {
      assert FindInvoice(gs, prefix[k].bidder.email).Some?;
    }
    NoInvoiceNoItems(prefix, e);
    assert [w.item][..0] == [];
  }

  lemma StepCovers(ws: seq<Winning>, gs: seq<WinnerInvoice>)
    requires |ws| > 0 && CoversAll(ws[..|ws| - 1], gs)
    ensures CoversAll(ws, AddWinning(gs, ws[|ws| - 1]))
  {
    var prefix := ws[..|ws| - 1];
    var w := ws[|ws| - 1];
    var gs' := AddWinning(gs, w);
    var found := FindInvoice(gs, w.bidder.email);
    forall k | 0 <= k < |ws|
      ensures FindInvoice(gs', ws[k].bidder.email).Some?
    {
      if k < |prefix| {
        assert ws[k] == prefix[k];
        var i := FindInvoice(gs, prefix[k].bidder.email).value;
        assert gs'[i].email == ws[k].bidder.email;
      } else if found.Some? {
        assert gs'[found.value].email == ws[k].bidder.email;
      } else {
        assert gs'[|gs|].email == ws[k].bidder.email;
      }
    }
  }

  lemma StepOnly(ws: seq<Winning>, gs: seq<WinnerInvoice>)
    requires |ws| > 0 && OnlyWinners(ws[..|ws| - 1], gs)
    ensures OnlyWinners(ws, AddWinning(gs, ws[|ws| - 1]))
  {
    var prefix := ws[..|ws| - 1];
    var w := ws[|ws| - 1];
    var gs' := AddWinning(gs, w);
    var found := FindInvoice(gs, w.bidder.email);
    assert |gs'| == |gs| + (if found.Some? then 0 else 1);
    forall i | 0 <= i < |gs'|
      ensures WonBy(ws, gs'[i].email)
    {
      if i < |gs| {
        assert gs'[i].email == gs[i].email;
        assert WonBy(prefix, gs[i].email);
        var k :| 0 <= k < |prefix| && prefix[k].bidder.email == gs[i].email;
        assert ws[k] == prefix[k];
      } else {
        assert gs'[i].email == w.bidder.email;
      }
    }
  }

  /** An email no bidder row carries has won nothing. */
  lemma {:induction false} NoInvoiceNoItems(ws: seq<Winning>, email: string)
    requires forall k :: 0 <= k < |ws| ==> ws[k].bidder.email != email
    ensures ItemsOf(ws, email) == []
  {
    if |ws| > 0 {
      NoInvoiceNoItems(ws[..|ws| - 1], email);
    }
  }

  /** The email_log rows that make the winner lookup for `email` succeed:
      any 'winner' row for that recipient, with no auction in the key. */
  function WinnerRows(log: seq<EmailLogRow>, email: string): (n: nat)
    ensures n == 0 <==> forall k :: 0 <= k < |log| ==> !(log[k].kind == Winner && log[k].recipient == email)
  {
    CountPositiveHasWitness(log, (r: EmailLogRow) => r.kind == Winner && r.recipient == email);
    Count(log, (r: EmailLogRow) => r.kind == Winner && r.recipient == email)
  }

  function WinnerLogRow(email: string, now: int): EmailLogRow {
    EmailLogRow(email, Winner, None, Sent, now)
  }

  /** The outcomes of sendWinnerNotifications' calls: the item query, the
      emails whose send fails, the emails whose log lookup fails (the
      route ignores that error, so `existing` is null), and whether the
      log inserts take effect. */
  datatype WinnerEnv = WinnerEnv(queryOk: bool, failing: set<string>, lookupFailing: set<string>,
                                 logInsertOk: bool)

  /** The log lookups of all these invoices' recipients succeed. */
  predicate LookupsWork(gs: seq<WinnerInvoice>, env: WinnerEnv) {
    forall k :: 0 <= k < |gs| ==> gs[k].email !in env.lookupFailing
  }

  /** What a run leaves behind: the log, and the invoices mailed. */
  datatype WinnerRun = WinnerRun(log: seq<EmailLogRow>, sent: seq<WinnerInvoice>)

  /** The log rows a run adds: one 'winner'/'sent' row per mailed invoice. */
  function LoggedRows(sent: seq<WinnerInvoice>, now: int): (rows: seq<EmailLogRow>)
    ensures |rows| == |sent|
    ensures forall k :: 0 <= k < |sent| ==> rows[k] == WinnerLogRow(sent[k].email, now)
  {
    if |sent| == 0 then [] else [WinnerLogRow(sent[0].email, now)] + LoggedRows(sent[1..], now)
  }

  /** The loop mails an invoice: its send does not fail and the lookup
      either fails or misses. */
  predicate Mailable(log: seq<EmailLogRow>, g: WinnerInvoice, env: WinnerEnv) {
    g.email !in env.failing && (g.email in env.lookupFailing || WinnerRows(log, g.email) != 1)
  }

  /** The `for … of` loop over the invoices: skip an email the lookup
      finds (`.single()`: exactly one row), otherwise send, and log only
      a send that succeeds. */
  function Dispatch(log: seq<EmailLogRow>, gs: seq<WinnerInvoice>, env: WinnerEnv, now: int): (r: WinnerRun)
    ensures forall k :: 0 <= k < |r.sent| ==> r.sent[k] in gs && r.sent[k].email !in env.failing
    ensures r.log == log + (if env.logInsertOk then LoggedRows(r.sent, now) else [])
    decreases |gs|
  {
    if |gs| == 0 then WinnerRun(log, [])
    else if Mailable(log, gs[0], env) then
      var row := WinnerLogRow(gs[0].email, now);
      var rest := Dispatch(if env.logInsertOk then log + [row] else log, gs[1..], env, now);
      DispatchConsSent(gs, env.failing, rest.sent);
      DispatchConsLog(log, gs[0], env.logInsertOk, now, rest.sent, rest.log);
      WinnerRun(rest.log, [gs[0]] + rest.sent)
    else
      var rest := Dispatch(log, gs[1..], env, now);
      assert forall k :: 0 <= k < |rest.sent| ==> rest.sent[k] in gs by {
        forall k | 0 <= k < |rest.sent|
          ensures rest.sent[k] in gs
        {
          SuffixIn(gs, rest.sent[k]);
        }
      }
      rest
  }

  lemma SuffixIn(gs: seq<WinnerInvoice>, x: WinnerInvoice)
    requires |gs| > 0 && x in gs[1..]
    ensures x in gs
  {
    var j :| 0 <= j < |gs[1..]| && gs[1..][j] == x;
    assert gs[j + 1] == x;
  }

  lemma LoggedRowsCons(g: WinnerInvoice, sent: seq<WinnerInvoice>, now: int)
    ensures LoggedRows([g] + sent, now) == [WinnerLogRow(g.email, now)] + LoggedRows(sent, now)
  {
    assert ([g] + sent)[1..] == sent;
  }

  /** The mailing step of the loop: the rest of the run, prefixed with the
      invoice just mailed, sends only invoices of the list. */
  lemma DispatchConsSent(gs: seq<WinnerInvoice>, failing: set<string>, sent: seq<WinnerInvoice>)
    requires |gs| > 0 && gs[0].email !in failing
    requires forall k :: 0 <= k < |sent| ==> sent[k] in gs[1..] && sent[k].email !in failing
    ensures forall k :: 0 <= k < |[gs[0]] + sent| ==> ([gs[0]] + sent)[k] in gs && ([gs[0]] + sent)[k].email !in failing
  {
    var all := [gs[0]] + sent;
    forall k | 0 <= k < |all|
      ensures all[k] in gs && all[k].email !in failing
    {
      if k > 0 {
        assert all[k] == sent[k - 1];
        SuffixIn(gs, all[k]);
      }
    }
  }

  /** ... and logs the mailed invoice's row ahead of the rest. */
  lemma DispatchConsLog(log: seq<EmailLogRow>, g: WinnerInvoice, logInsertOk: bool, now: int,
                        sent: seq<WinnerInvoice>, restLog: seq<EmailLogRow>)
    requires restLog == (if logInsertOk then log + [WinnerLogRow(g.email, now)] else log) +
      (if logInsertOk then LoggedRows(sent, now) else [])
    ensures restLog == log + (if logInsertOk then LoggedRows([g] + sent, now) else [])
  {
    LoggedRowsCons(g, sent, now);
    if logInsertOk {
      AppendAssoc(log, [WinnerLogRow(g.email, now)], LoggedRows(sent, now));
    } else {
      assert log + [] == log;
    }
  }

  /** A row for another recipient does not change the lookup. */
  lemma WinnerRowsOther(log: seq<EmailLogRow>, e: string, other: string, now: int)
    requires e != other
    ensures WinnerRows(log + [WinnerLogRow(other, now)], e) == WinnerRows(log, e)
  {
    var p := (r: EmailLogRow) => r.kind == Winner && r.recipient == e;
    FilterAppend(log, [WinnerLogRow(other, now)], p);
    assert Filter([WinnerLogRow(other, now)], p) == [];
  }

  /** The log the rest of the loop starts from. */
  function LogAfterFirst(log: seq<EmailLogRow>, g: WinnerInvoice, env: WinnerEnv, now: int): seq<EmailLogRow> {
    if Mailable(log, g, env) && env.logInsertOk then log + [WinnerLogRow(g.email, now)] else log
  }

  /** One step of the loop. */
  lemma DispatchUnfold(log: seq<EmailLogRow>, gs: seq<WinnerInvoice>, env: WinnerEnv, now: int)
    requires |gs| > 0
    ensures Dispatch(log, gs, env, now).sent ==
      (if Mailable(log, gs[0], env) then [gs[0]] else []) + Dispatch(LogAfterFirst(log, gs[0], env, now), gs[1..], env, now).sent
  {
    if !Mailable(log, gs[0], env) {
      assert [] + Dispatch(log, gs[1..], env, now).sent == Dispatch(log, gs[1..], env, now).sent;
    }
  }

  /** With distinct emails, an invoice is mailed exactly when it is
      mailable against the log as it was before the run. */
  lemma {:induction false} DispatchSendsExactly(log: seq<EmailLogRow>, gs: seq<WinnerInvoice>,
                                                env: WinnerEnv, now: int)
    requires DistinctEmails(gs)
    ensures forall i :: 0 <= i < |gs| ==>
      (gs[i] in Dispatch(log, gs, env, now).sent <==> Mailable(log, gs[i], env))
    decreases |gs|
  {
    if |gs| > 0 {
      var g := gs[0];
      var log1 := LogAfterFirst(log, g, env, now);
      DistinctTail(gs);
      DispatchSendsExactly(log1, gs[1..], env, now);
      var rest := Dispatch(log1, gs[1..], env, now);
      DispatchUnfold(log, gs, env, now);
      forall i | 0 <= i < |gs|
        ensures gs[i] in (if Mailable(log, g, env) then [g] else []) + rest.sent <==> Mailable(log, gs[i], env)
      {
        if i > 0 {
          assert gs[i] == gs[1..][i - 1];
          assert gs[i].email != g.email;
          if log1 != log {
            WinnerRowsOther(log, gs[i].email, g.email, now);
          }
        }
      }
    }
  }

  lemma DistinctTail(gs: seq<WinnerInvoice>)
    requires DistinctEmails(gs) && |gs| > 0
    ensures DistinctEmails(gs[1..])
  {
    forall i, j | 0 <= i < j < |gs[1..]|
      ensures gs[1..][i].email != gs[1..][j].email
    {
      assert gs[1..][i] == gs[i + 1] && gs[1..][j] == gs[j + 1];
    }
  }

  lemma LaterEmailDiffers(gs: seq<WinnerInvoice>, x: WinnerInvoice)
    requires DistinctEmails(gs) && |gs| > 0 && x in gs[1..]
    ensures x.email != gs[0].email
  {
    var j :| 0 <= j < |gs[1..]| && gs[1..][j] == x;
    assert gs[j + 1] == x;
  }

  /** Each email is mailed at most once in a run. */
  lemma {:induction false} DispatchMailsEachOnce(log: seq<EmailLogRow>, gs: seq<WinnerInvoice>,
                                                 env: WinnerEnv, now: int)
    requires DistinctEmails(gs)
    ensures DistinctEmails(Dispatch(log, gs, env, now).sent)
    decreases |gs|
  {
    if |gs| > 0 {
      var g := gs[0];
      var log1 := LogAfterFirst(log, g, env, now);
      DistinctTail(gs);
      DispatchMailsEachOnce(log1, gs[1..], env, now);
      var rest := Dispatch(log1, gs[1..], env, now);
      DispatchUnfold(log, gs, env, now);
      if Mailable(log, g, env) {
        forall x | x in rest.sent
          ensures x.email != g.email
        {
          LaterEmailDiffers(gs, x);
        }
        ConsDistinct(g, rest.sent);
      }
    }
  }

  lemma ConsDistinct(g: WinnerInvoice, rest: seq<WinnerInvoice>)
    requires DistinctEmails(rest)
    requires forall x :: x in rest ==> x.email != g.email
    ensures DistinctEmails([g] + rest)
  {
    var all := [g] + rest;
    forall a, b | 0 <= a < b < |all|
      ensures all[a].email != all[b].email
    {
      assert all[b] == rest[b - 1];
      if a > 0 {
        assert all[a] == rest[a - 1];
      }
    }
  }

  /** At most one 'winner' row per recipient. */
  predicate OneWinnerRowEach(log: seq<EmailLogRow>) {
    forall i, j :: 0 <= i < j < |log| && log[i].kind == Winner && log[j].kind == Winner ==>
      log[i].recipient != log[j].recipient
  }

  /** Under that invariant the lookup finds a row exactly when one
      exists. */
  lemma {:induction false} OneWinnerRowLookup(log: seq<EmailLogRow>, email: string)
    requires OneWinnerRowEach(log)
    ensures WinnerRows(log, email) <= 1
  {
    var p := (r: EmailLogRow) => r.kind == Winner && r.recipient == email;
    if Count(log, p) >= 2 {
      CountTwoHasPair(log, p);
    }
  }

  /** A run keeps at most one 'winner' row per recipient, and afterwards
      every mailed recipient has its row. */
  lemma {:induction false} DispatchKeepsOneWinnerRow(log: seq<EmailLogRow>, gs: seq<WinnerInvoice>,
                                                     env: WinnerEnv, now: int)
    requires DistinctEmails(gs) && OneWinnerRowEach(log) && env.logInsertOk && LookupsWork(gs, env)
    ensures var r := Dispatch(log, gs, env, now);
      OneWinnerRowEach(r.log) &&
      forall k :: 0 <= k < |r.sent| ==> WinnerRows(r.log, r.sent[k].email) == 1
  {
    var r := Dispatch(log, gs, env, now);
    DispatchSendsExactly(log, gs, env, now);
    DispatchMailsEachOnce(log, gs, env, now);
    forall k | 0 <= k < |r.sent|
      ensures WinnerRows(log, r.sent[k].email) == 0
    {
      var i :| 0 <= i < |gs| && gs[i] == r.sent[k];
      assert gs[i].email !in env.lookupFailing;
      OneWinnerRowLookup(log, gs[i].email);
    }
    AppendedKeepsOneRow(log, r.sent, now);
    forall k | 0 <= k < |r.sent|
      ensures WinnerRows(r.log, r.sent[k].email) == 1
    {
      AppendedRowFound(log, r.sent, now, k);
    }
  }

  /** Logging the mailed invoices of recipients without a row keeps one
      'winner' row per recipient. */
  lemma AppendedKeepsOneRow(log: seq<EmailLogRow>, sent: seq<WinnerInvoice>, now: int)
    requires OneWinnerRowEach(log) && DistinctEmails(sent)
    requires forall k :: 0 <= k < |sent| ==> WinnerRows(log, sent[k].email) == 0
    ensures OneWinnerRowEach(log + LoggedRows(sent, now))
  {
    var added := LoggedRows(sent, now);
    var all := log + added;
    forall i, j | 0 <= i < j < |all| && all[i].kind == Winner && all[j].kind == Winner
      ensures all[i].recipient != all[j].recipient
    {
      if j < |log| {
        assert all[i] == log[i] && all[j] == log[j];
      } else if i < |log| {
        assert all[i] == log[i];
        assert all[j] == added[j - |log|];
        assert !(log[i].kind == Winner && log[i].recipient == sent[j - |log|].email);
      } else {
        assert all[i] == added[i - |log|] && all[j] == added[j - |log|];
      }
    }
  }

  /** Each logged recipient then has exactly one 'winner' row. */
  lemma AppendedRowFound(log: seq<EmailLogRow>, sent: seq<WinnerInvoice>, now: int, k: nat)
    requires DistinctEmails(sent) && k < |sent| && WinnerRows(log, sent[k].email) == 0
    ensures WinnerRows(log + LoggedRows(sent, now), sent[k].email) == 1
  {
    var added := LoggedRows(sent, now);
    var e := sent[k].email;
    var p := (row: EmailLogRow) => row.kind == Winner && row.recipient == e;
    FilterAppend(log, added, p);
    NoneMatch(log, p);
    SingleMatch(added, k, p);
    assert [] + Filter(added, p) == Filter(added, p);
  }

  /** Re-running the dispatch after a run whose mails were logged sends
      none of those invoices again, as long as the lookups of both runs
      succeed. */
  lemma SecondRunSkipsNotified(log: seq<EmailLogRow>, gs: seq<WinnerInvoice>, env: WinnerEnv,
                               now: int, env2: WinnerEnv, later: int)
    requires DistinctEmails(gs) && OneWinnerRowEach(log) && env.logInsertOk
    requires LookupsWork(gs, env) && LookupsWork(gs, env2)
    ensures var r := Dispatch(log, gs, env, now);
      forall k :: 0 <= k < |r.sent| ==> r.sent[k] !in Dispatch(r.log, gs, env2, later).sent
  {
    DispatchKeepsOneWinnerRow(log, gs, env, now);
    var r := Dispatch(log, gs, env, now);
    DispatchSendsExactly(r.log, gs, env2, later);
    forall k | 0 <= k < |r.sent|
      ensures r.sent[k] !in Dispatch(r.log, gs, env2, later).sent
    {
      var i :| 0 <= i < |gs| && gs[i] == r.sent[k];
      assert gs[i].email !in env2.lookupFailing;
    }
  }

  /** A failed lookup is read as "not sent yet": an invoice whose
      recipient already has a 'winner' row is mailed again, and with the
      insert taking effect the recipient ends with two rows. */
  lemma {:induction false} FailedLookupMailsAgain(log: seq<EmailLogRow>, gs: seq<WinnerInvoice>,
                                                  env: WinnerEnv, now: int, i: nat)
    requires DistinctEmails(gs) && i < |gs|
    requires gs[i].email in env.lookupFailing && gs[i].email !in env.failing
    requires WinnerRows(log, gs[i].email) == 1 && env.logInsertOk
    ensures var r := Dispatch(log, gs, env, now);
      gs[i] in r.sent && WinnerRows(r.log, gs[i].email) == 2
  {
    var r := Dispatch(log, gs, env, now);
    DispatchSendsExactly(log, gs, env, now);
    DispatchMailsEachOnce(log, gs, env, now);
    var k :| 0 <= k < |r.sent| && r.sent[k] == gs[i];
    var e := gs[i].email;
    var p := (row: EmailLogRow) => row.kind == Winner && row.recipient == e;
    var added := LoggedRows(r.sent, now);
    FilterAppend(log, added, p);
    SingleMatch(added, k, p);
  }
  // ---------------------------------------------------------------------------
  // The whole run

  /** The item query: items with a bidder (the inner join keeps only those
      whose bidder row exists), restricted to the auction when an id is
      given. */
  predicate Queried(bidders: seq<Bidder>, it: Item, auctionId: Option<Id>) {
    it.currentBidderId.Some? && BidderById(bidders, it.currentBidderId).Some? &&
    (Truthy(auctionId) ==> it.auctionId == auctionId.value)
  }

  function WinnerItems(db: Db, auctionId: Option<Id>): (r: seq<Item>)
    ensures forall k :: 0 <= k < |r| ==> r[k] in db.items && Queried(db.bidders, r[k], auctionId)
    ensures forall k :: 0 <= k < |db.items| && Queried(db.bidders, db.items[k], auctionId) ==>
      db.items[k] in r
  {
    Filter(db.items, (it: Item) => Queried(db.bidders, it, auctionId))
  }

  /** How the grouping reads the joined bidder of one item. */
  datatype BidderRead = NormalizeRead | IndexZeroRead

  /** `item.current_bidder[0]`: the first element of an array, but
      undefined for an object. A null join cannot reach it: the inner
      join removed those items. */
  function IndexZero<T>(e: Embedded<T>): Option<T> {
    match e
    case EmbedArray(rs) => if |rs| > 0 then Some(rs[0]) else None
    case EmbedObject(_) => None
    case EmbedNull => None
  }

  function ReadBidder(bidders: seq<Bidder>, it: Item, shape: EmbedShape, how: BidderRead): Option<Bidder> {
    var e := Embed(BidderById(bidders, it.currentBidderId), shape);
    if how == NormalizeRead then Normalize(e) else IndexZero(e)
  }

  /** The grouping's input: each item whose bidder reads, in order. */
  function Winnings(bidders: seq<Bidder>, items: seq<Item>, shape: EmbedShape, how: BidderRead)
    : (ws: seq<Winning>)
    ensures |ws| <= |items|
    ensures how == NormalizeRead ==>
      var found := Filter(items, (x: Item) => BidderById(bidders, x.currentBidderId).Some?);
      |ws| == |found| &&
      forall k :: 0 <= k < |ws| ==>
        ws[k] == Winning(BidderById(bidders, found[k].currentBidderId).value,
                         WonItem(found[k].title, found[k].currentBid))
  {
    if |items| == 0 then []
    else
      var it := items[|items| - 1];
      var rest := Winnings(bidders, items[..|items| - 1], shape, how);
      var b := ReadBidder(bidders, it, shape, how);
      NormalizeEmbed(BidderById(bidders, it.currentBidderId), shape);
      assert items == items[..|items| - 1] + [it];
      FilterAppend(items[..|items| - 1], [it], (x: Item) => BidderById(bidders, x.currentBidderId).Some?);
      rest + (if b.Some? then [Winning(b.value, WonItem(it.title, it.currentBid))] else [])
  }

  /** sendWinnerNotifications(auctionId) at time `now`, reading the joined
      bidder the way `how` says. */
  function RunWinnerNotifications(db: Db, auctionId: Option<Id>, shape: EmbedShape, how: BidderRead,
                                  env: WinnerEnv, now: int): (r: WinnerRun)
    ensures !env.queryOk ==> r == WinnerRun(db.emailLog, [])
    ensures forall k :: 0 <= k < |r.sent| ==> r.sent[k].email !in env.failing
  {
    var items := if env.queryOk then WinnerItems(db, auctionId) else [];
    Dispatch(db.emailLog, GroupByEmail(Winnings(db.bidders, items, shape, how)), env, now)
  }

  /** The corrected grouping: the joined bidder is normalised first, so the
      result does not depend on how the join is rendered. */
  function SendWinnerNotifications(db: Db, auctionId: Option<Id>, shape: EmbedShape,
                                   env: WinnerEnv, now: int): (r: WinnerRun)
    ensures r == RunWinnerNotifications(db, auctionId, AsObject, NormalizeRead, env, now)
    ensures forall k :: 0 <= k < |r.sent| ==> r.sent[k].email !in env.failing
  {
    WinningsIgnoreShape(db.bidders, if env.queryOk then WinnerItems(db, auctionId) else [], shape);
    RunWinnerNotifications(db, auctionId, shape, NormalizeRead, env, now)
  }

  lemma {:induction false} WinningsIgnoreShape(bidders: seq<Bidder>, items: seq<Item>, shape: EmbedShape)
    ensures Winnings(bidders, items, shape, NormalizeRead) == Winnings(bidders, items, AsObject, NormalizeRead)
  {
    if |items| > 0 {
      var it := items[|items| - 1];
      WinningsIgnoreShape(bidders, items[..|items| - 1], shape);
      NormalizeEmbed(BidderById(bidders, it.currentBidderId), shape);
      NormalizeEmbed(BidderById(bidders, it.currentBidderId), AsObject);
    }
  }

  /** A store with one auction item won by one bidder. */
  function OneWinnerDb(): Db {
    Db([], [Item("i1", "a1", "Aliyah", "Shacharis", "Aliyah", None, 1800, 100, 3600,
                 Some("b1"), false, 1)],
       [Bidder("b1", "Dana", "dana@example.org")], [], [], [], [], [], [], [])
  }

  lemma OneWinnerDbItems()
    ensures WinnerItems(OneWinnerDb(), None) == OneWinnerDb().items
  {
    var db := OneWinnerDb();
    assert Queried(db.bidders, db.items[0], None);
    assert db.items == [] + [db.items[0]];
  }

  /** With an object-shaped join, `current_bidder[0]` reads nothing, so no
      item yields a winning. */
  lemma {:induction false} IndexZeroReadsNoWinning(bidders: seq<Bidder>, items: seq<Item>)
    ensures Winnings(bidders, items, AsObject, IndexZeroRead) == []
  {
    if |items| > 0 {
      IndexZeroReadsNoWinning(bidders, items[..|items| - 1]);
    }
  }

  /** Hence the code as written mails no winner at all, whatever the store
      and whichever auction. */
  lemma IndexZeroSkipsEveryWinner(db: Db, auctionId: Option<Id>, env: WinnerEnv, now: int)
    ensures RunWinnerNotifications(db, auctionId, AsObject, IndexZeroRead, env, now).sent == []
  {
    IndexZeroReadsNoWinning(db.bidders, if env.queryOk then WinnerItems(db, auctionId) else []);
  }

  function DanaWinning(): Winning {
    Winning(Bidder("b1", "Dana", "dana@example.org"), WonItem("Aliyah", 3600))
  }

  function DanaInvoice(): WinnerInvoice {
    WinnerInvoice("dana@example.org", "Dana", [WonItem("Aliyah", 3600)], 3600)
  }

  lemma OneWinnerDbWinnings()
    ensures Winnings(OneWinnerDb().bidders, OneWinnerDb().items, AsObject, NormalizeRead) == [DanaWinning()]
  {
    var db := OneWinnerDb();
    assert db.items[..0] == [];
  }

  lemma DanaGrouping()
    ensures GroupByEmail([DanaWinning()]) == [DanaInvoice()]
  {
    var ws := [DanaWinning()];
    assert ws[..0] == [];
  }

  lemma DanaDispatch(now: int)
    ensures Dispatch([], [DanaInvoice()], WinnerEnv(true, {}, {}, true), now).sent == [DanaInvoice()]
  {
    var gs := [DanaInvoice()];
    assert WinnerRows([], "dana@example.org") == 0;
    assert gs[1..] == [];
  }

  /** The corrected grouping mails that winner one invoice. */
  lemma NormalizedReadMailsWinner(now: int)
    ensures SendWinnerNotifications(OneWinnerDb(), None, AsObject, WinnerEnv(true, {}, {}, true), now).sent ==
      [WinnerInvoice("dana@example.org", "Dana", [WonItem("Aliyah", 3600)], 3600)]
  {
    OneWinnerDbItems();
    OneWinnerDbWinnings();
    DanaGrouping();
    DanaDispatch(now);
  }

  /** Each mailed invoice lists exactly the scoped items its recipient won,
      in query order, with their total. */
  lemma WinnerInvoicesAreExact(db: Db, auctionId: Option<Id>, shape: EmbedShape, env: WinnerEnv, now: int)
    ensures var r := SendWinnerNotifications(db, auctionId, shape, env, now);
      var items := if env.queryOk then WinnerItems(db, auctionId) else [];
      var ws := Winnings(db.bidders, items, shape, NormalizeRead);
      forall k :: 0 <= k < |r.sent| ==>
        r.sent[k].items == ItemsOf(ws, r.sent[k].email) &&
        r.sent[k].total == SumOf(r.sent[k].items, Amount)
  {
  }
}
