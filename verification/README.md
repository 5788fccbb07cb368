# Wilkesbid auction core in Dafny

Wilkesbid runs a synagogue honors auction. An administrator starts an auction for a holiday: a list of honors grouped by prayer service, each with a starting bid and a minimum increment. Bidders bid on a public board until the end time. Winners get an invoice by email and pay through a connected Stripe account; the processor's webhook marks the items paid.

This project models the server routes and the client-side logic of that core as pure Dafny functions and proves properties about them. A route is a function from the store, the request and the outcomes of the calls it makes (database writes, the processor, the mail service) to a reply and the new store. Every money amount is integer cents. A dollar amount the source takes from a request body is the same amount in cents here.

The modules:

- Common (common.dfy): options, JavaScript string helpers (`trim`, `toLowerCase`, `split`, `join`, `String(n)`), filtering, counting, sums, the query layer's `.single()`, a stable sort.
- Store (store.dfy): the tables (auctions, items, bidders, bid history, email log, payments, payment settings, processor accounts, templates) and the reply shape.
- Validators (validators.dfy): the request schemas of lib/validators.ts.
- BidRoute, BidModal (bidding.dfy): POST /api/bid around the `place_bid` database function, and the bid dialog.
- Reads (reads.dfy): the bid-history and unpaid-items read routes.
- Notifications (notifications.dfy): outbid mails with their one-minute window, winner invoices grouped by email and de-duplicated through the email log.
- Money (money.dfy): the processor fee, payment totals, installments, the account-id check and the payment metadata.
- Payments (payments.dfy): the payment-intent route and the processor webhook.
- StripeAccounts (stripe_accounts.dfy): the connected-account table.
- Settings (settings.dfy): the global payment-settings row.
- BidTemplates, HolidayTemplates (templates.dfy): item templates and holiday templates.
- Lifecycle (lifecycle.dfy): starting and ending an auction, creating and deleting items, deleting an auction.
- ItemAdmin (itemadmin.dfy): the admin edits of one item: details, bid, restore, reset, paid flag.
- Export (export.dfy): the CSV, Excel and printable exports.
- Board (board.dfy): the public board: realtime merging, search, ordering, grouping by service.
- Dashboard (dashboard.dfy): the admin item list: realtime events, search, totals.
- Countdown (countdown.dfy): the countdown split, two-digit rendering and the once-only confetti and winner POST.
- AuctionHistory (history.dfy): the per-auction statistics of the history list.
- AuctionSetup, ServiceList, MoveBid (editors.dfy): the setup form, the service-list editors of the template screens, and the move-bid dialog.

## Model

| member | source | states |
|---|---|---|
| Validators.ParseEach | lib/validators.ts:23-28 | an array of entries parses exactly when every entry parses; the result keeps the entries' order and count |
| Validators.ParseBid | lib/validators.ts:14-19 | a bid body is accepted exactly when the item id is a uuid, the name is non-empty, the email is well formed and the amount is positive; the accepted bid carries those four values |
| Validators.NonPositiveBidRejected | lib/validators.ts:18 | a zero or negative amount is rejected whatever the other fields hold |
| Validators.ParseLegacyItem | lib/validators.ts:23-28 | an item entry needs a non-empty title, an optional string description, a non-negative starting bid and an increment of at least one dollar; a missing increment defaults to one dollar |
| Validators.ParseLegacyStart | lib/validators.ts:21-29 | a start body is accepted exactly when the end date is a datetime and there is at least one item and every item parses; the result has one item per entry |
| Validators.ParseLogin | lib/validators.ts:31-33 | a login body is accepted exactly when the password is a non-empty string, and the password is kept |
| BidRoute.PlaceBid | app/api/bid/route.ts:7-65 | an invalid body gives 400 "Invalid input data" and no database call; a P0001 error gives 400 with its message and another error 500, both leaving the store; success replies with the database's current bid and keeps the function's store, changing only the email log and only when a notice is sent; an outbid notice is requested exactly when the function named a previous bidder |
| BidRoute.NoticeDescribesNewBid | app/api/bid/route.ts:33-41 | the outbid notice goes to the previous bidder with the item title, and carries the id, amount and name of the bid just placed |
| BidRoute.ResponseIgnoresNotification | app/api/bid/route.ts:34-47 | the reply is the same however the fire-and-forget notification fares |
| BidRoute.NonPositiveAmountNeverReachesRpc | app/api/bid/route.ts:10-20 | a non-positive amount gets a 400 before the database function is called and leaves the store unchanged |
| BidModal.MinimumBid | components/auction/bid-modal.tsx:30 | the lowest amount accepted is exactly one increment above the current bid |
| BidModal.MatchesEmailPattern | components/auction/bid-modal.tsx:117-120 | the scan answers true exactly when the address matches the email regular expression (a local part, '@', a domain, '.', two or more letters) |
| BidModal.AtIsPinned | components/auction/bid-modal.tsx:118 | in any match of the pattern the '@' is the first character that cannot belong to the local part |
| BidModal.DotIsPinned | components/auction/bid-modal.tsx:118 | in any match with a given '@', the '.' before the top-level domain is the last character that is not a letter |
| BidModal.Validate | components/auction/bid-modal.tsx:100-146 | each field is free of error exactly when it meets its rule (name given; email given and matching; amount given and at least the minimum bid); a low amount shows "Minimum bid is $" with the minimum |
| BidModal.Submit | components/auction/bid-modal.tsx:32-45 | a request is sent exactly when no field has an error, and its body carries the item id and the three fields |
| BidModal.SubmittedAmountIsPositive | components/auction/bid-modal.tsx:139-146 | on an item with a non-negative bid and a positive increment, every amount the form sends is positive and the name is non-empty, so the server's schema accepts them |
| BidModal.OnResponse | components/auction/bid-modal.tsx:49-60 | success closes the modal with "Bid placed successfully!"; a failure keeps it open and shows the server's error, or "Failed to place bid" when there is none |
| Store.NormalizeEmbed | app/api/bid-history/route.ts:55-57 | taking the first element of an array, or the object itself, gives back the joined row whichever shape the query layer used |
| Store.BidderById | app/api/bid-history/route.ts:38 | the join on a foreign key finds a bidder row with that id, or none when no row carries it |
| Reads.NewestFirst | app/api/bid-history/route.ts:40-42 | the result holds exactly the item's non-winning bids (as a multiset) in non-increasing creation time |
| Reads.Recent | app/api/bid-history/route.ts:40-43 | at most five rows, exactly min(5, number of previous bids) of them, each a non-winning bid on the item, newest first |
| Reads.RecentAreNewest | app/api/bid-history/route.ts:42-43 | a previous bid is left out only when five are shown, and it is no newer than any of them |
| Reads.BidderName | app/api/bid-history/route.ts:55-57 | the name is the joined bidder's full name when there is one and it is non-empty, otherwise "Anonymous"; never empty |
| Reads.BidderNameAnyShape | app/api/bid-history/route.ts:55-57 | for either join shape the entry names the bid's bidder, or "Anonymous" when the bidder is missing or nameless |
| Reads.ToEntry | app/api/bid-history/route.ts:54-60 | an entry keeps the bid's amount and creation time |
| Reads.BidHistory | app/api/bid-history/route.ts:17-62 | a missing item id gives 400 "item_id is required"; a failed read 500 "Failed to fetch bid history"; otherwise 200 with one entry per selected row, in order |
| Reads.HistoryShowsPreviousBids | app/api/bid-history/route.ts:32-43 | every entry shown comes from a non-winning bid on the item, at most five entries, newest first |
| Reads.ContactOf | app/api/bidder/unpaid-items/route.ts:32 | the selected bidder columns keep the bidder's name and email, and exist exactly when the bidder does |
| Reads.ToUnpaid | app/api/bidder/unpaid-items/route.ts:46-52 | a returned item keeps the row's id, paid flag and bid, and its bidder is the joined bidder whatever shape the join took |
| Reads.Fetched | app/api/bidder/unpaid-items/route.ts:20-35 | one entry per unpaid item that has a bidder, in storage order |
| Reads.UnpaidItems | app/api/bidder/unpaid-items/route.ts:5-55 | a missing email gives 400 "Email is required"; a failed read 500 "Failed to fetch unpaid items"; otherwise every item returned is unpaid and won by that email, in fetch order |
| Reads.UnpaidItemsComplete | app/api/bidder/unpaid-items/route.ts:34-53 | every stored unpaid item whose bidder has that email is in the reply |
| Notifications.RecentOutbids | lib/email/sender.ts:27-34 | the count of log rows matching the outbid lookup (same recipient, type 'outbid', same item, sent within the last minute) is zero exactly when no row matches |
| Notifications.SendOutbid | lib/email/sender.ts:22-77 | when the lookup finds exactly one recent row nothing is sent or logged; otherwise a send is attempted and, when the insert takes effect, one 'outbid' row is appended with status 'sent' or 'failed' according to the send |
| Notifications.SpacedLogHasOneRecentRow | lib/email/sender.ts:27-34 | in a log whose outbid rows per recipient and item lie more than a minute apart, at most one row falls in the lookup window, so `.single()` finds a row exactly when one matches |
| Notifications.SpacedSnoc | lib/email/sender.ts:59-75 | appending an outbid row that has no recent predecessor under its key keeps the rows spaced more than a minute apart |
| Notifications.SendOutbidKeepsSpacing | lib/email/sender.ts:26-75 | with a working lookup, sending keeps every recipient and item's outbid rows more than a minute apart |
| Notifications.OutbidSuppressedWithinWindow | lib/email/sender.ts:26-39 | after a logged attempt, a repeat notice to the same recipient and item within one minute sends and logs nothing, whether the first send succeeded or failed |
| Notifications.GroupByEmail | lib/email/sender.ts:106-127 | the grouping has one invoice per distinct winning email and none other; each invoice holds exactly that email's items in query order and their sum |
| Notifications.GroupLast | lib/email/sender.ts:113-126 | one step of the reduce (add to the open invoice, or open one at the end) keeps the grouping exact |
| Notifications.NoInvoiceNoItems | lib/email/sender.ts:114-124 | an email no winning bidder carries has no items |
| Notifications.WinnerRows | lib/email/sender.ts:132-137 | the count of 'winner' rows for a recipient is zero exactly when the log has none |
| Notifications.LoggedRows | lib/email/sender.ts:165-169 | one 'winner' row with status 'sent' per mailed invoice, in mailing order |
| Notifications.Dispatch | lib/email/sender.ts:130-173 | every invoice mailed is one of the grouped invoices whose send does not fail; the log grows by exactly one 'winner' row per mailed invoice when the inserts take effect; a recipient whose log lookup fails counts as not yet mailed |
| Notifications.DispatchSendsExactly | lib/email/sender.ts:130-173 | with distinct emails an invoice is mailed exactly when its send does not fail and either its log lookup fails or the log held other than one 'winner' row for its recipient before the run |
| Notifications.DispatchMailsEachOnce | lib/email/sender.ts:130-173 | no recipient is mailed twice in a run |
| Notifications.OneWinnerRowLookup | lib/email/sender.ts:132-137 | with at most one 'winner' row per recipient, the `.single()` lookup finds a row exactly when one exists |
| Notifications.DispatchKeepsOneWinnerRow | lib/email/sender.ts:130-169 | when the recipients' log lookups succeed, a run keeps at most one 'winner' row per recipient, and every recipient mailed ends with exactly one |
| Notifications.FailedLookupMailsAgain | lib/email/sender.ts:131-138 | a failed log lookup is read as "not sent": a recipient who already has a 'winner' row is mailed again and ends with two rows |
| Notifications.SecondRunSkipsNotified | lib/email/sender.ts:131-139 | when the lookups of both runs succeed, running the notifications again sends none of the invoices the first run mailed and logged |
| Notifications.WinnerItems | lib/email/sender.ts:84-101 | the query returns exactly the stored items that have an existing bidder, restricted to the auction when one is named |
| Notifications.Winnings | lib/email/sender.ts:106-125 | the items that reach the grouping are at most the queried ones; with the joined bidder normalised, they are the queried items whose bidder row exists, in order, each paired with that bidder, its title and its current bid |
| Notifications.RunWinnerNotifications | lib/email/sender.ts:79-177 | a failed query mails nothing and leaves the log; no invoice mailed is one whose send fails |
| Notifications.SendWinnerNotifications | lib/email/sender.ts:106-111 | with the joined bidder normalised, the run is the same whichever shape the join takes |
| Notifications.WinningsIgnoreShape | lib/email/sender.ts:92-107 | with normalisation the grouping's input does not depend on the join's rendering |
| Notifications.IndexZeroSkipsEveryWinner | lib/email/sender.ts:106-111 | as written, an object-shaped join makes `current_bidder[0]` undefined for every item, so no run mails any winner, whatever the store and auction |
| Notifications.NormalizedReadMailsWinner | lib/email/sender.ts:106-127 | with the bidder normalised, that same store mails its winner one invoice with the item and its total |
| Notifications.WinnerInvoicesAreExact | lib/email/sender.ts:113-125 | each mailed invoice lists exactly the queried items its recipient won, in query order, with their total |
| Money.RoundDiv | lib/stripe/helpers.ts:14 | the quotient rounded half up, as `Math.round` rounds: the integer within half a unit of the exact quotient, halves going up |
| Money.StripeFeeBounds | lib/stripe/helpers.ts:9-15 | the fee in cents is 2.9 % of the amount plus 30 cents, rounded half up to the cent |
| Money.StripeFeeExample | lib/stripe/helpers.ts:9-15 | a 120.00 subtotal carries a 3.78 fee |
| Money.StripeFeeAtLeastFixed | lib/stripe/helpers.ts:11-13 | the fee on a non-negative amount is at least the fixed 30 cents |
| Money.StripeFeeMonotone | lib/stripe/helpers.ts:9-15 | a larger amount never carries a smaller fee |
| Money.CalculatePaymentTotal | lib/stripe/helpers.ts:23-32 | the total is the subtotal plus the fee; the fee is the processing fee when the payer covers it and zero otherwise |
| Money.PaymentTotalExample | lib/stripe/helpers.ts:23-32 | 120.00 with the fee covered comes to 123.78 |
| Money.CentsRoundTrip | lib/stripe/helpers.ts:39-50 | converting cents to dollars and back gives the same cents |
| Money.StripeFeeMatchesDollarFormula | lib/stripe/helpers.ts:9-15 | the cents fee equals the source's dollar formula, evaluated exactly on the same amount, converted to cents |
| Money.CalculateInstallments | lib/stripe/helpers.ts:71-85 | the plan keeps the number of months and the payment total, and its first payment equals the monthly amount; zero months has no plan |
| Money.InstallmentsCoverTotal | lib/stripe/helpers.ts:76-83 | the monthly amounts add up to the total to within half a cent per month |
| Money.CheckStripeAccountId | lib/stripe/helpers.ts:92-94 | the scan accepts exactly the ids made of "acct_" and then at least sixteen ASCII letters or digits |
| Money.GeneratePaymentMetadata | lib/stripe/helpers.ts:103-114 | the metadata has exactly the four keys auction_id, item_ids, bidder_email and platform; the item ids are joined with ',' |
| Payments.FoundItems | app/api/stripe/create-payment-intent/route.ts:42-45 | the query returns exactly the stored items whose id is among the requested ids |
| Payments.ToLineItem | app/api/stripe/create-payment-intent/route.ts:111-116 | a metadata line keeps the item's id and current bid |
| Payments.CreatePaymentIntent | app/api/stripe/create-payment-intent/route.ts:12-135 | the guards answer 400 "Item IDs are required", 400 "Bidder email is required", 503 when no account is connected, 404 exactly when no requested item is found, 403 "Unauthorized - you do not own all these items" exactly when some found item belongs to another bidder; nothing is written unless it succeeds, and then only the payments table; success needs every found item owned by the bidder; a well-formed request for owned items calls the processor and answers 500 "Failed to create payment intent" with the store unchanged when the create call throws, and 200 when it creates the intent |
| Payments.IntentSuccessRecordsPending | app/api/stripe/create-payment-intent/route.ts:69-127 | on success the reply carries the computed breakdown and the account id, the processor gets the generated metadata with the first item's auction, and one pending record for the requested ids with the line items is appended when the insert takes effect |
| Payments.IntentAmountIsTotal | app/api/stripe/create-payment-intent/route.ts:70-77 | the amount charged is the reply's total: the sum of the found bids plus the processor fee when the payer covers it (the default, which an absent flag takes but a null one does not), the sum alone otherwise |
| Payments.NullFeeFlagChargesNoFee | app/api/stripe/create-payment-intent/route.ts:15-110 | a null `coverProcessingFee` charges the bare subtotal and is stored as null in the record |
| Payments.ListedIds | app/api/stripe/webhook/route.ts:67-73 | ids are read exactly when the metadata has a non-empty item_ids |
| Payments.MarkPaid | app/api/stripe/webhook/route.ts:76-79 | an item is marked paid exactly when its id is listed; nothing else changes |
| Payments.UpdateRecords | app/api/stripe/webhook/route.ts:87-93 | exactly the records with the intent's id are rewritten |
| Payments.FailureReason | app/api/stripe/webhook/route.ts:112 | the processor's error message, or "Unknown error" when it has none |
| Payments.FailedMetadata | app/api/stripe/webhook/route.ts:110-113 | the intent's metadata with last_payment_error added, every other key kept |
| Payments.HandlePaymentSuccess | app/api/stripe/webhook/route.ts:62-99 | missing ids or a failed items update leave the store as it was; only items and payment records can change |
| Payments.HandlePaymentFailed | app/api/stripe/webhook/route.ts:101-122 | the records of the intent become failed with the failure metadata when the update takes effect; no other record or table changes |
| Payments.Webhook | app/api/stripe/webhook/route.ts:10-60 | no signature gives 400 "No signature", a failed verification 400 "Invalid signature"; a verified event is always acknowledged, and an event of another type changes nothing |
| Payments.SucceededMarksListedItems | app/api/stripe/webhook/route.ts:62-93 | a succeeded event marks every listed item paid and leaves every other item and every other column unchanged; exactly the intent's records become succeeded |
| Payments.SucceededIdempotent | app/api/stripe/webhook/route.ts:39-93 | delivering the same succeeded event twice leaves the store one delivery leaves |
| Payments.FailedIdempotent | app/api/stripe/webhook/route.ts:101-116 | delivering the same failed event twice leaves the store one delivery leaves |
| Payments.FailedAfterSucceededOverwrites | app/api/stripe/webhook/route.ts:106-116 | the failed handler does not look at the current status: it turns a succeeded record back to failed |
| Payments.CreateThenSucceed | app/api/stripe/webhook/route.ts:67-93 | after a created intent, its succeeded event marks paid exactly the requested items that exist and marks the new record succeeded, the ids surviving the join and split of the metadata |
| Payments.Charge | app/api/stripe/create-payment-intent/route.ts:69-127 | the priced part always makes the processor call; a failed create gives 500 "Failed to create payment intent" and writes nothing; a created intent gives 200; only the payments table can change |
| Payments.CreatedRecord | app/api/stripe/create-payment-intent/route.ts:87-118 | a successful create leaves the items as they were, appends one record under the intent's id, and puts the joined ids in the metadata |
| Payments.SucceedAfterCreate | app/api/stripe/webhook/route.ts:62-93 | the succeeded event of that record marks paid exactly the listed items and marks the new record succeeded |
| Common.SplitJoin | app/api/stripe/webhook/route.ts:73 | splitting on ',' the join of ids that contain no ',' gives back the ids |
| Common.DollarString | lib/export-utils.ts:23 | the text of a dollar amount held in cents is never empty and holds no comma, double quote or newline |
| StripeAccounts.LatestIndex | lib/stripe/database.ts:23-24 | the row picked has the latest creation time, and no earlier row has the same time |
| StripeAccounts.GetStripeAccount | lib/stripe/database.ts:17-33 | an account is returned exactly when the read succeeds and a row exists, and it is a stored row created no earlier than any other |
| StripeAccounts.ApplyUpdate | lib/stripe/database.ts:51-57 | the update keeps the row's id and creation time and sets the account id and the update time; each of the access token, refresh token and user id takes the passed value, or keeps the stored one when none is passed |
| StripeAccounts.SaveStripeAccount | lib/stripe/database.ts:38-86 | a failed write returns null and changes nothing; with an existing account the row count stays, the returned row is that account, and with distinct ids that row becomes the returned row while every other row is kept; otherwise one row created now is appended and returned; the returned row has the given account id |
| StripeAccounts.GetAfterSave | lib/stripe/database.ts:16-86 | after a successful save, reading the account gives back the row the save returned |
| StripeAccounts.SaveKeepsSingleRow | lib/stripe/database.ts:46-85 | with a working lookup, saving onto at most one row leaves at most one row |
| StripeAccounts.SaveAfterFailedLookupDuplicates | lib/stripe/database.ts:27-30 | a failed lookup reads as "no account", so saving inserts a second row beside the stored one |
| StripeAccounts.DeleteStripeAccount | lib/stripe/database.ts:91-105 | the result is whether the delete succeeded; on success only rows with the nil id remain, on failure all rows remain |
| StripeAccounts.DeleteThenGetIsNull | lib/stripe/database.ts:91-105 | after a successful delete no account is found, unless a row carries the nil id |
| StripeAccounts.IsStripeConnected | lib/stripe/database.ts:110-113 | connected exactly when the read succeeds and the newest row has a non-empty account id |
| Settings.GetSettings | app/api/payment-settings/route.ts:9-37 | a read error other than PGRST116 gives 500 "Failed to get payment settings"; a single global row is reported; no such row (or the tolerated code) gives installments off with at most 12 |
| Settings.AssignGlobal | app/api/payment-settings/route.ts:60-67 | the update writes both settings onto every row with the fixed id and leaves the other rows |
| Settings.SaveSettings | app/api/payment-settings/route.ts:39-95 | a non-admin gets 401; success happens exactly when the write works and either the lookup finds the one global row or no row has the fixed id; it replies with the posted settings and updates that row or inserts one with the fixed id; every failure is 500 "Failed to update payment settings" and leaves the store; only the settings table changes |
| Settings.SaveKeepsAtMostOneRow | app/api/payment-settings/route.ts:51-87 | a table with at most one row, carrying the fixed id, keeps that shape after any POST |
| Settings.GetAfterSave | app/api/payment-settings/route.ts:13-29 | after a successful POST, a successful GET reports exactly the posted settings |
| Settings.SaveUpdatesUniqueRow | app/api/payment-settings/route.ts:58-72 | with the fixed id on exactly one row and working lookup and write, POST takes the update path |
| Settings.SaveIdempotent | app/api/payment-settings/route.ts:39-95 | posting the same body twice leaves the store posting it once leaves |
| BidTemplates.ToView | app/api/admin/bid-templates/route.ts:30-39 | the reply entry keeps every column; a null or empty description is left out |
| BidTemplates.TemplateRows | app/api/admin/bid-templates/route.ts:21-25 | the template's rows exactly (as a multiset), ordered by display order |
| BidTemplates.ListTemplateItems | app/api/admin/bid-templates/route.ts:7-49 | a missing template id gives 400 "templateId is required", a failed read 500 "Failed to fetch bid templates"; otherwise one entry per template row in display order |
| BidTemplates.ListedRowsAreTheTemplates | app/api/admin/bid-templates/route.ts:21-25 | the listed rows are exactly the stored rows of that template: each listed row is one, and each one is listed |
| BidTemplates.FillDetails | app/api/admin/bid-templates/update/route.ts:40-50 | the written columns are the given title, service and honor, the description or null, the starting bid or 18 dollars and the increment or 1 dollar; id, template and order are kept |
| BidTemplates.UpdateOne | app/api/admin/bid-templates/route.ts:83-99 | the update succeeds exactly when one row carries the id; it then rewrites exactly the rows with that id and returns the rewritten row |
| BidTemplates.SaveTemplateItem | app/api/admin/bid-templates/route.ts:52-127 | a non-admin gets 401; a missing template id, title, service or honor gives 400; with an id one row is updated and the others kept, without one a row under the template with a fresh id is appended; the saved row, which is the reply, carries the body's title, service, honor and description (empty becomes null) and the defaults 18, 1 and 0, and on an update it is the row the id names with those details written and its id and template kept; a failure is 500 and changes nothing |
| BidTemplates.SaveByIdKeepsTemplate | app/api/admin/bid-templates/route.ts:82-100 | an update through POST keeps the row's id and template and sets its title |
| BidTemplates.UpdateTemplateItem | app/api/admin/bid-templates/update/route.ts:6-65 | a non-admin gets 401; a missing id gives 400 "id is required"; a missing title, service or honor 400; the update answers 200 exactly when the write works and exactly one row has the id, and the reply is that row as rewritten; that row gets the new details and keeps its template and display order, and every other row is unchanged; a failure is 500 and changes nothing |
| BidTemplates.UpdateTemplateItemIdempotent | app/api/admin/bid-templates/update/route.ts:38-57 | sending the same update twice leaves the store and the reply of one update |
| BidTemplates.DeleteTemplateItem | app/api/admin/bid-templates/route.ts:130-161 | a non-admin gets 401, a missing id 400 "id is required", a failed delete 500; on success no row with the id remains, every other row stays, and nothing new appears |
| HolidayTemplates.SortByName | app/api/admin/holiday-templates/route.ts:11-14 | the templates in ascending name order, the same multiset |
| HolidayTemplates.InsertByName | app/api/admin/holiday-templates/route.ts:14 | inserting into a name-sorted list keeps it sorted and adds exactly the one template |
| HolidayTemplates.StringLeTotal | app/api/admin/holiday-templates/route.ts:14 | any two names are ordered one way or the other |
| HolidayTemplates.ListHolidayTemplates | app/api/admin/holiday-templates/route.ts:7-23 | a failed read gives 500 "Failed to fetch templates"; otherwise every template, sorted by name |
| HolidayTemplates.CreateHolidayTemplate | app/api/admin/holiday-templates/route.ts:26-64 | a non-admin gets 401; a missing name or an empty or non-array services gives 400 "Name and services array are required"; a taken name 400 "A template with this name already exists"; success appends exactly the new template; other failures are 500 and change nothing |
| HolidayTemplates.CreateKeepsNamesUnique | app/api/admin/holiday-templates/route.ts:44-56 | template names stay unique under every POST |
| Lifecycle.CoerceNumber | app/api/admin/auction/route.ts:18-19 | a coerced amount is a number exactly when a number or null was sent; null becomes zero and a number is kept |
| Lifecycle.ParseAdminItem | app/api/admin/auction/route.ts:13-21 | an item entry is accepted exactly when title, service and honor are non-empty, the description is a string or absent, the starting bid is at least zero, the increment is absent or at least one dollar, and the display order is a number; a missing increment becomes one dollar and every other field is carried over |
| Lifecycle.ParseStart | app/api/admin/auction/route.ts:8-30 | a start body is accepted exactly when both dates are datetimes with the start before the end, the holiday name is non-empty, there is at least one service and at least one item and every item is accepted; the accepted input carries the fields unchanged, one item per entry |
| Lifecycle.BlankItemRejectsBody | app/api/admin/auction/route.ts:14-16 | one item with an empty title, service or honor makes the whole body invalid |
| Lifecycle.EndActive | app/api/admin/auction/route.ts:45-48 | ending the active auctions leaves every auction ended and changes no other field of any row |
| Lifecycle.ItemRows | app/api/admin/auction/route.ts:66-76 | one row per input item, in the auction just created, carrying the item's fields, with the current bid equal to the starting bid, no bidder and not paid |
| Lifecycle.StartAuction | app/api/admin/auction/route.ts:32-104 | a non-admin gets 401 and an invalid body 400 "Invalid input data", both with the store unchanged; the reply is 200 with the new auction's id and the clear-storage flag exactly when the body is valid and both inserts succeed, and 500 "Failed to start auction" otherwise; only auctions and items change |
| Lifecycle.StartLeavesOneActive | app/api/admin/auction/route.ts:45-63 | once the auction row is inserted it is the last auction, and when ending the old ones worked it is the only active one |
| Lifecycle.StartItems | app/api/admin/auction/route.ts:66-82 | a start appends exactly the built item rows when the item insert works and no items at all when it fails |
| Lifecycle.FailedItemInsertLeavesEmptyAuction | app/api/admin/auction/route.ts:78-82 | a failed item insert is not rolled back: an active auction with no items is left in the store |
| Lifecycle.EndAuction | app/api/admin/end-auction/route.ts:6-28 | a non-admin gets 401 and a failed update 500 "Failed to end auction", both with the store unchanged; otherwise every auction is ended, nothing else changes, and auctions that were not active are untouched |
| Lifecycle.EndAuctionIdempotent | app/api/admin/end-auction/route.ts:16-23 | ending a second time changes nothing and answers success again |
| Lifecycle.MaxDisplayOrder | app/api/admin/create-item/route.ts:28-34 | the highest display order among the auction's items: absent exactly when the auction has no items, otherwise held by one of its items and at least every other |
| Lifecycle.NextDisplayOrder | app/api/admin/create-item/route.ts:36 | the next position is above every position in the auction and is either 1 or one past a position in use |
| Lifecycle.CreateItemWith | app/api/admin/create-item/route.ts:6-58 | a non-admin gets 401, no auction found 400 "No active auction found" and a failed insert 500 "Failed to create item", each with the store unchanged; success appends exactly one item in the found auction carrying the body's title, description (empty becomes null), starting bid as both starting and current bid, increment and the next display order, or position 1 when the highest-position read fails |
| Lifecycle.NewItemGoesLast | app/api/admin/create-item/route.ts:27-48 | when the highest-position read succeeds, the created item's display order is above that of every item already in its auction |
| Lifecycle.FailedOrderReadReusesFirstPosition | app/api/admin/create-item/route.ts:27-36 | when that read fails, the new item takes position 1, which an item of the auction may already hold |
| Lifecycle.CreateItemAsWritten | app/api/admin/create-item/route.ts:17-25 | with the query as written, create-item answers 400 unless exactly one auction is active or ended |
| Lifecycle.CreateItemAsWrittenRefusesSecondAuction | app/api/admin/create-item/route.ts:17-25 | as written, once two auctions exist create-item is always refused with 400 |
| Lifecycle.RestartBlocksCreateItem | app/api/admin/create-item/route.ts:17-25 | after any successful second start, create-item as written always answers 400 |
| Lifecycle.CreateItem | app/api/admin/create-item/route.ts:16-53 | with the lookup of the single active auction, an admin's create succeeds when the insert works and appends one item to that active auction |
| Lifecycle.CreateItemJoinsStartedAuction | app/api/admin/create-item/route.ts:16-53 | after a successful start, the corrected create-item succeeds and the new item belongs to the auction just started |
| Lifecycle.DeleteItem | app/api/admin/delete-item/route.ts:6-28 | a non-admin gets 401 and a failed delete 500 "Failed to delete item", both with the store unchanged; on success no item with the id is left, every other item is kept, and nothing is added |
| Lifecycle.DeleteMissingItemIsNoOp | app/api/admin/delete-item/route.ts:16-23 | deleting an id no item carries leaves the store as it was and still answers success |
| Lifecycle.DeleteItemKeepsOrder | app/api/admin/delete-item/route.ts:16-19 | the items that survive a delete keep their storage order |
| Lifecycle.DeleteAuction | app/api/admin/delete-auction/route.ts:6-37 | a non-admin gets 401 and a failed item delete 500 with the store unchanged; a failed auction delete answers 500 after the auction's items are already gone; success removes the auction and all its items and keeps every other auction and item |
| ItemAdmin.CurrentRow | app/api/admin/auction-items/update/route.ts:40-44 | the row the lookup returns, when it returns one, is a stored item carrying the requested id |
| ItemAdmin.EditRowAsWritten | app/api/admin/auction-items/update/route.ts:46-63 | as written, the edit writes service, honor, description (empty becomes null), the starting bid defaulting to 18.00 and the increment defaulting to 1.00, and sets the current bid to the raw request value only when the found row was never bid above its starting bid and the request's starting bid differs from it |
| ItemAdmin.EditRow | app/api/admin/auction-items/update/route.ts:46-63 | the same edit with the reset writing the defaulted starting bid: an item it resets ends with its current bid equal to its new starting bid, and any other item keeps its current bid |
| ItemAdmin.ApplyEdit | app/api/admin/auction-items/update/route.ts:6-82 | a non-admin gets 401, a missing id 400 "id is required" and a missing service or honor 400 "service and honor are required"; the reply is 200 with the rewritten row exactly when those pass, the write works and exactly one item has the id, and every other outcome is 500 "Failed to update auction item"; a failed edit leaves the store unchanged |
| ItemAdmin.UpdateItemAsWritten | app/api/admin/auction-items/update/route.ts:39-70 | a successful edit as written rewrites exactly the item with the id and keeps every other item |
| ItemAdmin.ZeroStartingBidZeroesCurrentBid | app/api/admin/auction-items/update/route.ts:56-62 | an unbid item at 18.00 edited with a starting bid of 0 keeps a starting bid of 18.00 but gets a current bid of 0 |
| ItemAdmin.UpdateItem | app/api/admin/auction-items/update/route.ts:39-70 | a successful corrected edit rewrites exactly the item with the id and keeps every other item |
| ItemAdmin.UnbidItemTracksStartingBid | app/api/admin/auction-items/update/route.ts:46-63 | after a corrected edit, an item never bid above its starting bid still has its current bid equal to its starting bid, and a bid-on item keeps its current bid |
| ItemAdmin.ResolveBidder | app/api/admin/update-bid/route.ts:16-35 | without both name and email no bidder is looked up or created; a bidder with the email is reused as it is; a new bidder is appended only with the store's fresh id and the given name and email; a failed insert leaves the bidder unresolved and the bidders unchanged |
| ItemAdmin.ResolveKeepsEmailsUnique | app/api/admin/update-bid/route.ts:18-34 | with a working lookup, find-or-create never makes two bidders share an email |
| ItemAdmin.SetBid | app/api/admin/update-bid/route.ts:37-46 | for an admin, only bidders and items change; a failed write answers 500 with the items unchanged; otherwise the item with the id gets the requested amount and the resolved bidder (null without bidder details, unchanged when the insert failed) and every other field and item is kept |
| ItemAdmin.UpdateBid | app/api/admin/update-bid/route.ts:6-53 | a failed write answers 500 "Failed to update bid"; with name, email and working writes the item ends with a bidder and the requested amount |
| ItemAdmin.RestoreBid | app/api/admin/restore-bid/route.ts:6-53 | a failed write answers 500 "Failed to restore bid"; the bid history is not touched |
| ItemAdmin.RestoreMatchesUpdate | app/api/admin/restore-bid/route.ts:16-46 | restoring a bid changes the store exactly as updating it does and succeeds exactly when it does |
| ItemAdmin.ResetBid | app/api/admin/reset-bid/route.ts:6-31 | a non-admin gets 401 and a failed write 500 "Failed to reset bid", both with the store unchanged; on success the item with the id gets the given amount as current bid and no bidder, with every other field and item kept |
| ItemAdmin.ResetBidIdempotent | app/api/admin/reset-bid/route.ts:6-31 | resetting an item twice to the same amount leaves the store and reply of one reset |
| ItemAdmin.MarkPaid | app/api/admin/mark-paid/route.ts:6-28 | a non-admin gets 401 and a failed write 500 "Failed to update paid status", both with the store unchanged; on success only the paid flag of the item with the id changes, to the requested value |
| ItemAdmin.MarkPaidIdempotent | app/api/admin/mark-paid/route.ts:16-19 | marking an item a second time with the same flag changes nothing more and succeeds again |
| Export.BidderNameCell | lib/export-utils.ts:24 | the bidder's name when there is a bidder with a non-empty name, "No bids" otherwise |
| Export.BidderEmailCell | lib/export-utils.ts:25 | the bidder's email when there is a bidder, the empty string otherwise |
| Export.PaidCell | lib/export-utils.ts:26 | "Paid" exactly when the item is marked paid, "Unpaid" otherwise, including when the flag is missing |
| Export.CellsWith | lib/export-utils.ts:19-27 | seven cells in header order: title, service and honor (missing becomes empty), the amount cell, bidder name, bidder email and paid status |
| Export.Cells | lib/export-utils.ts:19-27 | the CSV and Excel amount cell is the current bid rendered as a dollar number |
| Export.CsvLines | lib/export-utils.ts:29-32 | one line more than there are rows: the unquoted header joined by commas first, then one quoted line per row in order |
| Export.HeadersArePlain | lib/export-utils.ts:17 | no header holds a comma, a double quote or a newline |
| Export.CellsArePlain | lib/export-utils.ts:19-27 | when an item's text fields hold no comma, quote or newline, neither does any of its cells |
| Export.LineRoundTrip | lib/export-utils.ts:31 | a line of quoted plain cells holds no newline and reads back as exactly those cells |
| Export.ParseJoinedLines | lib/export-utils.ts:29-32 | newline-free lines joined by newlines split back into the same lines |
| Export.CsvLinesReadBack | lib/export-utils.ts:29-32 | with plain cells every CSV line is newline-free and every data line reads back as its row |
| Export.CsvTextRoundTrip | lib/export-utils.ts:29-32 | reading the CSV text of a plain header and plain rows gives back that header and those rows |
| Export.CsvRoundTrip | lib/export-utils.ts:16-32 | when no cell of any item holds a comma, a quote or a newline, reading the exported CSV gives back the headers and each item's seven cells |
| Export.TableAppend | lib/export-utils.ts:55-69 | adding a row to the table adds exactly one `tr`, after the earlier rows and before the closing tags |
| Export.ExcelAppend | lib/export-utils.ts:41-69 | the Excel table of one more item is the earlier table with exactly one row of the new item's cells added at the end |
| Export.PdfCells | lib/export-utils.ts:82-90 | the printable cells equal the CSV cells except the amount, which is "$" followed by the locale rendering of the bid |
| Board.Spread | components/auction/auction-board.tsx:56 | merging a change takes every column the change carries and keeps the item's value for every column it leaves out, including the joined bidder |
| Board.MergeUpdate | components/auction/auction-board.tsx:52-59 | the item whose id the change names takes the change; every other item is kept and the list keeps its length |
| Board.MergeUpdateIdempotent | components/auction/auction-board.tsx:52-59 | receiving the same change twice leaves the board as receiving it once |
| Board.Search | components/auction/auction-board.tsx:75-82 | the filtered items are exactly those whose title, honor, service, description or bidder name contains the query ignoring case, in their original order |
| Board.EmptySearchKeepsAll | components/auction/auction-board.tsx:75-82 | an empty query keeps every item, in order |
| Common.SortOnStable | components/auction/auction-board.tsx:84-97 | the sort is stable: for every key, the elements carrying it keep their input order |
| Board.Order | components/auction/auction-board.tsx:84-97 | the sorted list is a permutation of the filtered items, ascending by display order by default, descending by bid for Highest, ascending by bid for Lowest and descending by display order for Newest |
| Board.Listed | components/auction/auction-board.tsx:75-97 | the listed items are a rearrangement of exactly the items matching the query |
| Board.NoResultsIffNoMatch | components/auction/auction-board.tsx:255-258 | the no-results message shows exactly when no item matches the query, whatever the ordering |
| Board.Dedup | components/auction/auction-board.tsx:100 | taking a list through a Set keeps each value once, loses no value, adds none, and orders them by first appearance |
| Board.Services | components/auction/auction-board.tsx:100 | the grouping services are distinct and non-empty, each is the service of some item, every item's non-empty service is among them, and they come in order of first appearance among the items |
| Board.Section | components/auction/auction-board.tsx:188 | a section holds exactly the listed items of its service, in listed order |
| Board.Sections | components/auction/auction-board.tsx:187-189 | the grouped view has only non-empty sections, each named by a known service and holding that service's listed items |
| Board.SectionsDistinct | components/auction/auction-board.tsx:187-189 | no two sections share a service |
| Board.EmptyServiceInNoSection | components/auction/auction-board.tsx:100 | an item with an empty service appears in no section |
| Board.ListedServiceKnown | components/auction/auction-board.tsx:75-100 | every listed item's non-empty service is among the board's services |
| Board.ListedItemHasSection | components/auction/auction-board.tsx:187-189 | every listed item with a service appears in the section of that service |
| Dashboard.ApplyUpdate | components/admin/admin-dashboard.tsx:78-83 | an UPDATE replaces each item carrying the row's id by the new row and keeps every other item and the list's length |
| Dashboard.Apply | components/admin/admin-dashboard.tsx:78-88 | an INSERT appends the new row at the end; a DELETE removes every item with the old row's id and keeps every other item in order |
| Dashboard.DeleteUndoesInsert | components/admin/admin-dashboard.tsx:84-87 | deleting a row just inserted under a fresh id gives back the list before the insert |
| Dashboard.DeleteAbsorbsUpdate | components/admin/admin-dashboard.tsx:78-87 | an UPDATE followed by a DELETE of the same id leaves the list the DELETE alone leaves |
| Dashboard.Search | components/admin/admin-dashboard.tsx:126-130 | the filtered items are exactly those whose title or description contains the query ignoring case, in their original order |
| Dashboard.ItemsWithBids | components/admin/admin-dashboard.tsx:133 | the count of items with a bidder is at most the number of items |
| Dashboard.InsertTotals | components/admin/admin-dashboard.tsx:132-133 | an INSERT raises the bid total by the new row's bid and the bidder count by one exactly when the row has a bidder |
| Dashboard.UpdateTotal | components/admin/admin-dashboard.tsx:78-83 | an UPDATE of a row whose id occurs once moves the bid total by the change in that row's bid |
| Countdown.Decompose | components/auction/countdown-timer.tsx:27-59 | no time left gives all zeros; otherwise hours lie in 0..23, minutes and seconds in 0..59, and days are non-negative |
| Countdown.DecomposeAddsUp | components/auction/countdown-timer.tsx:54-59 | days, hours, minutes and seconds add back up to the whole seconds remaining |
| Countdown.FormatNumber | components/auction/countdown-timer.tsx:72 | a number of two or more digits is shown unchanged, a shorter one with one leading zero, so the result has at least two characters |
| Countdown.FormatSmallNumbers | components/auction/countdown-timer.tsx:72 | 0 to 9 show as a zero and the digit, 10 to 99 as their two digits |
| Countdown.Initial | components/auction/countdown-timer.tsx:22-24 | the view starts ended exactly when the status is "ended", with storage as found and no confetti or notification yet |
| Countdown.Tick | components/auction/countdown-timer.tsx:27-59 | time left changes nothing but the display; at or after the end the view is ended and the confetti key is stored, confetti starts only when its key was not yet stored, the winner POST is sent only then and only when its flag was not stored, and afterwards the flag is stored; storage only grows |
| Countdown.RunKeepsStorage | components/auction/countdown-timer.tsx:65-67 | over any run of ticks storage only grows and neither counter decreases |
| Countdown.ConfettiAtMostOnce | components/auction/countdown-timer.tsx:33-39 | over any run of ticks confetti starts at most once for an end time, and never when its key was already stored |
| Countdown.NotificationAtMostOnce | components/auction/countdown-timer.tsx:44-48 | over any run of ticks the winner POST is sent at most once, never while its flag is stored, and never more often than confetti starts |
| AuctionHistory.WithStats | components/admin/auction-history-modal.tsx:61-75 | no rows give four zeros; with rows the item total is their number and the bid count is at most that |
| AuctionHistory.ItemsOf | components/admin/auction-history-modal.tsx:56-59 | the rows fetched for an auction all belong to it |
| AuctionHistory.AllStats | components/admin/auction-history-modal.tsx:54-77 | one entry per auction in the given order, each with the statistics of that auction's own items |
| AuctionHistory.EmptyAuctionHasZeroStats | components/admin/auction-history-modal.tsx:61-67 | an auction with no items gets zero for every statistic |
| AuctionHistory.SumOfMasked | components/admin/auction-history-modal.tsx:63-67 | summing a value masked to zero outside a condition equals summing it over the items that meet the condition |
| AuctionHistory.AmountsAreFilteredSums | components/admin/auction-history-modal.tsx:63-67 | the raised amount is the sum of current bids over the items bid above their start, and the paid amount the sum over the paid items |
| AuctionHistory.AmountsNonNegative | components/admin/auction-history-modal.tsx:63-67 | with no negative bid, neither amount is negative |
| AuctionSetup.AddItem | components/admin/auction-setup.tsx:29-43 | an untitled draft changes nothing; a titled draft is appended to the list and the draft is reset to a blank item; the end date and time are kept |
| AuctionSetup.RemoveAt | components/admin/auction-setup.tsx:46 | an index outside the list changes nothing; an index inside removes exactly that entry |
| AuctionSetup.RemoveItem | components/admin/auction-setup.tsx:45-47 | removing an entry shortens the list by one and shifts the later entries down, an index outside the list changes nothing, and the draft and dates are kept |
| AuctionSetup.EditingKeepsTitles | components/admin/auction-setup.tsx:29-47 | adding and removing keep every listed item titled |
| AuctionSetup.RemoveUndoesAdd | components/admin/auction-setup.tsx:29-47 | removing the entry just added gives back the list before it |
| AuctionSetup.StartAuction | components/admin/auction-setup.tsx:49-72 | a missing end date or time refuses with "Please set end date and time", an empty list with "Please add at least one item", and otherwise the request carries the date, time and items |
| AuctionSetup.EnabledIffSends | components/admin/auction-setup.tsx:214 | when nothing is being submitted, the start button is enabled exactly when pressing it sends the request |
| AuctionSetup.ClearStorage | components/admin/auction-setup.tsx:80-87 | clearing storage removes the winner-notification flag and every confetti key and keeps every other key |
| AuctionSetup.ClearedStorageCelebratesAgain | components/admin/auction-setup.tsx:80-87 | after the storage is cleared, the first tick at or past the end starts the confetti and sends the winner POST again |
| ServiceList.AddService | components/admin/holiday-template-manager.tsx:33-38 | a trimmed, non-empty service not yet listed is appended and the input cleared; anything else leaves list and input as they were |
| ServiceList.RemoveService | components/admin/holiday-template-manager.tsx:40-42 | removing a service drops it completely and keeps every other service in order |
| ServiceList.AddKeepsClean | components/admin/holiday-template-manager.tsx:33-38 | a list of distinct, non-empty services stays so after an add |
| ServiceList.RemoveKeepsClean | components/admin/holiday-template-manager.tsx:40-42 | a list of distinct, non-empty services stays so after a remove |
| ServiceList.RemoveUndoesAdd | components/admin/holiday-template-manager.tsx:33-42 | removing the service just added gives back the list before it |
| ServiceList.Submit | components/admin/add-template-modal.tsx:30-53 | a blank name refuses with "Please enter a template name", an empty list with "Please add at least one service", and otherwise the request carries the trimmed name and the services |
| ServiceList.SubmittedPassesRouteCheck | components/admin/holiday-template-manager.tsx:44-65 | a request the editor sends is never refused by the route's required-fields check |
| ServiceList.AfterReply | components/admin/holiday-template-manager.tsx:67-76 | a successful reply clears the name and the list and closes the form; a failure leaves the form as it was |
| ServiceList.Deletable | components/admin/holiday-template-manager.tsx:211-219 | the templates offered for deletion are at most the listed ones |
| ServiceList.DeletableIffNotDefault | components/admin/holiday-template-manager.tsx:20-219 | with distinct ids, a template gets a delete button exactly when its name is not one of the three default names |
| ServiceList.DeletableIds | components/admin/holiday-template-manager.tsx:211-219 | every id offered for deletion belongs to a listed template |
| ServiceList.DefaultsAreProtected | components/admin/holiday-template-manager.tsx:211-219 | a default template never gets a delete button |
| MoveBid.HandleMove | components/admin/move-bid-modal.tsx:34-65 | no target refuses with "Please select a target item", the same item with "Cannot move bid to the same item", an item without a bidder with "No bidder to move"; otherwise the request carries both ids, the current bid, the bidder's name and email and the reset choice |
| MoveBid.AvailableItems | components/admin/move-bid-modal.tsx:80 | the offered targets are every other item, in order |
| MoveBid.OfferedTargetMoves | components/admin/move-bid-modal.tsx:35-80 | picking any offered target sends the move exactly when the item has a bidder |

## Left out

- The competitive check of a bid is the `place_bid` database function, which is not part of this model; its answer is an input of the bid route.
- Concurrency is not modelled: each route runs alone against the store, so races between two bids, two webhook deliveries or two winner runs are out of scope.
- The Stripe, Resend and Supabase SDKs are not modelled. Each call's outcome is an input: success or failure, the ids the store assigns, the processor's reply. A read whose error the route ignores is an input too, and its failure is read as the null row the route then sees (the winner-log lookup, the highest display order in create-item).
- A request body that is not JSON is not modelled: `request.json()` throws, and each POST or PUT route answers its catch-all 500 (for example 500 "Failed to place bid" at app/api/bid/route.ts:59-63). The request values of the model are already-parsed bodies.
- Payments.CreatePaymentIntent: `coverProcessingFee` is absent, null or a boolean. Other JSON values, which the route would store as given and test for truthiness, are not modelled.
- Admin authentication (JWT cookies, lib/auth.ts) is a boolean input of each admin route.
- Clocks and dates are inputs. A datetime string's validity and instant come from a given format check; the countdown takes the remaining milliseconds.
- Floating-point arithmetic is replaced by exact cents. The dollar formulas of lib/stripe/helpers.ts are restated over exact reals only to relate them to the cents model.
- `toLocaleString`, `toFixed` and the currency formatting of the mails and the printable page are parameters or left out; mail and page markup and styling are not modelled.
- Common.Lower lower-cases ASCII letters only; JavaScript's full Unicode case mapping is not modelled.
- The DOM, Blob downloads, `window.print`, toasts, console logging, confirm dialogs and routing are left out.
- Export.PdfCells models the cells of the printable page; the whitespace and head of the generated HTML page are left out.
- AuctionSetup.StartAuction stops at the request the form sends. The form sends only the end date and the items, which the start route's schema refuses; the route side is modelled by Lifecycle.StartAuction.
- Notifications assumes that a failed mail send throws, so a failed winner mail is not logged and an outbid failure is logged as failed. The Resend SDK can also report an error in its return value, which the source does not inspect.
- Payments.HandlePaymentFailed follows the code: the failed handler does not check the record's current status, so a failed event, which a processor may deliver late or more than once, overwrites a record already marked succeeded. Payments.FailedAfterSucceededOverwrites states this behaviour.
- The admin GET of /api/admin/auction (`.in('status', ['active', 'ended']).single()`) is not modelled as a separate member; Common.Single is the same lookup.
- Lifecycle.CreateItemWith: the create-item route does not send service and honor, so the new item has empty ones. The body is taken as already typed: a null or non-numeric startingBid is not modelled.
- ItemAdmin.EditRowAsWritten: an absent and a null `startingBid` are both None. They agree on `startingBid || 18.00`, but in the reset the source writes null to `current_bid` for a null value and drops the column for an absent one; the model keeps the current bid in both cases.
- Lifecycle.CoerceNumber: `z.coerce.number()` is reduced to its outcome. A value is either a number, null, or something that becomes NaN; string-to-number conversion is not modelled.
- The `updated_at` column of stripe_payments, payment_settings and bid_item_templates is not modelled. The source sets it to the current time in the webhook handlers (app/api/stripe/webhook/route.ts:91 and :114), in the settings POST (app/api/payment-settings/route.ts:65) and in both template writes (app/api/admin/bid-templates/route.ts:93, app/api/admin/bid-templates/update/route.ts:49). The stripe_accounts row keeps both timestamps as inputs, and its creation time orders the rows. Other `created_at` values are given as inputs.
- Payments.SucceededIdempotent: holds only without `updated_at`. In the source a second delivery writes a newer timestamp to the intent's records.
- Payments.FailedIdempotent: holds only without `updated_at`. In the source a second delivery writes a newer timestamp to the intent's records.
- Settings.SaveIdempotent: holds only without `updated_at`. In the source a repeated POST writes a newer timestamp to the settings row.
- BidTemplates.UpdateTemplateItemIdempotent: holds only without `updated_at`. In the source a repeated PUT writes a newer timestamp to the row.
- Orderings by text columns use the store's order for equal keys; database collation is not modelled.
- Settings.SaveSettings takes both settings as given values. A POST that leaves one out, which the source would write as undefined, is not modelled, and the reply is reduced to the two settings.
- Board.Spread keeps the joined bidder of the old item: a realtime row carries only `current_bidder_id`, so the board shows the old bidder's name until it reloads. The model states this and does not correct it.
- Export.CsvRoundTrip holds only for cells without a comma, a double quote or a newline, because the export does not escape cells.
- AuctionHistory.AllStats keeps the order in which the auctions are given; the `created_at` ordering of the query is not modelled.
- MoveBid.HandleMove stops at the request; the move-bid route and the fetch outcome are not part of this model.

## Findings

| source | as written | input that shows it | evidently intended | confidence | as-written member | corrected member |
|---|---|---|---|---|---|---|
| app/api/admin/create-item/route.ts:17-25 | the target auction is read with `.in('status', ['active', 'ended']).single()`, which returns no row once two auctions exist | any store where a second auction was started (the first is ended, not deleted) | add the item to the single active auction | not executed | Lifecycle.RestartBlocksCreateItem | Lifecycle.CreateItemJoinsStartedAuction |
| lib/email/sender.ts:107 | the winner's bidder is read as `item.current_bidder[0]`, but a to-one join comes back as an object, so the read is undefined and the winner is skipped | any store with a won item, the joined bidder an object; for instance one item won by dana@example.org | read `item.current_bidder` itself | not executed | Notifications.IndexZeroSkipsEveryWinner | Notifications.NormalizedReadMailsWinner |
| app/api/admin/auction-items/update/route.ts:56-62 | the reset writes the raw `startingBid` to `current_bid`, while `starting_bid` gets the starting bid with 0 or a missing value replaced by 18 | an unbid item at 18.00 edited with a starting bid of 0 | the current bid of an unbid item follows the stored starting bid | not executed | ItemAdmin.ZeroStartingBidZeroesCurrentBid | ItemAdmin.UnbidItemTracksStartingBid |
