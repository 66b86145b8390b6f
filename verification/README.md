# Gift marketplace backend: verified model

A Dafny model of the parts of the backend where money, files and uniqueness are at stake, with proofs about
whole runs. Amounts are integer cents unless a module says otherwise. A database row is a datatype value, a
table a sequence (a row's id is its position) or a map by id; a thrown exception is a `Failed` result that
leaves every table as it was.

The files, by topic:

- `Results`, `Bits`, `Sets`, `Decimal`, `Utf8`: options and results, bytes and bits, sizes of sets, number
  printing, text encoding.
- `Crc32`, `Zip`, `Csv`, `Xml`, `Worksheet`, `Workbook`: the hand-written export encoder. Each format is written
  as the service writes it, and read back by an independent reader that follows the format's own definition; the
  sheet's reader refuses forbidden characters and normalizes line ends as XML 1.0 demands of every reader.
- `Money`: wallets, ledger entries, orders and payouts, and every action on them as a function from the rows
  before to the rows after, with card payments among the actions. `Ledger`, `MoneyInvariant` and `Conservation`
  prove what every reachable state satisfies, `Outcomes` what each action writes, row by row, and exactly when it is
  accepted; `Orders`, `OrderEntries`, `Charges`, `Payouts`, `Rewards` prove what
  runs do to one order, payout or reward, and `CardPayments` exactly when a card payment leaves that intact.
  `Rounding` and `DebitArithmetic` relate the floating-point amounts to the integer ones.
- `MoneyStore`: the same tables as a class whose methods run the repositories' writes one after the other, each
  proved to end where the corresponding function of `Money` says. Those that are whole actions keep `Valid`, the
  invariant of every run.
- `TopUp`: the concurrent confirmation of wallet top-ups as interleaved steps, with any other action in between.
- `Refunds`, `RefundStore`: refund requests settled by admins and by providers on the same rows.
- `Tiers`, `Earnings`, `Months`: commission tiers, the two-stage earning distribution, month buckets of payouts.
- `Variants`, `VariantStore`, `Slugs`: variant upserts of the two gift services, and the search for free slugs.

In `MoneyStore`, `RefundStore`, `Tiers`, `VariantStore` and `Slugs` the classes hold the tables as fields; the
functions they are proved against are in the modules the rows below name.

## What turned out not to hold

Where the code does not do what its comments or checks suggest, the model follows the code, a lemma gives a
concrete case, and another says exactly when it does hold.

- A manual top-up confirmation acts on what it read before it asked Stripe. It can answer SUCCESS or FAILED about a
  row that another confirmation settled the other way meanwhile, its own flip changing nothing
  (`TopUp.ToldSuccessWhileFailed`), and PENDING about one that is settled by then
  (`TopUp.ToldPendingWhileSuccess`). `TopUp.AnswerTruth` says exactly when. No money moves wrongly.
- A confirmed card payment accepts its order whatever the order's status and without charging the wallet; a failed
  one cancels it. The order can then be delivered and earned with no payment in the ledger
  (`CardPayments.DeliveredUnpaid`), and a completed one goes back to accepted (`Orders.CompletedAcceptedAgain`).
  The totals of held orders keep adding up whatever happens later if and only if the card payment found the order
  held, paid from the wallet and neither earned nor given back (`CardPayments.HeldAfterCard`); the order is
  delivered only paid and earned once if and only if it found it paid and not given back
  (`CardPayments.DeliveredAfterCard`). Wallets, the ledger and payouts stay right in every case
  (`Conservation.GlobalConservation`).
- Giving back a failed payout does not look at the payout's status: after a rejection, a cancellation or an earlier
  failure the same money is returned again (`Payouts.PaidBackTwice`, `Payouts.FailedTwice`). The wallet agrees with
  the ledger afterwards exactly when the payout's debit was still pending (`Payouts.FailedPayoutAgrees`). Nothing
  in the repository calls it; it is therefore not one of the actions of a run.
- Admin refunds bound the sum of the requests of a payment, providers that of an order. When a request was filed
  without its payment, the order can be refunded beyond its total, by a full or a partial admin refund
  (`Refunds.RefundedTwiceOver`, `Refunds.PartlyTwiceOver`); exactly which refunds do is
  `Refunds.AdminRefundWithinTotal`. Such a request rests on the optional `payment_id` of the table
  (prisma/schema.prisma:1222): no code in the repository files refund requests.
- The sheet export escapes markup but passes on characters that XML forbids, which make the sheet unreadable, and
  carriage returns, which every XML reader turns into line feeds (`Worksheet.LineBreakLost`,
  `Worksheet.ControlRefused`). The rows are read back exactly when no text holds either (`Worksheet.RoundTrip`).
- The status an admin sees counts a payment's requests of every status as refunded, rejected ones too. A rejected
  request of the whole amount leaves all of it to refund and still no admin refund is accepted
  (`Refunds.RejectedBlocks`), now or in any later run (`Refunds.BlockedForever`); `Refunds.CanBeRefunded` says
  exactly which payments with something left can be refunded.
- An admin refund's transaction id is made from the payment's id and must be unique, so a payment can be refunded
  by an admin only once, even in part (`Refunds.OneAdminRefund`).
- A tier threshold is checked as requested but stored rounded to cents, so 10 and 10.004 become two tiers of the
  same threshold (`Tiers.TenTwice`, `Tiers.DistinctIffWholeCents`, `Tiers.UpdateDistinctIffWholeCents`).
- Month ranges use `Date.UTC`, which reads the years 0 to 99 as 1900 to 1999; ranges that start there do not meet
  (`Months.RangesAdjacent`), the trend counts some payouts twice (`Months.TrendAddsUp`), and the last range misses a
  current date there (`Months.LastRangeHoldsNow`).
- Renaming a gift to the name it has changes its slug when an earlier candidate has become free since
  (`Slugs.RenameAfterDelete`, exactly when: `Slugs.RenameKeeps`).
- The CSV export of a row without cells is an empty line, which reads back as a row of one empty cell
  (`Csv.RoundTrip` holds exactly without such rows).
- Two incoming variant entries with the same id make gift management keep fewer variants than entries
  (`Variants.ReplaceCounts`).

## Model

| member | source | states |
|---|---|---|
| Crc32.ConstantsAsWritten | src/modules/provider-management/provider-management.service.ts:591-595 | the generator polynomial of section 8 of RFC 1952, bit-reversed, is the constant 0xedb88320 of the loop, and the start register 0xffffffff |
| Crc32.Compute | src/modules/provider-management/provider-management.service.ts:590-600 | the two nested loops end with the checksum of the register machine fed with all bytes |
| Crc32.FeedIsRun | src/modules/provider-management/provider-management.service.ts:592-597 | feeding bytes with eight rounds each is shifting the message through the register bit by bit, lowest bit first |
| Crc32.ByteStepBijective | src/modules/provider-management/provider-management.service.ts:593-596 | for every byte, the step is a bijection on the 32-bit registers |
| Crc32.RunBijective | src/modules/provider-management/provider-management.service.ts:592-597 | for every message, different registers before are different registers after, and every register is reached |
| Crc32.BurstRegister | src/modules/provider-management/provider-management.service.ts:592-597 | two messages that differ only within a window of at most 32 bits leave different registers |
| Crc32.BurstDetected | src/modules/provider-management/provider-management.service.ts:590-600 | two buffers of equal length that differ only within at most four consecutive bytes have different checksums |
| Crc32.RunDivides | src/modules/provider-management/provider-management.service.ts:592-597 | the register is the remainder of a polynomial division of the message by the generator |
| Crc32.RemainderUnique | src/modules/provider-management/provider-management.service.ts:594-596 | quotient and remainder of a division by the generator are unique |
| Crc32.ChecksumIsRemainder | src/modules/provider-management/provider-management.service.ts:590-600 | the checksum is the complement of the remainder of the preset message, as section 8 of RFC 1952 defines it |
| Zip.HeadersAsWritten | src/modules/provider-management/provider-management.service.ts:557-580 | the three headers begin with the signature bytes of APPNOTE.TXT 4.3.7, 4.3.12 and 4.3.16 and the version 2.0, and hold zeros in every field not written |
| Zip.BuildLocalHeader | src/modules/provider-management/provider-management.service.ts:557-563 | the zeroed buffer filled at the written offsets is the local file header of APPNOTE.TXT 4.3.7 |
| Zip.BuildCentralHeader | src/modules/provider-management/provider-management.service.ts:566-574 | likewise the central directory header of 4.3.12 |
| Zip.BuildEndRecord | src/modules/provider-management/provider-management.service.ts:580-585 | likewise the end of central directory record of 4.3.16 |
| Zip.ZipStore | src/modules/provider-management/provider-management.service.ts:548-588 | succeeds exactly when every value fits its 16- or 32-bit field, and then returns local records, central directory and end record one after the other |
| Zip.FitsMeans | src/modules/provider-management/provider-management.service.ts:557-585 | it fits exactly when names' lengths and the number of files are at most 65535 and all other sizes and offsets at most 4294967295 |
| Zip.RoundTrip | src/modules/provider-management/provider-management.service.ts:548-588 | a reader that finds the end record, walks the directory and follows each offset and demands of each local header the directory's name, checksum and sizes, recovers the same names, contents and checksums in order; the recorded directory size and offset are the true ones |
| Csv.RoundTrip | src/modules/provider-management/provider-management.service.ts:529-531 | a reader of section 2 of RFC 4180 that accepts a line feed gets back the same rows, with quotes, commas and line breaks in them, if and only if no row is empty |
| Csv.ExportGrows | src/modules/provider-management/provider-management.service.ts:529-531 | every cell is between quotes, a comma before each but the first of a row, a line feed alone before each row but the first |
| Worksheet.ColumnName | src/modules/provider-management/provider-management.service.ts:602-612 | the loop computes the spreadsheet letters of the column |
| Worksheet.NumberOfLetters | src/modules/provider-management/provider-management.service.ts:602-612 | the letters of a number denote that number in bijective base 26 |
| Worksheet.LettersOfNumber | src/modules/provider-management/provider-management.service.ts:602-612 | every string of letters is the name of the column it denotes, so names and columns correspond one to one |
| Worksheet.EscapeIsOnePass | src/modules/provider-management/provider-management.service.ts:614-621 | the five replacements one after the other equal replacing each character once, so no entity is escaped again |
| Worksheet.EscapeRoundTrip | src/modules/provider-management/provider-management.service.ts:614-621 | unescaping returns the text, and the escaped text holds no markup character |
| Worksheet.ReferenceReads | src/modules/provider-management/provider-management.service.ts:536 | a cell reference decodes to its own column and row |
| Worksheet.MarkupAsWritten | src/modules/provider-management/provider-management.service.ts:534-538 | cells are inline strings with their reference, in rows with their number |
| Worksheet.CellReads | src/modules/provider-management/provider-management.service.ts:536 | a reader that normalizes line ends scans a generated cell back to its position and its text with line ends normalized, which is the text if and only if it holds no carriage return |
| Worksheet.RoundTrip | src/modules/provider-management/provider-management.service.ts:534-538 | a reader of XML 1.0 gets the rows back if and only if no text holds a character of none of section 2.2's ranges or a carriage return; otherwise it gets nothing, or the texts with line ends normalized as section 2.11 says |
| Worksheet.LineBreakLost | src/modules/provider-management/provider-management.service.ts:614-621 | a text with a carriage return and a line feed comes back with the line feed alone |
| Worksheet.ControlRefused | src/modules/provider-management/provider-management.service.ts:614-621 | a text with the character U+0001 makes the rows unreadable |
| Worksheet.ReadInPlace | src/modules/provider-management/provider-management.service.ts:534-538 | when XML carries every text, an XML reader finds the j-th text of the i-th row at column j of row i, unchanged if and only if it holds no carriage return |
| Utf8.RoundTrip | src/modules/provider-management/provider-management.service.ts:554-555 | a strict decoder of RFC 3629 reads back every text from its encoded bytes |
| Workbook.BuildXlsxExport | src/modules/provider-management/provider-management.service.ts:533-546 | succeeds exactly when the archive fits; the returned bytes then unpack, decode and read as XML to the exported rows if and only if no text holds a forbidden character or a carriage return |
| Workbook.WorkbookReads | src/modules/provider-management/provider-management.service.ts:533-546 | following the package's relationship to the workbook and the workbook's to the sheet, decoding it and reading its XML gives what reading its rows gives: every text at its own row and column with line ends normalized, or nothing |
| Workbook.PartsRefer | src/modules/provider-management/provider-management.service.ts:539-545 | the workbook and the sheet have their content types, the two relationships their types, and the sheet of the workbook carries the id of the relationship that leads to it |
| Workbook.NamesAsWritten | src/modules/provider-management/provider-management.service.ts:540-544 | the names of the parts in full |
| MoneyInvariant.DebitKeeps | src/modules/provider-orders/provider-orders.repository.ts:107-121 | charging an order keeps the invariant: the wallet agrees with the ledger and neither of its fields goes negative |
| MoneyInvariant.EarnKeeps | src/modules/provider-orders/provider-orders.repository.ts:92-103 | the earning step keeps the invariant whether it credits for the first time or finds its entry |
| MoneyInvariant.UpdateOrderStatusKeeps | src/modules/provider-orders/provider-orders.service.ts:80-95 | every accepted status change keeps the invariant, whatever wrote the order's status before |
| MoneyInvariant.CancelOrderKeeps | src/modules/customer-marketplace/repositories/customer-orders.repository.ts:90-118 | cancelling an order keeps the invariant, however it was paid |
| MoneyInvariant.RequestPayoutKeeps | src/modules/provider-earnings-payouts/repositories/provider-earnings-payouts.repository.ts:126-134 | requesting a payout keeps the invariant |
| MoneyInvariant.VoidShare | src/modules/admin-provider-payouts/admin-provider-payouts.repository.ts:61-62 | voiding the entries of a payout with one debit is worth its amount to the debit's wallet if it was still pending, and nothing to any other |
| MoneyInvariant.ReleaseKeeps | src/modules/admin-provider-payouts/admin-provider-payouts.repository.ts:57-73 | releasing an unreturned payout keeps the invariant |
| MoneyInvariant.RunKeeps | src/modules/provider-orders/provider-orders.repository.ts:92-121 | every run of actions, card payments included, keeps the invariant: wallets agree with the ledger, no balance is negative, each entry of an order is on its party's wallet and of the right amount, each payout has its one debit |
| Conservation.GlobalConservation | src/modules/provider-orders/provider-orders.repository.ts:92-121 | after any run from empty tables, card payments included, wallets, what is booked on orders and unreturned payouts add up to settled top-ups and reward credits |
| Conservation.HeldConservation | src/modules/provider-orders/provider-orders.repository.ts:92-121 | in runs in which card payments only ever confirmed held orders, or none was, what is booked on orders is the totals of orders paid and neither earned nor given back |
| Conservation.LedgerAgreement | src/modules/customer-wallet/customer-wallet.repository.ts:67-100 | after any run, a customer's cash and credits are settled credits less settled debits, a provider's balance settled credits less pending and settled debits, and none is negative |
| Orders.StepMovesOrder | src/modules/provider-orders/provider-orders.service.ts:127 | no action changes an order but for its status, and that only along an allowed transition, to CANCELLED by a settled refund or a failed card payment, or to ACCEPTED by a confirmed one |
| Orders.ChangesBounded | src/modules/provider-orders/provider-orders.service.ts:80-95 | in any run an order changes status at most as often as its rank can still rise, once more with a refund or failed card payment; each confirmed card payment adds as many changes as a newly accepted order has, and its own |
| Orders.AtMostFiveChanges | src/modules/provider-orders/provider-orders.service.ts:80-95 | a new order whose status no refund or card payment writes changes status at most five times |
| Orders.CompletedAcceptedAgain | src/modules/payments/services/payments.service.ts:98-99 | a confirmed card payment takes a completed order back to accepted |
| OrderEntries.EachKindOnce | src/modules/provider-orders/provider-orders.repository.ts:98-99 | in no run, card payments included, has an order two entries of one kind |
| OrderEntries.StepKeepsOrder | src/modules/payments/repositories/payments.repository.ts:81-83 | every action keeps an order's entries fitting its status, except that a confirmed card payment does if and only if the order is held |
| OrderEntries.RunKeepsOrder | src/modules/provider-orders/provider-orders.service.ts:80-95 | in every run, an order that card payments only confirmed while it was held has exactly the entries its status calls for |
| OrderEntries.DeliveredIsPaidAndEarned | src/modules/provider-orders/provider-orders.service.ts:86-92 | in every run, an order that card payments only confirmed while it was held is delivered or completed only with exactly one payment and one earning, both of its total and by its own parties, and no other entry |
| Charges.AcceptanceCharges | src/modules/provider-orders/provider-orders.service.ts:85-90 | accepting a pending order charges the customer exactly when a wallet covers the total, gift credits first; otherwise nothing changes and the order stays pending |
| Charges.DeductionIsNearest | src/modules/customer-marketplace/services/customer-marketplace.service.ts:272-275 | whatever floating point loses on the way, up to a millionth, the deduction is a whole number of cents nearest to the policy's percentage |
| Charges.CancellationSplits | src/modules/customer-marketplace/services/customer-marketplace.service.ts:261-287 | cancelling gives the order's whole total back, the deduction to the platform and the rest to the customer in cash, and touches no other wallet, if and only if the customer has a wallet and neither part was given back before |
| Charges.HeldCanSplit | src/modules/customer-marketplace/repositories/customer-orders.repository.ts:90-118 | for an order paid from the wallet and still held that is so |
| CardPayments.DeliveredUnpaid | src/modules/payments/services/payments.service.ts:98-99 | an order created, confirmed by card, shipped and delivered: 500 earned, no payment entry |
| CardPayments.HeldAfterCard | src/modules/payments/services/payments.service.ts:233-234 | after a confirmed card payment the order's booked money stays its total while held and nothing otherwise, whatever happens later, if and only if it found the order held or the total is zero |
| CardPayments.DeliveredAfterCard | src/modules/payments/services/payments.service.ts:233-234 | after a confirmed card payment the order is, whatever happens later, delivered only paid and earned exactly once if and only if the wallet had paid and nothing had been given back |
| Payouts.StepMovesPayout | src/modules/admin-provider-payouts/admin-provider-payouts.service.ts:98-121 | no action changes a payout unless it is pending or on hold |
| Payouts.RejectedMatchesCancelled | src/modules/admin-provider-payouts/admin-provider-payouts.repository.ts:60-63 | in every reachable state a payout has exactly one entry, the debit of its amount, cancelled exactly when the payout is rejected or cancelled |
| Payouts.SettledEntryStays | src/modules/admin-provider-payouts/admin-provider-payouts.service.ts:98-121 | a settled payout and its entry never change in any later run |
| Payouts.AdminRunReturns | src/modules/admin-provider-payouts/admin-provider-payouts.service.ts:98-121 | every run of approve, hold and reject pays each wallet exactly the payouts it left rejected, each once, and moves nothing else |
| Payouts.ReleasePays | src/modules/admin-provider-payouts/admin-provider-payouts.repository.ts:60-63 | a step that returns a payout pays exactly its amount to its wallet and nothing to any other |
| Payouts.ReturnedOnceIffRejected | src/modules/admin-provider-payouts/admin-provider-payouts.repository.ts:57-73 | in any run, whatever else is open, a payout is returned once if it ends rejected or cancelled and never otherwise |
| Payouts.AdminKeepsOwn | src/modules/admin-provider-payouts/admin-provider-payouts.service.ts:98-121 | admin actions never cancel a payout nor move it to another wallet, so under them alone returned is rejected |
| Payouts.RejectUndoesRequest | src/modules/admin-provider-payouts/admin-provider-payouts.repository.ts:59-63 | rejecting a payout just requested restores every wallet and leaves only the cancelled debit behind |
| Payouts.BulkOutcome | src/modules/admin-provider-payouts/admin-provider-payouts.service.ts:123-136 | for any ids, repeated, unknown or in a wrong state: one result per id in order, told by the state before and earlier occurrences; exactly the open payouts named become PROCESSING; wallets, ledger and orders are untouched |
| Payouts.BulkOrderFree | src/modules/admin-provider-payouts/admin-provider-payouts.service.ts:123-136 | the state after a bulk does not depend on order or repetition of the ids |
| Payouts.BulkTwice | src/modules/admin-provider-payouts/admin-provider-payouts.service.ts:123-136 | a second run changes nothing, repeats the failures and reports every success as idempotent |
| Payouts.FailedPayoutAgrees | src/modules/provider-earnings-payouts/repositories/provider-earnings-payouts.repository.ts:114-120 | for a payout of any status with its one debit on an agreeing wallet, giving it back as failed keeps the wallet in agreement with the ledger if and only if the debit is still pending or of amount zero |
| Payouts.FailedReachablePayout | src/modules/provider-earnings-payouts/services/provider-earnings-payouts.service.ts:114-118 | in a reachable state that is: if and only if the payout was not rejected or cancelled |
| Payouts.PaidBackTwice | src/modules/provider-earnings-payouts/services/provider-earnings-payouts.service.ts:114-118 | a payout of 100 rejected and then given back leaves 200 in the wallet |
| Payouts.FailedTwice | src/modules/provider-earnings-payouts/services/provider-earnings-payouts.service.ts:114-118 | a payout of 100 given back as failed twice leaves 200 in the wallet |
| Payouts.SettlingAgrees | src/modules/admin-provider-payouts/admin-provider-payouts.repository.ts:64-67 | settling a payout's debit changes no wallet, leaves each in agreement with the ledger as it was, and leaves none of its entries pending |
| Rewards.RewardPaidOnce | src/modules/customer-wallet/customer-wallet.service.ts:117-123 | in no run is a wallet credited the same reward twice |
| Rewards.RedeemIsCredits | src/modules/customer-wallet/customer-wallet.repository.ts:95-100 | redeeming adds to the gift credits and not to the cash, and redeeming again changes nothing |
| Rounding.ToFixedIsNearest | src/modules/provider-orders/provider-orders.repository.ts:123 | `toFixed(2)` as section 21.1.3.3 of ECMA-262 defines it is rounding the magnitude half up, and nothing else is |
| Rounding.RoundsBack | src/modules/provider-orders/provider-orders.repository.ts:123 | a cent amount survives rounding exactly when its error is under half a cent |
| DebitArithmetic.RefusesExactly | src/modules/provider-orders/provider-orders.repository.ts:115 | the `+ 1e-9 <` test refuses exactly when funds fall short, for all cent amounts, if and only if the accumulated error lies in [-1e-9, 0.01 - 1e-9) |
| DebitArithmetic.SplitExact | src/modules/provider-orders/provider-orders.repository.ts:112-119 | with errors up to 1e-9 the parts add up to the total to the cent, gift credits go first, and neither field goes negative |
| DebitArithmetic.DebitIsInteger | src/modules/provider-orders/provider-orders.repository.ts:107-121 | so the charge on the rows is the one in integer cents |
| Outcomes.OpenedTopUp | src/modules/customer-wallet/customer-wallet.service.ts:31-42 | opening a top-up appends one pending credit of the amount asked for, on the customer's own wallet, and moves no balance |
| Outcomes.SettledTopUp | src/modules/customer-wallet/customer-wallet.repository.ts:70-89 | only a pending top-up is settled; success pays its amount in cash to its own wallet, failure pays nothing |
| Outcomes.TopUpArrives | src/modules/customer-wallet/customer-wallet.service.ts:31-42 | adding funds and confirming pays exactly the amount asked for, once; failing pays nothing, then or later |
| Outcomes.RedeemedReward | src/modules/customer-wallet/customer-wallet.service.ts:117-123 | a reward is written and paid in gift credits unless the wallet was credited it before |
| Outcomes.CreatedOrder | src/modules/customer-marketplace/services/customer-marketplace.service.ts:233 | a new order is pending, behind the others, and charges nothing |
| Outcomes.UpdateAccepted | src/modules/provider-orders/provider-orders.service.ts:80-95 | a change is accepted if and only if the order is the provider's own, the move is one of the eleven listed, a rejection gives its reason, and a pending order to be accepted can be paid |
| Outcomes.AcceptedOrder | src/modules/provider-orders/provider-orders.repository.ts:107-121 | accepting takes the total from the customer's wallet, gift credits before cash, with one payment entry, once; refused when the wallet falls short |
| Outcomes.EarnedOrder | src/modules/provider-orders/provider-orders.repository.ts:92-103 | delivering and completing pay the provider the total in cash with one earning entry, once |
| Outcomes.OnlyStatus | src/modules/provider-orders/provider-orders.service.ts:90-92 | every other change, a settled refund and a card payment write the status alone: CANCELLED, ACCEPTED or the one asked for |
| Outcomes.CancelAccepted | src/modules/customer-marketplace/services/customer-marketplace.service.ts:261-267 | a cancellation is accepted if and only if the order is the customer's own and ACCEPTED or PROCESSING, which then is CANCELLED |
| Outcomes.CancelledOrder | src/modules/customer-marketplace/repositories/customer-orders.repository.ts:90-118 | the rest goes to the customer's wallet, if there is one, and the deduction to the platform's, each positive part once with its entry |
| Outcomes.RequestedPayout | src/modules/provider-earnings-payouts/services/provider-earnings-payouts.service.ts:66-84 | requested if and only if the amount is positive and the provider's wallet covers it; pending, with a pending debit, the amount taken out |
| Outcomes.ApprovedPayout | src/modules/admin-provider-payouts/admin-provider-payouts.service.ts:98-105 | a payout pending or on hold becomes PROCESSING, one processing or completed is left as it is, any other refused |
| Outcomes.HeldPayout | src/modules/admin-provider-payouts/admin-provider-payouts.service.ts:107-113 | a payout is held if and only if it is pending; it becomes ON_HOLD and nothing else changes |
| Outcomes.RejectedPayout | src/modules/admin-provider-payouts/admin-provider-payouts.service.ts:115-121 | a payout is rejected if and only if it is pending or on hold; it becomes REJECTED, its debit cancelled, its amount returned |
| Outcomes.CancelledPayout | src/modules/provider-earnings-payouts/services/provider-earnings-payouts.service.ts:93-105 | a provider cancels exactly a pending payout of its own wallet; it becomes CANCELLED, its debit too, its amount returned |
| Outcomes.FailedPayout | src/modules/provider-earnings-payouts/repositories/provider-earnings-payouts.repository.ts:114-120 | a payout of the provider's own wallet becomes FAILED, its pending debit too, its amount returned; any other is left alone |
| Outcomes.TransitionedPayout | src/modules/admin-provider-payouts/admin-provider-payouts.repository.ts:57-73 | releasing returns the amount and cancels the debit, settling makes it final, neither writes the status alone |
| MoneyStore.Store.AddFunds | src/modules/customer-wallet/customer-wallet.service.ts:31-47 | a known idempotency key writes no row; otherwise a pending credit entry is written and no money moved, and the key is known from then on unless Stripe fails or the key is already taken |
| MoneyStore.Store.CompleteWalletTopUp | src/modules/customer-wallet/customer-wallet.repository.ts:70-77 | the conditional flip credits the given wallet with the given amount exactly when it finds the row pending, and reports so; with the row's own wallet and amount it is the completing action |
| MoneyStore.Store.UpdateWalletTopUpStatus | src/modules/customer-wallet/customer-wallet.repository.ts:87-89 | fails a row exactly when it exists, is on the user's own wallet and is pending |
| MoneyStore.Store.CreditRewardRedemption | src/modules/customer-wallet/customer-wallet.service.ts:117-123 | ends where the redeeming action says |
| MoneyStore.Store.DebitCustomerWalletForOrder | src/modules/provider-orders/provider-orders.repository.ts:107-121 | ends where the charge says, with its refusals and nothing written on them |
| MoneyStore.Store.UpsertOrderEarningLedger | src/modules/provider-orders/provider-orders.repository.ts:92-103 | ends where the earning step says, creating the wallet when missing |
| MoneyStore.Store.UpdateOrderStatus | src/modules/provider-orders/provider-orders.service.ts:80-95 | checks, charge, status and earning in order end where the action says, with the same refusals |
| MoneyStore.Store.CancelOrderWithRefund | src/modules/customer-marketplace/repositories/customer-orders.repository.ts:90-118 | refund, fee and status writes in order, each of the first two once per order |
| MoneyStore.Store.CancelOrder | src/modules/customer-marketplace/services/customer-marketplace.service.ts:261-287 | ends where the action says and answers the refund |
| MoneyStore.Store.UpdateOrderByPayment | src/modules/payments/repositories/payments.repository.ts:81-83 | writes ACCEPTED or CANCELLED over any status |
| MoneyStore.Store.RequestPayout | src/modules/provider-earnings-payouts/services/provider-earnings-payouts.service.ts:66-84 | takes the amount out of the wallet with a pending debit exactly when the balance covers it |
| MoneyStore.Store.CancelPayoutRequest | src/modules/provider-earnings-payouts/services/provider-earnings-payouts.service.ts:93-105 | a pending payout of the provider's own is cancelled and its money returned |
| MoneyStore.Store.TransitionPayout | src/modules/admin-provider-payouts/admin-provider-payouts.repository.ts:57-73 | release, settlement and status in order, as the payout actions say |
| MoneyStore.Store.ReturnFailedPayoutBalance | src/modules/provider-earnings-payouts/repositories/provider-earnings-payouts.repository.ts:114-120 | status, entry and wallet writes in order, without looking at the status before |
| MoneyStore.Store.Approve | src/modules/admin-provider-payouts/admin-provider-payouts.service.ts:98-105 | approves an open payout, and reports one already approved as idempotent |
| MoneyStore.Store.Hold | src/modules/admin-provider-payouts/admin-provider-payouts.service.ts:107-113 | ends where the holding action says, which `Outcomes.HeldPayout` pins down: exactly a pending payout becomes ON_HOLD |
| MoneyStore.Store.Reject | src/modules/admin-provider-payouts/admin-provider-payouts.service.ts:115-121 | rejects exactly an open payout and releases its money |
| MoneyStore.Store.BulkAction | src/modules/admin-provider-payouts/admin-provider-payouts.service.ts:123-136 | the loop over the ids ends with the state and the results of the bulk |
| TopUp.StepKeepsTopUp | src/modules/customer-wallet/customer-wallet.repository.ts:67-77 | no action changes a top-up row but for its status, and that only once, from pending |
| TopUp.UnfoldRefines | src/modules/customer-wallet/customer-wallet.service.ts:78-115 | every interleaving of confirmations acting on stale reads, with any other action in between, leaves the rows as some run of the atomic actions does |
| TopUp.CreditMovesMoney | src/modules/customer-wallet/customer-wallet.repository.ts:70-77 | a confirmation's step moves wallet money exactly when it credits its row, and then the row's amount to the row's wallet, in cash |
| TopUp.CreditedOnce | src/modules/customer-wallet/customer-wallet.service.ts:78-115 | from any consistent system on, an unsettled top-up is credited once if it ends SUCCESS and never otherwise; a settled one is never credited and never changes |
| TopUp.ConcurrentTopUps | src/modules/customer-wallet/customer-wallet.service.ts:78-115 | from empty tables, for any number of confirmers and failers: credited once iff SUCCESS in the end, settled rows stay, customer wallets agree with the ledger |
| TopUp.AnswerTruth | src/modules/customer-wallet/customer-wallet.service.ts:92-113 | a manual confirmation's answer is the row's status if and only if it neither flips a row settled the other way before nor answers PENDING about a row settled since it was read |
| TopUp.AnswersAreSettled | src/modules/customer-wallet/customer-wallet.service.ts:99-112 | an answer other than PENDING is only ever given about a settled row |
| TopUp.ConfirmedAlone | src/modules/customer-wallet/customer-wallet.service.ts:92-113 | a confirmation nothing comes between answers what Stripe reports: success pays the row's amount to its wallet, failure fails the row, still processing changes nothing |
| TopUp.WebhookAlone | src/modules/customer-wallet/customer-wallet.service.ts:78-86 | a webhook alone pays the row or fails it, and answers nobody |
| TopUp.ToldSuccessWhileFailed | src/modules/customer-wallet/customer-wallet.service.ts:101-106 | an interleaving after which the customer is told SUCCESS while the row is FAILED and nothing was credited |
| TopUp.ToldPendingWhileSuccess | src/modules/customer-wallet/customer-wallet.service.ts:112 | an interleaving after which the customer is told PENDING while the row is SUCCESS and the money in the wallet |
| Refunds.SharedBound | src/modules/provider-refund-requests/provider-refund-requests.service.ts:38-58 | when an order's requests all carry one payment of the order's total, no run of admin refunds, approvals, rejections and filings refunds more than that |
| Refunds.RefundedMeansWhole | src/modules/admin-transactions/admin-transactions.service.ts:61-75 | an accepted admin refund marks the payment REFUNDED exactly when the processed refunds reach its amount, which they never pass |
| Refunds.ApprovalWithinTotal | src/modules/provider-refund-requests/provider-refund-requests.service.ts:38-47 | a provider's approval settles its own request only and keeps the order's refunds within the order's total |
| Refunds.AdminRefundWithinTotal | src/modules/admin-transactions/admin-transactions.service.ts:61-75 | an accepted admin refund, full or partial, adds exactly its amount to the order's refunds, and keeps them within the order's total if and only if it fits into what they leave of it |
| Refunds.AdminAlwaysWithinTotal | src/modules/admin-transactions/admin-transactions.service.ts:64-67 | no amount an admin may enter breaks the order's bound if and only if the payment leaves no more to refund than the order |
| Refunds.FullRefundWithinTotal | src/modules/admin-transactions/admin-transactions.service.ts:187-188 | after a full admin refund of the order's payment the order's refunds are its total plus what was refunded outside the payment |
| Refunds.RefundedTwiceOver | src/modules/admin-transactions/admin-transactions.repository.ts:28-30 | a request without its payment and a full admin refund: 160 refunded on an order of 100 |
| Refunds.PartlyTwiceOver | src/modules/admin-transactions/admin-transactions.repository.ts:28-30 | the same with a partial admin refund of 50: 110 |
| Refunds.CanBeRefunded | src/modules/admin-transactions/admin-transactions.service.ts:181 | while the policy allows refunds, a payment with something left can be refunded by an admin if and only if it is settled with a known order and a free transaction id, and was refunded in part before or its requests not granted stay below what is left |
| Refunds.RejectedBlocks | src/modules/admin-transactions/admin-transactions.service.ts:136 | a rejected request of the whole amount: all of it left, every admin refund refused |
| Refunds.BlockedForever | src/modules/admin-transactions/admin-transactions.service.ts:63 | a payment whose rejected requests reach its amount, not refunded in part before, is refunded by an admin in no later run |
| Refunds.OneAdminRefund | src/modules/admin-transactions/admin-transactions.service.ts:192 | in any run at most one admin refund of a payment is accepted, partial or full |
| Refunds.Counted | src/modules/admin-transactions/admin-transactions.service.ts:136 | a request counts with what was approved, or else requested, once approved, processing or refunded; for the status an admin sees it counts always |
| Refunds.AdminRefunds | src/modules/admin-transactions/admin-transactions.service.ts:61-75 | the exact condition of acceptance; the request row written, the payment REFUNDED and the order cancelled when nothing is left, the refund noted as partial otherwise |
| Refunds.Approves | src/modules/provider-refund-requests/provider-refund-requests.service.ts:38-47 | approved if and only if the provider's own pending request, within the amount requested and what the order's total leaves, with a free transaction id; the request is settled and the order cancelled |
| Refunds.Rejects | src/modules/provider-refund-requests/provider-refund-requests.service.ts:49-53 | rejected if and only if the provider's own pending request and a reason is given; only the request's status changes |
| RefundStore.Store.Refund | src/modules/admin-transactions/admin-transactions.service.ts:61-78 | checks and writes end where the admin refund says, with its refusals in order |
| RefundStore.Store.ProcessRefund | src/modules/admin-transactions/admin-transactions.repository.ts:57-64 | request, payment and order rows after the transaction |
| RefundStore.Store.Approve | src/modules/provider-refund-requests/provider-refund-requests.service.ts:38-47 | ends where the approval says |
| RefundStore.Store.Reject | src/modules/provider-refund-requests/provider-refund-requests.service.ts:49-53 | ends where the rejection says |
| Tiers.StoredIsNearest | prisma/schema.prisma:1833 | a threshold is stored as a nearest whole number of cents |
| Tiers.Created | src/modules/admin-payout-settings/admin-payout-settings.service.ts:30-36 | created if and only if no tier has the threshold or the id and the column holds it; name and activity are stored as given |
| Tiers.Updated | src/modules/admin-payout-settings/admin-payout-settings.service.ts:38-46 | the tier of the id is replaced if and only if no other has the threshold and the column holds it |
| Tiers.Deleted | src/modules/admin-payout-settings/admin-payout-settings.service.ts:48-54 | exactly the tier of the id is gone, the others keep their order |
| Tiers.Table.CreateTier | src/modules/admin-payout-settings/admin-payout-settings.service.ts:30-36 | creates the tier or refuses, as the table function says |
| Tiers.Table.UpdateTier | src/modules/admin-payout-settings/admin-payout-settings.service.ts:38-46 | updates the tier or refuses |
| Tiers.Table.DeleteTier | src/modules/admin-payout-settings/admin-payout-settings.service.ts:48-54 | removes the row |
| Tiers.ChangesKeepDistinct | src/modules/admin-payout-settings/admin-payout-settings.service.ts:30-72 | every run of creates, updates and deletes with thresholds of whole cents keeps thresholds pairwise distinct |
| Tiers.DistinctIffWholeCents | src/modules/admin-payout-settings/admin-payout-settings.service.ts:30-36 | creating with a threshold keeps every table distinct if and only if the threshold is of whole cents |
| Tiers.UpdateDistinctIffWholeCents | src/modules/admin-payout-settings/admin-payout-settings.service.ts:38-46 | and so does updating |
| Tiers.TenTwice | prisma/schema.prisma:1833 | thresholds 10 and 10.004 are both accepted and stored alike |
| Tiers.TierForIsGreatest | src/modules/admin-provider-payouts/admin-provider-payouts.service.ts:185 | filter, sort and first give a tier with the greatest threshold the total reaches, and none only when it reaches none |
| Tiers.TierForIsFirst | src/modules/admin-provider-payouts/admin-provider-payouts.service.ts:185 | among several tiers with that threshold it is the first, the sort being stable |
| Tiers.TierForUnique | src/modules/admin-provider-payouts/admin-provider-payouts.service.ts:185 | with distinct thresholds the order of the tiers does not matter |
| Tiers.TierForMonotone | src/modules/admin-provider-payouts/admin-provider-payouts.service.ts:185 | a greater total never falls in a lower tier |
| Earnings.ProviderEarningTotals | src/modules/admin-provider-payouts/admin-provider-payouts.service.ts:184 | one total per provider of the ledger, the sum of its entries |
| Earnings.TierKeyFalls | src/modules/admin-provider-payouts/admin-provider-payouts.service.ts:49-50 | the key is none only when the earnings reach no active tier, and otherwise the id of an active tier with the greatest threshold reached |
| Earnings.FallsInOne | src/modules/admin-provider-payouts/admin-provider-payouts.service.ts:185 | with distinct thresholds that is one tier only |
| Earnings.EarningDistribution | src/modules/admin-provider-payouts/admin-provider-payouts.service.ts:41-57 | the buckets, greatest earnings first and no two for one tier, add up to the whole ledger and its providers; each counts providers that fall in its active tier and all they earned, and all such providers where thresholds are distinct |
| Months.YearOfDay | src/modules/admin-provider-payouts/admin-provider-payouts.service.ts:188 | the year of a day is the one that contains it |
| Months.MonthOfStart | src/modules/admin-provider-payouts/admin-provider-payouts.service.ts:188 | the year and month of the first instant of a month are that month's, across leap years and year ends |
| Months.MonthLengths | src/modules/admin-provider-payouts/admin-provider-payouts.service.ts:188 | from the epoch on, every month has its 31, 30, 28 or, in leap years, 29 days |
| Months.RangeIsMonth | src/modules/admin-provider-payouts/admin-provider-payouts.service.ts:188 | the i-th of n ranges starts n - 1 - i months before the current one and is one whole month if and only if it does not start in the years 0 to 99; there it ends 1900 years late |
| Months.RangesAdjacent | src/modules/admin-provider-payouts/admin-provider-payouts.service.ts:188 | for every date and count the ranges are adjacent and disjoint if and only if none starts in the years 0 to 99 |
| Months.LastRangeHoldsNow | src/modules/admin-provider-payouts/admin-provider-payouts.service.ts:188 | the last range holds the current date if and only if that is not in the years 0 to 99 |
| Months.TrendValueAt | src/modules/admin-provider-payouts/admin-provider-payouts.service.ts:38 | the i-th value is the sum of the payouts of the i-th range |
| Months.TrendAddsUp | src/modules/admin-provider-payouts/admin-provider-payouts.service.ts:34-39 | for every date and count: the trend's values add up to the payouts from the first start to before the last end, whatever the payouts, if and only if no range starts in the years 0 to 99 |
| Months.CountedTwice | src/modules/admin-provider-payouts/admin-provider-payouts.service.ts:188 | otherwise a payout in the first month of the year 100 is counted more than once |
| Variants.OwnershipMeans | src/modules/provider-inventory/provider-inventory.service.ts:218 | the length comparison passes if and only if the ids are distinct and all owned by the item |
| Variants.UpsertsOne | src/modules/gift-management/gift-management.service.ts:241-253 | an entry is merged into the gift's own variant, refused if it names another gift's, and otherwise makes a new one if it has a name and a price |
| Variants.UpsertAccepted | src/modules/gift-management/gift-management.service.ts:237-255 | the entries are accepted if and only if each names a variant of the gift, or none and comes with a name and a price |
| Variants.UpdateAccepted | src/modules/provider-inventory/provider-inventory.service.ts:68 | provider inventory accepts complete entries if and only if no two carry the same id and each id is of a variant of the item; no variant of another item changes |
| Variants.UpsertEachDoes | src/modules/gift-management/gift-management.service.ts:241-254 | after the loop, named variants are merged entry by entry, new ones follow in order with their name and price, and all else is as before |
| Variants.NamedIsWritten | src/modules/gift-management/gift-management.service.ts:241-247 | a variant named by one entry ends with the name and price given there and keeps what is not given |
| Variants.UpsertKeepsOthers | src/modules/gift-management/gift-management.service.ts:237-255 | no variant of another gift appears, changes or goes away |
| Variants.ReplaceCounts | src/modules/gift-management/gift-management.service.ts:237-255 | with replace the gift holds one variant per entry if and only if no two entries name the same variant of it |
| Variants.KeepCounts | src/modules/gift-management/gift-management.service.ts:237-255 | without replace the gift gains exactly one variant per entry that names none of its own |
| Variants.ProviderAgrees | src/modules/provider-inventory/provider-inventory.repository.ts:60-74 | entries that pass the ownership check are always written, as gift management would; with replace the item holds exactly one variant per entry |
| VariantStore.Store.UpsertVariants | src/modules/gift-management/gift-management.service.ts:237-255 | the loop over the rows ends where the upsert says, and is rolled back when an entry throws |
| VariantStore.Store.UpdateItemWithVariants | src/modules/provider-inventory/provider-inventory.repository.ts:60-74 | likewise for provider inventory, after its ownership check |
| Slugs.AllTaken | src/modules/gift-management/gift-management.service.ts:295 | no more candidates can be taken than there are slugs |
| Slugs.Applies | src/modules/gift-management/gift-management.service.ts:294-295 | creating and renaming give the gift the first candidate no other gift has, deleting takes it away, and no other gift changes |
| Slugs.ChangesKeepDistinct | src/modules/provider-inventory/provider-inventory.service.ts:149-155 | any run of creates, renames and deletes through both services keeps gift slugs pairwise distinct |
| Slugs.RenameKeeps | src/modules/gift-management/gift-management.repository.ts:66 | renaming any gift leaves all slugs as they were if and only if its slug is the first candidate of the new name no other gift has |
| Slugs.RenameAfterCreate | src/modules/gift-management/gift-management.repository.ts:66 | so a gift just created and renamed to the same name keeps its slug |
| Slugs.RenameAfterDelete | src/modules/gift-management/gift-management.service.ts:294-295 | but not after the gift that held the candidate before is deleted: a-1 becomes a |
| Slugs.Store.UniqueSlug | src/modules/gift-management/gift-management.service.ts:294-295 | the search ends within one probe more than there are slugs, with the first free candidate |
| Slugs.Store.CreateGift | src/modules/gift-management/gift-management.service.ts:92-115 | the gift gets the first free slug |
| Slugs.Store.DeleteGift | src/modules/gift-management/gift-management.service.ts:163-169 | the gift's slug becomes free |
| Slugs.Store.RenameGift | src/modules/provider-inventory/provider-inventory.service.ts:62-92 | the gift's own slug does not count as taken |

## Left out

- Stripe, storage, mail, push notifications, audit log, authentication and permissions: Stripe's answer is an
  arbitrary input of `TopUp`; the rest changes none of the modelled rows.
- Account deletion, which removes a user's wallets and ledger rows
  (src/modules/auth/repositories/auth.repository.ts:54-56,
  src/modules/user-management/repositories/user-management.repository.ts:306-308): runs contain no deletion.
- Refusals decided outside the modelled rows (cancellation disabled by policy, provider not approved, payout method
  not verified or already in use, duplicate idempotency key): they only make an action fail.
- Interleavings other than of top-up confirmations: orders, payouts, rewards and refunds read before their
  transaction; each is modelled as one atomic action.
- Card payments themselves: any order may be confirmed or failed by card at any time and any number of times; which
  payments exist, and that each settles once, is not modelled.
- The payment row of a top-up: `confirmTopUp` marks it without condition; only the ledger row and wallet are modelled.
- The payout statuses COMPLETED and FAILED in runs: nothing in the repository sets them, and no caller asks
  `transitionPayout` to settle.
- DebitArithmetic.SplitExact: assumes an accumulated error of at most 1e-9, which doubles near the largest amounts
  of a ten-digit column can exceed.
- Months.RangesAdjacent: time values are unbounded; dates next to the ends of the range of ECMA-262 dates, where
  `Date.UTC` yields NaN, are not distinguished. Month labels are not modelled.
- Earnings.EarningDistribution: the source looks at no more than 10000 ledger entries; the model sums the entries
  it is given.
- Worksheet.RoundTrip: whitespace at the ends of a text, which XML readers keep, may be dropped by a spreadsheet
  application, the cells not being marked to preserve it.
- Variants: names are taken as already trimmed, prices as already rounded to cents, and a variant still in a cart or
  an order, which the database refuses to delete, does not occur.
- Slugs: the derivation of the base from a name (case folding and replacing) is not modelled; any string can be a base.
- Utf8: texts are sequences of Unicode scalar values; lone surrogates, which `Buffer.from` replaces, do not occur.
- Transaction ids other than those of refunds, timestamps and currencies.
- List, filter, sort and dashboard endpoints, mail templates and plain create, read, update and delete services.
