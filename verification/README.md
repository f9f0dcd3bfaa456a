# Verified model of a payment verification system

The system watches payment messages on phones, stores them on a server and lets shops check that an
order was paid. This project models its decision-making code in Dafny and proves what that code is
for. `dafny verify dfyconfig.toml` checks all of it.

- **Payment ledger** (`Tables`, `BalanceTrail`, `Ledger`, `LedgerSafety`, `LedgerTheorems`, `OrderLife`,
  `Expiry`, `AtomicVerify`, `AtomicIngest`, `AuditLog`, `Server`, `VerifyService`, `Ingest`, `Provenance`,
  `Replay`). The tables are a state, each SQL
  statement one atomic step, each request in flight a program counter with its local variables. Any
  statement may fail, before or after it took effect. No SQL transaction joins the statements of
  `Verify` or of an ingest, so the theorems hold for every interleaving of verifications, ingests,
  new and cancelled orders, calibrations and the expiry sweeper. The imperative methods are proved to
  be runs of that state machine. Money is in hundredths; the clock does not go back.
- **Message templates** (`SmsText`, `SmsRegex`, `SmsTemplate`, `SmsAmount`, `SmsMatch`, `SmsCompiler`,
  `Grammar`, `CompileErrors`, `Patterns`, `SeededTemplates`). The restricted regular expressions have an executable backtracking semantics and
  a language semantics, proved to agree; on top of it, tokenizer, compiler, matcher and amounts.
- **Multipart messages** (`ConcatHeader`, `EntryCodec`, `Reassembly`, `MultipartAssembler`, `Calls`). The bytes
  of the message header, the stored text form of a partly received message, and reassembly over every
  order of arrival.
- **Delivery** (`Delivery`, `Uploader`, `Capture`). Captures, the upload worker, lost requests and
  responses, on top of the ledger's own server: what is at-least-once on the wire is stored once.
- **All together** (`EndToEnd`). From the text of a message to the row it becomes, and on to the order
  it pays.
- **Login throttle** and **pagination** (`Throttle`, `Pagination`). Two stateful loops with bounds over
  whole runs.

Where a query orders by time and takes one row, rows of equal time are chosen arbitrarily, and every
statement holds for every choice.

## Findings

- The previous-balance query looks strictly earlier, so two honest movements recorded at the same
  instant make the second one fail (`BalanceTrail.SameInstantRejects`). It also passes over movements
  whose message states no balance, so the next honest movement fails
  (`BalanceTrail.SilentMovementRejects`). `BalanceTrail.HonestRejectionExact` gives the exact condition;
  distinct times and a stated balance on every movement of the trail exclude it.
- A user data header longer than 20 octets is legal, and is not looked into: its part is delivered as a
  message of its own (`ConcatHeader.LongHeaderIsIgnored`). `ConcatHeader.ConcatInfoIsRecovered` gives the
  exact condition.
- The claim does not look at `expires_at` again: an order is unexpired when the winning verification
  reads it, not necessarily when it is paid (`Expiry.OrderIsPaidLate`). It is paid late if and only if
  it is stale when its winner's claim runs (`Expiry.PaidLateExactly`).
- A message whose insert fails on the server is answered `error`, marked SENT on the phone and never
  sent again (`Delivery.ErrorMayLoseTheMessage`). A row's message is missing from the server if and only
  if no ingest of it has got past its insert (`Delivery.MissingExactlyWhenNoneInserted`).
- A message may state an amount of zero; it is understood, refused by the column and answered `error`
  (`EndToEnd.ZeroIsRefused`).
- Values can be misread when the template's text continues one of them: with `{amount}0{trxId}` a payment
  of 1 is read as 100 (`SeededTemplates.AmbiguousTemplateMisreads`). `SmsCompiler.ReadsBackExactly` gives the exact condition.
- The server's gate folds the long s with `s`, the phone's lower-casing does not (`Capture.GatesAgree`).
- Any stretch as long as a throttle window admits at most 2m - 1 wrong passwords, one less than two full
  windows, and that many are possible (`Throttle.ThrottleBound`, `Throttle.BoundIsReached`).
- A page size too large for 64 bits is served with the default limit of 20, not with 100
  (`Pagination.OversizedPages`); any other is honoured up to 100 (`Pagination.PageSizeIsHonoured`).

## Model

| member | source | states |
|---|---|---|
| `BalanceTrail.SomeVerdict` | backend/internal/services/verify.go:124-149 | the three balance queries always lead to some verdict for a transaction that states a balance |
| `BalanceTrail.VerdictExactly` | backend/internal/services/verify.go:124-149 | the possible verdicts, row by row: equality with a newest calibration that no transaction follows, otherwise whether a newest earlier balance plus the raw amount of a credit, or minus that of a debit, is the balance stated, and no verdict without one |
| `BalanceTrail.ScriptsDoNotMatter` | backend/internal/services/verify.go:129-148 | amounts set by scripts, on the transaction or on any other row, have no part in any verdict |
| `BalanceTrail.PreviousIsFixed` | backend/db/queries/transactions.sql:21-39 | what the previous-balance query can return for a recorded transaction never changes, whatever is inserted later on any trail |
| `BalanceTrail.VerdictIsFinal` | backend/internal/services/verify.go:124-149 | once a later transaction stands on its device and provider trail, a transaction's possible verdicts never change again |
| `BalanceTrail.VerdictIgnoresOtherTrails` | backend/db/queries/transactions.sql:21-56 | before that, rows of other trails cannot change the verdict |
| `BalanceTrail.VerdictLinearizes` | backend/internal/services/verify.go:105-149 | the three queries run at three moments with anything between them, yet the verdict is one that could have been reached at a single moment |
| `BalanceTrail.CalibrationDecides` | backend/internal/services/verify.go:126-128 | a calibration newer than all others decides a transaction with none after it: consistent if and only if it states the same balance |
| `BalanceTrail.HonestRejectionExact` | backend/internal/services/verify.go:124-162 | on an honest account a transaction can be rejected if and only if a query picks a row with a nonzero net movement between it and the transaction |
| `BalanceTrail.HonestNeverRejected` | backend/internal/services/verify.go:103-162 | with distinct times and a stated balance on every row of the trail, no transaction of an honest account is ever found inconsistent, in any mix of credits, debits and calibrations |
| `BalanceTrail.SameInstantRejects` | backend/db/queries/transactions.sql:30-30 | a trail with two movements at one instant on which the honest transaction is rejected: distinct times are needed |
| `BalanceTrail.SilentMovementRejects` | backend/db/queries/transactions.sql:21-39 | an honest trail with distinct times, one of whose movements states no balance, on which the next honest transaction is rejected: the balances are needed |
| `BalanceTrail.Telescopes` | backend/internal/services/verify.go:129-148 | along a stretch without calibrations where every previous-balance verdict is true, the last balance is the anchor plus credits minus debits |
| `LedgerSafety.StepEvolves` | backend/db/queries/orders.sql:20-43 | one step of anything only appends transactions, calibrations and orders, keeps an order's terms, and writes an order only while it is pending |
| `LedgerSafety.VerdictReached` | backend/internal/services/verify.go:105-149 | the verdict a verification acts on was reachable at some state of the trail it ran on |
| `LedgerSafety.ClaimStepOk` | backend/db/queries/orders.sql:20-30 | the conditional update keeps every order consistent with its match, under the unique index |
| `LedgerSafety.StepSafe` | backend/internal/services/verify.go:34-206 | every step of every kind keeps the ledger's invariant |
| `LedgerSafety.ReachableSafe` | backend/internal/services/verify.go:34-206 | the invariant holds after every run from empty tables, under every interleaving |
| `LedgerTheorems.PaidOrdersWerePaid` | backend/internal/services/verify.go:164-179 | a paid order has exactly one winning verification, which claimed a credit of the same business, with the submitted TrxID, for exactly the expected amount, and read the order unexpired |
| `LedgerTheorems.PaidExactlyWhenMatched` | backend/db/migrations/000002_claim_enforcement.up.sql:1-3 | an order is paid if and only if it has a match, and no transaction pays two orders |
| `LedgerTheorems.FinalOrdersStay` | backend/db/queries/orders.sql:32-43 | a paid, expired or cancelled order is never written again, over any further run |
| `LedgerTheorems.SuccessAccounting` | backend/internal/services/verify.go:164-179 | the claims that took effect are as many as the paid orders |
| `LedgerTheorems.WinnersSucceed` | backend/internal/services/verify.go:169-179 | a claim took effect if and only if its verification returned `success` or is about to, unless the claim's reply was lost |
| `LedgerTheorems.AlreadyUsedIsTrue` | backend/internal/services/verify.go:181-203 | `already_used` is answered only when the order is paid or another order holds a transaction with the submitted TrxID |
| `LedgerTheorems.LoserStaysClaimable` | backend/internal/services/verify.go:198-203 | an order that loses on the unique index changes nothing and can be claimed next with a free transaction |
| `LedgerTheorems.ClaimAnswers` | backend/internal/services/verify.go:164-203 | a claim pays, or answers `already_used` when another order holds the transaction, or reads the order again when it is no longer pending |
| `LedgerTheorems.RereadExactly` | backend/internal/services/verify.go:181-197 | the order read again is answered `already_used` if it is paid by then and `order_not_pending` if not |
| `LedgerTheorems.FailureEndsVerification` | backend/internal/services/verify.go:34-206 | a statement that fails, or whose reply is lost, ends a verification with an error; only logging may fail without changing the answer |
| `LedgerTheorems.FailureEndsIngest` | backend/internal/services/ingest.go:50-178 | a statement that fails, or whose reply is lost, ends an ingest with `error`; only marking the message may fail without changing the answer |
| `LedgerTheorems.CalibrationLands` | backend/db/queries/balance_calibrations.sql:1-4 | a calibration is recorded on the trail of its device and provider, decides about the last transaction there and changes no verdict elsewhere |
| `LedgerTheorems.HonestThen` | backend/internal/services/verify.go:103-162 | a trail that is honest now was honest at every earlier moment, and did not reject if its rows state their balances at distinct times |
| `LedgerTheorems.HonestPaymentsAreNotRejected` | backend/internal/services/verify.go:150-161 | no verification on an honest trail whose rows state their balances at distinct times returns `balance_mismatch`, wherever its queries fall among other requests |
| `LedgerTheorems.MismatchHasCause` | backend/internal/services/verify.go:103-162 | on any honest trail `balance_mismatch` is returned only if at some moment a balance query could pick a row with a nonzero net movement between it and the transaction |
| `LedgerTheorems.ReceiptsAreMatched` | backend/internal/services/verify.go:85-101 | the expected amounts of a business's first n paid orders add up to the effective amounts of their distinct matches |
| `LedgerTheorems.MoneyIsConserved` | backend/internal/services/verify.go:85-101 | in every reachable state a business's paid orders add up to its matched transactions, hence to no more than all its recorded credits |
| `OrderLife.RowChangesExactly` | backend/db/queries/orders.sql:20-43 | an order row changes exactly by the sweep when its expiry has passed, by its own business's cancellation and by a claim that wins, only while pending, and in which columns |
| `OrderLife.RowsAddedExactly` | backend/db/queries/orders.sql:1-4 | an order is added exactly for a positive amount that the column holds under a key that is free in its business, pending and unmatched |
| `OrderLife.SettledOnce` | backend/db/queries/orders.sql:20-43 | over every run, each order that is not pending was settled by one action: paid by a winning claim, expired by a sweep after its expiry, cancelled by its business |
| `OrderLife.ExpiredIsPast` | backend/db/queries/orders.sql:38-43 | over every run, an expired order has an expiry, and it has passed |
| `Expiry.ClaimStampsNow` | backend/db/queries/orders.sql:20-30 | the claim that pays an order stamps it with the time of the claim, so it pays late if and only if the order is stale at that time |
| `Expiry.PaidLateExactly` | backend/internal/services/verify.go:164-179 | over every run, each paid order was paid by one claim of its winner, whose effect still stands, and it was paid after its expiry if and only if the order was stale when that claim ran |
| `Expiry.OrderIsPaidLate` | backend/db/queries/orders.sql:20-30 | a run from empty tables on which an order that expires at 5 is paid at 6 |
| `AtomicVerify.UninterruptedVerifyIsAtomic` | backend/internal/services/verify.go:34-206 | a verification that nothing interrupts answers what one atomic decision on the tables allows, and leaves the orders as that decision says |
| `AtomicVerify.EveryDecisionIsReached` | backend/internal/services/verify.go:34-206 | conversely every outcome of the atomic decision is one the seven statements can return |
| `AuditLog.LogIsTrue` | backend/internal/services/verify.go:208-219 | every logged attempt belongs to its own finished verification and states that request, its outcome and, for an amount mismatch, the transaction's amount; no verification logs twice |
| `AuditLog.SuccessIsLoggedOnce` | backend/internal/services/verify.go:176-178 | a logged `success` names a paid order and the transaction that paid it, and no other entry says so of that order |
| `AtomicIngest.UninterruptedIngestIsAtomic` | backend/internal/services/ingest.go:50-178 | an ingest that nothing interrupts ends after at most four statements with the tables and the answer of one atomic insert |
| `AtomicIngest.ServerIngests` | backend/internal/services/ingest.go:50-178 | the server runs exactly those statements for a call of its own and touches no other call |
| `EndToEnd.MessageIsUnderstood` | backend/internal/services/ingest.go:75-156 | for a message in the first answering provider's template, in any layout, where no value can be read longer: the decision is to insert its TrxID, and its amount and balance to the nearest hundredth, with the effective amount, TrxID and balance that the provider's script sets |
| `EndToEnd.MessageIsRecorded` | backend/internal/services/ingest.go:50-178 | the uninterrupted ingest of such a message stores it unless the device has sent it before, and appends exactly the transaction it states, script amount included, if it is new, its figures fit the columns and no transaction of the provider has its TrxID, and otherwise none; it changes no order, and the answer is `duplicate`, `parsed` or `error` accordingly |
| `EndToEnd.UnreadProvidersKeepTheMessage` | backend/internal/services/ingest.go:41-73 | when the providers cannot be read, a new message is stored all the same and answered `error`, and nothing else changes |
| `EndToEnd.ZeroIsRefused` | backend/db/migrations/000001_init.up.sql:87-89 | an amount of zero is in the grammar of amounts and not acceptable to the column |
| `EndToEnd.HonestPaymentIsAccepted` | backend/internal/services/verify.go:34-179 | an open order and the one latest transaction with the submitted TrxID, a free credit of the expected amount that states no balance or is on an honest trail whose rows state theirs at distinct times: an uninterrupted verification succeeds and pays exactly that order with it |
| `EndToEnd.MessagePaysTheOrder` | backend/internal/services/verify.go:34-206 | a credit message in a provider's template that is news is ingested; whatever happens next, while an order of its worth, the script's amount or else its own, awaits that payment an uninterrupted verification of its TrxID can return, and always returns `success` and pays that order with the transaction of that message |
| `Server.Database.Interfere` | backend/cmd/api/main.go:55-76 | between two statements anything may run, but this call stays where it is |
| `Server.Database.GetOrderByExternalID` | backend/db/queries/orders.sql:10-12 | finds the order with the key, or none if there is none |
| `Server.Database.FindTransactionByTrxIDForBusiness` | backend/db/queries/transactions.sql:11-15 | returns a latest transaction of the business with the TrxID, or none exactly when there is none |
| `Server.Database.GetPreviousBalance` | backend/db/queries/transactions.sql:21-39 | returns a latest strictly earlier point of the trail that states a balance, or none exactly when there is none |
| `Server.Database.GetLatestCalibrationAfter` | backend/db/queries/transactions.sql:41-48 | returns a latest calibration of the trail at the transaction's time or later, or none exactly when there is none |
| `Server.Database.CountTransactionsAfter` | backend/db/queries/transactions.sql:50-56 | zero exactly when no other transaction of the trail is as late |
| `Server.Database.ClaimTransactionForOrder` | backend/db/queries/orders.sql:20-30 | pays the order exactly when it is pending and unmatched and no order holds the transaction; otherwise nothing changes |
| `VerifyService.ReadOrderStep` | backend/internal/services/verify.go:35-58 | the order read and its early returns are one step of the state machine |
| `VerifyService.FindTransactionStep` | backend/internal/services/verify.go:60-101 | the transaction read, direction and amount checks are one step of the state machine |
| `VerifyService.ReadCalibrationStep` | backend/internal/services/verify.go:105-113 | the calibration read is one step of the state machine |
| `VerifyService.CountLaterStep` | backend/internal/services/verify.go:114-128 | the count and the verdict by calibration are one step of the state machine |
| `VerifyService.ReadPreviousStep` | backend/internal/services/verify.go:129-161 | the previous-balance read and its verdict are one step of the state machine |
| `VerifyService.CheckBalance` | backend/internal/services/verify.go:103-162 | the balance check is a run of this call's steps, interleaved with the others' |
| `VerifyService.Deliberate` | backend/internal/services/verify.go:35-162 | everything before the claim is a run of this call's steps, interleaved with the others' |
| `VerifyService.ClaimingStep` | backend/internal/services/verify.go:164-179 | the claim and its failure paths are one step of the state machine |
| `VerifyService.RereadStep` | backend/internal/services/verify.go:181-196 | the reread after a claim that selected no row is one step of the state machine |
| `VerifyService.LogAttemptStep` | backend/internal/services/verify.go:208-219 | logging an attempt is one step whose failure changes no outcome |
| `VerifyService.Verify` | backend/internal/services/verify.go:34-206 | the whole method is a run of its own call's steps and of what others did between them, ending in the outcome it returns, whichever statement fails |
| `Provenance.StepTraced` | backend/internal/services/ingest.go:50-178 | every step of anything keeps track of which message every transaction came from |
| `Provenance.TransactionComesFromOneMessage` | backend/internal/services/ingest.go:144-156 | every transaction was drafted, field by field, from one stored message by the call that stored it; no other comes from that message or has its provider and TrxID |
| `Provenance.ParsedMessageLinks` | backend/internal/services/ingest.go:157-173 | a parsed message links to the only transaction with the provider and TrxID decided for it, even if another message reported it first |
| `Provenance.AnsweredMessageIsStored` | backend/internal/services/ingest.go:56-66 | a message answered with anything but `error` is stored, exactly once |
| `Provenance.RawStays` | backend/db/queries/raw_messages.sql:1-5 | a stored message stays stored over any run |
| `Provenance.ReplayChangesNothing` | backend/internal/services/ingest.go:41-73 | replayed messages, however split, ordered, repeated, interleaved and whatever providers now make of them, change no row and are all answered `duplicate` |
| `Replay.ReplayIsInvisible` | backend/internal/services/ingest.go:56-66 | under every interleaving with anyone else, sending stored messages again leaves the tables and all other calls as if the statements of the repeated ingests were not executed; each is over after its first statement, and answers `duplicate`, or `error` exactly when that statement failed |
| `Ingest.FirstAnswerDecides` | backend/internal/services/ingest.go:75-177 | the outcome is that of the first provider in list order that answers, errors and rejections included, and `unmatched` if and only if none answers |
| `Ingest.DecisionOfFirst` | backend/internal/services/ingest.go:75-178 | `unmatched` exactly when no provider finds anything; otherwise the first that does decides: its gate, its stored pattern and the pattern in force, a match that fails, a script that fails or rejects, and the row to insert, with the message's raw amount, the script's effective amount beside it and its overrides |
| `Ingest.StoredAmountIsNearest` | backend/db/migrations/000001_init.up.sql:87-89 | the stored amount is the hundredth nearest to the one in the message, of two equally near ones the one farther from zero, and no other |
| `Ingest.HundredthsAreExact` | backend/db/migrations/000001_init.up.sql:87-89 | amounts of at most two decimals are stored as they are, and a zero at the end of a fraction adds nothing |
| `Ingest.InsertRawMessage` | backend/db/queries/raw_messages.sql:1-5 | inserts exactly when no message of the device has the client identifier |
| `Ingest.GetTransactionByProviderAndTrxID` | backend/db/queries/transactions.sql:17-19 | finds the transaction with the key, or none if there is none |
| `Ingest.StoreRaw` | backend/internal/services/ingest.go:56-73 | storing the message and choosing what follows agrees with the state machine, failures included |
| `Ingest.InsertTxStep` | backend/internal/services/ingest.go:144-165 | the insert of the transaction is one step of the state machine |
| `Ingest.LookupStep` | backend/internal/services/ingest.go:157-165 | the lookup of an existing transaction is one step of the state machine |
| `Ingest.MarkStep` | backend/db/queries/raw_messages.sql:11-29 | a `Mark...` update is one step whose failure leaves the message pending and the answer as it was |
| `Ingest.ProviderLoop` | backend/internal/services/ingest.go:75-123 | the loop over providers finds the decision of the first that answers |
| `Ingest.IngestOne` | backend/internal/services/ingest.go:50-178 | a message's ingest is a run of its own steps interleaved with the others', ending in the status it returns |
| `Ingest.IngestBatch` | backend/internal/services/ingest.go:41-48 | results come in the order of the messages, each that of the finished ingest of that message; the whole batch is the run of its ingests one after the other, interleaved with whatever the others do, under any failures |
| `SmsText.NormalizeIsNormal` | backend/internal/smsparser/compiler.go:66-68 | normalised text has only single spaces, each between words |
| `SmsText.NormalizeKeepsNormal` | backend/internal/smsparser/compiler.go:66-68 | normal text is left alone, so normalising twice changes nothing |
| `SmsText.LayoutDoesNotMatter` | backend/internal/smsparser/compiler.go:66-68 | texts that differ only in the whitespace between, before or after words normalise alike |
| `SmsText.SameWordsNormalizeAlike` | backend/internal/smsparser/compiler.go:66-68 | two texts have the same normal form if and only if they have the same words |
| `Grammar.SpacesListed` | backend/internal/smsparser/compiler.go:66-68 | the characters that count as white space |
| `Grammar.FoldingExactly` | backend/internal/smsparser/compiler.go:83-83 | under case-insensitive matching a character agrees with itself, with the other case of an ASCII letter, and k and s with the Kelvin sign and the long s |
| `SmsRegex.EndsAreExact` | backend/internal/smsparser/compiler.go:45-57 | the backtracking matcher can end at a position if and only if the text up to there is in the expression's language |
| `SmsTemplate.SubPatternsAsWritten` | backend/internal/smsparser/compiler.go:45-57 | the modelled expressions print as the four sub-patterns of the program |
| `Grammar.TrxIdFits` | backend/internal/smsparser/compiler.go:56-56 | a TrxID is 6 to 20 letters or digits |
| `Grammar.SenderFits` | backend/internal/smsparser/compiler.go:55-55 | a sender is 5 to 15 digits, with or without a plus sign |
| `Grammar.AmountFits` | backend/internal/smsparser/compiler.go:45-54 | an amount is a numeral in ASCII digits with commas after the first, or in Bengali digits without, with an optional fraction; a balance is an amount |
| `SmsTemplate.LongestFirst` | backend/internal/smsparser/compiler.go:45-57 | every placeholder prefers longer texts, Bengali and ASCII amounts alike |
| `SmsTemplate.Tokenize` | backend/internal/smsparser/compiler.go:110-160 | the loop with its literal buffer computes the token list, or the first error from the left |
| `SmsTemplate.TokensPrintBack` | backend/internal/smsparser/compiler.go:110-160 | tokens print back to the template, alternate between literals and placeholders, and have no empty literal |
| `SmsTemplate.PrintedTokensReadBack` | backend/internal/smsparser/compiler.go:110-160 | every well-formed token list is read back from its printed form |
| `SmsTemplate.TokensInvertPrinting` | backend/internal/smsparser/compiler.go:110-160 | a text tokenizes to a list if and only if the list is well formed and prints to the text |
| `CompileErrors.FirstErrorIsReported` | backend/internal/smsparser/compiler.go:110-160 | after tokens that are read, which error is reported: a brace that is not balanced, a name no field has, a placeholder right behind another |
| `SmsAmount.ParseAmount` | backend/internal/smsparser/compiler.go:220-236 | the loop that drops commas and maps Bengali digits computes the parsed amount, or the error |
| `SmsAmount.AmountsParse` | backend/internal/smsparser/compiler.go:220-236 | every text of the amount grammar parses, to the numeral read digit by digit |
| `SmsAmount.SpellingDoesNotMatter` | backend/internal/smsparser/compiler.go:221-230 | commas and the choice of Bengali or ASCII digits do not change the value |
| `SmsMatch.MatchIsInstance` | backend/internal/smsparser/compiler.go:167-170 | what the matcher captures makes the text an instance of the template |
| `SmsMatch.InstanceIsMatched` | backend/internal/smsparser/compiler.go:167-170 | where an instance starts, the matcher matches |
| `SmsMatch.FindsLeftmost` | backend/internal/smsparser/compiler.go:167-170 | a match is found if and only if the text has an instance, and at the leftmost position where one starts |
| `SmsMatch.GreedyChoice` | backend/internal/smsparser/compiler.go:167-170 | of two possible ends of a placeholder the capture is no shorter than the longer one that lets the rest match |
| `SmsMatch.InstanceIsRendering` | backend/internal/smsparser/compiler.go:167-170 | an instance is, up to letter case, the template rendered with the captured texts |
| `SmsMatch.NoLongerValue` | backend/internal/smsparser/compiler.go:45-57 | a value followed by text that cannot extend it has no longer reading |
| `SmsMatch.ReadBackExactly` | backend/internal/smsparser/compiler.go:162-218 | a rendered message is matched with exactly the values it was rendered from if and only if at no placeholder a longer text of its grammar is followed by an instance of the rest |
| `SmsMatch.UnambiguousHoldsBack` | backend/internal/smsparser/compiler.go:45-57 | literals that cannot extend the value before them meet that condition, whatever the values |
| `SmsCompiler.Compile` | backend/internal/smsparser/compiler.go:70-108 | the loop that builds pattern text and field list computes the compiled template, or the right error |
| `SmsCompiler.CompiledTokens` | backend/internal/smsparser/compiler.go:70-108 | a compiled template's tokens print back to the normalised text and include amount and trxId |
| `CompileErrors.LengthIsInBytes` | backend/internal/smsparser/compiler.go:75-77 | the length that is limited is that of the UTF-8 form |
| `CompileErrors.CompileErrors` | backend/internal/smsparser/compiler.go:70-108 | blank templates, those over 1024 bytes, those the tokenizer refuses and those without amount or trxId are refused, each with its error, and all others accepted as given |
| `CompileErrors.FieldsInOrder` | backend/internal/smsparser/compiler.go:85-98 | the fields of a template are those of its placeholders, in their order |
| `Patterns.QuotingIsEscaping` | backend/internal/smsparser/compiler.go:97-97 | the quoted form of a literal is the one text that stands for it in which exactly the special characters are escaped |
| `Patterns.SpecialsListed` | backend/internal/smsparser/compiler.go:97-97 | the special characters are the fourteen of the regexp package |
| `Patterns.PlaceholdersAsWritten` | backend/internal/smsparser/compiler.go:140-149 | a placeholder becomes the named group of its written sub-pattern, an optional one may be left out |
| `Patterns.BkashPattern` | backend/internal/services/seed.go:24-24 | the pattern text of the bKash template, written out |
| `Patterns.NagadPattern` | backend/internal/services/seed.go:29-29 | the pattern text of the Nagad template, written out |
| `Patterns.RocketPattern` | backend/internal/services/seed.go:34-34 | the pattern text of the Rocket template, written out |
| `Patterns.UpayPattern` | backend/internal/services/seed.go:39-39 | the pattern text of the Upay template, written out |
| `SmsCompiler.MatchIsLeftmostInstance` | backend/internal/smsparser/compiler.go:162-170 | `Match` reads its result off the leftmost instance in the normalised body, and gives no match if and only if there is no instance |
| `SmsCompiler.CapturedText` | backend/internal/smsparser/compiler.go:184-188 | a captured value fits its field's grammar and stands in the normalised body |
| `SmsCompiler.FieldsAreCaptures` | backend/internal/smsparser/compiler.go:171-217 | the returned fields are exactly the captured texts, amounts as numerals |
| `SmsCompiler.MatchFailsExactly` | backend/internal/smsparser/compiler.go:214-216 | `Match` errors if and only if a match leaves amount or trxId uncaptured |
| `SmsCompiler.RequiredNeverFails` | backend/internal/smsparser/compiler.go:188-236 | a template that makes amount and trxId mandatory never errors, on any body |
| `SmsCompiler.MatchIgnoresLayout` | backend/internal/smsparser/compiler.go:166-166 | bodies with the same words give the same result |
| `SmsCompiler.ReadsBackExactly` | backend/internal/smsparser/compiler.go:70-236 | for every accepted template and all fitting values, the rendered text is matched with exactly those values if and only if at no placeholder a longer text of its grammar is followed by an instance of the rest, and then the fields are returned |
| `SmsCompiler.RoundTrip` | backend/internal/smsparser/compiler.go:70-236 | corollary: for every accepted template without ambiguous literals and all fitting values, matching the rendered text returns exactly those values |
| `SeededTemplates.BkashAsWritten` | backend/internal/services/seed.go:24-24 | the modelled tokens print the bKash template character by character |
| `SeededTemplates.NagadAsWritten` | backend/internal/services/seed.go:29-29 | the modelled tokens print the Nagad template character by character |
| `SeededTemplates.RocketAsWritten` | backend/internal/services/seed.go:34-34 | the modelled tokens print the Rocket template character by character |
| `SeededTemplates.UpayAsWritten` | backend/internal/services/seed.go:39-39 | the modelled tokens print the Upay template character by character |
| `SeededTemplates.BkashReadsBack` | backend/internal/services/seed.go:24-24 | the bKash template compiles and reads back every fitting message |
| `SeededTemplates.NagadReadsBack` | backend/internal/services/seed.go:29-29 | the Nagad template compiles and reads back every fitting message |
| `SeededTemplates.RocketReadsBack` | backend/internal/services/seed.go:34-34 | the Rocket template compiles and reads back every fitting message |
| `SeededTemplates.UpayReadsBack` | backend/internal/services/seed.go:39-39 | the Upay template compiles and reads back every fitting message |
| `SeededTemplates.AmbiguousTemplateMisreads` | backend/internal/smsparser/compiler.go:45-45 | the template `{amount}0{trxId}` compiles, and of a message that states amount 1 and TrxID 00ABCDEF `Match` returns amount 100 and TrxID ABCDEF: a side condition is needed |
| `ConcatHeader.ScanElements` | android-app/app/src/main/java/com/vindrapay/monitor/sms/MultipartAssembler.kt:72-92 | the loop over header elements terminates, reads only inside the array, and finds the first concatenation element |
| `ConcatHeader.ExtractConcatInfo` | android-app/app/src/main/java/com/vindrapay/monitor/sms/MultipartAssembler.kt:53-94 | the method reads only inside the array for every input and computes the specified result |
| `ConcatHeader.ScanFindsFirst` | android-app/app/src/main/java/com/vindrapay/monitor/sms/MultipartAssembler.kt:74-92 | over encoded elements the scan finds the first in the 8-bit or 16-bit form, whatever precedes it |
| `ConcatHeader.FormsAreRead` | android-app/app/src/main/java/com/vindrapay/monitor/sms/MultipartAssembler.kt:81-91 | reference, total and index are read back from an element in the 8-bit or the 16-bit form behind any other elements, and nothing without one |
| `ConcatHeader.CutShort` | android-app/app/src/main/java/com/vindrapay/monitor/sms/MultipartAssembler.kt:74-91 | a concatenation element that is complete counts whatever follows it, and an element that is cut short ends the search with nothing |
| `ConcatHeader.ConcatInfoIsRecovered` | android-app/app/src/main/java/com/vindrapay/monitor/sms/MultipartAssembler.kt:53-94 | for every SMS-DELIVER message with a user data header, the first encoded reference, total and index are returned exactly when they are in range, the header has at most 20 octets and the address at most 20 digits, and nothing otherwise |
| `ConcatHeader.LongHeaderIsIgnored` | android-app/app/src/main/java/com/vindrapay/monitor/sms/MultipartAssembler.kt:69-70 | a legal header of 21 octets that begins with part 1 of 2 is answered with nothing |
| `EntryCodec.Utf8RoundTrip` | android-app/app/src/main/java/com/vindrapay/monitor/sms/MultipartAssembler.kt:101-101 | UTF-8 encoding is undone by decoding, for every string |
| `EntryCodec.Utf8AsWritten` | android-app/app/src/main/java/com/vindrapay/monitor/sms/MultipartAssembler.kt:101-101 | the UTF-8 forms of the examples in section 3 of RFC 3629 |
| `EntryCodec.Base64RoundTrip` | android-app/app/src/main/java/com/vindrapay/monitor/sms/MultipartAssembler.kt:101-101 | Base64 (section 4 of RFC 4648) is undone by decoding, for all bytes, and contains no line break |
| `EntryCodec.AlphabetAsWritten` | android-app/app/src/main/java/com/vindrapay/monitor/sms/MultipartAssembler.kt:101-101 | the alphabet of Base64 is that of section 4 of RFC 4648 |
| `EntryCodec.Base64AsWritten` | android-app/app/src/main/java/com/vindrapay/monitor/sms/MultipartAssembler.kt:101-101 | the Base64 forms of examples in section 10 of RFC 4648 |
| `EntryCodec.IntRoundTrip` | android-app/app/src/main/java/com/vindrapay/monitor/sms/MultipartAssembler.kt:98-100 | numbers are read back from their decimal form |
| `EntryCodec.EntryRoundTrip` | android-app/app/src/main/java/com/vindrapay/monitor/sms/MultipartAssembler.kt:96-128 | `loadEntry` undoes `saveEntry` for every entry and all bodies |
| `EntryCodec.SavedAsWritten` | android-app/app/src/main/java/com/vindrapay/monitor/sms/MultipartAssembler.kt:96-105 | an entry is saved as a line with total and time and a line for each part |
| `EntryCodec.OddLines` | android-app/app/src/main/java/com/vindrapay/monitor/sms/MultipartAssembler.kt:116-123 | a stored line that states no part is passed over, and one whose number cannot be read or does not fit makes the entry unreadable |
| `EntryCodec.HeaderPieces` | android-app/app/src/main/java/com/vindrapay/monitor/sms/MultipartAssembler.kt:107-115 | an entry is readable exactly when its header has two pieces or more of which the first two are numbers that fit, and its lines are readable |
| `Reassembly.KeysAreDistinct` | android-app/app/src/main/java/com/vindrapay/monitor/sms/MultipartAssembler.kt:35-35 | two parts share an entry only if sender, reference and total agree, even with bars in senders |
| `Reassembly.EnoughPartsAreAll` | android-app/app/src/main/java/com/vindrapay/monitor/sms/MultipartAssembler.kt:41-41 | as many parts as the total means each of parts 1 to N |
| `Reassembly.EntriesStayIncomplete` | android-app/app/src/main/java/com/vindrapay/monitor/sms/MultipartAssembler.kt:26-48 | every event keeps every stored entry at fewer than N parts, all indexed 1 to N |
| `Reassembly.MessageIsReassembled` | android-app/app/src/main/java/com/vindrapay/monitor/sms/MultipartAssembler.kt:23-51 | parts in any order, repeated, split over calls and mixed with other messages and prunings give exactly one message, parts 1 to N in order, when the last missing part arrives; then the entry is gone |
| `Calls.CallsAreOneRun` | android-app/app/src/main/java/com/vindrapay/monitor/sms/MultipartAssembler.kt:23-51 | calls in a row leave the entries and return the messages of one run of all their parts and prunings |
| `Calls.OutputsByTag` | android-app/app/src/main/java/com/vindrapay/monitor/sms/MultipartAssembler.kt:26-48 | what a run delivers for a message are exactly its outputs made of parts of that sender, reference and total |
| `Calls.MessageIsReassembledOverCalls` | android-app/app/src/main/java/com/vindrapay/monitor/sms/MultipartAssembler.kt:23-51 | parts spread over any number of calls: among all that the calls return, exactly one message is made of them, with parts 1 to N in order, and no entry is left |
| `Calls.WholeMessageIsHandedOut` | android-app/app/src/main/java/com/vindrapay/monitor/sms/MultipartAssembler.kt:29-34 | a message that is no part of a longer one is handed out at once with its sender, body and time, and no entry changes |
| `Calls.WholeMessagesAreHandedOut` | android-app/app/src/main/java/com/vindrapay/monitor/sms/MultipartAssembler.kt:23-51 | over any number of calls, the returned messages that are made of no parts are exactly those fed as such, unchanged and in order |
| `Calls.CallForgetsTheStale` | android-app/app/src/main/java/com/vindrapay/monitor/sms/MultipartAssembler.kt:130-143 | after its messages a call forgets exactly the entries begun more than a day before |
| `Calls.OtherEntriesStay` | android-app/app/src/main/java/com/vindrapay/monitor/sms/MultipartAssembler.kt:26-48 | messages change no entry but those they are parts of |
| `MultipartAssembler.StoredTimeIsSaved` | android-app/app/src/main/java/com/vindrapay/monitor/sms/MultipartAssembler.kt:130-143 | pruning reads from the stored text the time that was saved |
| `MultipartAssembler.OversizedTimeIsIgnored` | android-app/app/src/main/java/com/vindrapay/monitor/sms/MultipartAssembler.kt:130-143 | a stored time that does not fit 64 bits counts as none, so that its entry is never pruned |
| `MultipartAssembler.WriteEntry` | android-app/app/src/main/java/com/vindrapay/monitor/sms/MultipartAssembler.kt:96-105 | the builder's loop writes the specified text |
| `MultipartAssembler.ReadParts` | android-app/app/src/main/java/com/vindrapay/monitor/sms/MultipartAssembler.kt:116-123 | the loop over stored lines gathers the parts they state, or fails where reading throws |
| `MultipartAssembler.ReadEntry` | android-app/app/src/main/java/com/vindrapay/monitor/sms/MultipartAssembler.kt:107-128 | reading a stored text gives the entry it states, or none where reading throws |
| `MultipartAssembler.StaleKeys` | android-app/app/src/main/java/com/vindrapay/monitor/sms/MultipartAssembler.kt:130-143 | exactly the keys whose stored time is before the cutoff |
| `MultipartAssembler.Assembler.LoadEntry` | android-app/app/src/main/java/com/vindrapay/monitor/sms/MultipartAssembler.kt:107-128 | gives back the entry that was stored under the key |
| `MultipartAssembler.Assembler.SaveEntry` | android-app/app/src/main/java/com/vindrapay/monitor/sms/MultipartAssembler.kt:96-105 | stores the entry's text under the key and changes no other |
| `MultipartAssembler.Assembler.PruneStale` | android-app/app/src/main/java/com/vindrapay/monitor/sms/MultipartAssembler.kt:130-143 | removes exactly the entries begun before the cutoff |
| `MultipartAssembler.Assembler.AddPart` | android-app/app/src/main/java/com/vindrapay/monitor/sms/MultipartAssembler.kt:36-47 | adds a part, delivers and removes a complete entry, stores an incomplete one |
| `MultipartAssembler.Assembler.AccumulateOne` | android-app/app/src/main/java/com/vindrapay/monitor/sms/MultipartAssembler.kt:26-48 | one message is one event of the reassembly |
| `MultipartAssembler.Assembler.Accumulate` | android-app/app/src/main/java/com/vindrapay/monitor/sms/MultipartAssembler.kt:23-51 | a call feeds its messages in order and then prunes; what it returns is what those events deliver |
| `Delivery.NextSound` | android-app/app/src/main/java/com/vindrapay/monitor/data/repo/CaptureRepository.kt:169-209 | every event of phone, network and server keeps the delivery invariant |
| `Delivery.StoredMessagesAreCaptured` | backend/internal/services/ingest.go:56-66 | over every schedule, each raw message of the device is a captured row's, with its body, its sender unless that is blank, and the device's business, and no two are the same row's |
| `Delivery.SentIsStoredOnce` | android-app/app/src/main/java/com/vindrapay/monitor/data/repo/CaptureRepository.kt:188-201 | a row marked SENT with any status but `error` is stored on the server exactly once |
| `Delivery.StoredExactlyWhenInserted` | backend/internal/services/ingest.go:56-66 | over every schedule, a captured row's message is on the server if and only if some ingest of it got past its insert |
| `Delivery.MissingExactlyWhenNoneInserted` | android-app/app/src/main/java/com/vindrapay/monitor/data/repo/CaptureRepository.kt:190-192 | a SENT row's message is missing if and only if none of its ingests got past its insert, and then it was answered `error` |
| `Delivery.RowsStay` | android-app/app/src/main/java/com/vindrapay/monitor/data/local/CaptureDao.kt:27-31 | no captured row is lost or altered, and none returns from SENT, over every schedule |
| `Delivery.OneAfterTheOther` | backend/internal/services/ingest.go:41-48 | over every schedule, the messages of a request are ingested one after the other, in their order |
| `Delivery.GivenUpIsSentAgain` | android-app/app/src/main/java/com/vindrapay/monitor/data/repo/CaptureRepository.kt:169-209 | when the worker gives up on a request no row has changed, its batch still waits, and it can be sent again |
| `Delivery.CapturedOnce` | android-app/app/src/main/java/com/vindrapay/monitor/data/local/CaptureDao.kt:12-13 | no two rows have the same hash |
| `Delivery.ErrorMayLoseTheMessage` | android-app/app/src/main/java/com/vindrapay/monitor/data/repo/CaptureRepository.kt:190-192 | a schedule on which a failed insert leaves a row SENT with `error` and nothing on the server: the exception is needed |
| `Uploader.MarkingIsARun` | android-app/app/src/main/java/com/vindrapay/monitor/data/repo/CaptureRepository.kt:190-200 | marking a batch at once equals the single marking steps of the state machine |
| `Uploader.ReplyMarksExactly` | android-app/app/src/main/java/com/vindrapay/monitor/data/repo/CaptureRepository.kt:188-201 | a row becomes SENT with the last answer about it exactly when it was in the batch and is answered, and stays as it was otherwise |
| `Uploader.ResultByReply` | android-app/app/src/main/java/com/vindrapay/monitor/work/UploadWorker.kt:18-31 | the result of a run by its last reply: retry when unreachable, refused or answered with nothing, failure when anything else went wrong, success otherwise |
| `Uploader.AnsweredBatchIsGone` | android-app/app/src/main/java/com/vindrapay/monitor/data/repo/CaptureRepository.kt:169-201 | an upload that is fully answered leaves exactly its batch no longer waiting |
| `Uploader.BatchSize` | android-app/app/src/main/java/com/vindrapay/monitor/data/local/CaptureDao.kt:15-16 | a batch takes all waiting rows, oldest first, or as many of the oldest as the limit |
| `Uploader.CaptureStore.Insert` | android-app/app/src/main/java/com/vindrapay/monitor/data/local/CaptureDao.kt:12-13 | inserts exactly when neither key nor hash is taken |
| `Uploader.CaptureStore.PendingOldest` | android-app/app/src/main/java/com/vindrapay/monitor/data/local/CaptureDao.kt:15-16 | returns waiting rows, oldest first, none left out that is older, up to the limit |
| `Uploader.CaptureStore.MarkSent` | android-app/app/src/main/java/com/vindrapay/monitor/data/local/CaptureDao.kt:27-31 | sets status and result of that row only |
| `Uploader.CaptureStore.MarkBatch` | android-app/app/src/main/java/com/vindrapay/monitor/data/repo/CaptureRepository.kt:190-200 | exactly the answered rows of the batch become SENT, with their answers |
| `Uploader.CaptureStore.UploadOnce` | android-app/app/src/main/java/com/vindrapay/monitor/data/repo/CaptureRepository.kt:169-209 | the outcome for every kind of answer, and what becomes of the rows |
| `Uploader.DoWork` | android-app/app/src/main/java/com/vindrapay/monitor/work/UploadWorker.kt:18-31 | a run uploads batch after batch of the oldest waiting rows until none waits, an upload fails or 200 are sent; the result is how the last upload ended and the rows are what the replies made of them; with a responsive server the oldest 200 x 50 waiting rows are sent, or all; every row is kept and none taken back from SENT |
| `Capture.HandleIncoming` | android-app/app/src/main/java/com/vindrapay/monitor/data/repo/CaptureRepository.kt:105-137 | a message is kept exactly when some provider is known, the gate lets it through and no row has its hash |
| `Capture.KeptAsItCame` | android-app/app/src/main/java/com/vindrapay/monitor/data/repo/CaptureRepository.kt:105-137 | a message is dropped exactly when no provider is known, or else when the gate is closed; one that is kept waits with its sender, body and time, and no other row changes |
| `Capture.KeptOnceASecond` | android-app/app/src/main/java/com/vindrapay/monitor/data/repo/CaptureRepository.kt:105-137 | a second message with the sender and text of one just kept is ignored within the same second |
| `Capture.OthersAreKept` | android-app/app/src/main/java/com/vindrapay/monitor/data/repo/CaptureRepository.kt:105-137 | with a digest that does not collide, a message is not mistaken for one of another sender, text or second |
| `Capture.GatesAgree` | android-app/app/src/main/java/com/vindrapay/monitor/data/repo/CaptureRepository.kt:211-220 | where the server's gate opens for a provider, the phone's does if and only if the sender is not blank and the long s agrees or the provider names no sender |
| `Capture.PhoneDropsNothingWanted` | android-app/app/src/main/java/com/vindrapay/monitor/data/repo/CaptureRepository.kt:211-220 | the phone drops no message a known provider's server gate would take, blank senders and the long s aside |
| `Capture.PhoneTakesOnlyItsOwn` | android-app/app/src/main/java/com/vindrapay/monitor/data/repo/CaptureRepository.kt:211-220 | conversely a provider that names its sender lets through only senders that agree with it up to case and surrounding whitespace |
| `Capture.BlanksListed` | android-app/app/src/main/java/com/vindrapay/monitor/data/repo/CaptureRepository.kt:211-220 | the characters that the phone counts as white space |
| `Capture.LongSIsDropped` | backend/internal/services/ingest.go:233-241 | a sender the server's gate takes and the phone drops |
| `Throttle.LoginThrottle.constructor` | studio/src/server/auth.ts:65-71 | starts with no tracked address |
| `Throttle.LoginThrottle.IsBlocked` | studio/src/server/auth.ts:73-81 | blocked exactly when the address has reached the limit in its current window; an expired entry is dropped |
| `Throttle.LoginThrottle.RecordFailure` | studio/src/server/auth.ts:83-97 | counts in the current window or starts one, dropping the oldest address when 10 000 are tracked |
| `Throttle.LoginThrottle.Reset` | studio/src/server/auth.ts:99-101 | forgets the address and no other |
| `Throttle.LoginThrottle.Login` | studio/src/server/auth.ts:143-159 | the handler answers 429, 401 or 200 and moves the table accordingly |
| `Throttle.TableIsBounded` | studio/src/server/auth.ts:87-92 | over every run the table holds at most 10 000 addresses, each once in insertion order |
| `Throttle.OwnAttempt` | studio/src/server/auth.ts:73-97 | an attempt of the address keeps what its entry says about its failures |
| `Throttle.ThrottleBound` | studio/src/server/auth.ts:152-159 | between two logins or evictions of an address: there is an entry if and only if there was a failure, it counts exactly the failures since its window began, a window admits at most m wrong passwords and any stretch as long as a window at most 2m - 1 |
| `Throttle.EntryIsWindow` | studio/src/server/auth.ts:83-97 | what is known of an address is exactly the window of its last failure since it logged in or was evicted |
| `Throttle.BlockedExactly` | studio/src/server/auth.ts:73-81 | an address is blocked if and only if that window has reached the limit and lasts |
| `Throttle.SuccessForgets` | studio/src/server/auth.ts:152-159 | after the right password the address is unknown and every other is known as before |
| `Throttle.BlockedChangesNothing` | studio/src/server/auth.ts:143-151 | while an address is blocked even the right password changes nothing |
| `Throttle.OldestIsEvicted` | studio/src/server/auth.ts:87-92 | an address is pushed out only by a failure of an untracked one when 10 000 are tracked, and only the one tracked longest |
| `Throttle.BlockedForCause` | studio/src/server/auth.ts:73-81 | an address is blocked only after as many failures as the limit, all within one window of now |
| `Throttle.BoundIsReached` | studio/src/server/auth.ts:152-159 | the bound 2m - 1 is exact: a run that reaches it within one millisecond |
| `Throttle.FewAddressesAreSpared` | studio/src/server/auth.ts:87-92 | up to 10 000 addresses nothing is ever evicted |
| `Pagination.YieldPage` | sdk/src/core/pagination.ts:42-50 | yields the page, or stops after item 10 001 |
| `Pagination.PaginateLoop` | sdk/src/core/pagination.ts:37-58 | the loop ends on any server and yields at most 10 001 items |
| `Pagination.Paginate` | sdk/src/core/pagination.ts:30-59 | the whole run, bad page sizes included |
| `Pagination.PaginateAll` | sdk/src/core/pagination.ts:76-85 | all items, or the error that stopped the paginator |
| `Pagination.BadPageSizes` | sdk/src/core/pagination.ts:34-36 | a page size that is not a positive whole number is an error before any request, and any other makes at least one |
| `Pagination.RequestsAreCeiling` | sdk/src/core/pagination.ts:39-58 | as many requests as the quotient rounded up, at least one |
| `Pagination.PaginationIsExact` | sdk/src/core/pagination.ts:30-59 | for every positive page size the whole unchanged list in order, without gap or repeat, in the fewest requests the server's clamp allows; above 10 000 items the first 10 001 and an error |
| `Pagination.PageSizeIsHonoured` | backend/internal/handlers/manage.go:43-58 | the limit is the page size up to 100 if it fits 64 bits and 20 otherwise, and every list costs the requests of pages of min(size, 100) items if and only if it fits |
| `Pagination.OversizedPages` | backend/internal/handlers/manage.go:48-51 | with pages of 10^19 items a list of 100 takes five requests, with pages of 100 it takes one |
| `Pagination.OffsetsAreClamped` | backend/internal/handlers/manage.go:60-69 | a page starts at its offset and is cut short only by the end of the list; negative offsets and those that do not parse count as none, those over 32 bits as the largest |

## Left out

- Scripts of providers run in an interpreter that is not part of this model: a script is an arbitrary function of body and fields that fails, rejects, or sets an effective amount, a TrxID or a balance; the sender and metadata it may set are not modelled.
- `CompileRegex`: provider patterns written as regular expressions are an arbitrary matcher.
- Letter case beyond ASCII: matching folds ASCII letters with the Kelvin sign and the long s; other Unicode case pairs are not modelled.
- Positions in text are positions of characters, not bytes; malformed UTF-8 is not modelled.
- Decimal signs and exponents, which no captured amount can contain, are not modelled.
- Foreign keys, `updated_at`, metadata, the sender's number and the order rows inside responses are not modelled.
- The application's clock and the database's are one clock that does not go back; `now()` is the time of the statement.
- SmsCompiler.RoundTrip: asks that the literal after a placeholder cannot extend it, which can be seen from the template alone; `SmsCompiler.ReadsBackExactly` has the exact condition, message by message.
- BalanceTrail.HonestNeverRejected: asks for distinct times and stated balances on the trail; `BalanceTrail.SameInstantRejects` and `BalanceTrail.SilentMovementRejects` show that both are needed, and `BalanceTrail.HonestRejectionExact` does without them.
- EntryCodec.EntryRoundTrip: strings of whole characters, without unpaired surrogates; a character split over two parts is not modelled.
- Base64 text that `saveEntry` did not write, which the platform's decoder reads leniently, is not modelled.
- MultipartAssembler.Assembler.Accumulate: calls come one after the other, and preference writes succeed.
- Delivery: one worker at a time, as the unique work queue ensures; the retry delays of the queue are not modelled.
- Uploader.DoWork: no captures during the run; with captures, `Delivery` covers safety.
- Capture.HandleIncoming: the digest of sender, body and second is an arbitrary function; lower-casing covers the letters that the server folds.
- EndToEnd.MessageIsUnderstood: for providers without a regular expression of their own, as are the results built on it; `Ingest.DecisionOfFirst` covers all.
- Pagination.PaginationIsExact: the list does not change between requests.
- HTTP handlers, routing, sessions, hashing, configuration, the phone's and the studio's user interface, notifications, `mapping.ts`, HTTP retries and `Batch.chunk`.
- `GetLatestBalancePoint` and the listing queries, which only display rows.
