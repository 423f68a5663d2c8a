# Verified model of the marketplace backend's service protocols

The services of this backend are step-by-step protocols over shared rows. This project models six of
them in Dafny and proves, for every input and every run, what they promise. `dafny verify
dfyconfig.toml` checks all of it.

| component | files |
|---|---|
| payments and refunds | `Cashfree`, `Payments`, `PaymentRuns`, `PaymentGuarantees`, `PaymentEffects`, `PaymentOutcomes`, `ProviderTexts`, `PaymentDesk`, `ProviderOrders`, `RefundRaces` |
| bookings and prices | `Bookings`, `BookingRaces`, `Pricing` |
| messaging | `Cursor`, `Keyset`, `InsertOrReturn` |
| media galleries | `Galleries`, `GalleryRaces` |
| moderation | `Moderation`, `ModerationRuns` |
| groupings and fan-out | `Groups`, `Calendar`, `Sections`, `Notifications`, `NotificationRuns` |

`Common` holds the vocabulary they share.

## How the model is built

- A service that rewrites rows is a `class` (`Desk`, `BookingTable`, `MediaTable`, `Rows`, `Service`)
  whose methods are proved to do to their tables what a function does to a value; the promises about
  runs are lemmas about those functions. Loops of the source are loops.
- Payments, refunds, moderation and notifications take one service call as one step, because their
  writes are by id without a status guard. Bookings, media completion, sends and conversation
  creation take one database statement as one step, and any number of calls interleave. `RefundRaces`
  also takes `createRefund` apart into statements.
- The payment provider, its timing and its failures are the environment: its answer to each call is a
  parameter, and `None` is a call that threw. `ProviderOrders` adds the provider's own orders.
- A database constraint enters as what the migrations declare: the booking exclusion, the refund
  balance trigger, the unique keys, and the two gallery functions. The one-live-payment indexes are
  not assumed; they are shown to be redundant for whole calls.
- Money is whole minor units, provider amounts are exact rationals, rounding is written out.

## Where the code does not do what it says

Each of these is a lemma with the failing inputs, beside the exact condition under which the promise
holds.

- `src/modules/payments/payment.service.ts:234-236` says that a booking never has two live orders and
  a payer is never charged twice. A `PAYMENT_FAILED_WEBHOOK` on an order that stays open closes the
  row, and the next payment opens a second order (`DeclinedCardThenSecondCharge`). The other calls
  that abandon an order so are a user-dropped event whose order was not terminated, or not yet; a read
  of an order whose termination is only requested; a paid order whose amount does not match; and a
  `createOrder` whose reply was lost. A run keeps every closed row's order dead exactly when it has
  none of these calls (`ClosedIsDeadThroughoutIff`), and then no booking ever has two orders that can
  take money (`NeverTwoCollectibleOrders`).
- A refund's provider answer is written by id with no guard (`payment.service.ts:600-605`). If a
  webhook fails the refund between its insert and that write, a second refund can take the freed
  balance and the late answer then commits the same money twice (`LateAnswerOverdraws`); a statement
  keeps the bound exactly when it comes in time (`StatementKeepsBalanceIffInTime`), and a run keeps it
  throughout exactly when every answer does (`InterleavingsKeepBalance`). With the insert and its
  answer together, stale reads alone never overdraw (`StaleReadsKeepBalance`).
- The same late write can unfinish a refund and take a payment back from refunded to success, which
  `payment.service.ts:50-52` rules out (`LateAnswerRegresses`). Refunds move forward only exactly
  while no answer rewrites a finished one (`RefundsEvolveUnlessUnfinished`), and the payment moves
  backwards exactly when such an answer takes back the only money given back or part of all there was
  (`PaymentRegressesIffTakenBack`).
- A payment whose order is already paid when it is created is settled with no amount compared and
  nobody told (`PaidOnCreationIsSilent`), though `payment.service.ts:85-90` promises the comparison
  before any success. A payment in flight becomes a success exactly on a claim whose money does not
  contradict the record (`SuccessIffMoneyCompared`), a new one exactly when it is created paid
  (`NewRowSucceedsIffCreatedPaid`), and over a run nothing else settles one
  (`SettledIffBackedOrCreatedPaid`). An outcome is announced exactly when a payment already in flight
  reaches it (`AnnouncedIffOutcomeReached`).
- `CashfreeProvider.ts:157-159` says that the same set of attempts always produces the same answer.
  Two different successes that share a timestamp and an id do not (`TiedSuccessesKeepInputOrder`). It
  holds exactly when the newest of the attempts that decide (the successes, else the pending ones,
  else the unsuccessful ones) are copies of one (`SelectionIgnoresOrderIff`).
- A walk of the inbox can miss a conversation that a new message lifts above the cursor
  (`ConversationCanBeMissed`), and misses it exactly then (`ReturnedUnlessLiftedAway`); a walk of a
  message history misses nothing.
- A completion that names its own position can duplicate one (`RecordKeepsDistinctIff`); the next
  reorder repairs it (`ReorderMakesDistinct`).
- `restoreLocation` does not look at the host, so it can publish under a suspended one
  (`OnlyRestoreLocationPublishesUnderSuspension`); a run never has a location published so exactly when
  it has no such step (`NeverPublishedUnderSuspensionIff`).
- Suspending and restoring a user turns a deleted account into an active one
  (`DeletedAccountBecomesActive`), and changes accounts exactly then (`SuspendThenRestore`). No service
  writes that status yet, so such a row comes from outside.
- A location that was complete when it was submitted need not stay so (`CompletenessCanBeWithdrawn`):
  an accepted update keeps it complete exactly when it clears nothing that it does not set
  (`UpdateKeepsCompleteIff`).

## Model

| member | source | states |
|---|---|---|
| Cashfree.MoneyRoundTrip | src/modules/payments/providers/CashfreeProvider.ts:37-53 | converting minor units to major and back is the identity, and tolerates exactly the drifts below half a minor unit |
| Cashfree.ComparatorIsStrictWeakOrder | src/modules/payments/providers/CashfreeProvider.ts:161-176 | the attempt comparator is a strict weak order that ties exactly equal (timestamp, id) keys |
| Cashfree.SortSorts | src/modules/payments/providers/CashfreeProvider.ts:161-176 | sorting is a permutation in which no attempt precedes an earlier one |
| Cashfree.SettledIffSomeSuccess | src/modules/payments/providers/CashfreeProvider.ts:178-206 | a settled attempt is present exactly when some attempt succeeded, whatever its age, and it is a newest success |
| Cashfree.AdvisoryWithoutSuccess | src/modules/payments/providers/CashfreeProvider.ts:178-206 | without a success the advisory is a newest pending attempt, else a newest unsuccessful one, else absent |
| Cashfree.SortedPermutationIsUnique | src/modules/payments/providers/CashfreeProvider.ts:161-176 | with distinct keys there is one sorted order |
| Cashfree.SelectionIgnoresInputOrder | src/modules/payments/providers/CashfreeProvider.ts:186-206 | with distinct keys every permutation of the attempts selects the same |
| Cashfree.SelectionIgnoresOrderIff | src/modules/payments/providers/CashfreeProvider.ts:154-206 | every permutation of the attempts selects the same exactly when the newest deciding attempts are copies of one |
| Cashfree.AdvisoryIsNewestDeciding | src/modules/payments/providers/CashfreeProvider.ts:178-206 | what is selected is a newest of the attempts that decide, settled exactly when that one succeeded |
| Cashfree.SelectedIsLatest | src/modules/payments/providers/CashfreeProvider.ts:154-206 | what is selected weighs most (success, then pending, then unsuccessful), nothing that weighs as much is dated later, or is dated where it is not, or shares its time with a higher id, and nothing is selected exactly when nothing weighs anything |
| Cashfree.TiedSuccessesKeepInputOrder | src/modules/payments/providers/CashfreeProvider.ts:161-206 | two different successes with a shared key, an input whose order matters: the answer is the one listed first |
| ProviderTexts.StatusTexts | src/modules/payments/providers/CashfreeProvider.ts:71-115 | each attempt and refund text the provider documents has its own status, and no other text has it |
| ProviderTexts.MismatchedIffContradicts | src/modules/payments/payment.service.ts:85-109 | money is mismatched exactly when a reported amount differs or a reported currency differs in more than case; silence is no mismatch |
| ProviderTexts.PaymentTextDecides | src/modules/payments/providers/CashfreeProvider.ts:414-432 | a first delivery about a payment in flight, by its text: success unless its money contradicts the record, else failed, with the reference, the reason, the notice and the ledger row |
| ProviderTexts.LatePaymentTextDecidesNothing | src/modules/payments/payment.service.ts:50-61 | a first delivery about a payment not in flight moves no status and tells nobody |
| ProviderTexts.RefundTextDecides | src/modules/payments/providers/CashfreeProvider.ts:434-453 | a first delivery about a refund, by its status text: SUCCESS gives a pending one back, FAILED frees it, anything else leaves it, and the payment says what was given back |
| ProviderTexts.RecomputeWrites | src/modules/payments/payment.service.ts:485-530 | recomputing writes the derived status, the one notice that goes with it, and nothing else |
| ProviderTexts.OtherTextsAreOnlyRecorded | src/modules/payments/providers/CashfreeProvider.ts:455-458 | any other text, and any about a row that does not exist, changes the ledger only |
| ProviderTexts.OrderTextDecides | src/modules/payments/providers/CashfreeProvider.ts:55-69 | what verify and resume leave and answer for a payment in flight, by the order's text: PAID, EXPIRED, TERMINATED, TERMINATION_REQUESTED or unrecognised |
| ProviderTexts.StillPayableIsResumed | src/modules/payments/payment.service.ts:343-346 | while an order is ACTIVE with no successful attempt the booker who comes back is given the same payment, and no row is added |
| Payments.SingleFinds | src/modules/payments/payment.service.ts:334-352 | what a maybeSingle read by booking and status reports: no row, one matching row, or an error on two |
| PaymentRuns.StepKeeps | src/modules/payments/payment.service.ts:171-727 | every call keeps the invariant (one live payment per booking, refunds within balance, status derived from refunds, sound notices) and only moves statuses forward |
| PaymentRuns.RunKeeps | src/modules/payments/payment.service.ts:171-727 | the same over every run of calls |
| PaymentRuns.AtMostOneRow | src/modules/payments/payment.service.ts:334-368 | under the invariant neither read by booking sees two rows, and an in-flight row excludes a settled one |
| PaymentRuns.RecomputeKeeps | src/modules/payments/payment.service.ts:485-530 | recomputing after the refunds grew restores the derived status and never moves it back |
| PaymentRuns.ResumeTouchesOneRow | src/modules/payments/payment.service.ts:245-301 | a resume rewrites one row and gives up only on a row it has just closed |
| PaymentGuarantees.NeverTwoLivePayments | src/modules/payments/payment.service.ts:226-301 | after every run, of two payments of one booking one is failed or cancelled, with no unique index assumed |
| PaymentGuarantees.ReadsNeverSeeTwoRows | src/modules/payments/payment.service.ts:334-368 | so after every run neither maybeSingle read can fail on two rows |
| PaymentGuarantees.RefundsConserveMoney | src/modules/payments/payment.service.ts:485-613 | after every run pending plus successful refunds stay within the payment, and a settled status is success, partially_refunded or refunded exactly by the sum given back |
| PaymentGuarantees.StatusesNeverRegress | src/modules/payments/payment.service.ts:53-61 | between any two moments of a run statuses moved forward only, amounts did not change, the ledger and the notices grew |
| PaymentGuarantees.TerminalStatusesAreFinal | src/modules/payments/payment.service.ts:53-61 | failed, cancelled and refunded payments and finished refunds never change; settled payments stay settled |
| PaymentGuarantees.OneNoticePerOutcome | src/modules/payments/payment.service.ts:206-224 | over every run at most one success-or-failure notice and one refund notice per payment, each true of it and sent to its booker |
| PaymentGuarantees.RedeliveryChangesNothing | src/modules/payments/payment.service.ts:652-727 | delivering an already delivered body again, anywhere later in a run, changes nothing |
| PaymentGuarantees.ResumeOpensOnlyAfterDeath | src/modules/payments/payment.service.ts:226-368 | paying again opens a second order exactly when the provider reported the first one dead; otherwise the same row is resumed |
| PaymentGuarantees.VerifyAndResumeAgree | src/modules/payments/payment.service.ts:129-169 | verify and resume leave the same row and the same notices for one provider answer |
| PaymentGuarantees.ActiveOrderNeverCloses | src/modules/payments/payment.service.ts:111-301 | for every attempt list, an ACTIVE order leaves the payment pending, or success exactly when the newest success agrees with the recorded money |
| PaymentGuarantees.OnlyReportedSuccessSettles | src/modules/payments/providers/CashfreeProvider.ts:88-115 | an ACTIVE order settles only on a reported SUCCESS whose money does not contradict the recorded; an unrecognised status settles nothing |
| PaymentGuarantees.PaidEchoSettles | src/modules/payments/payment.service.ts:98-109 | a PAID order that echoes the currency settles exactly when its amount drifts by less than half a minor unit, and is an amount mismatch otherwise |
| PaymentGuarantees.AnnouncedIffOutcomeReached | src/modules/payments/payment.service.ts:171-225 | in every step the booker is told of an outcome exactly when a payment already in flight reaches it |
| PaymentEffects.RefundAnnouncedIffGivingBackStarts | src/modules/payments/payment.service.ts:505-529 | in every step the booker is told of a refund exactly when a plain success starts being given back |
| PaymentGuarantees.PaidOnCreationIsSilent | src/modules/payments/payment.service.ts:370-431 | an order already paid at creation settles its payment with no amount compared and no notice |
| PaymentEffects.NewPaymentChargesBooking | src/modules/payments/payment.service.ts:313-431 | a payment call adds at most one row, for the booking's own total and currency, when the caller may pay and every earlier row of the booking is closed |
| PaymentEffects.OpensIffNothingLive | src/modules/payments/payment.service.ts:313-368 | with no provider read, a call opens a payment exactly when the booker asks for a requested or confirmed booking with nothing live |
| PaymentEffects.PayRefusals | src/modules/payments/payment.service.ts:313-329 | the refusals of createPayment in their order |
| PaymentEffects.PaidBookingIsRefused | src/modules/payments/payment.service.ts:354-372 | a booking that has been paid for is refused as a conflict |
| PaymentEffects.UnreadableOrPaidIsRefused | src/modules/payments/payment.service.ts:250-270 | a payment in flight whose order cannot be read, or is paid, is refused as a conflict |
| PaymentEffects.VerifyDoesNothing | src/modules/payments/payment.service.ts:473-483 | verifying changes nothing when there is no such payment, it is final, or its order cannot be read |
| PaymentEffects.OpenedRow | src/modules/payments/payment.service.ts:374-431 | the row a payment opens with: what the provider answered, or a failure with its reason |
| PaymentEffects.BookingsMoveAlone | src/modules/payments/payment.service.ts:354-356 | no payment call moves a booking, and a booking's own move changes its status and no payment |
| PaymentEffects.RefundMovesMoney | src/modules/payments/payment.service.ts:538-613 | a refund is accepted exactly when an admin asks no more than is left, and moves the committed and refunded sums of that payment alone by what was asked |
| PaymentEffects.RefundIsRecorded | src/modules/payments/payment.service.ts:538-613 | the refusals of createRefund in their order, and the row and answer of an accepted one |
| PaymentEffects.WholeRefundClosesPayment | src/modules/payments/payment.service.ts:538-613 | a refund with no amount commits all that was left, and the payment is refunded exactly when nothing else was pending |
| PaymentEffects.RefundWebhookMovesMoney | src/modules/payments/payment.service.ts:615-642 | a refund event moves money only for a refund still pending: success gives it back, failure frees it |
| PaymentOutcomes.SuccessIffMoneyCompared | src/modules/payments/payment.service.ts:85-225 | under every call a payment in flight becomes a success exactly on a verify, resume or webhook claim whose amount and currency do not contradict the recorded ones |
| PaymentOutcomes.NewRowSucceedsIffCreatedPaid | src/modules/payments/payment.service.ts:370-431 | a payment a call adds is a success exactly when its order is created already paid |
| PaymentOutcomes.SettledIffBackedOrCreatedPaid | src/modules/payments/payment.service.ts:85-431 | over every run a payment is settled exactly when some call settled it on compared money or created it paid |
| PaymentDesk.Desk.ApplyPaymentStatusUpdate | src/modules/payments/payment.service.ts:171-225 | the statements of the status funnel do what the specification does to the tables |
| PaymentDesk.Desk.ResumeInFlightPayment | src/modules/payments/payment.service.ts:245-301 | so do those of a resume, with the same answer |
| PaymentDesk.Desk.CreatePayment | src/modules/payments/payment.service.ts:313-368 | so do those of createPayment, refusals included |
| PaymentDesk.Desk.OpenPayment | src/modules/payments/payment.service.ts:370-431 | inserting a created row and writing the provider's answer is appending the written row |
| PaymentDesk.Desk.VerifyPayment | src/modules/payments/payment.service.ts:473-483 | so do those of verifyPayment |
| PaymentDesk.Desk.SumRefunds | src/modules/payments/payment.service.ts:566-572 | the summing loop gives the total of the payment's refunds in the counted statuses |
| PaymentDesk.Desk.RecomputePaymentRefundStatus | src/modules/payments/payment.service.ts:485-530 | the derived refund status is written as specified |
| PaymentDesk.Desk.CreateRefund | src/modules/payments/payment.service.ts:538-613 | the statements of createRefund, failure path included, do what the specification does |
| PaymentDesk.Desk.ApplyRefundEvent | src/modules/payments/payment.service.ts:615-642 | so do those of a refund event |
| PaymentDesk.Desk.HandleWebhook | src/modules/payments/payment.service.ts:652-727 | inserting the ledger row first, applying and marking it processed is the specified delivery |
| ProviderOrders.ClosedIsDeadUnlessAbandoned | src/modules/payments/payment.service.ts:226-301 | a call keeps every closed payment's provider order dead exactly when it is none of the abandoning calls |
| ProviderOrders.ClosedIsDeadThroughoutIff | src/modules/payments/payment.service.ts:226-301 | over every run from the start, closed payments have dead orders at every moment exactly when no call abandons one |
| ProviderOrders.NeverTwoCollectibleOrders | src/modules/payments/payment.service.ts:226-240 | in every run without an abandoning call no booking ever has two orders that can take money, however often payment is retried |
| PaymentOutcomes.WebhookTouchesTarget | src/modules/payments/payment.service.ts:652-727 | a delivery closes nothing but the in-flight payment it is about, and closes that unless it is a success with matching money |
| ProviderOrders.DroppedIff | src/modules/payments/payment.service.ts:692-712 | a termination is asked for exactly on a first user-dropped delivery about a payment in flight |
| ProviderOrders.NoDoubleCharge | src/modules/payments/payment.service.ts:226-240 | while closed payments have dead orders, no booking has two orders that can take money |
| ProviderOrders.AbandonedOrderIsDoubled | src/modules/payments/payment.service.ts:313-431 | beside an abandoned order, paying again makes a second order that can take money |
| ProviderOrders.DeclinedCardThenSecondCharge | src/modules/payments/payment.service.ts:226-240 | the promise fails: after a payment-failed event on an open order the next payment opens a second order and both can be paid |
| RefundRaces.StatementKeepsBalanceIffInTime | src/modules/payments/payment.service.ts:574-613 | one statement keeps refunds within the balance exactly when it is not a late answer to a released refund that no longer fits |
| RefundRaces.InterleavingsKeepBalance | supabase/migrations/20260903183804_phase12_hardening.sql:136-187 | over every interleaving of inserts, answers and events the balance holds at every moment exactly when every answer comes in time |
| RefundRaces.StaleReadsKeepBalance | supabase/migrations/20260903183804_phase12_hardening.sql:136-187 | with only the read apart from the insert, no interleaving overdraws a payment |
| RefundRaces.LateAnswerOverdraws | src/modules/payments/payment.service.ts:600-605 | with the answer apart too, pending or successful, any payment with a balance left can be overdrawn by all of it |
| RefundRaces.RefundsEvolveUnlessUnfinished | src/modules/payments/payment.service.ts:600-642 | a statement moves refunds forward only exactly when it is not a late answer that rewrites a finished one |
| RefundRaces.PaymentRegressesIffTakenBack | src/modules/payments/payment.service.ts:485-530 | recomputed after a statement, a settled payment moves backwards exactly when a late answer takes back the only money given back or part of all there was |
| RefundRaces.LateAnswerRegresses | src/modules/payments/payment.service.ts:600-610 | a pending answer after a success event takes a refunded payment back to success |
| Bookings.SpanIsTight | src/modules/bookings/bookings.service.ts:152-173 | a day's span is the earliest start and the latest end among its windows, both reached |
| Bookings.ResolvedIntervalIsNonEmpty | src/modules/bookings/bookings.service.ts:182-211 | every accepted request of every type resolves to a non-empty interval |
| Bookings.ResolvedAsAsked | src/modules/bookings/bookings.service.ts:145-211 | hourly resolves to its two instants, half day to the configured hours, day and multi-day to the least start and greatest end of their dates, and each is refused exactly when what it needs is missing |
| Bookings.WellFormedIff | src/modules/bookings/bookings.schema.ts:60-85 | a request is well formed unless it is hourly and under sixty minutes, or its last date comes before its first |
| Bookings.TransitionRefusals | src/modules/bookings/bookings.service.ts:367-509 | the refusals of a transition in their order: no such booking, not this caller, not this status |
| Bookings.RangesMeetIffSharedInstant | supabase/migrations/20260903072726_phase6_bookings.sql:71-74 | for non-empty half-open intervals the exclusion operator says that some instant is in both |
| Bookings.MidnightEndIsRefused | supabase/migrations/20260903072726_phase6_bookings.sql:331-402 | no interval that ends at midnight is available: it ends on a day none of whose windows has begun |
| Bookings.DaySpanIsAvailableIff | supabase/migrations/20260903072726_phase6_bookings.sql:331-402 | a day booking's span is available exactly when the day is one window, so a schedule with a gap refuses it |
| Bookings.MultiDaySpanIsAvailableIff | supabase/migrations/20260903072726_phase6_bookings.sql:331-402 | a span of several days is available exactly when it ends before midnight, whatever gaps its days have |
| Bookings.ConflictOrEmptyIsRefused | supabase/migrations/20260903072726_phase6_bookings.sql:331-402 | a conflicting period refuses, and so does an empty interval |
| Bookings.WithinDayIsAvailableIff | supabase/migrations/20260903072726_phase6_bookings.sql:331-402 | free of conflict, an interval within a local day is available exactly when one window contains it |
| Bookings.AcrossDaysIsAvailableIff | supabase/migrations/20260903072726_phase6_bookings.sql:331-402 | free of conflict, an interval over several days is available exactly when a window of the first contains its start and one of the last its end |
| Bookings.BookingTable.SpanOf | src/modules/bookings/bookings.service.ts:152-173 | the min/max loop computes the span, and refuses a day without windows |
| Bookings.BookingTable.Insert | src/modules/bookings/bookings.service.ts:252-284 | a row is appended exactly when the table's constraints admit it; an overlap is a conflict, an empty interval an internal error, and neither changes anything |
| Bookings.BookingTable.TransitionBooking | src/modules/bookings/bookings.service.ts:399-418 | the guarded update is a compare-and-swap on the status |
| BookingRaces.RunKeeps | src/modules/bookings/bookings.service.ts:213-509 | every interleaving of creates and transitions keeps the booking invariant |
| BookingRaces.NoInstantBookedTwice | src/modules/bookings/bookings.service.ts:268-282 | no instant of a location is held by two requested or confirmed bookings |
| BookingRaces.HistoriesArePaths | src/modules/bookings/bookings.service.ts:399-509 | every committed history is a path of the transition diagram and no status recurs in it |
| BookingRaces.OneWinnerPerStatus | src/modules/bookings/bookings.service.ts:390-418 | of all calls that validated one booking against one status at most one commits |
| BookingRaces.CancelledByIffCancelled | src/modules/bookings/bookings.service.ts:476-498 | cancelled_by is set exactly when the booking is cancelled, to its booker, its host or an admin |
| BookingRaces.NoTransitionReactivates | src/modules/bookings/bookings.service.ts:399-509 | a booking that released its slot never changes again |
| BookingRaces.UncontestedActionTakesEffect | src/modules/bookings/bookings.service.ts:420-509 | uninterrupted, an action moves exactly its booking, exactly when the diagram has the edge and the caller may take it |
| BookingRaces.UncontestedRequestBooks | src/modules/bookings/bookings.service.ts:213-297 | uninterrupted, a request books its interval exactly when the location is published, the interval is available and no active booking meets it |
| BookingRaces.BookedAsAsked | src/modules/bookings/bookings.service.ts:145-297 | what an uninterrupted request books is what its kind asks for, at that location, for that booker, and nothing when what it needs is missing |
| Pricing.HourlyAmountIsNearest | src/modules/bookings/pricing.ts:75-78 | the hourly amount is within half a minor unit of rate times duration |
| Pricing.HourlyAmountIsMonotone | src/modules/bookings/pricing.ts:75-78 | a longer stay never costs less |
| Pricing.SplittingAnHourlyStay | src/modules/bookings/pricing.ts:75-78 | two parts of a stay cost the whole give or take one minor unit |
| Pricing.AcceptedHourlyIsNeverFree | src/modules/bookings/pricing.ts:79-89 | a booking the schema accepts costs at least the rate, so the zero guard is unreachable |
| Pricing.ZeroGuardFiresIff | src/modules/bookings/pricing.ts:79-89 | without the schema's floor the guard fires exactly for stays worth less than half a minor unit |
| Pricing.HourlyPriceIsNearest | src/modules/bookings/pricing.ts:75-89 | an hourly price that is given is the whole number of minor units nearest to rate times duration |
| Pricing.FlatAndMissingPrices | src/modules/bookings/pricing.ts:19-39 | a kind with no price is refused, and half days and days cost their rate |
| Pricing.MultiDayIsAdditive | src/modules/bookings/pricing.ts:48-53 | a run of days costs what its two halves cost |
| Pricing.AcceptedMultiDayChargesNamedDays | src/modules/bookings/pricing.ts:48-101 | a multi-day request that the availability check accepts pays for exactly the days it names, even if the windows changed in between |
| Cursor.DigitsRoundTrip | src/modules/messaging/cursor.ts:36-38 | base64url digits decode to the bytes they encode, four for every three, per section 5 of RFC 4648 |
| Cursor.LastBarSplits | src/modules/messaging/cursor.ts:48-60 | the last separator is the right one even when the timestamp contains it |
| Cursor.DecodeUndoesEncode | src/modules/messaging/cursor.ts:36-74 | decoding undoes encoding exactly for a uuid and a timestamp that parses |
| Cursor.DecodedIsWellFormed | src/modules/messaging/cursor.ts:48-74 | whatever decodes has a uuid and a parsable timestamp, and re-encodes to a cursor that decodes the same |
| Cursor.EncodingIsInjective | src/modules/messaging/cursor.ts:36-38 | two positions never share a cursor |
| Cursor.AlphabetIsUrlSafe | src/modules/messaging/cursor.ts:36-38 | digits are spelled A-Z, a-z, 0-9, - and _ in order |
| Cursor.AlphabetIsRead | src/modules/messaging/cursor.ts:48-51 | decoding reads that alphabet and the ordinary one, and skips any other character |
| Cursor.UnusedBitsAreZero | src/modules/messaging/cursor.ts:36-38 | the bits of the last digit that carry no byte are zero |
| Cursor.UuidShape | src/modules/messaging/cursor.ts:34 | an id is groups of 8, 4, 4, 4 and 12 hexadecimal digits of either case with dashes between |
| Cursor.DecodesIff | src/modules/messaging/cursor.ts:48-74 | any raw string decodes to a position exactly when its bytes are a parsable timestamp, the separator and an id |
| Cursor.BadCursorIsInvalid | src/modules/messaging/cursor.ts:48-74 | whatever does not decode is a validation error |
| Cursor.EncodingFitsQuery | src/modules/messaging/messaging.schema.ts:69 | a cursor is URL-safe, and within the 200-character limit exactly for timestamps of at most 113 bytes |
| Keyset.FetchTakesNewest | supabase/migrations/20260918120000_phase29_6_location_sections.sql:642-778 | the ordered, limited read returns the newest rows in strictly descending order |
| Keyset.ClampedRead | supabase/migrations/20260918120000_phase29_6_location_sections.sql:642-778 | the database reads what it is asked for, between 1 and 101 rows |
| Keyset.ExtraRowFits | src/modules/messaging/messaging.schema.ts:67-70 | the limits a query may name are exactly those that leave room for the extra row |
| Keyset.PageIsNewestBelow | src/modules/messaging/messages.service.ts:90-122 | a page is the newest rows below its cursor; has_more is right; what it leaves lies below next_cursor |
| Keyset.WalkDescends | src/modules/messaging/messages.service.ts:90-122 | whatever happens to the table meanwhile, a walk yields strictly decreasing keys |
| Keyset.AboveIsNeverReturned | src/modules/messaging/conversations.service.ts:157-178 | a row at or above the cursor whose timestamp only rises is not returned later |
| Keyset.NoRowTwice | src/modules/messaging/messages.service.ts:90-122 | no row is returned twice, however the table grows between pages |
| Keyset.UnmovedIsReturned | src/modules/messaging/messages.service.ts:90-122 | a complete walk returns every row that was present at its start and did not move |
| Keyset.MessageReturnedExactlyOnce | src/modules/messaging/messages.service.ts:90-122 | so a history walk returns every message present at its start exactly once, ties and inserts included |
| Keyset.ReturnedUnlessLiftedAway | src/modules/messaging/conversations.service.ts:157-178 | an inbox walk returns a conversation exactly when no message lifted it to the cursor first |
| Keyset.ConversationCanBeMissed | src/modules/messaging/conversations.service.ts:157-178 | an inbox walk that misses a conversation |
| Keyset.PageCountIsCeiling | src/modules/messaging/messages.service.ts:103-122 | the page count is ceil(n / limit), and one for an empty table |
| Keyset.QuietWalkIsSortedList | src/modules/messaging/messages.service.ts:90-122 | with no writes the walk is exactly the sorted list in that many pages |
| Keyset.RestOfPage | src/modules/messaging/messages.service.ts:103-122 | each full page shrinks the rows below the cursor by the limit |
| InsertOrReturn.AnswersAreSequential | src/modules/messaging/messages.service.ts:158-216 | linearizability: in every run each answered send is what an atomic get-or-create would answer in insert order |
| InsertOrReturn.ExactlyOneCreator | src/modules/messaging/conversations.service.ts:240-310 | of all calls for one key exactly one creates, and every answer carries its row |
| InsertOrReturn.OnlyCreatorNotifies | src/modules/messaging/messages.service.ts:176-210 | only the creating send notifies, and no collision is left without a row |
| InsertOrReturn.FirstWriteWins | src/modules/messaging/messages.service.ts:186-194 | a stored row is never rewritten by a replay |
| InsertOrReturn.FirstInsertAnswers | src/modules/messaging/messages.service.ts:167-184 | uninterrupted, a call whose key is free stores its row, is answered it as the creator, and notifies |
| InsertOrReturn.CollidedInsertAnswers | src/modules/messaging/messages.service.ts:186-210 | uninterrupted, a call whose key is taken is answered the stored row, changes nothing and notifies nobody |
| InsertOrReturn.EveryTurnAnswers | src/modules/messaging/conversations.service.ts:266-310 | whatever happens between its statements, a call is answered or goes on at each turn |
| InsertOrReturn.Rows.InsertOrReturn | src/modules/messaging/conversations.service.ts:266-310 | the statements of one uninterrupted call: store and tell, or answer what is stored |
| Galleries.AppendLandsOnTop | supabase/migrations/20260918120000_phase29_6_location_sections.sql:238-252 | an append lands above everything present in its gallery |
| Galleries.RecordKeepsDistinctIff | supabase/migrations/20260918120000_phase29_6_location_sections.sql:238-265 | recording keeps positions distinct exactly when it appends or names a free position |
| Galleries.AcceptedIffPermutation | src/modules/media/media.service.ts:319-358 | an order is accepted exactly when it lists the whole gallery, each photo once |
| Galleries.ReorderRenumbersGallery | src/modules/media/media.service.ts:285-370 | an accepted order lands on exactly 0..n-1 as listed, and touches no other row and no other column |
| Galleries.ReorderKeepsDistinct | src/modules/media/media.service.ts:309-370 | reordering keeps positions distinct in every gallery |
| Galleries.ReorderMakesDistinct | src/modules/media/media.service.ts:285-370 | a reorder repairs a gallery whose positions collide |
| Galleries.LaterReorderOverrides | src/modules/media/media.service.ts:309-370 | a later accepted order fully overrides an earlier one |
| Galleries.VacatingNeverCollides | supabase/migrations/20260918120000_phase29_6_location_sections.sql:303-307 | under the planned unique index no row of the first pass collides, whatever rows have been updated so far |
| Galleries.NumberingNeverCollides | supabase/migrations/20260918120000_phase29_6_location_sections.sql:303-307 | nor does any row of the second pass |
| Galleries.OnePassIsSafeIff | supabase/migrations/20260918120000_phase29_6_location_sections.sql:303-307 | a single pass would be free of collisions in every row order exactly when no photo takes another's place |
| Galleries.VacatedPositions | supabase/migrations/20260918120000_phase29_6_location_sections.sql:387-393 | the first pass gives the listed photos the positions -1, -2 and so on, and leaves the rest |
| Galleries.NumberedPositions | supabase/migrations/20260918120000_phase29_6_location_sections.sql:395-401 | the second takes each photo from there to its place in the list |
| Galleries.GalleryRefusals | supabase/migrations/20260918120000_phase29_6_location_sections.sql:190-410 | exactly what the two functions refuse, and with which error |
| Galleries.MediaTable.RecordLocationMedia | supabase/migrations/20260918120000_phase29_6_location_sections.sql:190-265 | the recording function resolves the position and inserts, or reports the primary-key violation and changes nothing |
| Galleries.MediaTable.MaxPlusOne | supabase/migrations/20260918120000_phase29_6_location_sections.sql:246-252 | the aggregate is one above the gallery's highest position, and zero for an empty gallery |
| Galleries.MediaTable.ReorderLocationMedia | supabase/migrations/20260918120000_phase29_6_location_sections.sql:309-410 | the two updates together are the specified renumbering, and a refused order changes nothing |
| Galleries.MediaTable.DeleteMedia | src/modules/media/media.service.ts:372-409 | deleting removes the row of that id at that location and nothing else |
| GalleryRaces.AppendsKeepPositionsDistinct | src/modules/media/media.service.ts:207-250 | from empty galleries, whatever append completions, deletions and reorders interleave, positions are distinct in every gallery |
| GalleryRaces.ExplicitPositionClashes | src/modules/media/media.service.ts:213-229 | a completion that names a position can duplicate it in any gallery that has a photo |
| GalleryRaces.CompletionsLinearize | src/modules/media/media.service.ts:143-250 | a completion that succeeds, or is refused because its media id belongs elsewhere, answers at its last statement as an atomic one would, never with another location's row, and only its recording writes |
| GalleryRaces.UncontestedCompletionRecords | src/modules/media/media.service.ts:161-229 | left alone, a completion of a new, uploaded id adds exactly its row, as asked for and placed, and answers it as created |
| GalleryRaces.UnfitUploadIsRefused | src/modules/media/media.service.ts:191-205 | a missing or unfit upload ends the call with that answer and records nothing |
| GalleryRaces.ReplayedCompletionAnswersStored | src/modules/media/media.service.ts:182-189 | a completion that finds its id recorded answers the stored row, or not found for another location, and changes nothing |
| GalleryRaces.BeatenCompletionAnswersStored | src/modules/media/media.service.ts:231-249 | so does one that is beaten to it between its lookup and its recording |
| GalleryRaces.OvertakenCallsFail | src/modules/media/media.service.ts:231-250 | a completion whose rival's row is gone when it looks again, and an order that went stale, are internal errors |
| GalleryRaces.InterleavingsAreSequential | src/modules/media/media.service.ts:161-409 | whatever the interleaving, the galleries end as the completions, reorders and deletions that took effect leave them, executed one by one |
| GalleryRaces.OneCreationPerLifetime | src/modules/media/media.service.ts:143-250 | over every interleaving a media id is created once for each time it is absent |
| GalleryRaces.AppliedOrderIsCurrent | src/modules/media/media.service.ts:330-370 | an order applied after other calls was still the whole gallery at that moment, and lands on 0..n-1 |
| GalleryRaces.UncontestedOrderIsApplied | src/modules/media/media.service.ts:309-370 | left alone, an order that lists the whole gallery is applied, and any other is refused |
| GalleryRaces.RemovalRemoves | src/modules/media/media.service.ts:372-409 | a removal removes that row, if it is of that location, and no other |
| Moderation.Desk.SuspendUser | src/modules/admin/users.service.ts:74-119 | the statements of suspendUser: status, the published locations, one audit entry naming them |
| Moderation.Desk.RestoreUser | src/modules/admin/users.service.ts:122-159 | the statements of restoreUser: status, the flagged locations, one audit entry naming them |
| Moderation.Desk.ApproveLocation | src/modules/admin/locations.service.ts:34-49 | the statements of approveLocation |
| Moderation.Desk.RejectLocation | src/modules/admin/locations.service.ts:51-68 | the statements of rejectLocation |
| Moderation.Desk.SuspendLocation | src/modules/admin/locations.service.ts:71-92 | the statements of suspendLocation |
| Moderation.Desk.RestoreLocation | src/modules/admin/locations.service.ts:95-111 | the statements of restoreLocation |
| Moderation.Desk.UpdateLocation | src/modules/locations/locations.service.ts:348-417 | the statements of updateLocation: fields first, then status, an audit entry for an admin's status |
| ModerationRuns.RunKeeps | src/modules/admin/users.service.ts:60-159 | over every run the cascade flag implies a suspended location and a suspended host, and published implies no moderation reason |
| ModerationRuns.DirectUpdateKeepsInvIff | src/modules/locations/locations.service.ts:397-416 | exactly when the administrator's general status update keeps that |
| ModerationRuns.OneEntryPerDeed | src/modules/admin/audit.service.ts:36-68 | a refused call changes nothing, and a successful administrator's deed leaves exactly one audit entry |
| ModerationRuns.AccountRefusals | src/modules/admin/users.service.ts:74-131 | the refusals of suspending and restoring a user |
| ModerationRuns.SuspendChangesExactlyPublished | src/modules/admin/users.service.ts:60-119 | suspending a host puts down exactly their published locations, flags each, and logs them |
| ModerationRuns.RestoreChangesExactlyFlagged | src/modules/admin/users.service.ts:121-159 | restoring a host changes exactly the flagged locations, publishes each, and logs them |
| ModerationRuns.SuspendThenRestore | src/modules/admin/users.service.ts:74-159 | suspending and at once restoring is the identity on locations, and on accounts exactly for active ones |
| ModerationRuns.DeletedAccountBecomesActive | src/modules/admin/users.service.ts:74-139 | suspending and restoring a deleted account makes it active |
| ModerationRuns.CascadesCommute | src/modules/admin/users.service.ts:74-159 | suspending one host and restoring another can be done in either order |
| ModerationRuns.RestoreUndoesOnlyTheCascade | src/modules/admin/users.service.ts:68-72 | whatever happens in between, restoring a host touches a location exactly when the suspension put it down and no administrator restored it since |
| ModerationRuns.OnlyRestoreLocationPublishesUnderSuspension | src/modules/admin/locations.service.ts:94-111 | a published location has a host who is not suspended; only restoreLocation under a suspended host breaks that |
| ModerationRuns.NeverPublishedUnderSuspensionIff | src/modules/admin/locations.service.ts:94-111 | over every run no location is published under a suspended host at any moment exactly when no restoreLocation publishes one |
| ModerationRuns.HostsNeverPublish | src/modules/locations/locations.service.ts:37-45 | no run of host updates publishes anything or moves a location that moderation has decided on |
| ModerationRuns.HostMoveAcceptedIff | src/modules/locations/locations.service.ts:37-45 | a host's change of status goes through exactly when the location is theirs, the move is open to them and a submission is complete, and it makes that move and merges the fields |
| ModerationRuns.FieldsAreMerged | src/modules/locations/locations.service.ts:348-396 | an update without a status merges the fields of the caller's own location, or of any for an administrator |
| ModerationRuns.AdministratorSetsAnyStatus | src/modules/locations/locations.service.ts:366-416 | an administrator's update sets any status and is logged with both |
| ModerationRuns.SubmissionAcceptedIff | src/modules/locations/locations.service.ts:366-381 | a host's submission goes through exactly for their own draft with nothing required missing |
| ModerationRuns.UpdateKeepsCompleteIff | src/modules/locations/locations.service.ts:366-397 | an accepted update keeps a complete location complete exactly when it clears nothing it does not set |
| ModerationRuns.OnlyClearingWithdrawsCompleteness | src/modules/locations/locations.service.ts:366-397 | what is past the draft stage stays complete under every step but an accepted update that clears a required field |
| ModerationRuns.RunKeepsCompleteness | src/modules/locations/locations.service.ts:366-397 | over every run whatever is past the draft stage has everything submission requires, at every moment, exactly when no accepted update clears any of it |
| ModerationRuns.CompletenessCanBeWithdrawn | src/modules/locations/locations.service.ts:366-397 | a location submitted complete whose latitude is cleared afterwards |
| ModerationRuns.ActionsFollowDiagram | src/modules/admin/locations.service.ts:30-111 | each of the four actions takes its own edge exactly when it can, touching one location, with its reason, flag, audit entry and refusals; approval also asks for a host who is not suspended |
| Groups.FlattenIsPermutation | src/modules/availability/availability.service.ts:56-67 | grouping by key loses no row and duplicates none |
| Groups.FlattenRestores | src/modules/availability/availability.service.ts:56-67 | rows that came in key order are put back exactly |
| Groups.SizesAddUp | src/modules/sections/sections.service.ts:161-180 | the sizes of the groups add up to the rows read |
| Calendar.NextDayAdvances | src/modules/availability/availability.service.ts:22-31 | the next day is the next day number, across the ends of months, years and February |
| Calendar.FirstDayIsZero | src/modules/availability/availability.service.ts:22-31 | day numbers count from the first day of year zero |
| Calendar.MonthLengths | src/modules/availability/availability.service.ts:22-31 | the months have the lengths of the Gregorian calendar |
| Calendar.OrderIsNumeric | src/modules/availability/availability.service.ts:22-31 | dates compare as their day numbers do, and a day number names one date |
| Calendar.EachDate | src/modules/availability/availability.service.ts:22-31 | the loop lists consecutive day numbers from the first to the last date |
| Calendar.EveryDateListedOnce | src/modules/availability/availability.service.ts:22-31 | so it lists exactly the dates of the range, each once, in ascending order |
| Calendar.GroupByDate | src/modules/availability/availability.service.ts:56-62 | the pushing loop maps each date to that date's windows in order |
| Calendar.GetAvailability | src/modules/availability/availability.service.ts:33-70 | one entry for each listed date with that date's windows; an invisible location is not found |
| Calendar.NothingLost | src/modules/availability/availability.service.ts:56-67 | rows in the range are neither lost nor duplicated, and rows that came by date are read back exactly |
| Sections.SectionSummaries | src/modules/sections/sections.service.ts:122-180 | one pass gives each section the first element and the length of its own media |
| Sections.CoverAndCount | src/modules/sections/sections.service.ts:161-171 | the loop maps exactly the sections that have media, each to its first photo and its number of photos |
| Sections.CountsSumToRows | src/modules/sections/sections.service.ts:161-180 | the photo counts sum to the rows read |
| Sections.CoverComesFirst | src/modules/sections/sections.service.ts:140-180 | a cover is a photo of its section that none of the section's photos comes before, absent exactly for an empty section |
| Notifications.Service.SafeNotify | src/modules/notifications/notification.service.ts:77-110 | insert and fan out, or do nothing for a key already used; no failure reaches the caller |
| Notifications.Service.DeliverPush | src/modules/notifications/notification.service.ts:112-184 | the guarded loop over the devices is the specified fan-out |
| Notifications.Service.PushToDevice | src/modules/notifications/notification.service.ts:136-183 | one device's turn: push, log, deactivate for an invalid token |
| Notifications.Service.DeleteNotification | src/modules/notifications/notification.service.ts:525-561 | the soft delete stamps the owner's row once |
| Notifications.RecipientIsTheOther | src/modules/notifications/notification.service.ts:329-403 | a message never notifies its sender, and notifies exactly the other participant of a conversation between two people |
| NotificationRuns.SourceEventsDiffer | src/modules/notifications/notification.service.ts:65-75 | a source event names its kind and its cause, whatever text the id is |
| NotificationRuns.FanOutDeactivates | src/modules/notifications/notification.service.ts:168-178 | a device is deactivated exactly when its own token was invalid and that could be recorded |
| NotificationRuns.DeactivatesIff | src/modules/notifications/notification.service.ts:168-178 | only a push answered with an invalid token deactivates, if the two statements after it let it |
| NotificationRuns.FanOutLogs | src/modules/notifications/notification.service.ts:152-166 | each answered push whose logging succeeds leaves one attempt with its own status |
| NotificationRuns.TriggersNameTheCause | src/modules/notifications/notification.service.ts:65-75 | the key of a payment notice names the payment, of a message notice the message, of any other the booking |
| NotificationRuns.EveryActiveDeviceOnce | src/modules/notifications/notification.service.ts:77-184 | a new notification pushes to each active device of the user exactly once, whatever fails on others, and to no other device |
| NotificationRuns.RunKeeps | src/modules/notifications/notification.service.ts:77-110 | over every run, removals and device changes included: one row for each user and event, no device pushed twice for it |
| NotificationRuns.NeverToldTwice | src/modules/notifications/notification.service.ts:505-524 | once told, a user is never told of the same event again, even after removing it |
| NotificationRuns.OtherCausesAreTold | src/modules/notifications/notification.service.ts:65-75 | telling of one cause never suppresses another |
| NotificationRuns.RemovalIsIdempotent | src/modules/notifications/notification.service.ts:505-561 | removing again keeps the first time; only the owner's call finds the row |

## Left out

- Routing, controllers, request validation beyond the numeric bounds used above, OpenAPI, configuration.
- The database client, row-level security and grants: a read returns what exists, except where visibility is a parameter.
- `get_location_availability` and `has_conflicting_period`: their answers are parameters. Of the first only this is used: windows are non-empty and lie in their own local day, and where it is said so they come in order with gaps between them. The availability check's own second look at the location's visibility is not modelled.
- `search_locations` and `mark_conversation_read`; dashboards, listings, profile, role and device endpoints; the rate limiter: no property of these is stated.
- Provider HTTP, webhook signatures and hashes (the ledger is keyed by the body itself), push transport, upload signing and the object store.
- Interleavings inside one payment call, and crashes between its statements: a call that throws after the webhook's ledger row is inserted leaves an event that a redelivery will not apply. `RefundRaces` covers refunds only.
- PaymentDesk.Desk.HandleWebhook: events enter parsed; an event that throws while it is applied is not modelled.
- PaymentDesk.Desk.CreatePayment: checkout sessions, expiry times, raw provider bodies and timestamps are not part of the rows.
- Bookings.BookingTable.Insert: price columns and notifications are not part of the row; `Pricing` and `Notifications` model them.
- Booking details, public shapes and `flattenDetail`: projections with no state.
- Cursor.DecodeUndoesEncode: text is its UTF-8 bytes, so ill-formed UTF-16 or UTF-8, which the runtime replaces, is not modelled.
- ProviderOrders.NeverTwoCollectibleOrders: a new order is created open; one created already paid is `PaidOnCreationIsSilent`.
- Cashfree.ComparatorIsStrictWeakOrder: the locale's collation is any map of ids to a line; two different ids it cannot tell apart tie.
- Payments: currency codes are upper-cased as ASCII.
- Pricing.HourlyAmountIsNearest: exact arithmetic instead of binary floating point, and the time zone is any map from instants to local days.
- Keyset.ReturnedUnlessLiftedAway: a conversation's timestamp is taken to rise only; a deletion during a walk is not modelled.
- InsertOrReturn.AnswersAreSequential: the checks before the insert (participant, published location, own listing, booking context) only end a call early.
- GalleryRaces.CompletionsLinearize: ownership and section membership checks, and the size and type checks on the object, are the refusals of one step; the object's removal on delete is not modelled.
- ModerationRuns.RunKeeps: leaves out the administrator's general status update, which `DirectUpdateKeepsInvIff` treats on its own.
- Moderation.Desk.UpdateLocation: category, amenity and use-case tags; of the content fields only which required ones are filled.
- Calendar.GetAvailability: dates are calendar dates; the database refuses text that is not, before the loop runs.
- Notifications.Service.DeliverPush: the payload, the titles and the thread id are not modelled.
