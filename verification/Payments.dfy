/**
 * The payment and refund engine of src/modules/payments/payment.service.ts, as functions from one
 * store to the next. A service call is one atomic step; rows are numbered in insertion order, and
 * the provider order of payment p is `pb_p`. No unique index is assumed anywhere.
 */
module Payments {
  import opened Common
  import opened Cashfree

  // ---------------------------------------------------------------------------------------------
  // Rows

  datatype FailureReason = OrderCreationFailed | NoLongerCompletable | AmountMismatch | FailedOrNotCompleted

  datatype Payment = Payment(
    booking: string, status: PaymentStatus, amount: nat, currency: string,
    reference: Option<string>, failureReason: Option<FailureReason>)

  datatype Refund = Refund(payment: nat, status: RefundStatus, amount: int, reference: Option<string>)

  datatype BookingRow = BookingRow(booker: string, status: BookingStatus, total: nat, currency: string)

  datatype LedgerRow = LedgerRow(payment: Option<nat>, processed: bool)

  datatype NoticeKind = PaymentSucceeded | PaymentUnsuccessful | RefundProcessed

  datatype Notice = Notice(kind: NoticeKind, user: string, booking: string, payment: nat)

  datatype Store = Store(
    bookings: map<string, BookingRow>, payments: seq<Payment>, refunds: seq<Refund>,
    ledger: map<Payload, LedgerRow>, notices: seq<Notice>)

  const IN_FLIGHT: set<PaymentStatus> := {Created, Pending}

  const SETTLED: set<PaymentStatus> := {Success, PartiallyRefunded, Refunded}

  predicate InFlight(s: PaymentStatus) { s in IN_FLIGHT }

  predicate Settled(s: PaymentStatus) { s in SETTLED }

  predicate Terminal(s: PaymentStatus) { Settled(s) || s == Failed || s == Cancelled }

  predicate TerminalRefund(s: RefundStatus) { s != RefundPending }

  // ---------------------------------------------------------------------------------------------
  // Pure decisions

  function NextPaymentStatus(current: PaymentStatus, incoming: PaymentStatus): PaymentStatus {
    if Terminal(current) then current else incoming
  }

  datatype Reported = Reported(amount: Option<int>, currency: Option<string>)

  function Upper(s: string): string {
    seq(|s|, i requires 0 <= i < |s| => if 'a' <= s[i] <= 'z' then s[i] - 32 as char else s[i])
  }

  /** A reported amount or currency that is present and differs; silence is not evidence of a mismatch. */
  predicate Mismatched(p: Payment, reported: Reported) {
    || (reported.amount.Some? && reported.amount.value != p.amount)
    || (reported.currency.Some? && Upper(reported.currency.value) != Upper(p.currency))
  }

  datatype Outcome = Outcome(status: OrderStatus, reported: Reported)

  function EffectiveOutcome(read: OrderRead, p: Payment): Outcome {
    if read.status == Pending && read.settled.Some? && read.settled.value.status == AttemptSuccess then
      var reported := Reported(read.settled.value.amount, read.settled.value.currency);
      if Mismatched(p, reported) then Outcome(read.status, Reported(None, None))
      else Outcome(Success, reported)
    else
      Outcome(read.status, Reported(read.amount, read.currency))
  }

  // ---------------------------------------------------------------------------------------------
  // The funnel

  /** The row `applyPaymentStatusUpdate` writes. */
  function Updated(p: Payment, incoming: PaymentStatus, reference: Option<string>,
                   reason: Option<FailureReason>, reported: Reported): Payment
  {
    var next := NextPaymentStatus(p.status, incoming);
    var mismatch := next == Success && next != p.status && Mismatched(p, reported);
    var status := if mismatch then Failed else next;
    var why := if mismatch then Some(AmountMismatch) else reason;
    p.(status := status,
       reference := if reference.Some? then reference else p.reference,
       failureReason := if status == Failed && why.Some? then why else p.failureReason)
  }

  function WithPayment(s: Store, p: nat, row: Payment): Store
    requires p < |s.payments|
  {
    s.(payments := s.payments[p := row])
  }

  function Notify(s: Store, kind: NoticeKind, p: nat): Store
    requires p < |s.payments|
  {
    var booking := s.payments[p].booking;
    if booking in s.bookings then
      s.(notices := s.notices + [Notice(kind, s.bookings[booking].booker, booking, p)])
    else s
  }

  function ApplyStatus(s: Store, p: nat, incoming: PaymentStatus, reference: Option<string>,
                       reason: Option<FailureReason>, reported: Reported): Store
    requires p < |s.payments|
  {
    var before := s.payments[p].status;
    var row := Updated(s.payments[p], incoming, reference, reason, reported);
    var s1 := WithPayment(s, p, row);
    if row.status != before && row.status == Success then Notify(s1, PaymentSucceeded, p)
    else if row.status != before && row.status == Failed then Notify(s1, PaymentUnsuccessful, p)
    else s1
  }

  // ---------------------------------------------------------------------------------------------
  // Creating, resuming and verifying

  function PaymentsOf(payments: seq<Payment>, booking: string, wanted: set<PaymentStatus>): seq<nat> {
    if payments == [] then []
    else
      var last := |payments| - 1;
      PaymentsOf(payments[..last], booking, wanted)
      + if payments[last].booking == booking && payments[last].status in wanted then [last] else []
  }

  /** A `maybeSingle` read is an error on two rows or more. */
  datatype Single = NoRow | OneRow(id: nat) | TooManyRows

  function MaybeSingle(ids: seq<nat>): Single {
    if ids == [] then NoRow else if |ids| == 1 then OneRow(ids[0]) else TooManyRows
  }

  function InFlightOf(s: Store, booking: string): Single {
    MaybeSingle(PaymentsOf(s.payments, booking, IN_FLIGHT))
  }

  function SettledOf(s: Store, booking: string): Single {
    MaybeSingle(PaymentsOf(s.payments, booking, SETTLED))
  }

  /** `Answer` ends the call; `Dead` lets the caller start a new attempt. */
  datatype Resumption = Answer(result: Result<nat>) | Dead

  function ResumeInFlight(s: Store, p: nat, read: Option<OrderRead>): (Store, Resumption)
    requires p < |s.payments|
  {
    if read.None? then (s, Answer(Err(Conflict)))
    else
      var order := read.value;
      var outcome := EffectiveOutcome(order, s.payments[p]);
      if outcome.status == Success then
        (ApplyStatus(s, p, Success, order.reference, None, outcome.reported), Answer(Err(Conflict)))
      else if outcome.status == Pending then
        var row := s.payments[p];
        var reference := if order.reference.Some? then order.reference else row.reference;
        (WithPayment(s, p, row.(status := Pending, reference := reference)), Answer(Ok(p)))
      else
        (ApplyStatus(s, p, outcome.status, order.reference, Some(NoLongerCompletable), outcome.reported), Dead)
  }

  datatype CreatedOrder = CreatedOrder(status: OrderStatus, reference: Option<string>)

  /** Inserts a `created` row, asks the provider for an order, and writes what the provider answered. */
  function OpenPayment(s: Store, booking: string, created: Option<CreatedOrder>): (Store, Result<nat>)
    requires booking in s.bookings
  {
    var p := |s.payments|;
    var row := Payment(booking, Created, s.bookings[booking].total, s.bookings[booking].currency, None, None);
    var written :=
      match created
      case None => row.(status := Failed, failureReason := Some(OrderCreationFailed))
      case Some(order) => row.(status := order.status, reference := order.reference);
    (s.(payments := s.payments + [written]), if created.None? then Err(Internal) else Ok(p))
  }

  function CreatePayment(s: Store, caller: string, booking: string,
                         read: Option<OrderRead>, created: Option<CreatedOrder>): (Store, Result<nat>)
  {
    if booking !in s.bookings then (s, Err(NotFound))
    else if s.bookings[booking].booker != caller then (s, Err(Forbidden))
    else if s.bookings[booking].status != Requested && s.bookings[booking].status != Confirmed then (s, Err(Validation))
    else ResumeOrOpen(s, booking, read, created)
  }

  function ResumeOrOpen(s: Store, booking: string,
                        read: Option<OrderRead>, created: Option<CreatedOrder>): (Store, Result<nat>)
    requires booking in s.bookings
  {
    match InFlightOf(s, booking)
    case TooManyRows => (s, Err(Internal))
    case NoRow => OpenUnlessSettled(s, booking, created)
    case OneRow(p) =>
      SingleFinds(s.payments, booking, IN_FLIGHT);
      var (s1, resumed) := ResumeInFlight(s, p, read);
      if resumed.Answer? then (s1, resumed.result) else OpenUnlessSettled(s1, booking, created)
  }

  function OpenUnlessSettled(s: Store, booking: string, created: Option<CreatedOrder>): (Store, Result<nat>)
    requires booking in s.bookings
  {
    match SettledOf(s, booking)
    case TooManyRows => (s, Err(Internal))
    case OneRow(_) => (s, Err(Conflict))
    case NoRow => OpenPayment(s, booking, created)
  }

  function VerifyPayment(s: Store, p: nat, read: Option<OrderRead>): (Store, Result<nat>) {
    if p >= |s.payments| then (s, Err(NotFound))
    else if Terminal(s.payments[p].status) then (s, Ok(p))
    else if read.None? then (s, Err(Internal))
    else
      var outcome := EffectiveOutcome(read.value, s.payments[p]);
      (ApplyStatus(s, p, outcome.status, read.value.reference, None, outcome.reported), Ok(p))
  }

  // ---------------------------------------------------------------------------------------------
  // Refunds

  function Total(refunds: seq<Refund>, p: nat, counted: set<RefundStatus>): int {
    if refunds == [] then 0
    else
      var last := refunds[|refunds| - 1];
      Total(refunds[..|refunds| - 1], p, counted)
      + if last.payment == p && last.status in counted then last.amount else 0
  }

  const COMMITTED: set<RefundStatus> := {RefundPending, RefundSuccess}

  function Committed(s: Store, p: nat): int { Total(s.refunds, p, COMMITTED) }

  function RefundedSum(s: Store, p: nat): int { Total(s.refunds, p, {RefundSuccess}) }

  function RefundedStatus(total: int, amount: int): PaymentStatus {
    if total <= 0 then Success else if total >= amount then Refunded else PartiallyRefunded
  }

  function Recompute(s: Store, p: nat): Store
    requires p < |s.payments|
  {
    var row := s.payments[p];
    if !Settled(row.status) then s
    else
      var status := RefundedStatus(RefundedSum(s, p), row.amount);
      if status == row.status then s
      else
        var s1 := WithPayment(s, p, row.(status := status));
        if row.status == Success then Notify(s1, RefundProcessed, p) else s1
  }

  datatype RefundReply = RefundReply(status: RefundStatus, reference: Option<string>)

  function WithRefund(s: Store, r: nat, row: Refund): Store
    requires r < |s.refunds|
  {
    s.(refunds := s.refunds[r := row])
  }

  function CreateRefund(s: Store, isAdmin: bool, p: nat, amount: Option<int>,
                        reply: Option<RefundReply>): (Store, Result<nat>)
  {
    if !isAdmin then (s, Err(Forbidden))
    else if p >= |s.payments| then (s, Err(NotFound))
    else if s.payments[p].status != Success && s.payments[p].status != PartiallyRefunded then (s, Err(Validation))
    else
      var remaining := s.payments[p].amount - Committed(s, p);
      var requested := amount.GetOr(remaining);
      if requested <= 0 || requested > remaining then (s, Err(Validation))
      else SendRefund(s, p, requested, reply)
  }

  /** Inserts a `pending` refund, asks the provider, and writes what the provider answered. */
  function SendRefund(s: Store, p: nat, amount: int, reply: Option<RefundReply>): (Store, Result<nat>)
    requires p < |s.payments|
  {
    var r := |s.refunds|;
    var row := Refund(p, RefundPending, amount, None);
    var s1 := s.(refunds := s.refunds + [row]);
    match reply
    case None => (WithRefund(s1, r, row.(status := RefundFailed)), Err(Internal))
    case Some(answer) =>
      (Recompute(WithRefund(s1, r, row.(status := answer.status, reference := answer.reference)), p), Ok(r))
  }

  // ---------------------------------------------------------------------------------------------
  // Webhooks

  /** The status a refund event leaves on a refund row; a cancelled refund arrives as `RefundCreated`. */
  function RefundAfter(current: RefundStatus, kind: EventKind): RefundStatus {
    if TerminalRefund(current) then current
    else if kind == RefundSucceeded then RefundSuccess
    else if kind == RefundFailedEvent then RefundFailed
    else current
  }

  function ApplyRefundEvent(s: Store, event: Event): (Store, Option<nat>) {
    if event.refund.None? || event.refund.value >= |s.refunds| then (s, None)
    else
      var r := event.refund.value;
      var row := s.refunds[r];
      var s1 := WithRefund(s, r, row.(status := RefundAfter(row.status, event.kind)));
      if row.payment < |s.payments| then (Recompute(s1, row.payment), Some(row.payment)) else (s1, None)
  }

  function ApplyPaymentEvent(s: Store, event: Event): (Store, Option<nat>) {
    if event.order >= |s.payments| then (s, None)
    else
      var incoming := if event.kind == PaymentSuccess then Success else Failed;
      var reason := if incoming == Failed then Some(FailedOrNotCompleted) else None;
      (ApplyStatus(s, event.order, incoming, event.reference, reason, Reported(event.amount, event.currency)),
       Some(event.order))
  }

  /** What a parsed delivery does, and the payment it touched. */
  function ApplyEvent(s: Store, event: Option<Event>): (Store, Option<nat>) {
    match event
    case None => (s, None)
    case Some(e) =>
      if e.kind in {RefundCreated, RefundSucceeded, RefundFailedEvent} then ApplyRefundEvent(s, e)
      else ApplyPaymentEvent(s, e)
  }

  /** The ledger row is inserted first, so a redelivered body changes nothing. */
  function HandleWebhook(s: Store, body: Payload): Store {
    if body in s.ledger then s
    else
      var (s1, touched) := ApplyEvent(s, ParseWebhook(body));
      s1.(ledger := s1.ledger[body := LedgerRow(touched, true)])
  }

  // ---------------------------------------------------------------------------------------------
  // Runs. Bookings move on their own; payments never touch them.

  datatype Call =
    | Pay(caller: string, booking: string, read: Option<OrderRead>, created: Option<CreatedOrder>)
    | Verify(payment: nat, read: Option<OrderRead>)
    | IssueRefund(isAdmin: bool, payment: nat, amount: Option<int>, reply: Option<RefundReply>)
    | Webhook(body: Payload)
    | BookingMoves(booking: string, status: BookingStatus)

  function Step(s: Store, call: Call): Store {
    match call
    case Pay(caller, booking, read, created) => CreatePayment(s, caller, booking, read, created).0
    case Verify(p, read) => VerifyPayment(s, p, read).0
    case IssueRefund(isAdmin, p, amount, reply) => CreateRefund(s, isAdmin, p, amount, reply).0
    case Webhook(body) => HandleWebhook(s, body)
    case BookingMoves(b, status) =>
      if b in s.bookings then s.(bookings := s.bookings[b := s.bookings[b].(status := status)]) else s
  }

  function Run(s: Store, calls: seq<Call>): Store
    decreases |calls|
  {
    if calls == [] then s else Run(Step(s, calls[0]), calls[1..])
  }

  // ---------------------------------------------------------------------------------------------
  // Reads by booking

  ghost predicate IsPaymentOf(payments: seq<Payment>, booking: string, wanted: set<PaymentStatus>, p: nat) {
    p < |payments| && payments[p].booking == booking && payments[p].status in wanted
  }

  lemma {:induction false} PaymentsOfFinds(payments: seq<Payment>, booking: string, wanted: set<PaymentStatus>)
    ensures var ids := PaymentsOf(payments, booking, wanted);
      && (forall p :: p in ids <==> IsPaymentOf(payments, booking, wanted, p))
      && (forall i, j | 0 <= i < j < |ids| :: ids[i] < ids[j])
  {
    if payments != [] {
      var last := |payments| - 1;
      PaymentsOfFinds(payments[..last], booking, wanted);
      var before := PaymentsOf(payments[..last], booking, wanted);
      var ids := PaymentsOf(payments, booking, wanted);
      forall p ensures p in ids <==> IsPaymentOf(payments, booking, wanted, p) {
        assert p in before <==> IsPaymentOf(payments[..last], booking, wanted, p);
        assert p in ids <==> p in before || (p == last && IsPaymentOf(payments, booking, wanted, last));
      }
      forall i, j | 0 <= i < j < |ids| ensures ids[i] < ids[j] {
        assert ids[i] in before;
      }
    }
  }

  /** What a `maybeSingle` read by booking and status reports. */
  lemma SingleFinds(payments: seq<Payment>, booking: string, wanted: set<PaymentStatus>)
    ensures var found := MaybeSingle(PaymentsOf(payments, booking, wanted));
      && (found.NoRow? <==> forall p :: !IsPaymentOf(payments, booking, wanted, p))
      && (found.OneRow? ==> IsPaymentOf(payments, booking, wanted, found.id))
      && (found.TooManyRows? <==> exists p, q :: p < q && IsPaymentOf(payments, booking, wanted, p)
                                                 && IsPaymentOf(payments, booking, wanted, q))
  {
    PaymentsOfFinds(payments, booking, wanted);
    var ids := PaymentsOf(payments, booking, wanted);
    if ids != [] { assert ids[0] in ids; }
    if |ids| > 1 { assert ids[0] in ids && ids[1] in ids; }
  }
}
