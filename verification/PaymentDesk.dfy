/**
 * The payment service as it runs: tables that its methods rewrite statement by statement. Every
 * method is proved to do to the tables what its function in `Payments` does to a store, so the
 * guarantees about runs of those functions hold of these methods.
 */
module PaymentDesk {
  import opened Common
  import opened Cashfree
  import opened Payments

  class Desk {
    var bookings: map<string, BookingRow>
    var payments: seq<Payment>
    var refunds: seq<Refund>
    var ledger: map<Payload, LedgerRow>
    var notices: seq<Notice>

    ghost function Contents(): Store
      reads this
    {
      Store(bookings, payments, refunds, ledger, notices)
    }

    constructor (bookings: map<string, BookingRow>)
      ensures Contents() == Store(bookings, [], [], map[], [])
    {
      this.bookings := bookings;
      payments, refunds, ledger, notices := [], [], map[], [];
    }

    method NotifyBooker(kind: NoticeKind, p: nat)
      requires p < |payments|
      modifies this`notices
      ensures Contents() == Notify(old(Contents()), kind, p)
    {
      var booking := payments[p].booking;
      if booking in bookings {
        notices := notices + [Notice(kind, bookings[booking].booker, booking, p)];
      }
    }

    method ApplyPaymentStatusUpdate(p: nat, incoming: PaymentStatus, reference: Option<string>,
                                    reason: Option<FailureReason>, reported: Reported)
      requires p < |payments|
      modifies this`payments, this`notices
      ensures Contents() == ApplyStatus(old(Contents()), p, incoming, reference, reason, reported)
    {
      var current := payments[p];
      var resolved := NextPaymentStatus(current.status, incoming);
      var why := reason;
      if resolved == Success && resolved != current.status && Mismatched(current, reported) {
        resolved := Failed;
        why := Some(AmountMismatch);
      }
      var row := current.(status := resolved);
      if reference.Some? {
        row := row.(reference := reference);
      }
      if resolved == Failed && why.Some? {
        row := row.(failureReason := why);
      }
      payments := payments[p := row];
      if resolved != current.status && (resolved == Success || resolved == Failed) {
        NotifyBooker(if resolved == Success then PaymentSucceeded else PaymentUnsuccessful, p);
      }
    }

    method ResumeInFlightPayment(p: nat, read: Option<OrderRead>) returns (resumed: Resumption)
      requires p < |payments|
      modifies this`payments, this`notices
      ensures (Contents(), resumed) == ResumeInFlight(old(Contents()), p, read)
    {
      if read.None? {
        return Answer(Err(Conflict));
      }
      var order := read.value;
      var outcome := EffectiveOutcome(order, payments[p]);
      if outcome.status == Success {
        ApplyPaymentStatusUpdate(p, Success, order.reference, None, outcome.reported);
        return Answer(Err(Conflict));
      }
      if outcome.status == Pending {
        var reference := if order.reference.Some? then order.reference else payments[p].reference;
        payments := payments[p := payments[p].(status := Pending, reference := reference)];
        return Answer(Ok(p));
      }
      ApplyPaymentStatusUpdate(p, outcome.status, order.reference, Some(NoLongerCompletable), outcome.reported);
      return Dead;
    }

    method CreatePayment(caller: string, booking: string, read: Option<OrderRead>, created: Option<CreatedOrder>)
      returns (result: Result<nat>)
      modifies this`payments, this`notices
      ensures (Contents(), result) == Payments.CreatePayment(old(Contents()), caller, booking, read, created)
    {
      if booking !in bookings {
        return Err(NotFound);
      }
      var row := bookings[booking];
      if row.booker != caller {
        return Err(Forbidden);
      }
      if row.status != Requested && row.status != Confirmed {
        return Err(Validation);
      }
      SingleFinds(payments, booking, IN_FLIGHT);
      var inFlight := MaybeSingle(PaymentsOf(payments, booking, IN_FLIGHT));
      if inFlight.TooManyRows? {
        return Err(Internal);
      }
      if inFlight.OneRow? {
        var resumed := ResumeInFlightPayment(inFlight.id, read);
        if resumed.Answer? {
          return resumed.result;
        }
      }
      var settled := MaybeSingle(PaymentsOf(payments, booking, SETTLED));
      if settled.TooManyRows? {
        return Err(Internal);
      }
      if settled.OneRow? {
        return Err(Conflict);
      }
      result := OpenPayment(booking, created);
    }

    method OpenPayment(booking: string, created: Option<CreatedOrder>) returns (result: Result<nat>)
      requires booking in bookings
      modifies this`payments
      ensures (Contents(), result) == Payments.OpenPayment(old(Contents()), booking, created)
    {
      var p := |payments|;
      payments := payments + [
        Payment(booking, Created, bookings[booking].total, bookings[booking].currency, None, None)];
      if created.None? {
        payments := payments[p := payments[p].(status := Failed, failureReason := Some(OrderCreationFailed))];
        result := Err(Internal);
      } else {
        payments := payments[p := payments[p].(status := created.value.status, reference := created.value.reference)];
        result := Ok(p);
      }
      assert payments == old(payments) + [payments[p]];
    }

    method VerifyPayment(p: nat, read: Option<OrderRead>) returns (result: Result<nat>)
      modifies this`payments, this`notices
      ensures (Contents(), result) == Payments.VerifyPayment(old(Contents()), p, read)
    {
      if p >= |payments| {
        return Err(NotFound);
      }
      if Terminal(payments[p].status) {
        return Ok(p);
      }
      if read.None? {
        return Err(Internal);
      }
      var outcome := EffectiveOutcome(read.value, payments[p]);
      ApplyPaymentStatusUpdate(p, outcome.status, read.value.reference, None, outcome.reported);
      return Ok(p);
    }

    /** The `reduce` over the refund rows a query selected. */
    method SumRefunds(p: nat, counted: set<RefundStatus>) returns (sum: int)
      ensures sum == Total(refunds, p, counted)
    {
      sum := 0;
      for i := 0 to |refunds|
        invariant sum == Total(refunds[..i], p, counted)
      {
        assert refunds[..i + 1][..i] == refunds[..i];
        if refunds[i].payment == p && refunds[i].status in counted {
          sum := sum + refunds[i].amount;
        }
      }
      assert refunds[..|refunds|] == refunds;
    }

    method RecomputePaymentRefundStatus(p: nat)
      requires p < |payments|
      modifies this`payments, this`notices
      ensures Contents() == Recompute(old(Contents()), p)
    {
      var payment := payments[p];
      if payment.status != Success && payment.status != PartiallyRefunded && payment.status != Refunded {
        return;
      }
      var totalRefunded := SumRefunds(p, {RefundSuccess});
      var newStatus := if totalRefunded <= 0 then Success
                       else if totalRefunded >= payment.amount then Refunded else PartiallyRefunded;
      if newStatus != payment.status {
        payments := payments[p := payment.(status := newStatus)];
        if payment.status == Success {
          NotifyBooker(RefundProcessed, p);
        }
      }
    }

    method CreateRefund(isAdmin: bool, p: nat, amount: Option<int>, reply: Option<RefundReply>)
      returns (result: Result<nat>)
      modifies this`payments, this`refunds, this`notices
      ensures (Contents(), result) == Payments.CreateRefund(old(Contents()), isAdmin, p, amount, reply)
    {
      if !isAdmin {
        return Err(Forbidden);
      }
      if p >= |payments| {
        return Err(NotFound);
      }
      if payments[p].status != Success && payments[p].status != PartiallyRefunded {
        return Err(Validation);
      }
      var alreadyCommitted := SumRefunds(p, {RefundPending, RefundSuccess});
      var remaining := payments[p].amount - alreadyCommitted;
      var requested := amount.GetOr(remaining);
      if requested <= 0 || requested > remaining {
        return Err(Validation);
      }
      var r := |refunds|;
      refunds := refunds + [Refund(p, RefundPending, requested, None)];
      if reply.None? {
        refunds := refunds[r := refunds[r].(status := RefundFailed)];
        return Err(Internal);
      }
      refunds := refunds[r := refunds[r].(status := reply.value.status, reference := reply.value.reference)];
      RecomputePaymentRefundStatus(p);
      return Ok(r);
    }

    method ApplyRefundEvent(event: Event) returns (touched: Option<nat>)
      modifies this`payments, this`refunds, this`notices
      ensures (Contents(), touched) == Payments.ApplyRefundEvent(old(Contents()), event)
    {
      if event.refund.None? || event.refund.value >= |refunds| {
        return None;
      }
      var r := event.refund.value;
      var refund := refunds[r];
      if !TerminalRefund(refund.status) {
        var newStatus := if event.kind == RefundSucceeded then RefundSuccess
                         else if event.kind == RefundFailedEvent then RefundFailed else refund.status;
        if newStatus != refund.status {
          refunds := refunds[r := refund.(status := newStatus)];
        }
      }
      assert refunds == old(refunds)[r := refund.(status := RefundAfter(refund.status, event.kind))];
      if refund.payment >= |payments| {
        return None;
      }
      RecomputePaymentRefundStatus(refund.payment);
      return Some(refund.payment);
    }

    method ApplyPaymentEvent(e: Event) returns (touched: Option<nat>)
      modifies this`payments, this`notices
      ensures (Contents(), touched) == Payments.ApplyPaymentEvent(old(Contents()), e)
    {
      if e.order >= |payments| {
        return None;
      }
      var incoming := if e.kind == PaymentSuccess then Success else Failed;
      ApplyPaymentStatusUpdate(e.order, incoming, e.reference,
                               if incoming == Failed then Some(FailedOrNotCompleted) else None,
                               Reported(e.amount, e.currency));
      return Some(e.order);
    }

    method ApplyEvent(event: Option<Event>) returns (touched: Option<nat>)
      modifies this`payments, this`refunds, this`notices
      ensures (Contents(), touched) == Payments.ApplyEvent(old(Contents()), event)
    {
      if event.None? {
        return None;
      }
      if event.value.kind in {RefundCreated, RefundSucceeded, RefundFailedEvent} {
        touched := ApplyRefundEvent(event.value);
      } else {
        touched := ApplyPaymentEvent(event.value);
      }
    }

    method HandleWebhook(body: Payload)
      modifies this
      ensures Contents() == Payments.HandleWebhook(old(Contents()), body)
    {
      if body in ledger {
        return;
      }
      ledger := ledger[body := LedgerRow(None, false)];
      LedgerPlaysNoPart(old(Contents()), ParseWebhook(body), ledger);
      var touched := ApplyEvent(ParseWebhook(body));
      ledger := ledger[body := LedgerRow(touched, true)];
      assert ledger == old(ledger)[body := LedgerRow(touched, true)];
    }
  }

  lemma LedgerPlaysNoPart(s: Store, event: Option<Event>, ledger: map<Payload, LedgerRow>)
    ensures Payments.ApplyEvent(s.(ledger := ledger), event)
         == (Payments.ApplyEvent(s, event).0.(ledger := ledger), Payments.ApplyEvent(s, event).1)
    ensures Payments.ApplyEvent(s, event).0.ledger == s.ledger
  {
  }
}
