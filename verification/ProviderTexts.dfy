/**
 * What the provider's own words do: every text of a webhook, of an order read and of an attempt that
 * src/modules/payments/providers/CashfreeProvider.ts gives a meaning, followed to the payment, refund,
 * ledger and notice rows it leaves.
 */
module ProviderTexts {
  import opened Common
  import opened Cashfree
  import opened Payments
  import opened PaymentRuns
  import opened PaymentGuarantees
  import opened PaymentEffects
  import opened PaymentOutcomes

  // ---------------------------------------------------------------------------------------------
  // Reported money

  predicate SameLetter(a: char, b: char) {
    || a == b
    || ('a' <= a <= 'z' && b as int == a as int - 32)
    || ('a' <= b <= 'z' && a as int == b as int - 32)
  }

  /** The same code, whatever the case of its letters. */
  predicate SameCode(a: string, b: string) {
    |a| == |b| && forall i | 0 <= i < |a| :: SameLetter(a[i], b[i])
  }

  lemma UpperAgreesIff(a: string, b: string)
    ensures Upper(a) == Upper(b) <==> SameCode(a, b)
  {
    if Upper(a) == Upper(b) {
      forall i | 0 <= i < |a| ensures SameLetter(a[i], b[i]) {
        assert Upper(a)[i] == Upper(b)[i];
      }
    }
  }

  /** An amount or a currency was reported, and is not the one on record. */
  predicate Contradicts(p: Payment, amount: Option<int>, currency: Option<string>) {
    || (amount.Some? && amount.value != p.amount)
    || (currency.Some? && !SameCode(currency.value, p.currency))
  }

  /** The check made before a success is the one promised: silence is no mismatch, and case does not matter. */
  lemma MismatchedIffContradicts(p: Payment, reported: Reported)
    ensures Mismatched(p, reported) <==> Contradicts(p, reported.amount, reported.currency)
  {
    if reported.currency.Some? { UpperAgreesIff(reported.currency.value, p.currency); }
  }

  // ---------------------------------------------------------------------------------------------
  // Webhook texts

  predicate SpeaksOfPayment(body: Payload) {
    body.kind in {"PAYMENT_SUCCESS_WEBHOOK", "PAYMENT_FAILED_WEBHOOK", "PAYMENT_USER_DROPPED_WEBHOOK"}
  }

  predicate SpeaksOfRefund(body: Payload) {
    |body.kind| >= 6 && body.kind[..6] == "REFUND"
  }

  function OutcomeNotice(s: Store, p: nat, failed: bool): seq<Notice>
    requires p < |s.payments|
  {
    var booking := s.payments[p].booking;
    if booking !in s.bookings then []
    else [Notice(if failed then PaymentUnsuccessful else PaymentSucceeded, s.bookings[booking].booker, booking, p)]
  }

  lemma DeliveryApplies(s: Store, body: Payload, event: Event)
    requires body !in s.ledger && ParseWebhook(body) == Some(event)
    requires event.kind in {PaymentSuccess, PaymentFailed, PaymentUserDropped}
    ensures var (s1, touched) := ApplyPaymentEvent(s, event);
      HandleWebhook(s, body) == s1.(ledger := s1.ledger[body := LedgerRow(touched, true)])
  {
  }

  lemma PaymentTextParses(body: Payload, p: nat)
    requires SpeaksOfPayment(body) && body.order == Some(p)
    ensures ParseWebhook(body).Some?
    ensures var e := ParseWebhook(body).value;
      && e.kind in {PaymentSuccess, PaymentFailed, PaymentUserDropped}
      && (e.kind == PaymentSuccess <==> body.kind == "PAYMENT_SUCCESS_WEBHOOK")
      && (e.kind == PaymentUserDropped <==> body.kind == "PAYMENT_USER_DROPPED_WEBHOOK")
      && e.order == p && e.reference == body.reference
      && e.amount == ToMinorUnits(body.amount) && e.currency == body.currency
  {
  }

  /** Only the payment texts parse to payment events. */
  lemma TextsThatParse(body: Payload)
    ensures (ParseWebhook(body).Some?
             && ParseWebhook(body).value.kind in {PaymentSuccess, PaymentFailed, PaymentUserDropped})
      <==> SpeaksOfPayment(body) && body.order.Some?
  {
    if SpeaksOfPayment(body) && body.order.Some? { PaymentTextParses(body, body.order.value); }
  }

  /**
   * A first delivery about a payment in flight. A success text makes it a success unless its money
   * contradicts the record; every other payment text, and a contradiction, makes it failed.
   */
  lemma PaymentTextDecides(s: Store, body: Payload, p: nat)
    requires body !in s.ledger && SpeaksOfPayment(body) && body.order == Some(p)
    requires p < |s.payments| && InFlight(s.payments[p].status)
    ensures var s' := HandleWebhook(s, body); var row := s.payments[p];
      var succeeds := body.kind == "PAYMENT_SUCCESS_WEBHOOK";
      var fails := succeeds ==> Contradicts(row, ToMinorUnits(body.amount), body.currency);
      && s'.payments == s.payments[p := row.(
           status := if fails then Failed else Success,
           reference := if body.reference.Some? then body.reference else row.reference,
           failureReason := if !fails then row.failureReason
                            else if succeeds then Some(AmountMismatch) else Some(FailedOrNotCompleted))]
      && s'.notices == s.notices + OutcomeNotice(s, p, fails)
      && s'.ledger == s.ledger[body := LedgerRow(Some(p), true)]
      && s'.refunds == s.refunds && s'.bookings == s.bookings
  {
    PaymentTextParses(body, p);
    var e := ParseWebhook(body).value;
    DeliveryApplies(s, body, e);
    MismatchedIffContradicts(s.payments[p], Reported(e.amount, e.currency));
    EventInFlightWrites(s, e);
  }

  /** What a payment event writes on a payment in flight. */
  lemma EventInFlightWrites(s: Store, e: Event)
    requires e.order < |s.payments| && InFlight(s.payments[e.order].status)
    ensures var (s', touched) := ApplyPaymentEvent(s, e); var p := e.order; var row := s.payments[p];
      var succeeds := e.kind == PaymentSuccess;
      var fails := succeeds ==> Mismatched(row, Reported(e.amount, e.currency));
      && touched == Some(p)
      && s'.payments == s.payments[p := row.(
           status := if fails then Failed else Success,
           reference := if e.reference.Some? then e.reference else row.reference,
           failureReason := if !fails then row.failureReason
                            else if succeeds then Some(AmountMismatch) else Some(FailedOrNotCompleted))]
      && s'.notices == s.notices + OutcomeNotice(s, p, fails)
      && s'.ledger == s.ledger && s'.refunds == s.refunds && s'.bookings == s.bookings
  {
    LiveOrClosed(s.payments[e.order].status);
  }

  /** A first delivery about a payment that is not in flight moves no status and tells nobody. */
  lemma LatePaymentTextDecidesNothing(s: Store, body: Payload, p: nat)
    requires body !in s.ledger && SpeaksOfPayment(body) && body.order == Some(p)
    requires p < |s.payments| && !InFlight(s.payments[p].status)
    ensures var s' := HandleWebhook(s, body); var row := s.payments[p];
      var again := row.status == Failed && body.kind != "PAYMENT_SUCCESS_WEBHOOK";
      && s'.payments == s.payments[p := row.(
           reference := if body.reference.Some? then body.reference else row.reference,
           failureReason := if again then Some(FailedOrNotCompleted) else row.failureReason)]
      && s'.notices == s.notices
      && s'.ledger == s.ledger[body := LedgerRow(Some(p), true)]
      && s'.refunds == s.refunds && s'.bookings == s.bookings
  {
    PaymentTextParses(body, p);
    LiveOrClosed(s.payments[p].status);
    DeliveryApplies(s, body, ParseWebhook(body).value);
  }

  /** The body names a refund, and names the order it belongs to. */
  predicate NamesRefund(body: Payload, r: nat) {
    body.refund.Some? && body.refund.value.order.Some? && body.refund.value.refund == Some(r)
  }

  lemma RefundTextParses(body: Payload, r: nat)
    requires SpeaksOfRefund(body) && NamesRefund(body, r)
    ensures ParseWebhook(body).Some?
    ensures var e := ParseWebhook(body).value; var text := body.refund.value.status;
      && e.kind in {RefundCreated, RefundSucceeded, RefundFailedEvent}
      && (e.kind == RefundSucceeded <==> text == Some("SUCCESS"))
      && (e.kind == RefundFailedEvent <==> text == Some("FAILED"))
      && e.refund == Some(r)
  {
    assert body.kind[0] == body.kind[..6][0] && body.kind[0] == 'R';
    assert "REFUND" <= body.kind;
  }

  /**
   * A first delivery about a refund that is still pending: SUCCESS gives it back, FAILED frees it,
   * and any other status leaves it; a finished refund stays. The payment's status then says what has
   * been given back, and nothing else of any payment changes.
   */
  lemma RefundTextDecides(s: Store, body: Payload, r: nat)
    requires Inv(s) && body !in s.ledger && SpeaksOfRefund(body) && NamesRefund(body, r) && r < |s.refunds|
    ensures var s' := HandleWebhook(s, body); var row := s.refunds[r]; var text := body.refund.value.status;
      var status := if row.status != RefundPending then row.status
                    else if text == Some("SUCCESS") then RefundSuccess
                    else if text == Some("FAILED") then RefundFailed else RefundPending;
      var p := row.payment;
      && s'.refunds == s.refunds[r := row.(status := status)]
      && p < |s.payments| && p < |s'.payments|
      && s'.payments == s.payments[p := s.payments[p].(status := s'.payments[p].status)]
      && s'.payments[p].status == RefundedStatus(RefundedSum(s', p), s.payments[p].amount)
      && s'.ledger == s.ledger[body := LedgerRow(Some(p), true)]
      && s'.bookings == s.bookings
  {
    RefundTextParses(body, r);
    var e := ParseWebhook(body).value;
    var p := s.refunds[r].payment;
    assert p < |s.payments| && Settled(s.payments[p].status);
    var s1 := WithRefund(s, r, s.refunds[r].(status := RefundAfter(s.refunds[r].status, e.kind)));
    RecomputeWrites(s1, p);
    assert RefundedSum(Recompute(s1, p), p) == RefundedSum(s1, p);
    assert HandleWebhook(s, body).refunds == s1.refunds;
  }

  /** The derived status, the one notice that goes with it, and nothing else. */
  lemma RecomputeWrites(s: Store, p: nat)
    requires p < |s.payments| && Settled(s.payments[p].status)
    ensures var s' := Recompute(s, p); var row := s.payments[p];
      var status := RefundedStatus(RefundedSum(s, p), row.amount);
      && s'.payments == s.payments[p := row.(status := status)]
      && s'.refunds == s.refunds && s'.bookings == s.bookings && s'.ledger == s.ledger
      && s'.notices == s.notices + RefundNotice(s, p, row.status == Success && status != Success)
  {
  }

  function RefundNotice(s: Store, p: nat, sent: bool): seq<Notice>
    requires p < |s.payments|
  {
    var booking := s.payments[p].booking;
    if !sent || booking !in s.bookings then []
    else [Notice(RefundProcessed, s.bookings[booking].booker, booking, p)]
  }

  /** A delivery that names nothing known. */
  predicate SaysNothing(s: Store, body: Payload) {
    && (SpeaksOfPayment(body) ==> body.order.None? || body.order.value >= |s.payments|)
    && (SpeaksOfRefund(body) ==> forall r | 0 <= r < |s.refunds| :: !NamesRefund(body, r))
  }

  /** Any other text, and any text about a row that does not exist, is acknowledged and changes the ledger only. */
  lemma OtherTextsAreOnlyRecorded(s: Store, body: Payload)
    requires body !in s.ledger && SaysNothing(s, body)
    ensures HandleWebhook(s, body) == s.(ledger := s.ledger[body := LedgerRow(None, true)])
  {
    var event := ParseWebhook(body);
    if event.Some? {
      var e := event.value;
      if SpeaksOfPayment(body) {
        assert e.order >= |s.payments|;
      } else {
        assert body.kind[..6] == "REFUND";
        assert e.refund.Some? && e.refund.value < |s.refunds| ==> NamesRefund(body, e.refund.value);
      }
    }
  }

  // ---------------------------------------------------------------------------------------------
  // Order texts

  predicate SpeaksOfDeath(text: string) {
    text == "EXPIRED" || text == "TERMINATED" || text == "TERMINATION_REQUESTED"
  }

  /**
   * What reading an order leaves on a payment in flight, by the order's text: PAID settles it unless
   * its money contradicts the record, EXPIRED fails it, a termination cancels it, and an unrecognised
   * text leaves it pending. An ACTIVE order is decided by its attempts.
   */
  lemma OrderTextDecides(s: Store, p: nat, body: OrderBody, reported: Option<seq<ReportedAttempt>>, collate: Collation)
    requires p < |s.payments| && InFlight(s.payments[p].status) && body.status != "ACTIVE"
    ensures var read := FetchOrder(body, reported, collate); var row := s.payments[p];
      var contradicts := body.status == "PAID" && Contradicts(row, ToMinorUnits(body.amount), body.currency);
      var status := if contradicts || body.status == "EXPIRED" then Failed
                    else if body.status == "PAID" then Success
                    else if SpeaksOfDeath(body.status) then Cancelled else Pending;
      var after := row.(status := status, reference := if body.reference.Some? then body.reference else row.reference);
      var verified := after.(failureReason := if contradicts then Some(AmountMismatch) else row.failureReason);
      var resumed := if body.status == "EXPIRED" then after.(failureReason := Some(NoLongerCompletable)) else verified;
      var answer := if body.status == "PAID" then Answer(Err(Conflict))
                    else if SpeaksOfDeath(body.status) then Dead else Answer(Ok(p));
      && VerifyPayment(s, p, Some(read)).0.payments == s.payments[p := verified]
      && VerifyPayment(s, p, Some(read)).1 == Ok(p)
      && ResumeInFlight(s, p, Some(read)).0.payments == s.payments[p := resumed]
      && ResumeInFlight(s, p, Some(read)).1 == answer
  {
    var read := FetchOrder(body, reported, collate);
    OrderTextReads(body);
    LiveOrClosed(s.payments[p].status);
    MismatchedIffContradicts(s.payments[p], Reported(read.amount, read.currency));
    assert EffectiveOutcome(read, s.payments[p]) == Outcome(read.status, Reported(read.amount, read.currency));
  }

  lemma OrderTextReads(body: OrderBody)
    ensures var status := MapOrderStatus(body.status);
      && (status == Success <==> body.status == "PAID")
      && (status == Failed <==> body.status == "EXPIRED")
      && (status == Cancelled <==> body.status == "TERMINATED" || body.status == "TERMINATION_REQUESTED")
      && (status in {Success, Failed, Cancelled, Pending})
  {
  }

  /** While an order is ACTIVE with no successful attempt, the booker who comes back is given the same payment. */
  lemma StillPayableIsResumed(s: Store, caller: string, booking: string, p: nat, body: OrderBody,
                              reported: Option<seq<ReportedAttempt>>, collate: Collation, created: Option<CreatedOrder>)
    requires MayPay(s, caller, booking) && InFlightOf(s, booking) == OneRow(p) && body.status == "ACTIVE"
    requires reported.Some? ==> forall i | 0 <= i < |reported.value| :: reported.value[i].status != Some("SUCCESS")
    ensures p < |s.payments| && s.payments[p].booking == booking
    ensures var (s', result) := CreatePayment(s, caller, booking, Some(FetchOrder(body, reported, collate)), created);
      && result == Ok(p)
      && s' == s.(payments := s.payments[p := s.payments[p].(
                    status := Pending,
                    reference := if body.reference.Some? then body.reference else s.payments[p].reference)])
  {
    SingleFinds(s.payments, booking, IN_FLIGHT);
    if reported.Some? {
      var attempts := ToProviderAttempts(reported.value);
      SettledIffSomeSuccess(attempts, collate);
      forall a | a in attempts ensures a.status != AttemptSuccess {
        var i :| 0 <= i < |attempts| && attempts[i] == a;
        assert a == ToProviderAttempt(reported.value[i]);
      }
    }
  }

  // ---------------------------------------------------------------------------------------------
  // Attempt and refund texts

  /** Each status text the provider documents has its own meaning, and any other has none. */
  lemma StatusTexts(text: Option<string>)
    ensures MapAttemptStatus(text) == AttemptSuccess <==> text == Some("SUCCESS")
    ensures MapAttemptStatus(text) == AttemptPending <==> text == Some("PENDING")
    ensures MapAttemptStatus(text) == AttemptFailed <==> text == Some("FAILED")
    ensures MapAttemptStatus(text) == Dropped <==> text == Some("USER_DROPPED")
    ensures MapAttemptStatus(text) == AttemptCancelled <==> text == Some("CANCELLED")
    ensures MapAttemptStatus(text) == Void <==> text == Some("VOID")
    ensures MapAttemptStatus(text) == NotAttempted <==> text == Some("NOT_ATTEMPTED")
    ensures MapRefundStatus(text) == RefundSuccess <==> text == Some("SUCCESS")
    ensures MapRefundStatus(text) == RefundFailed <==> text == Some("FAILED")
    ensures MapRefundStatus(text) == RefundCancelled <==> text == Some("CANCELLED")
  {
  }
}
