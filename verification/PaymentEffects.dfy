/** What accepted calls do: which ones are accepted, and the money each of them moves. */
module PaymentEffects {
  import opened Common
  import opened Cashfree
  import opened Payments
  import opened PaymentRuns
  import opened PaymentGuarantees

  // ---------------------------------------------------------------------------------------------
  // Paying

  predicate MayPay(s: Store, caller: string, booking: string) {
    booking in s.bookings && s.bookings[booking].booker == caller
    && s.bookings[booking].status in {Requested, Confirmed}
  }

  ghost predicate NothingLive(s: Store, booking: string) {
    forall p | 0 <= p < |s.payments| && s.payments[p].booking == booking :: !Live(s.payments[p].status)
  }

  /** A call adds at most one row, for the booking's own total, and only beside rows that are closed. */
  lemma NewPaymentChargesBooking(s: Store, caller: string, booking: string,
                                 read: Option<OrderRead>, created: Option<CreatedOrder>)
    requires Inv(s)
    ensures var (s', result) := CreatePayment(s, caller, booking, read, created); var n := |s.payments|;
      && (|s'.payments| == n || |s'.payments| == n + 1)
      && (|s'.payments| == n + 1 ==>
            && MayPay(s, caller, booking)
            && s'.payments[n].booking == booking
            && s'.payments[n].amount == s.bookings[booking].total
            && s'.payments[n].currency == s.bookings[booking].currency
            && (forall p | 0 <= p < n && s'.payments[p].booking == booking :: !Live(s'.payments[p].status))
            && (result == if created.Some? then Ok(n) else Err(Internal)))
  {
    if MayPay(s, caller, booking) {
      AtMostOneRow(s, booking);
      if InFlightOf(s, booking).OneRow? {
        var p := InFlightOf(s, booking).id;
        SingleFinds(s.payments, booking, IN_FLIGHT);
        ResumeTouchesOneRow(s, p, read);
        if ResumeInFlight(s, p, read).1.Dead? {
          DeathLeavesNothingLive(s, booking, p, read);
        }
      }
    }
  }

  lemma DeathLeavesNothingLive(s: Store, booking: string, p: nat, read: Option<OrderRead>)
    requires Inv(s) && InFlightOf(s, booking) == OneRow(p)
    requires p < |s.payments| && InFlight(s.payments[p].status) && s.payments[p].booking == booking
    requires ResumeInFlight(s, p, read).1.Dead?
    ensures NothingLive(ResumeInFlight(s, p, read).0, booking)
  {
    ResumeKeeps(s, p, read);
    NothingInFlightAfterDeath(s, booking, p, read);
    NothingSettledBesideInFlight(s, booking, p, read);
    AtMostOneRow(ResumeInFlight(s, p, read).0, booking);
  }

  /**
   * Without a live payment, a call opens one exactly when the booker asks, for a booking still
   * requested or confirmed.
   */
  lemma OpensIffNothingLive(s: Store, caller: string, booking: string, created: Option<CreatedOrder>)
    requires Inv(s)
    ensures var s' := CreatePayment(s, caller, booking, None, created).0;
      |s'.payments| == |s.payments| + 1 <==> MayPay(s, caller, booking) && NothingLive(s, booking)
  {
    if MayPay(s, caller, booking) {
      AtMostOneRow(s, booking);
      SingleFinds(s.payments, booking, IN_FLIGHT);
      SingleFinds(s.payments, booking, SETTLED);
      if NothingLive(s, booking) {
        forall p: nat
          ensures !IsPaymentOf(s.payments, booking, IN_FLIGHT, p) && !IsPaymentOf(s.payments, booking, SETTLED, p)
        {
          assert p < |s.payments| && s.payments[p].booking == booking ==> !Live(s.payments[p].status);
        }
      }
    }
  }

  // ---------------------------------------------------------------------------------------------
  // Refunding

  function Asked(s: Store, p: nat, amount: Option<int>): int
    requires p < |s.payments|
  {
    amount.GetOr(s.payments[p].amount - Committed(s, p))
  }

  predicate MayRefund(s: Store, isAdmin: bool, p: nat, amount: Option<int>) {
    && isAdmin && p < |s.payments|
    && s.payments[p].status in {Success, PartiallyRefunded}
    && 0 < Asked(s, p, amount) <= s.payments[p].amount - Committed(s, p)
  }

  lemma RecomputeLeavesRefunds(s: Store, p: nat)
    requires p < |s.payments|
    ensures Recompute(s, p).refunds == s.refunds
  {
  }

  lemma SendRefundAppends(s: Store, p: nat, amount: int, reply: Option<RefundReply>)
    requires p < |s.payments|
    ensures var status := if reply.Some? then reply.value.status else RefundFailed;
      var reference := if reply.Some? then reply.value.reference else None;
      SendRefund(s, p, amount, reply).0.refunds == s.refunds + [Refund(p, status, amount, reference)]
  {
    var row := Refund(p, RefundPending, amount, None);
    var s1 := s.(refunds := s.refunds + [row]);
    if reply.Some? {
      var row' := row.(status := reply.value.status, reference := reply.value.reference);
      RecomputeLeavesRefunds(WithRefund(s1, |s.refunds|, row'), p);
      assert WithRefund(s1, |s.refunds|, row').refunds == s.refunds + [row'];
    } else {
      assert (s.refunds + [row])[|s.refunds| := row.(status := RefundFailed)]
          == s.refunds + [row.(status := RefundFailed)];
    }
  }

  /**
   * A refund is accepted exactly when an admin asks no more than what is left; it then commits, or
   * gives back, exactly what was asked if the provider says so, and nothing if the provider fails.
   */
  lemma RefundMovesMoney(s: Store, isAdmin: bool, p: nat, amount: Option<int>, reply: Option<RefundReply>, q: nat)
    requires Inv(s)
    ensures var (s', result) := CreateRefund(s, isAdmin, p, amount, reply);
      && (!MayRefund(s, isAdmin, p, amount) ==> s' == s && result.Err?)
      && (MayRefund(s, isAdmin, p, amount) ==>
            var status := if reply.Some? then reply.value.status else RefundFailed;
            && (result.Ok? <==> reply.Some?)
            && Committed(s', q) - Committed(s, q) == (if q == p && status in COMMITTED then Asked(s, p, amount) else 0)
            && RefundedSum(s', q) - RefundedSum(s, q) ==
                 (if q == p && status == RefundSuccess then Asked(s, p, amount) else 0))
  {
    if MayRefund(s, isAdmin, p, amount) {
      var asked := Asked(s, p, amount);
      assert CreateRefund(s, isAdmin, p, amount, reply) == SendRefund(s, p, asked, reply);
      SendRefundAppends(s, p, asked, reply);
      var status := if reply.Some? then reply.value.status else RefundFailed;
      var row := Refund(p, status, asked, if reply.Some? then reply.value.reference else None);
      TotalAppend(s.refunds, row, q, COMMITTED);
      TotalAppend(s.refunds, row, q, {RefundSuccess});
    }
  }

  /**
   * An admin who names no amount gives back all that is left; when nothing else is pending the payment
   * is then refunded.
   */
  lemma WholeRefundClosesPayment(s: Store, p: nat, reference: Option<string>)
    requires Inv(s) && MayRefund(s, true, p, None)
    ensures var s' := CreateRefund(s, true, p, None, Some(RefundReply(RefundSuccess, reference))).0;
      && p < |s'.payments|
      && Committed(s', p) == s'.payments[p].amount
      && (s'.payments[p].status == Refunded <==> Committed(s, p) == RefundedSum(s, p))
      && (s'.payments[p].status != Refunded ==> s'.payments[p].status == PartiallyRefunded)
  {
    var reply := Some(RefundReply(RefundSuccess, reference));
    var s' := CreateRefund(s, true, p, None, reply).0;
    RefundMovesMoney(s, true, p, None, reply, p);
    CreateRefundKeeps(s, true, p, None, reply);
    TotalBounds(s.refunds, p);
    assert StatusTellsRefunds(s', p);
  }

  /** A refund webhook moves money only for a refund still pending: a success gives it back, a failure frees it. */
  lemma RefundWebhookMovesMoney(s: Store, e: Event, q: nat)
    requires Inv(s)
    ensures var s' := ApplyRefundEvent(s, e).0;
      var pending := e.refund.Some? && e.refund.value < |s.refunds| && s.refunds[e.refund.value].status == RefundPending
                     && s.refunds[e.refund.value].payment == q;
      var amount := if pending then s.refunds[e.refund.value].amount else 0;
      && RefundedSum(s', q) - RefundedSum(s, q) == (if e.kind == RefundSucceeded then amount else 0)
      && Committed(s, q) - Committed(s', q) == (if e.kind == RefundFailedEvent then amount else 0)
  {
    if e.refund.Some? && e.refund.value < |s.refunds| {
      var r := e.refund.value;
      var row := s.refunds[r].(status := RefundAfter(s.refunds[r].status, e.kind));
      RecomputeLeavesRefunds(WithRefund(s, r, row), row.payment);
      TotalUpdate(s.refunds, r, row, q, COMMITTED);
      TotalUpdate(s.refunds, r, row, q, {RefundSuccess});
    }
  }

  // ---------------------------------------------------------------------------------------------
  // Refusals, and what a call answers when it does nothing new

  /** Whose payment, for which booking: the refusals of createPayment, in their order. */
  lemma PayRefusals(s: Store, caller: string, booking: string, read: Option<OrderRead>, created: Option<CreatedOrder>)
    requires !MayPay(s, caller, booking)
    ensures CreatePayment(s, caller, booking, read, created) == (s, Err(
              if booking !in s.bookings then NotFound
              else if s.bookings[booking].booker != caller then Forbidden else Validation))
  {
  }

  /** A booking that has been paid for, wholly refunded or not, is refused as a conflict. */
  lemma PaidBookingIsRefused(s: Store, caller: string, booking: string, p: nat,
                             read: Option<OrderRead>, created: Option<CreatedOrder>)
    requires Inv(s) && MayPay(s, caller, booking)
    requires p < |s.payments| && s.payments[p].booking == booking
    requires s.payments[p].status in {Success, PartiallyRefunded, Refunded}
    ensures CreatePayment(s, caller, booking, read, created) == (s, Err(Conflict))
  {
    AtMostOneRow(s, booking);
    SingleFinds(s.payments, booking, SETTLED);
    assert IsPaymentOf(s.payments, booking, SETTLED, p);
  }

  /** A payment in flight whose order cannot be read, or turns out to be paid, is refused as a conflict. */
  lemma UnreadableOrPaidIsRefused(s: Store, caller: string, booking: string, p: nat,
                                  read: Option<OrderRead>, created: Option<CreatedOrder>)
    requires MayPay(s, caller, booking) && InFlightOf(s, booking) == OneRow(p)
    ensures p < |s.payments|
    ensures read.None? || EffectiveOutcome(read.value, s.payments[p]).status == Success ==>
              CreatePayment(s, caller, booking, read, created).1 == Err(Conflict)
    ensures read.None? ==> CreatePayment(s, caller, booking, read, created).0 == s
  {
    SingleFinds(s.payments, booking, IN_FLIGHT);
  }

  /** Verifying a payment that is not there, that is final, or whose order cannot be read, changes nothing. */
  lemma VerifyDoesNothing(s: Store, p: nat, read: Option<OrderRead>)
    requires p >= |s.payments| || !InFlight(s.payments[p].status) || read.None?
    ensures VerifyPayment(s, p, read) ==
              (s, if p >= |s.payments| then Err(NotFound)
                  else if !InFlight(s.payments[p].status) then Ok(p) else Err(Internal))
  {
    if p < |s.payments| { LiveOrClosed(s.payments[p].status); }
  }

  /** The row a payment opens with: what the provider answered, or a failure with its reason. */
  lemma OpenedRow(s: Store, booking: string, created: Option<CreatedOrder>)
    requires booking in s.bookings
    ensures var s' := OpenPayment(s, booking, created).0; var b := s.bookings[booking];
      s' == s.(payments := s.payments + [Payment(
                 booking,
                 if created.Some? then created.value.status else Failed,
                 b.total, b.currency,
                 if created.Some? then created.value.reference else None,
                 if created.Some? then None else Some(OrderCreationFailed))])
  {
  }

  /** The refusals of createRefund, in their order, and the row an accepted one leaves. */
  lemma RefundIsRecorded(s: Store, isAdmin: bool, p: nat, amount: Option<int>, reply: Option<RefundReply>)
    ensures var (s', result) := CreateRefund(s, isAdmin, p, amount, reply);
      && (!isAdmin ==> result == Err(Forbidden))
      && (isAdmin && p >= |s.payments| ==> result == Err(NotFound))
      && (isAdmin && p < |s.payments| && !MayRefund(s, isAdmin, p, amount) ==> result == Err(Validation))
      && (MayRefund(s, isAdmin, p, amount) ==>
            && result == (if reply.Some? then Ok(|s.refunds|) else Err(Internal))
            && s'.refunds == s.refunds + [Refund(
                 p, if reply.Some? then reply.value.status else RefundFailed, Asked(s, p, amount),
                 if reply.Some? then reply.value.reference else None)])
  {
    if MayRefund(s, isAdmin, p, amount) {
      assert CreateRefund(s, isAdmin, p, amount, reply) == SendRefund(s, p, Asked(s, p, amount), reply);
      SendRefundAppends(s, p, Asked(s, p, amount), reply);
    }
  }

  // ---------------------------------------------------------------------------------------------
  // Who hears of a refund

  ghost predicate RefundAnnounced(before: Store, after: Store, p: nat) {
    exists i | |before.notices| <= i < |after.notices| ::
      after.notices[i].payment == p && after.notices[i].kind == RefundProcessed
  }

  /** The first money to be given back. */
  predicate StartsGivingBack(before: Store, after: Store, p: nat) {
    && p < |before.payments| && p < |after.payments|
    && before.payments[p].status == Success && after.payments[p].status in {PartiallyRefunded, Refunded}
  }

  lemma RecomputeAnnouncesRefund(s: Store, p: nat, q: nat)
    requires BookingsExist(s) && p < |s.payments|
    ensures RefundAnnounced(s, Recompute(s, p), q) <==> StartsGivingBack(s, Recompute(s, p), q)
  {
    var s' := Recompute(s, p);
    if StartsGivingBack(s, s', q) {
      assert q == p && s'.notices[|s.notices|].kind == RefundProcessed;
    }
  }

  lemma ApplyStatusAnnouncesNoRefund(s: Store, p: nat, incoming: OrderStatus, reference: Option<string>,
                                     reason: Option<FailureReason>, reported: Reported, q: nat)
    requires p < |s.payments|
    ensures var s' := ApplyStatus(s, p, incoming, reference, reason, reported);
      !RefundAnnounced(s, s', q) && !StartsGivingBack(s, s', q)
  {
    LiveOrClosed(s.payments[p].status);
  }

  lemma ResumeAnnouncesNoRefund(s: Store, p: nat, read: Option<OrderRead>, q: nat)
    requires p < |s.payments| && InFlight(s.payments[p].status)
    ensures var s' := ResumeInFlight(s, p, read).0; !RefundAnnounced(s, s', q) && !StartsGivingBack(s, s', q)
  {
    if read.Some? {
      var order := read.value;
      var outcome := EffectiveOutcome(order, s.payments[p]);
      ApplyStatusAnnouncesNoRefund(s, p, Success, order.reference, None, outcome.reported, q);
      var why := Some(NoLongerCompletable);
      ApplyStatusAnnouncesNoRefund(s, p, outcome.status, order.reference, why, outcome.reported, q);
    }
  }

  lemma PayAnnouncesNoRefund(s: Store, caller: string, booking: string, read: Option<OrderRead>,
                             created: Option<CreatedOrder>, q: nat)
    ensures var s' := CreatePayment(s, caller, booking, read, created).0;
      !RefundAnnounced(s, s', q) && !StartsGivingBack(s, s', q)
  {
    if MayPay(s, caller, booking) && InFlightOf(s, booking).OneRow? {
      var p := InFlightOf(s, booking).id;
      SingleFinds(s.payments, booking, IN_FLIGHT);
      ResumeAnnouncesNoRefund(s, p, read, q);
      var s1 := ResumeInFlight(s, p, read).0;
      var s' := CreatePayment(s, caller, booking, read, created).0;
      assert s'.notices == s1.notices && |s1.payments| == |s.payments|;
      assert q < |s.payments| ==> s'.payments[q] == s1.payments[q];
      assert RefundAnnounced(s, s', q) ==> RefundAnnounced(s, s1, q);
    }
  }

  lemma RefundEventAnnouncesRefund(s: Store, e: Event, q: nat)
    requires BookingsExist(s)
    ensures var s' := ApplyRefundEvent(s, e).0; RefundAnnounced(s, s', q) <==> StartsGivingBack(s, s', q)
  {
    if e.refund.Some? && e.refund.value < |s.refunds| && s.refunds[e.refund.value].payment < |s.payments| {
      var row := s.refunds[e.refund.value];
      var s1 := WithRefund(s, e.refund.value, row.(status := RefundAfter(row.status, e.kind)));
      RecomputeAnnouncesRefund(s1, row.payment, q);
      var s' := Recompute(s1, row.payment);
      assert RefundAnnounced(s, s', q) <==> RefundAnnounced(s1, s', q);
    }
  }

  lemma SendRefundAnnouncesRefund(s: Store, p: nat, amount: int, reply: Option<RefundReply>, q: nat)
    requires BookingsExist(s) && p < |s.payments|
    ensures var s' := SendRefund(s, p, amount, reply).0; RefundAnnounced(s, s', q) <==> StartsGivingBack(s, s', q)
  {
    if reply.Some? {
      var row := Refund(p, RefundPending, amount, None);
      var s1 := WithRefund(s.(refunds := s.refunds + [row]), |s.refunds|,
                           row.(status := reply.value.status, reference := reply.value.reference));
      RecomputeAnnouncesRefund(s1, p, q);
      var s' := Recompute(s1, p);
      assert RefundAnnounced(s, s', q) <==> RefundAnnounced(s1, s', q);
    }
  }

  lemma RefundCallAnnouncesRefund(s: Store, isAdmin: bool, p: nat, amount: Option<int>, reply: Option<RefundReply>,
                                  q: nat)
    requires BookingsExist(s)
    ensures var s' := CreateRefund(s, isAdmin, p, amount, reply).0;
      RefundAnnounced(s, s', q) <==> StartsGivingBack(s, s', q)
  {
    if MayRefund(s, isAdmin, p, amount) {
      assert CreateRefund(s, isAdmin, p, amount, reply) == SendRefund(s, p, Asked(s, p, amount), reply);
      SendRefundAnnouncesRefund(s, p, Asked(s, p, amount), reply, q);
    } else {
      assert CreateRefund(s, isAdmin, p, amount, reply).0 == s;
    }
  }

  lemma EventAnnouncesRefund(s: Store, body: Payload, q: nat)
    requires BookingsExist(s)
    ensures var s' := HandleWebhook(s, body); RefundAnnounced(s, s', q) <==> StartsGivingBack(s, s', q)
  {
    var event := ParseWebhook(body);
    if body !in s.ledger && event.Some? {
      var e := event.value;
      var s' := HandleWebhook(s, body);
      if e.kind in {RefundCreated, RefundSucceeded, RefundFailedEvent} {
        RefundEventAnnouncesRefund(s, e, q);
        var s1 := ApplyRefundEvent(s, e).0;
        assert s'.payments == s1.payments && s'.notices == s1.notices;
        assert RefundAnnounced(s, s', q) <==> RefundAnnounced(s, s1, q);
      } else if e.order < |s.payments| {
        var incoming: OrderStatus := if e.kind == PaymentSuccess then Success else Failed;
        var reason := if incoming == Failed then Some(FailedOrNotCompleted) else None;
        ApplyStatusAnnouncesNoRefund(s, e.order, incoming, e.reference, reason, Reported(e.amount, e.currency), q);
        var s1 := ApplyPaymentEvent(s, e).0;
        assert s'.payments == s1.payments && s'.notices == s1.notices;
        assert RefundAnnounced(s, s', q) ==> RefundAnnounced(s, s1, q);
      }
    }
  }

  /** In every step the booker hears of a refund exactly when a plain success starts being given back. */
  lemma RefundAnnouncedIffGivingBackStarts(s: Store, call: Call, p: nat)
    requires BookingsExist(s)
    ensures RefundAnnounced(s, Step(s, call), p) <==> StartsGivingBack(s, Step(s, call), p)
  {
    match call
    case Pay(caller, booking, read, created) => PayAnnouncesNoRefund(s, caller, booking, read, created, p);
    case Verify(q, read) =>
      if q < |s.payments| && read.Some? {
        var outcome := EffectiveOutcome(read.value, s.payments[q]);
        ApplyStatusAnnouncesNoRefund(s, q, outcome.status, read.value.reference, None, outcome.reported, p);
      }
    case IssueRefund(isAdmin, q, amount, reply) =>
      RefundCallAnnouncesRefund(s, isAdmin, q, amount, reply, p);
    case Webhook(body) => EventAnnouncesRefund(s, body, p);
    case BookingMoves(_, _) =>
  }

  // ---------------------------------------------------------------------------------------------
  // What payments leave alone

  lemma PayLeavesBookings(s: Store, caller: string, booking: string, read: Option<OrderRead>,
                          created: Option<CreatedOrder>)
    ensures CreatePayment(s, caller, booking, read, created).0.bookings == s.bookings
  {
    if MayPay(s, caller, booking) && InFlightOf(s, booking).OneRow? {
      SingleFinds(s.payments, booking, IN_FLIGHT);
      ResumeTouchesOneRow(s, InFlightOf(s, booking).id, read);
    }
  }

  lemma RecomputeLeavesBookings(s: Store, p: nat)
    requires p < |s.payments|
    ensures Recompute(s, p).bookings == s.bookings
  {
  }

  lemma RefundLeavesBookings(s: Store, isAdmin: bool, p: nat, amount: Option<int>, reply: Option<RefundReply>)
    ensures CreateRefund(s, isAdmin, p, amount, reply).0.bookings == s.bookings
  {
    if MayRefund(s, isAdmin, p, amount) && reply.Some? {
      var row := Refund(p, RefundPending, Asked(s, p, amount), None);
      RecomputeLeavesBookings(
        WithRefund(s.(refunds := s.refunds + [row]), |s.refunds|,
                   row.(status := reply.value.status, reference := reply.value.reference)), p);
    }
  }

  lemma EventLeavesBookings(s: Store, event: Option<Event>)
    ensures ApplyEvent(s, event).0.bookings == s.bookings
  {
    if event.Some? && event.value.refund.Some? && event.value.refund.value < |s.refunds| {
      var row := s.refunds[event.value.refund.value];
      var s1 := WithRefund(s, event.value.refund.value, row.(status := RefundAfter(row.status, event.value.kind)));
      if row.payment < |s.payments| { RecomputeLeavesBookings(s1, row.payment); }
    }
  }

  /** A booking moves on its own, and only its status; no payment call moves one. */
  lemma BookingsMoveAlone(s: Store, call: Call, booking: string)
    requires booking in s.bookings
    ensures !call.BookingMoves? ==> Step(s, call).bookings == s.bookings
    ensures call.BookingMoves? ==>
              var s' := Step(s, call);
              && s'.payments == s.payments && s'.refunds == s.refunds && s'.notices == s.notices
              && booking in s'.bookings
              && s'.bookings[booking] == if call.booking == booking then s.bookings[booking].(status := call.status)
                                         else s.bookings[booking]
  {
    match call
    case Pay(caller, other, read, created) => PayLeavesBookings(s, caller, other, read, created);
    case IssueRefund(isAdmin, p, amount, reply) => RefundLeavesBookings(s, isAdmin, p, amount, reply);
    case Webhook(body) => EventLeavesBookings(s, ParseWebhook(body));
    case _ =>
  }
}
