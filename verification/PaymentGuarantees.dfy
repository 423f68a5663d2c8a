/** The promises of the payment engine, over every run from an opening store. */
module PaymentGuarantees {
  import opened Common
  import opened Cashfree
  import opened Payments
  import opened PaymentRuns

  lemma OpeningIsSound(s: Store)
    requires Opening(s)
    ensures Inv(s)
  {
  }

  lemma LiveOrClosed(x: PaymentStatus)
    ensures Live(x) <==> x !in {Failed, Cancelled}
  {
    match x
    case Created => case Pending => case Success => case Failed =>
    case Cancelled => case Refunded => case PartiallyRefunded =>
  }

  /** Without any unique index, a booking has at most one payment that is in flight or settled. */
  lemma NeverTwoLivePayments(s: Store, calls: seq<Call>, p: nat, q: nat)
    requires Opening(s)
    requires p < q < |Run(s, calls).payments|
    requires Run(s, calls).payments[p].booking == Run(s, calls).payments[q].booking
    ensures Run(s, calls).payments[p].status in {Failed, Cancelled}
         || Run(s, calls).payments[q].status in {Failed, Cancelled}
  {
    OpeningIsSound(s);
    RunKeeps(s, calls);
    var s' := Run(s, calls);
    var x, y := s'.payments[p].status, s'.payments[q].status;
    assert !(Live(x) && Live(y));
    LiveOrClosed(x);
    LiveOrClosed(y);
  }

  /** So neither `maybeSingle` read by booking can ever see two rows. */
  lemma ReadsNeverSeeTwoRows(s: Store, calls: seq<Call>, booking: string)
    requires Opening(s)
    ensures !InFlightOf(Run(s, calls), booking).TooManyRows? && !SettledOf(Run(s, calls), booking).TooManyRows?
  {
    OpeningIsSound(s);
    RunKeeps(s, calls);
    AtMostOneRow(Run(s, calls), booking);
  }

  /** Pending and successful refunds never exceed the payment, and its status says how much went back. */
  lemma RefundsConserveMoney(s: Store, calls: seq<Call>, p: nat)
    requires Opening(s)
    requires p < |Run(s, calls).payments|
    ensures var s' := Run(s, calls); var row := s'.payments[p];
      && 0 <= RefundedSum(s', p) <= Committed(s', p) <= row.amount
      && (Settled(row.status) ==>
            && (row.status == Success <==> RefundedSum(s', p) == 0)
            && (row.status == Refunded <==> RefundedSum(s', p) == row.amount > 0)
            && (row.status == PartiallyRefunded <==> 0 < RefundedSum(s', p) < row.amount))
      && (!Settled(row.status) ==> Committed(s', p) == 0)
  {
    OpeningIsSound(s);
    RunKeeps(s, calls);
    var s' := Run(s, calls);
    TotalBounds(s'.refunds, p);
    assert StatusTellsRefunds(s', p);
  }

  /** Between any two moments of a run, statuses have only moved forward. */
  lemma StatusesNeverRegress(s: Store, earlier: seq<Call>, later: seq<Call>)
    requires Opening(s)
    ensures Evolves(Run(s, earlier), Run(s, earlier + later))
  {
    OpeningIsSound(s);
    RunKeeps(s, earlier);
    RunKeeps(Run(s, earlier), later);
    RunSplit(s, earlier, later);
  }

  /** What moving forward means for the statuses a caller can see as final. */
  lemma TerminalStatusesAreFinal(a: Store, b: Store, p: nat, r: nat)
    requires Evolves(a, b)
    ensures p < |a.payments| ==>
      && (a.payments[p].status in {Failed, Cancelled, Refunded} ==> b.payments[p].status == a.payments[p].status)
      && (a.payments[p].status == PartiallyRefunded ==> b.payments[p].status in {PartiallyRefunded, Refunded})
      && (Settled(a.payments[p].status) ==> Settled(b.payments[p].status))
    ensures r < |a.refunds| && TerminalRefund(a.refunds[r].status) ==> b.refunds[r].status == a.refunds[r].status
  {
    if p < |a.payments| {
      assert StatusReaches(a.payments[p].status, b.payments[p].status);
    }
  }

  /** At most one success-or-failure notice and at most one refund notice per payment, each true of it. */
  lemma OneNoticePerOutcome(s: Store, calls: seq<Call>, i: nat, j: nat)
    requires Opening(s)
    requires i < j < |Run(s, calls).notices|
    ensures var s' := Run(s, calls);
      && NoticeHolds(s', s'.notices[i]) && NoticeHolds(s', s'.notices[j])
      && (s'.notices[i].payment == s'.notices[j].payment ==>
            (s'.notices[i].kind == RefundProcessed) != (s'.notices[j].kind == RefundProcessed))
  {
    OpeningIsSound(s);
    RunKeeps(s, calls);
  }

  /** Delivering an already delivered body again, anywhere later in a run, changes nothing. */
  lemma RedeliveryChangesNothing(s: Store, before: seq<Call>, body: Payload, between: seq<Call>, after: seq<Call>)
    requires Opening(s)
    ensures Run(s, before + [Webhook(body)] + between + [Webhook(body)] + after)
         == Run(s, before + [Webhook(body)] + between + after)
  {
    var delivered := before + [Webhook(body)];
    OpeningIsSound(s);
    RunSplit(s, before, [Webhook(body)]);
    var s1 := Run(s, delivered);
    assert body in s1.ledger by {
      assert Run(Run(s, before), [Webhook(body)]) == Step(Run(s, before), Webhook(body));
    }
    RunKeeps(s, delivered);
    RunKeeps(s1, between);
    RunSplit(s, delivered, between);
    var s2 := Run(s1, between);
    assert Step(s2, Webhook(body)) == s2;
    RunSplit(s, delivered + between, [Webhook(body)] + after);
    RunSplit(s, delivered + between, after);
    RunSplit(s2, [Webhook(body)], after);
    assert Run(s2, [Webhook(body)]) == s2;
    assert delivered + between + [Webhook(body)] + after == delivered + between + ([Webhook(body)] + after);
  }

  // ---------------------------------------------------------------------------------------------
  // Resuming

  lemma NothingSettledBesideInFlight(s: Store, booking: string, p: nat, read: Option<OrderRead>)
    requires OneLivePerBooking(s) && InFlightOf(s, booking) == OneRow(p)
    requires p < |s.payments| && s.payments[p].booking == booking && InFlight(s.payments[p].status)
    requires ResumeInFlight(s, p, read).1.Dead?
    ensures SettledOf(ResumeInFlight(s, p, read).0, booking).NoRow?
  {
    ResumeTouchesOneRow(s, p, read);
    var s1 := ResumeInFlight(s, p, read).0;
    SingleFinds(s1.payments, booking, SETTLED);
    forall q: nat ensures !IsPaymentOf(s1.payments, booking, SETTLED, q) {
      assert q != p && IsPaymentOf(s1.payments, booking, SETTLED, q) ==>
        Live(s.payments[q].status) && Live(s.payments[p].status);
    }
  }

  /**
   * Paying again while a payment is in flight opens a second order exactly when the provider reported
   * the first one dead.
   */
  lemma ResumeOpensOnlyAfterDeath(s: Store, booking: string, p: nat,
                                  read: Option<OrderRead>, created: Option<CreatedOrder>)
    requires OneLivePerBooking(s) && booking in s.bookings && InFlightOf(s, booking) == OneRow(p)
    ensures p < |s.payments|
    ensures var (s', result) := ResumeOrOpen(s, booking, read, created);
      && (|s'.payments| > |s.payments| <==>
            read.Some? && EffectiveOutcome(read.value, s.payments[p]).status in {Failed, Cancelled})
      && (|s'.payments| > |s.payments| ==> s'.payments[p].status in {Failed, Cancelled})
      && (|s'.payments| == |s.payments| && result.Ok? ==> result.value == p && s'.payments[p].status == Pending)
      && (read.None? ==> s' == s && result == Err(Conflict))
  {
    SingleFinds(s.payments, booking, IN_FLIGHT);
    ResumeTouchesOneRow(s, p, read);
    if ResumeInFlight(s, p, read).1.Dead? {
      NothingSettledBesideInFlight(s, booking, p, read);
    }
  }

  /** The reason given for a failure is written, and decides nothing. */
  lemma ReasonDecidesNothing(s: Store, p: nat, incoming: OrderStatus, reference: Option<string>,
                             one: Option<FailureReason>, other: Option<FailureReason>, reported: Reported)
    requires p < |s.payments|
    ensures var a := ApplyStatus(s, p, incoming, reference, one, reported);
      var b := ApplyStatus(s, p, incoming, reference, other, reported);
      && p < |a.payments| && p < |b.payments|
      && a.payments[p].(failureReason := None) == b.payments[p].(failureReason := None)
      && a.notices == b.notices
  {
  }

  /** A resume and a verify never disagree about what the provider just said. */
  lemma VerifyAndResumeAgree(s: Store, p: nat, read: OrderRead)
    requires p < |s.payments| && InFlight(s.payments[p].status)
    ensures var v := VerifyPayment(s, p, Some(read)).0; var r := ResumeInFlight(s, p, Some(read)).0;
      && v.payments[p].(failureReason := None) == r.payments[p].(failureReason := None)
      && v.notices == r.notices
  {
    var outcome := EffectiveOutcome(read, s.payments[p]);
    var why := Some(NoLongerCompletable);
    ReasonDecidesNothing(s, p, outcome.status, read.reference, None, why, outcome.reported);
    LiveOrClosed(s.payments[p].status);
  }

  /**
   * While the provider order is ACTIVE, neither verify nor resume can close the payment: whatever
   * attempts were made, it ends `pending`, or `success` exactly when the newest successful attempt
   * agrees with the recorded money. The funnel's own mismatch check never fires.
   */
  lemma ActiveOrderNeverCloses(s: Store, p: nat, body: OrderBody, reported: Option<seq<ReportedAttempt>>,
                               collate: Collation)
    requires p < |s.payments| && InFlight(s.payments[p].status) && body.status == "ACTIVE"
    ensures var read := FetchOrder(body, reported, collate);
      var settles :=
        && reported.Some? && SelectAttempts(ToProviderAttempts(reported.value), collate).settled.Some?
        && var best := SelectAttempts(ToProviderAttempts(reported.value), collate).settled.value;
           !Mismatched(s.payments[p], Reported(best.amount, best.currency));
      var status := if settles then Success else Pending;
      && VerifyPayment(s, p, Some(read)).0.payments[p].status == status
      && ResumeInFlight(s, p, Some(read)).0.payments[p].status == status
      && ResumeInFlight(s, p, Some(read)).1 == Answer(if settles then Err(Conflict) else Ok(p))
      && VerifyPayment(s, p, Some(read)).0.payments[p].failureReason == s.payments[p].failureReason
  {
    if reported.Some? { SettledIffSomeSuccess(ToProviderAttempts(reported.value), collate); }
  }

  /** No text but SUCCESS, and no attempt at all, can settle an ACTIVE order: an unknown status decides nothing. */
  lemma OnlyReportedSuccessSettles(s: Store, p: nat, body: OrderBody, reported: seq<ReportedAttempt>,
                                   collate: Collation)
    requires p < |s.payments| && InFlight(s.payments[p].status) && body.status == "ACTIVE"
    ensures VerifyPayment(s, p, Some(FetchOrder(body, Some(reported), collate))).0.payments[p].status == Success ==>
      exists i :: 0 <= i < |reported| && reported[i].status == Some("SUCCESS")
                  && !Mismatched(s.payments[p], Reported(ToMinorUnits(reported[i].amount), reported[i].currency))
  {
    ActiveOrderNeverCloses(s, p, body, Some(reported), collate);
    var attempts := ToProviderAttempts(reported);
    SettledIffSomeSuccess(attempts, collate);
    var pick := SelectAttempts(attempts, collate).settled;
    if pick.Some? {
      var i :| 0 <= i < |attempts| && attempts[i] == pick.value;
      assert attempts[i] == ToProviderAttempt(reported[i]);
    }
  }

  /** A PAID order that echoes the currency settles exactly when its amount drifts by less than half a minor unit. */
  lemma PaidEchoSettles(s: Store, p: nat, reference: Option<string>, drift: real, collate: Collation)
    requires p < |s.payments| && InFlight(s.payments[p].status)
    ensures var row := s.payments[p];
      var body := OrderBody("PAID", reference, Some(ToMajorUnits(row.amount) + drift), Some(row.currency));
      var after := VerifyPayment(s, p, Some(FetchOrder(body, None, collate))).0.payments[p];
      && (after.status == Success <==> -0.005 <= drift < 0.005)
      && (after.status != Success ==> after.status == Failed && after.failureReason == Some(AmountMismatch))
  {
    MoneyRoundTrip(s.payments[p].amount, drift);
  }

  // ---------------------------------------------------------------------------------------------
  // Who is told

  ghost predicate Announced(before: Store, after: Store, p: nat) {
    exists i | |before.notices| <= i < |after.notices| ::
      after.notices[i].payment == p && after.notices[i].kind != RefundProcessed
  }

  /** An outcome is reached by a payment that was in flight before the call. */
  predicate ReachesOutcome(before: Store, after: Store, p: nat) {
    && p < |before.payments| && p < |after.payments|
    && InFlight(before.payments[p].status)
    && (after.payments[p].status == Success || after.payments[p].status == Failed)
  }

  lemma ApplyStatusAnnounces(s: Store, p: nat, incoming: OrderStatus, reference: Option<string>,
                             reason: Option<FailureReason>, reported: Reported)
    requires BookingsExist(s) && p < |s.payments|
    ensures var s' := ApplyStatus(s, p, incoming, reference, reason, reported);
      && |s'.payments| == |s.payments| && s.notices <= s'.notices
      && forall q :: Announced(s, s', q) <==> ReachesOutcome(s, s', q)
  {
    var s' := ApplyStatus(s, p, incoming, reference, reason, reported);
    if ReachesOutcome(s, s', p) {
      assert s'.notices[|s.notices|].payment == p;
    }
  }

  lemma RecomputeDoesNotAnnounce(s: Store, p: nat)
    requires p < |s.payments|
    ensures var s' := Recompute(s, p);
      && |s'.payments| == |s.payments|
      && (forall q :: !Announced(s, s', q))
      && (forall q | 0 <= q < |s.payments| && InFlight(s.payments[q].status) :: s'.payments[q] == s.payments[q])
  {
  }

  lemma PayAnnounces(s: Store, booking: string, read: Option<OrderRead>, created: Option<CreatedOrder>)
    requires BookingsExist(s) && booking in s.bookings
    ensures var s' := ResumeOrOpen(s, booking, read, created).0;
      forall q :: Announced(s, s', q) <==> ReachesOutcome(s, s', q)
  {
    var s' := ResumeOrOpen(s, booking, read, created).0;
    if InFlightOf(s, booking).OneRow? {
      var p := InFlightOf(s, booking).id;
      SingleFinds(s.payments, booking, IN_FLIGHT);
      var s1 := ResumeInFlight(s, p, read).0;
      ResumeAnnounces(s, p, read);
      assert s'.notices == s1.notices;
      forall q ensures ReachesOutcome(s, s', q) <==> ReachesOutcome(s, s1, q) {}
      forall q ensures Announced(s, s', q) <==> Announced(s, s1, q) {}
    }
  }

  lemma ResumeAnnounces(s: Store, p: nat, read: Option<OrderRead>)
    requires BookingsExist(s) && p < |s.payments|
    ensures var s' := ResumeInFlight(s, p, read).0;
      && |s'.payments| == |s.payments|
      && forall q :: Announced(s, s', q) <==> ReachesOutcome(s, s', q)
  {
    if read.Some? {
      var order := read.value;
      var outcome := EffectiveOutcome(order, s.payments[p]);
      ApplyStatusAnnounces(s, p, Success, order.reference, None, outcome.reported);
      ApplyStatusAnnounces(s, p, outcome.status, order.reference, Some(NoLongerCompletable), outcome.reported);
    }
  }

  lemma PaymentEventAnnounces(s: Store, e: Event)
    requires BookingsExist(s)
    ensures var s' := ApplyPaymentEvent(s, e).0; forall q :: Announced(s, s', q) <==> ReachesOutcome(s, s', q)
  {
    if e.order < |s.payments| {
      var incoming: OrderStatus := if e.kind == PaymentSuccess then Success else Failed;
      var reason := if incoming == Failed then Some(FailedOrNotCompleted) else None;
      ApplyStatusAnnounces(s, e.order, incoming, e.reference, reason, Reported(e.amount, e.currency));
    }
  }

  lemma RefundEventAnnounces(s: Store, e: Event)
    ensures var s' := ApplyRefundEvent(s, e).0; forall q :: Announced(s, s', q) <==> ReachesOutcome(s, s', q)
  {
    if e.refund.Some? && e.refund.value < |s.refunds| && s.refunds[e.refund.value].payment < |s.payments| {
      var row := s.refunds[e.refund.value];
      var s1 := WithRefund(s, e.refund.value, row.(status := RefundAfter(row.status, e.kind)));
      RecomputeDoesNotAnnounce(s1, row.payment);
      forall q ensures Announced(s, Recompute(s1, row.payment), q) ==> Announced(s1, Recompute(s1, row.payment), q) {}
    }
  }

  lemma EventAnnounces(s: Store, body: Payload)
    requires BookingsExist(s)
    ensures var s' := HandleWebhook(s, body); forall q :: Announced(s, s', q) <==> ReachesOutcome(s, s', q)
  {
    var event := ParseWebhook(body);
    if body !in s.ledger && event.Some? {
      var e := event.value;
      PaymentEventAnnounces(s, e);
      RefundEventAnnounces(s, e);
      var s1 := if e.kind in {RefundCreated, RefundSucceeded, RefundFailedEvent} then ApplyRefundEvent(s, e).0
                else ApplyPaymentEvent(s, e).0;
      var s' := HandleWebhook(s, body);
      assert s'.payments == s1.payments && s'.notices == s1.notices;
      forall q ensures Announced(s, s', q) <==> Announced(s, s1, q) {}
    }
  }

  lemma VerifyAnnounces(s: Store, p: nat, read: Option<OrderRead>)
    requires BookingsExist(s)
    ensures var s' := VerifyPayment(s, p, read).0; forall q :: Announced(s, s', q) <==> ReachesOutcome(s, s', q)
  {
    if p < |s.payments| && read.Some? {
      var outcome := EffectiveOutcome(read.value, s.payments[p]);
      ApplyStatusAnnounces(s, p, outcome.status, read.value.reference, None, outcome.reported);
    }
  }

  lemma SendRefundAnnounces(s: Store, p: nat, amount: int, reply: Option<RefundReply>)
    requires p < |s.payments|
    ensures var s' := SendRefund(s, p, amount, reply).0; forall q :: !Announced(s, s', q) && !ReachesOutcome(s, s', q)
  {
    if reply.Some? {
      var row := Refund(p, RefundPending, amount, None);
      var s1 := WithRefund(s.(refunds := s.refunds + [row]), |s.refunds|,
                           row.(status := reply.value.status, reference := reply.value.reference));
      RecomputeDoesNotAnnounce(s1, p);
      forall q ensures Announced(s, Recompute(s1, p), q) ==> Announced(s1, Recompute(s1, p), q) {}
    }
  }

  lemma RefundCallAnnounces(s: Store, isAdmin: bool, p: nat, amount: Option<int>, reply: Option<RefundReply>)
    ensures var s' := CreateRefund(s, isAdmin, p, amount, reply).0;
      forall q :: !Announced(s, s', q) && !ReachesOutcome(s, s', q)
  {
    var s' := CreateRefund(s, isAdmin, p, amount, reply).0;
    if s' != s {
      var requested := amount.GetOr(s.payments[p].amount - Committed(s, p));
      assert s' == SendRefund(s, p, requested, reply).0;
      SendRefundAnnounces(s, p, requested, reply);
    }
  }

  /** In every step the booker hears of an outcome exactly when a payment already in flight reaches it. */
  lemma AnnouncedIffOutcomeReached(s: Store, call: Call, p: nat)
    requires BookingsExist(s)
    ensures Announced(s, Step(s, call), p) <==> ReachesOutcome(s, Step(s, call), p)
  {
    match call
    case Pay(caller, booking, read, created) =>
      if booking in s.bookings { PayAnnounces(s, booking, read, created); }
    case Verify(q, read) => VerifyAnnounces(s, q, read);
    case IssueRefund(isAdmin, q, amount, reply) => RefundCallAnnounces(s, isAdmin, q, amount, reply);
    case Webhook(body) => EventAnnounces(s, body);
    case BookingMoves(_, _) =>
  }

  /**
   * A payment whose order is already PAID when it is created is therefore settled in silence: no
   * amount is compared and nobody is told.
   */
  lemma PaidOnCreationIsSilent(s: Store, booking: string, reference: Option<string>)
    requires booking in s.bookings
    ensures var s' := OpenPayment(s, booking, Some(CreatedOrder(Success, reference))).0;
      && s'.payments[|s.payments|].status == Success
      && s'.notices == s.notices
      && VerifyPayment(s', |s.payments|, None) == (s', Ok(|s.payments|))
  {
  }
}
