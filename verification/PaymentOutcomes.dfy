/**
 * What each call leaves on each payment, and on what evidence a payment is recorded as successful:
 * src/modules/payments/payment.service.ts promises at lines 85-90 that the provider's claim is first
 * compared with the amount and currency on record.
 */
module PaymentOutcomes {
  import opened Common
  import opened Cashfree
  import opened Payments
  import opened PaymentRuns
  import opened PaymentGuarantees
  import opened PaymentEffects

  // ---------------------------------------------------------------------------------------------
  // Webhooks and refunds

  /** The in-flight payment a fresh payment event is about. */
  function Target(s: Store, body: Payload): Option<nat> {
    var event := ParseWebhook(body);
    if body !in s.ledger && event.Some? && event.value.kind in {PaymentSuccess, PaymentFailed, PaymentUserDropped}
       && event.value.order < |s.payments| && InFlight(s.payments[event.value.order].status)
    then Some(event.value.order) else None
  }

  predicate SameOrStillSettled(before: PaymentStatus, after: PaymentStatus) {
    before == after || (Settled(before) && Settled(after))
  }

  lemma PaymentEventClosesTarget(s: Store, p: nat, e: Event)
    requires p < |s.payments| && e.order == p
    ensures var s' := ApplyPaymentEvent(s, e).0;
      && |s'.payments| == |s.payments|
      && (forall q | 0 <= q < |s.payments| && q != p :: s'.payments[q] == s.payments[q])
      && (Terminal(s.payments[p].status) ==> s'.payments[p].status == s.payments[p].status)
      && (InFlight(s.payments[p].status) ==>
            s'.payments[p].status ==
              if e.kind == PaymentSuccess && !Mismatched(s.payments[p], Reported(e.amount, e.currency))
                then Success else Failed)
  {
  }

  /** A delivery closes nothing but its target, and it closes that unless it is a matching success. */
  lemma WebhookTouchesTarget(s: Store, body: Payload)
    ensures var s' := HandleWebhook(s, body);
      && |s'.payments| == |s.payments|
      && (forall q | 0 <= q < |s.payments| && Some(q) != Target(s, body) ::
            SameOrStillSettled(s.payments[q].status, s'.payments[q].status))
      && (Target(s, body).Some? ==>
            var p := Target(s, body).value; var e := ParseWebhook(body).value;
            s'.payments[p].status ==
              if e.kind == PaymentSuccess && !Mismatched(s.payments[p], Reported(e.amount, e.currency))
                then Success else Failed)
  {
    var event := ParseWebhook(body);
    if body !in s.ledger && event.Some? {
      var e := event.value;
      if e.kind in {RefundCreated, RefundSucceeded, RefundFailedEvent} {
        RefundEventClosesNothing(s, e);
        assert HandleWebhook(s, body).payments == ApplyRefundEvent(s, e).0.payments;
      } else {
        assert HandleWebhook(s, body).payments == ApplyPaymentEvent(s, e).0.payments;
        if e.order < |s.payments| {
          LiveOrClosed(s.payments[e.order].status);
          PaymentEventClosesTarget(s, e.order, e);
        }
      }
    }
  }

  lemma RecomputeClosesNothing(s: Store, p: nat)
    requires p < |s.payments|
    ensures var s' := Recompute(s, p);
      && |s'.payments| == |s.payments|
      && forall q | 0 <= q < |s.payments| ::
           SameOrStillSettled(s.payments[q].status, s'.payments[q].status)
  {
  }

  lemma RefundEventClosesNothing(s: Store, e: Event)
    ensures var s' := ApplyRefundEvent(s, e).0;
      && |s'.payments| == |s.payments|
      && forall q | 0 <= q < |s.payments| ::
           SameOrStillSettled(s.payments[q].status, s'.payments[q].status)
  {
    if e.refund.Some? && e.refund.value < |s.refunds| && s.refunds[e.refund.value].payment < |s.payments| {
      var row := s.refunds[e.refund.value];
      RecomputeClosesNothing(WithRefund(s, e.refund.value,
        row.(status := RefundAfter(row.status, e.kind))), row.payment);
    }
  }

  lemma RefundCallClosesNothing(s: Store, isAdmin: bool, p: nat, amount: Option<int>, reply: Option<RefundReply>)
    ensures var s' := CreateRefund(s, isAdmin, p, amount, reply).0;
      && |s'.payments| == |s.payments|
      && forall q | 0 <= q < |s.payments| ::
           SameOrStillSettled(s.payments[q].status, s'.payments[q].status)
  {
    var s' := CreateRefund(s, isAdmin, p, amount, reply).0;
    if s' != s && reply.Some? {
      var asked := amount.GetOr(s.payments[p].amount - Committed(s, p));
      var row := Refund(p, RefundPending, asked, None);
      RecomputeClosesNothing(
        WithRefund(s.(refunds := s.refunds + [row]), |s.refunds|,
                   row.(status := reply.value.status, reference := reply.value.reference)), p);
    }
  }

  // ---------------------------------------------------------------------------------------------
  // Provider reads

  /** What a provider answer leaves on an in-flight row. */
  function StatusAfter(p: Payment, read: OrderRead): PaymentStatus {
    var outcome := EffectiveOutcome(read, p);
    if outcome.status == Success && Mismatched(p, outcome.reported) then Failed else outcome.status
  }

  lemma VerifyRewritesOneRow(s: Store, p: nat, read: OrderRead)
    requires p < |s.payments|
    ensures var s' := VerifyPayment(s, p, Some(read)).0;
      && |s'.payments| == |s.payments|
      && (forall q | 0 <= q < |s.payments| && q != p :: s'.payments[q] == s.payments[q])
      && s'.payments[p].status ==
           if InFlight(s.payments[p].status) then StatusAfter(s.payments[p], read) else s.payments[p].status
  {
    LiveOrClosed(s.payments[p].status);
  }

  lemma ResumeLeavesStatus(s: Store, p: nat, read: OrderRead)
    requires p < |s.payments| && InFlight(s.payments[p].status)
    ensures ResumeInFlight(s, p, Some(read)).0.payments[p].status == StatusAfter(s.payments[p], read)
  {
  }

  /** What a payment call leaves on a payment in flight: only the booking's own is read, and only if it may be paid. */
  lemma PayLeavesStatus(s: Store, caller: string, booking: string, read: Option<OrderRead>,
                        created: Option<CreatedOrder>,
                        p: nat)
    requires p < |s.payments| && InFlight(s.payments[p].status)
    ensures var s' := CreatePayment(s, caller, booking, read, created).0;
      && |s.payments| <= |s'.payments|
      && s'.payments[p].status ==
           if MayPay(s, caller, booking) && InFlightOf(s, booking) == OneRow(p) && read.Some?
           then StatusAfter(s.payments[p], read.value) else s.payments[p].status
  {
    if MayPay(s, caller, booking) && InFlightOf(s, booking).OneRow? && read.Some? {
      var q := InFlightOf(s, booking).id;
      SingleFinds(s.payments, booking, IN_FLIGHT);
      ResumeTouchesOneRow(s, q, read);
      ResumeLeavesStatus(s, q, read.value);
    }
  }

  lemma PayAddsRow(s: Store, caller: string, booking: string, read: Option<OrderRead>, created: Option<CreatedOrder>)
    ensures var s' := CreatePayment(s, caller, booking, read, created).0; var n := |s.payments|;
      && (|s'.payments| == n || |s'.payments| == n + 1)
      && (|s'.payments| == n + 1 ==> s'.payments[n].status == if created.Some? then created.value.status else Failed)
  {
    if MayPay(s, caller, booking) && InFlightOf(s, booking).OneRow? {
      SingleFinds(s.payments, booking, IN_FLIGHT);
      ResumeTouchesOneRow(s, InFlightOf(s, booking).id, read);
    }
  }

  // ---------------------------------------------------------------------------------------------
  // The evidence for a success

  function ReadEvidence(p: Payment, read: Option<OrderRead>): Option<Reported> {
    if read.Some? && EffectiveOutcome(read.value, p).status == Success
    then Some(EffectiveOutcome(read.value, p).reported) else None
  }

  /** What a call hears the provider say was paid on payment `p`, if it hears that it succeeded. */
  function SuccessEvidence(s: Store, call: Call, p: nat): Option<Reported>
    requires p < |s.payments|
  {
    match call
    case Verify(q, read) => if q == p then ReadEvidence(s.payments[p], read) else None
    case Pay(caller, booking, read, _) =>
      if MayPay(s, caller, booking) && InFlightOf(s, booking) == OneRow(p) then ReadEvidence(s.payments[p], read)
      else None
    case Webhook(body) =>
      if Target(s, body) == Some(p) && ParseWebhook(body).value.kind == PaymentSuccess
      then Some(Reported(ParseWebhook(body).value.amount, ParseWebhook(body).value.currency)) else None
    case _ => None
  }

  predicate Backed(s: Store, call: Call, p: nat)
    requires p < |s.payments|
  {
    var evidence := SuccessEvidence(s, call, p);
    evidence.Some? && !Mismatched(s.payments[p], evidence.value)
  }

  /**
   * A payment in flight becomes a success exactly on evidence of one whose amount and currency do not
   * contradict the recorded ones, and no call takes it to any other settled status.
   */
  lemma SuccessIffMoneyCompared(s: Store, call: Call, p: nat)
    requires p < |s.payments| && InFlight(s.payments[p].status)
    ensures var s' := Step(s, call);
      && p < |s'.payments|
      && (s'.payments[p].status == Success <==> Backed(s, call, p))
      && (Settled(s'.payments[p].status) ==> s'.payments[p].status == Success)
  {
    match call
    case Pay(caller, booking, read, created) => PayLeavesStatus(s, caller, booking, read, created, p);
    case Verify(q, read) =>
      if q < |s.payments| && read.Some? { VerifyRewritesOneRow(s, q, read.value); }
    case IssueRefund(isAdmin, q, amount, reply) => RefundCallClosesNothing(s, isAdmin, q, amount, reply);
    case Webhook(body) => WebhookTouchesTarget(s, body);
    case BookingMoves(_, _) =>
  }

  predicate CreatedPaid(call: Call) {
    call.Pay? && call.created.Some? && call.created.value.status == Success
  }

  /** A row that a call adds is a success exactly when its order is created already paid, and is else not settled. */
  lemma NewRowSucceedsIffCreatedPaid(s: Store, call: Call)
    ensures var s' := Step(s, call); var n := |s.payments|;
      && (|s'.payments| == n || |s'.payments| == n + 1)
      && (|s'.payments| == n + 1 ==>
            && (s'.payments[n].status == Success <==> CreatedPaid(call))
            && (Settled(s'.payments[n].status) ==> s'.payments[n].status == Success))
  {
    match call
    case Pay(caller, booking, read, created) => PayAddsRow(s, caller, booking, read, created);
    case Verify(q, read) =>
      if q < |s.payments| && read.Some? { VerifyRewritesOneRow(s, q, read.value); }
    case IssueRefund(isAdmin, q, amount, reply) => RefundCallClosesNothing(s, isAdmin, q, amount, reply);
    case Webhook(body) => WebhookTouchesTarget(s, body);
    case BookingMoves(_, _) =>
  }

  /** The call settles the payment: on compared money, or by creating it already paid. */
  predicate Settles(s: Store, call: Call, p: nat) {
    || (p < |s.payments| && InFlight(s.payments[p].status) && Backed(s, call, p))
    || (p == |s.payments| && |Step(s, call).payments| > p && CreatedPaid(call))
  }

  ghost predicate SettledBy(s: Store, calls: seq<Call>, p: nat) {
    exists i | 0 <= i < |calls| :: Settles(Run(s, calls[..i]), calls[i], p)
  }

  predicate IsSettled(s: Store, p: nat) {
    p < |s.payments| && Settled(s.payments[p].status)
  }

  /** A row that is there and not in flight stays settled or stays closed. */
  lemma StepKeepsSettled(s: Store, call: Call, p: nat)
    requires Inv(s) && p < |s.payments| && !InFlight(s.payments[p].status)
    ensures IsSettled(Step(s, call), p) <==> IsSettled(s, p)
  {
    StepKeeps(s, call);
    LiveOrClosed(s.payments[p].status);
    TerminalStatusesAreFinal(s, Step(s, call), p, 0);
  }

  lemma StepSettlesIff(s: Store, call: Call, p: nat)
    requires Inv(s)
    ensures IsSettled(Step(s, call), p) <==> IsSettled(s, p) || Settles(s, call, p)
  {
    if p >= |s.payments| {
      NewRowSucceedsIffCreatedPaid(s, call);
    } else if InFlight(s.payments[p].status) {
      SuccessIffMoneyCompared(s, call, p);
    } else {
      StepKeepsSettled(s, call, p);
    }
  }

  lemma SettledByExtends(s: Store, calls: seq<Call>, p: nat)
    requires calls != []
    ensures var last := |calls| - 1;
      SettledBy(s, calls, p) <==> SettledBy(s, calls[..last], p) || Settles(Run(s, calls[..last]), calls[last], p)
  {
    var last := |calls| - 1;
    forall i | 0 <= i < last ensures calls[..last][..i] == calls[..i] && calls[..last][i] == calls[i] {}
    if SettledBy(s, calls, p) {
      var i :| 0 <= i < |calls| && Settles(Run(s, calls[..i]), calls[i], p);
      if i < last { assert Settles(Run(s, calls[..last][..i]), calls[..last][i], p); }
    }
    if SettledBy(s, calls[..last], p) {
      var i :| 0 <= i < last && Settles(Run(s, calls[..last][..i]), calls[..last][i], p);
      assert Settles(Run(s, calls[..i]), calls[i], p);
    }
  }

  /**
   * Over every run a payment is settled exactly when some call of the run settled it: on money that
   * was compared with the record, or by creating its order already paid.
   */
  lemma {:induction false} SettledIffBackedOrCreatedPaid(s: Store, calls: seq<Call>, p: nat)
    requires Opening(s)
    ensures IsSettled(Run(s, calls), p) <==> SettledBy(s, calls, p)
    decreases |calls|
  {
    if calls != [] {
      var last := |calls| - 1;
      var s1 := Run(s, calls[..last]);
      SettledIffBackedOrCreatedPaid(s, calls[..last], p);
      OpeningIsSound(s);
      RunKeeps(s, calls[..last]);
      StepSettlesIff(s1, calls[last], p);
      LastStep(s, calls);
      SettledByExtends(s, calls, p);
    }
  }

  lemma LastStep(s: Store, calls: seq<Call>)
    requires calls != []
    ensures var last := |calls| - 1; Run(s, calls) == Step(Run(s, calls[..last]), calls[last])
  {
    var last := |calls| - 1;
    RunSplit(s, calls[..last], [calls[last]]);
    assert calls == calls[..last] + [calls[last]];
    assert Run(Run(s, calls[..last]), [calls[last]]) == Step(Run(s, calls[..last]), calls[last]);
  }
}
