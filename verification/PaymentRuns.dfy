/**
 * What every run of payment calls keeps: one live payment per booking, refunds that never exceed
 * the payment, statuses that only move forward, and one notification per outcome.
 */
module PaymentRuns {
  import opened Common
  import opened Cashfree
  import opened Payments

  // ---------------------------------------------------------------------------------------------
  // The invariant

  predicate Live(s: PaymentStatus) { InFlight(s) || Settled(s) }

  ghost predicate OneLivePerBooking(s: Store) {
    forall p, q | 0 <= p < q < |s.payments| && s.payments[p].booking == s.payments[q].booking ::
      !(Live(s.payments[p].status) && Live(s.payments[q].status))
  }

  ghost predicate BookingsExist(s: Store) {
    forall p | 0 <= p < |s.payments| :: s.payments[p].booking in s.bookings
  }

  ghost predicate RefundsBelongToSettledPayments(s: Store) {
    forall r | 0 <= r < |s.refunds| ::
      && s.refunds[r].payment < |s.payments|
      && Settled(s.payments[s.refunds[r].payment].status)
      && s.refunds[r].amount > 0
  }

  ghost predicate WithinBalance(s: Store) {
    forall p | 0 <= p < |s.payments| :: Committed(s, p) <= s.payments[p].amount
  }

  /** The status of a settled payment says exactly how much of it has been given back. */
  ghost predicate StatusTellsRefunds(s: Store, p: nat)
    requires p < |s.payments|
  {
    Settled(s.payments[p].status) ==>
      s.payments[p].status == RefundedStatus(RefundedSum(s, p), s.payments[p].amount)
  }

  ghost predicate NoticeHolds(s: Store, n: Notice) {
    && n.payment < |s.payments|
    && n.booking == s.payments[n.payment].booking
    && n.booking in s.bookings && n.user == s.bookings[n.booking].booker
    && (n.kind == PaymentSucceeded ==> Settled(s.payments[n.payment].status))
    && (n.kind == PaymentUnsuccessful ==> s.payments[n.payment].status == Failed)
    && (n.kind == RefundProcessed ==> s.payments[n.payment].status in {PartiallyRefunded, Refunded})
  }

  predicate SameTopic(a: Notice, b: Notice) {
    a.payment == b.payment && (a.kind == RefundProcessed <==> b.kind == RefundProcessed)
  }

  ghost predicate NoticesSound(s: Store) {
    && (forall i | 0 <= i < |s.notices| :: NoticeHolds(s, s.notices[i]))
    && (forall i, j | 0 <= i < j < |s.notices| :: !SameTopic(s.notices[i], s.notices[j]))
  }

  /** Everything but the derived status, which a refund write leaves to the recomputation after it. */
  ghost predicate Sound(s: Store) {
    && BookingsExist(s)
    && OneLivePerBooking(s)
    && RefundsBelongToSettledPayments(s)
    && WithinBalance(s)
    && NoticesSound(s)
  }

  ghost predicate Inv(s: Store) {
    Sound(s) && forall p | 0 <= p < |s.payments| :: StatusTellsRefunds(s, p)
  }

  // ---------------------------------------------------------------------------------------------
  // The two-state guarantee

  predicate StatusReaches(a: PaymentStatus, b: PaymentStatus) {
    || a == b
    || a == Created
    || (a == Pending && b != Created)
    || (a == Success && Settled(b))
    || (a == PartiallyRefunded && b == Refunded)
  }

  predicate RefundReaches(a: RefundStatus, b: RefundStatus) {
    a == b || a == RefundPending
  }

  ghost predicate PaymentsEvolve(a: Store, b: Store) {
    && |a.payments| <= |b.payments|
    && forall p | 0 <= p < |a.payments| ::
         && b.payments[p].booking == a.payments[p].booking
         && b.payments[p].amount == a.payments[p].amount
         && b.payments[p].currency == a.payments[p].currency
         && StatusReaches(a.payments[p].status, b.payments[p].status)
  }

  ghost predicate RefundsEvolve(a: Store, b: Store) {
    && |a.refunds| <= |b.refunds|
    && forall r | 0 <= r < |a.refunds| ::
         && b.refunds[r].payment == a.refunds[r].payment
         && b.refunds[r].amount == a.refunds[r].amount
         && RefundReaches(a.refunds[r].status, b.refunds[r].status)
  }

  /** Statuses only move forward, money columns never change, the ledger and the notices only grow. */
  ghost predicate Evolves(a: Store, b: Store) {
    && PaymentsEvolve(a, b)
    && RefundsEvolve(a, b)
    && (forall body | body in a.ledger :: body in b.ledger && b.ledger[body] == a.ledger[body])
    && a.notices <= b.notices
    && (forall k | k in a.bookings :: k in b.bookings && b.bookings[k].booker == a.bookings[k].booker)
  }

  lemma EvolvesReflexive(s: Store)
    ensures Evolves(s, s)
  {
  }

  lemma EvolvesTransitive(a: Store, b: Store, c: Store)
    requires Evolves(a, b) && Evolves(b, c)
    ensures Evolves(a, c)
  {
  }

  // ---------------------------------------------------------------------------------------------
  // Sums over the refund table

  lemma {:induction false} TotalUpdate(refunds: seq<Refund>, r: nat, row: Refund, p: nat, counted: set<RefundStatus>)
    requires r < |refunds|
    ensures Total(refunds[r := row], p, counted) ==
            Total(refunds, p, counted) - Share(refunds[r], p, counted) + Share(row, p, counted)
  {
    var last := |refunds| - 1;
    if r == last {
      assert refunds[r := row][..last] == refunds[..last];
    } else {
      assert refunds[r := row][..last] == refunds[..last][r := row];
      TotalUpdate(refunds[..last], r, row, p, counted);
    }
  }

  function Share(row: Refund, p: nat, counted: set<RefundStatus>): int {
    if row.payment == p && row.status in counted then row.amount else 0
  }

  lemma TotalAppend(refunds: seq<Refund>, row: Refund, p: nat, counted: set<RefundStatus>)
    ensures Total(refunds + [row], p, counted) == Total(refunds, p, counted) + Share(row, p, counted)
  {
    assert (refunds + [row])[..|refunds|] == refunds;
  }

  lemma {:induction false} TotalBounds(refunds: seq<Refund>, p: nat)
    requires forall r | 0 <= r < |refunds| :: refunds[r].amount > 0
    ensures 0 <= Total(refunds, p, {RefundSuccess}) <= Total(refunds, p, COMMITTED)
    ensures (forall r | 0 <= r < |refunds| :: refunds[r].payment != p) ==> Total(refunds, p, COMMITTED) == 0
  {
    if refunds != [] {
      TotalBounds(refunds[..|refunds| - 1], p);
    }
  }

  // ---------------------------------------------------------------------------------------------
  // Small steps

  lemma AtMostOneRow(s: Store, booking: string)
    requires OneLivePerBooking(s)
    ensures !InFlightOf(s, booking).TooManyRows? && !SettledOf(s, booking).TooManyRows?
    ensures InFlightOf(s, booking).NoRow? && SettledOf(s, booking).NoRow? ==>
      forall p | 0 <= p < |s.payments| && s.payments[p].booking == booking :: !Live(s.payments[p].status)
    ensures InFlightOf(s, booking).OneRow? ==> SettledOf(s, booking).NoRow?
  {
    SingleFinds(s.payments, booking, IN_FLIGHT);
    SingleFinds(s.payments, booking, SETTLED);
    var flying, settled := InFlightOf(s, booking), SettledOf(s, booking);
    forall p: nat | p < |s.payments| && s.payments[p].booking == booking && Live(s.payments[p].status)
      ensures flying.OneRow? || settled.OneRow?
    {
      assert IsPaymentOf(s.payments, booking, IN_FLIGHT, p) || IsPaymentOf(s.payments, booking, SETTLED, p);
    }
  }

  lemma NotifyKeeps(s: Store, kind: NoticeKind, p: nat)
    requires Sound(s) && p < |s.payments|
    requires forall i | 0 <= i < |s.notices| :: !SameTopic(s.notices[i], Notice(kind, "", "", p))
    requires kind == PaymentSucceeded ==> Settled(s.payments[p].status)
    requires kind == PaymentUnsuccessful ==> s.payments[p].status == Failed
    requires kind == RefundProcessed ==> s.payments[p].status in {PartiallyRefunded, Refunded}
    ensures Sound(Notify(s, kind, p)) && Evolves(s, Notify(s, kind, p))
  {
    var s' := Notify(s, kind, p);
    assert forall q :: Committed(s', q) == Committed(s, q);
  }

  /** Rewriting a payment's status forward keeps everything that is not about its refunds. */
  lemma WithPaymentKeeps(s: Store, p: nat, row: Payment)
    requires Sound(s) && p < |s.payments|
    requires row.booking == s.payments[p].booking && row.amount == s.payments[p].amount
    requires row.currency == s.payments[p].currency
    requires StatusReaches(s.payments[p].status, row.status)
    ensures Sound(WithPayment(s, p, row)) && Evolves(s, WithPayment(s, p, row))
  {
    var s' := WithPayment(s, p, row);
    assert forall q :: Committed(s', q) == Committed(s, q);
    assert Live(row.status) ==> Live(s.payments[p].status);
  }

  lemma ApplyStatusStaysSound(s: Store, p: nat, incoming: OrderStatus, reference: Option<string>,
                              reason: Option<FailureReason>, reported: Reported)
    requires Sound(s) && p < |s.payments|
    ensures var s' := ApplyStatus(s, p, incoming, reference, reason, reported); Sound(s') && Evolves(s, s')
  {
    var row := Updated(s.payments[p], incoming, reference, reason, reported);
    var s1 := WithPayment(s, p, row);
    WithPaymentKeeps(s, p, row);
    if row.status != s.payments[p].status && row.status in {Success, Failed} {
      var kind := if row.status == Success then PaymentSucceeded else PaymentUnsuccessful;
      assert forall i | 0 <= i < |s.notices| :: NoticeHolds(s, s.notices[i]);
      NotifyKeeps(s1, kind, p);
      EvolvesTransitive(s, s1, Notify(s1, kind, p));
    }
  }

  lemma ApplyStatusKeeps(s: Store, p: nat, incoming: OrderStatus, reference: Option<string>,
                         reason: Option<FailureReason>, reported: Reported)
    requires Inv(s) && p < |s.payments|
    ensures var s' := ApplyStatus(s, p, incoming, reference, reason, reported); Inv(s') && Evolves(s, s')
  {
    ApplyStatusStaysSound(s, p, incoming, reference, reason, reported);
    forall q | 0 <= q < |s.payments|
      ensures StatusTellsRefunds(ApplyStatus(s, p, incoming, reference, reason, reported), q)
    {
      assert StatusTellsRefunds(s, q);
      ApplyStatusTellsRefunds(s, p, incoming, reference, reason, reported, q);
    }
  }

  lemma ApplyStatusTellsRefunds(s: Store, p: nat, incoming: OrderStatus, reference: Option<string>,
                                reason: Option<FailureReason>, reported: Reported, q: nat)
    requires RefundsBelongToSettledPayments(s) && p < |s.payments| && q < |s.payments| && StatusTellsRefunds(s, q)
    ensures var s' := ApplyStatus(s, p, incoming, reference, reason, reported);
      |s'.payments| == |s.payments| && StatusTellsRefunds(s', q)
  {
    if q == p && InFlight(s.payments[p].status) {
      TotalBounds(s.refunds, p);
    }
  }

  lemma RecomputeKeeps(s: Store, p: nat, earlier: int)
    requires Sound(s) && p < |s.payments|
    requires forall q | 0 <= q < |s.payments| && q != p :: StatusTellsRefunds(s, q)
    requires earlier <= RefundedSum(s, p)
    requires Settled(s.payments[p].status) ==> s.payments[p].status == RefundedStatus(earlier, s.payments[p].amount)
    ensures Inv(Recompute(s, p)) && Evolves(s, Recompute(s, p))
  {
    var s' := Recompute(s, p);
    assert forall q :: RefundedSum(s', q) == RefundedSum(s, q);
    if s' != s {
      var row := s.payments[p];
      var status := RefundedStatus(RefundedSum(s, p), row.amount);
      var s1 := WithPayment(s, p, row.(status := status));
      WithPaymentKeeps(s, p, row.(status := status));
      if row.status == Success {
        assert forall i | 0 <= i < |s.notices| :: NoticeHolds(s, s.notices[i]);
        NotifyKeeps(s1, RefundProcessed, p);
        EvolvesTransitive(s, s1, s');
      }
      forall q | 0 <= q < |s'.payments| ensures StatusTellsRefunds(s', q) {
        if q != p { assert StatusTellsRefunds(s, q); }
      }
    }
  }

  /** Moving a refund forward, with room for what it then commits, keeps the store sound. */
  lemma WithRefundKeeps(s: Store, r: nat, row: Refund)
    requires Sound(s) && r < |s.refunds|
    requires row.payment == s.refunds[r].payment && row.amount == s.refunds[r].amount
    requires s.refunds[r].status == RefundPending || row.status == s.refunds[r].status
    ensures var s' := WithRefund(s, r, row);
      && Sound(s') && Evolves(s, s')
      && (forall q | q != row.payment :: RefundedSum(s', q) == RefundedSum(s, q))
      && RefundedSum(s', row.payment) >= RefundedSum(s, row.payment)
  {
    var s' := WithRefund(s, r, row);
    forall q: nat ensures Committed(s', q) <= Committed(s, q) {
      TotalUpdate(s.refunds, r, row, q, COMMITTED);
    }
    forall q: nat
      ensures RefundedSum(s', q) >= RefundedSum(s, q) && (q != row.payment ==> RefundedSum(s', q) == RefundedSum(s, q))
    {
      TotalUpdate(s.refunds, r, row, q, {RefundSuccess});
    }
  }

  // ---------------------------------------------------------------------------------------------
  // Calls

  lemma OpenUnlessSettledKeeps(s: Store, booking: string, created: Option<CreatedOrder>)
    requires Inv(s) && booking in s.bookings && InFlightOf(s, booking).NoRow?
    ensures var s' := OpenUnlessSettled(s, booking, created).0; Inv(s') && Evolves(s, s')
  {
    AtMostOneRow(s, booking);
    if SettledOf(s, booking).NoRow? {
      NewRowKeeps(s, OpenPayment(s, booking, created).0);
    } else {
      EvolvesReflexive(s);
    }
  }

  /** A row added for a booking with nothing live keeps the invariant, whatever its status. */
  lemma NewRowKeeps(s: Store, s': Store)
    requires Inv(s) && |s'.payments| == |s.payments| + 1
    requires s' == s.(payments := s.payments + [s'.payments[|s.payments|]])
    requires var row := s'.payments[|s.payments|];
      && row.booking in s.bookings && row.status !in {PartiallyRefunded, Refunded}
      && forall p | 0 <= p < |s.payments| && s.payments[p].booking == row.booking :: !Live(s.payments[p].status)
    ensures Inv(s') && Evolves(s, s')
  {
    var p := |s.payments|;
    TotalBounds(s.refunds, p);
    forall q | 0 <= q < |s'.payments| ensures StatusTellsRefunds(s', q) && Committed(s', q) <= s'.payments[q].amount {
      assert Committed(s', q) == Committed(s, q) && RefundedSum(s', q) == RefundedSum(s, q);
      if q != p { assert StatusTellsRefunds(s, q); }
    }
    forall i | 0 <= i < |s'.notices| ensures NoticeHolds(s', s'.notices[i]) {
      assert NoticeHolds(s, s.notices[i]);
    }
  }

  /** Rewriting an in-flight row that stays in flight. */
  lemma StillInFlightKeeps(s: Store, p: nat, row: Payment)
    requires Inv(s) && p < |s.payments| && InFlight(s.payments[p].status)
    requires row == s.payments[p].(status := Pending, reference := row.reference)
    ensures Inv(WithPayment(s, p, row)) && Evolves(s, WithPayment(s, p, row))
  {
    WithPaymentKeeps(s, p, row);
    var s' := WithPayment(s, p, row);
    forall q | 0 <= q < |s'.payments| ensures StatusTellsRefunds(s', q) {
      assert StatusTellsRefunds(s, q);
    }
  }

  lemma ResumeKeeps(s: Store, p: nat, read: Option<OrderRead>)
    requires Inv(s) && p < |s.payments| && InFlight(s.payments[p].status)
    ensures var s' := ResumeInFlight(s, p, read).0; Inv(s') && Evolves(s, s')
  {
    if read.Some? {
      var order := read.value;
      var outcome := EffectiveOutcome(order, s.payments[p]);
      if outcome.status == Success {
        ApplyStatusKeeps(s, p, Success, order.reference, None, outcome.reported);
      } else if outcome.status == Pending {
        var reference := if order.reference.Some? then order.reference else s.payments[p].reference;
        StillInFlightKeeps(s, p, s.payments[p].(status := Pending, reference := reference));
      } else {
        ApplyStatusKeeps(s, p, outcome.status, order.reference, Some(NoLongerCompletable), outcome.reported);
      }
    }
  }

  /** A resume rewrites one row, and gives up only on a row it has just closed. */
  lemma ResumeTouchesOneRow(s: Store, p: nat, read: Option<OrderRead>)
    requires p < |s.payments| && InFlight(s.payments[p].status)
    ensures var (s', resumed) := ResumeInFlight(s, p, read);
      && s'.bookings == s.bookings && |s'.payments| == |s.payments|
      && (forall q | 0 <= q < |s.payments| && q != p :: s'.payments[q] == s.payments[q])
      && (resumed.Dead? ==> s'.payments[p].status in {Failed, Cancelled})
  {
  }

  lemma NothingInFlightAfterDeath(s: Store, booking: string, p: nat, read: Option<OrderRead>)
    requires OneLivePerBooking(s) && InFlightOf(s, booking) == OneRow(p)
    requires p < |s.payments| && InFlight(s.payments[p].status)
    requires ResumeInFlight(s, p, read).1.Dead?
    ensures InFlightOf(ResumeInFlight(s, p, read).0, booking).NoRow?
  {
    ResumeTouchesOneRow(s, p, read);
    var s1 := ResumeInFlight(s, p, read).0;
    SingleFinds(s.payments, booking, IN_FLIGHT);
    SingleFinds(s1.payments, booking, IN_FLIGHT);
    assert IsPaymentOf(s.payments, booking, IN_FLIGHT, p);
    forall q: nat ensures !IsPaymentOf(s1.payments, booking, IN_FLIGHT, q) {
      assert q != p && IsPaymentOf(s1.payments, booking, IN_FLIGHT, q) ==>
        IsPaymentOf(s.payments, booking, IN_FLIGHT, q);
    }
  }

  lemma ResumeOrOpenKeeps(s: Store, booking: string, read: Option<OrderRead>, created: Option<CreatedOrder>)
    requires Inv(s) && booking in s.bookings
    ensures var s' := ResumeOrOpen(s, booking, read, created).0; Inv(s') && Evolves(s, s')
  {
    match InFlightOf(s, booking)
    case TooManyRows => EvolvesReflexive(s);
    case NoRow => OpenUnlessSettledKeeps(s, booking, created);
    case OneRow(p) =>
      SingleFinds(s.payments, booking, IN_FLIGHT);
      ResumeThenOpenKeeps(s, booking, p, read, created);
  }

  lemma CreatePaymentKeeps(s: Store, caller: string, booking: string,
                           read: Option<OrderRead>, created: Option<CreatedOrder>)
    requires Inv(s)
    ensures var s' := CreatePayment(s, caller, booking, read, created).0; Inv(s') && Evolves(s, s')
  {
    EvolvesReflexive(s);
    if booking in s.bookings {
      ResumeOrOpenKeeps(s, booking, read, created);
    }
  }

  lemma ResumeThenOpenKeeps(s: Store, booking: string, p: nat, read: Option<OrderRead>, created: Option<CreatedOrder>)
    requires Inv(s) && booking in s.bookings && InFlightOf(s, booking) == OneRow(p)
    requires p < |s.payments| && InFlight(s.payments[p].status)
    ensures var (s1, resumed) := ResumeInFlight(s, p, read);
      && Inv(s1) && Evolves(s, s1) && booking in s1.bookings
      && (resumed.Dead? ==> var s' := OpenUnlessSettled(s1, booking, created).0; Inv(s') && Evolves(s, s'))
  {
    ResumeKeeps(s, p, read);
    var (s1, resumed) := ResumeInFlight(s, p, read);
    ResumeTouchesOneRow(s, p, read);
    if resumed.Dead? {
      NothingInFlightAfterDeath(s, booking, p, read);
      OpenUnlessSettledKeeps(s1, booking, created);
      EvolvesTransitive(s, s1, OpenUnlessSettled(s1, booking, created).0);
    }
  }

  lemma NewRefundCommits(s: Store, p: nat, amount: int, q: nat)
    requires p < |s.payments|
    ensures var s' := s.(refunds := s.refunds + [Refund(p, RefundPending, amount, None)]);
      && Committed(s', q) == Committed(s, q) + (if q == p then amount else 0)
      && RefundedSum(s', q) == RefundedSum(s, q)
  {
    var row := Refund(p, RefundPending, amount, None);
    TotalAppend(s.refunds, row, q, COMMITTED);
    TotalAppend(s.refunds, row, q, {RefundSuccess});
  }

  lemma NewRefundLeavesTheRest(s: Store, p: nat, amount: int)
    requires Sound(s) && p < |s.payments| && Settled(s.payments[p].status) && amount > 0
    ensures var s' := s.(refunds := s.refunds + [Refund(p, RefundPending, amount, None)]);
      && BookingsExist(s') && OneLivePerBooking(s') && RefundsBelongToSettledPayments(s')
      && NoticesSound(s') && Evolves(s, s')
  {
    var s' := s.(refunds := s.refunds + [Refund(p, RefundPending, amount, None)]);
    forall i | 0 <= i < |s'.notices| ensures NoticeHolds(s', s'.notices[i]) { assert NoticeHolds(s, s.notices[i]); }
  }

  lemma NewRefundKeeps(s: Store, p: nat, amount: int)
    requires Sound(s) && p < |s.payments| && Settled(s.payments[p].status)
    requires 0 < amount <= s.payments[p].amount - Committed(s, p)
    ensures var s' := s.(refunds := s.refunds + [Refund(p, RefundPending, amount, None)]);
      Sound(s') && Evolves(s, s') && forall q :: RefundedSum(s', q) == RefundedSum(s, q)
  {
    var s' := s.(refunds := s.refunds + [Refund(p, RefundPending, amount, None)]);
    NewRefundLeavesTheRest(s, p, amount);
    forall q | 0 <= q < |s'.payments| ensures Committed(s', q) <= s'.payments[q].amount {
      NewRefundCommits(s, p, amount, q);
      assert Committed(s, q) <= s.payments[q].amount;
    }
    forall q: nat ensures RefundedSum(s', q) == RefundedSum(s, q) {
      NewRefundCommits(s, p, amount, q);
    }
  }

  /** What follows a refund insert: the provider's answer is written, and the payment recomputed. */
  lemma RefundAnswerKeeps(s: Store, r: nat, row: Refund, recompute: bool)
    requires Inv(s) && r < |s.refunds| && s.refunds[r].status == RefundPending
    requires row.payment == s.refunds[r].payment && row.amount == s.refunds[r].amount
    requires row.status == RefundSuccess ==> recompute
    ensures var s1 := WithRefund(s, r, row);
      && row.payment < |s1.payments|
      && var s' := if recompute then Recompute(s1, row.payment) else s1;
      Inv(s') && Evolves(s, s')
  {
    var p := row.payment;
    var s1 := WithRefund(s, r, row);
    WithRefundKeeps(s, r, row);
    assert StatusTellsRefunds(s, p);
    forall q | 0 <= q < |s1.payments| && q != p ensures StatusTellsRefunds(s1, q) { assert StatusTellsRefunds(s, q); }
    if recompute {
      RecomputeKeeps(s1, p, RefundedSum(s, p));
      EvolvesTransitive(s, s1, Recompute(s1, p));
    } else {
      TotalUpdate(s.refunds, r, row, p, {RefundSuccess});
    }
  }

  lemma SendRefundKeeps(s: Store, p: nat, amount: int, reply: Option<RefundReply>)
    requires Inv(s) && p < |s.payments| && Settled(s.payments[p].status)
    requires 0 < amount <= s.payments[p].amount - Committed(s, p)
    ensures var s' := SendRefund(s, p, amount, reply).0; Inv(s') && Evolves(s, s')
  {
    var s' := SendRefund(s, p, amount, reply).0;
    var r := |s.refunds|;
    var row := Refund(p, RefundPending, amount, None);
    var s1 := s.(refunds := s.refunds + [row]);
    NewRefundKeeps(s, p, amount);
    forall q | 0 <= q < |s1.payments| ensures StatusTellsRefunds(s1, q) { assert StatusTellsRefunds(s, q); }
    var row' := if reply.None? then row.(status := RefundFailed)
                else row.(status := reply.value.status, reference := reply.value.reference);
    RefundAnswerKeeps(s1, r, row', reply.Some?);
    EvolvesTransitive(s, s1, s');
  }

  lemma CreateRefundKeeps(s: Store, isAdmin: bool, p: nat, amount: Option<int>, reply: Option<RefundReply>)
    requires Inv(s)
    ensures var s' := CreateRefund(s, isAdmin, p, amount, reply).0; Inv(s') && Evolves(s, s')
  {
    var s' := CreateRefund(s, isAdmin, p, amount, reply).0;
    if s' == s {
      EvolvesReflexive(s);
    } else {
      var requested := amount.GetOr(s.payments[p].amount - Committed(s, p));
      assert s' == SendRefund(s, p, requested, reply).0;
      SendRefundKeeps(s, p, requested, reply);
    }
  }

  lemma ApplyRefundEventKeeps(s: Store, event: Event)
    requires Inv(s)
    ensures var s' := ApplyRefundEvent(s, event).0; Inv(s') && Evolves(s, s') && s'.ledger == s.ledger
  {
    if event.refund.Some? && event.refund.value < |s.refunds| {
      var r := event.refund.value;
      var row := s.refunds[r].(status := RefundAfter(s.refunds[r].status, event.kind));
      if s.refunds[r].status == RefundPending {
        RefundAnswerKeeps(s, r, row, true);
      } else {
        assert s.refunds[r := row] == s.refunds;
        assert StatusTellsRefunds(s, row.payment);
        RecomputeKeeps(s, row.payment, RefundedSum(s, row.payment));
      }
    }
  }

  lemma ApplyPaymentEventKeeps(s: Store, e: Event)
    requires Inv(s)
    ensures var s' := ApplyPaymentEvent(s, e).0; Inv(s') && Evolves(s, s') && s'.ledger == s.ledger
  {
    if e.order < |s.payments| {
      var incoming: OrderStatus := if e.kind == PaymentSuccess then Success else Failed;
      var reason := if incoming == Failed then Some(FailedOrNotCompleted) else None;
      ApplyStatusKeeps(s, e.order, incoming, e.reference, reason, Reported(e.amount, e.currency));
    }
  }

  lemma ApplyEventKeeps(s: Store, event: Option<Event>)
    requires Inv(s)
    ensures var s' := ApplyEvent(s, event).0; Inv(s') && Evolves(s, s') && s'.ledger == s.ledger
  {
    if event.Some? {
      ApplyRefundEventKeeps(s, event.value);
      ApplyPaymentEventKeeps(s, event.value);
    }
  }

  lemma HandleWebhookKeeps(s: Store, body: Payload)
    requires Inv(s)
    ensures Inv(HandleWebhook(s, body)) && Evolves(s, HandleWebhook(s, body))
  {
    if body !in s.ledger {
      ApplyEventKeeps(s, ParseWebhook(body));
      LedgerIsSeparate(ApplyEvent(s, ParseWebhook(body)).0, HandleWebhook(s, body));
    }
  }

  lemma LedgerIsSeparate(a: Store, b: Store)
    requires Inv(a) && b == a.(ledger := b.ledger)
    ensures Inv(b)
  {
    forall p | 0 <= p < |b.payments| ensures StatusTellsRefunds(b, p) && Committed(b, p) <= b.payments[p].amount {
      assert StatusTellsRefunds(a, p) && Committed(a, p) == Committed(b, p);
    }
    forall i | 0 <= i < |b.notices| ensures NoticeHolds(b, b.notices[i]) { assert NoticeHolds(a, a.notices[i]); }
  }

  lemma BookingMoveKeeps(s: Store, booking: string, status: BookingStatus)
    requires Inv(s)
    ensures var s' := Step(s, BookingMoves(booking, status)); Inv(s') && Evolves(s, s')
  {
    var s' := Step(s, BookingMoves(booking, status));
    forall p | 0 <= p < |s'.payments| ensures StatusTellsRefunds(s', p) && Committed(s', p) <= s'.payments[p].amount {
      assert StatusTellsRefunds(s, p) && Committed(s, p) == Committed(s', p);
    }
    forall i | 0 <= i < |s'.notices| ensures NoticeHolds(s', s'.notices[i]) { assert NoticeHolds(s, s.notices[i]); }
  }

  lemma StepKeeps(s: Store, call: Call)
    requires Inv(s)
    ensures Inv(Step(s, call)) && Evolves(s, Step(s, call))
  {
    match call
    case Pay(caller, booking, read, created) => CreatePaymentKeeps(s, caller, booking, read, created);
    case Verify(p, read) =>
      if p < |s.payments| && read.Some? && !Terminal(s.payments[p].status) {
        var outcome := EffectiveOutcome(read.value, s.payments[p]);
        ApplyStatusKeeps(s, p, outcome.status, read.value.reference, None, outcome.reported);
      }
    case IssueRefund(isAdmin, p, amount, reply) => CreateRefundKeeps(s, isAdmin, p, amount, reply);
    case Webhook(body) => HandleWebhookKeeps(s, body);
    case BookingMoves(booking, status) => BookingMoveKeeps(s, booking, status);
  }

  // ---------------------------------------------------------------------------------------------
  // Over every run

  /** Bookings exist; nothing has been paid, refunded, delivered or announced yet. */
  ghost predicate Opening(s: Store) {
    s.payments == [] && s.refunds == [] && s.ledger == map[] && s.notices == []
  }

  lemma {:induction false} RunKeeps(s: Store, calls: seq<Call>)
    requires Inv(s)
    ensures Inv(Run(s, calls)) && Evolves(s, Run(s, calls))
    decreases |calls|
  {
    if calls != [] {
      var s1 := Step(s, calls[0]);
      StepKeeps(s, calls[0]);
      RunKeeps(s1, calls[1..]);
      EvolvesTransitive(s, s1, Run(s1, calls[1..]));
    }
  }

  lemma {:induction false} RunSplit(s: Store, a: seq<Call>, b: seq<Call>)
    ensures Run(s, a + b) == Run(Run(s, a), b)
    decreases |a|
  {
    if a == [] {
      assert a + b == b;
    } else {
      assert (a + b)[0] == a[0] && (a + b)[1..] == a[1..] + b;
      RunSplit(Step(s, a[0]), a[1..], b);
    }
  }
}
