/**
 * The payment engine next to the provider's own orders. The service promises that a booking never
 * accumulates two live orders and a payer is never charged twice
 * (src/modules/payments/payment.service.ts:234-236). That follows when every payment row recorded
 * as closed has a dead order; this module says exactly which calls break that, and shows the
 * second charge that follows.
 */
module ProviderOrders {
  import opened Common
  import opened Cashfree
  import opened Payments
  import opened PaymentRuns
  import opened PaymentGuarantees
  import opened PaymentEffects
  import opened PaymentOutcomes
  import opened ProviderTexts

  /** `Terminating` is an order whose termination was requested but can still be refused. */
  datatype OrderState = Open | Terminating | Paid | Expired | Terminated

  /** Money has been taken, or still can be. */
  predicate Collectible(o: OrderState) { o == Open || o == Terminating || o == Paid }

  function StatusText(o: OrderState): string {
    match o
    case Open => "ACTIVE"
    case Terminating => "TERMINATION_REQUESTED"
    case Paid => "PAID"
    case Expired => "EXPIRED"
    case Terminated => "TERMINATED"
  }

  function Reading(o: OrderState): OrderStatus {
    MapOrderStatus(StatusText(o))
  }

  datatype World = World(store: Store, orders: map<nat, OrderState>)

  /** How the provider answered createOrder; `Unanswered` created the order but its reply was lost. */
  datatype Creation = Accepted(reference: Option<string>) | Unanswered | Declined

  /** What the provider does with the request to terminate a dropped order. */
  datatype Termination = Refuses | Promises | Terminates

  datatype Move =
    | ProviderMoves(order: nat, next: OrderState)
    | Deliver(body: Payload, termination: Termination)
    | VerifyNow(payment: nat, read: Option<OrderRead>)
    | PayNow(caller: string, booking: string, read: Option<OrderRead>, creation: Creation)
    | RefundNow(isAdmin: bool, payment: nat, amount: Option<int>, reply: Option<RefundReply>)
    | BookingTurns(booking: string, status: BookingStatus)

  // ---------------------------------------------------------------------------------------------
  // Moves

  predicate TruthfulRead(w: World, p: nat, read: Option<OrderRead>) {
    read.Some? ==> p in w.orders && read.value.status == Reading(w.orders[p])
  }

  predicate Drops(s: Store, body: Payload) {
    Target(s, body).Some? && ParseWebhook(body).value.kind == PaymentUserDropped
  }

  /** The order that a delivery asks the provider to terminate. */
  function Dropped(s: Store, body: Payload): Option<nat> {
    if Drops(s, body) then Target(s, body) else None
  }

  ghost predicate Legal(w: World, m: Move) {
    match m
    case ProviderMoves(p, next) => p in w.orders && w.orders[p] in {Open, Terminating} && next != w.orders[p]
    case Deliver(body, termination) =>
      Dropped(w.store, body).Some? && !termination.Refuses? ==>
        Dropped(w.store, body).value in w.orders && w.orders[Dropped(w.store, body).value] in {Open, Terminating}
    case VerifyNow(p, read) => TruthfulRead(w, p, read)
    case PayNow(_, booking, read, _) =>
      InFlightOf(w.store, booking).OneRow? ==> TruthfulRead(w, InFlightOf(w.store, booking).id, read)
    case _ => true
  }

  /** A termination is asked for exactly on a first user-dropped delivery about a payment in flight. */
  lemma DroppedIff(s: Store, body: Payload, p: nat)
    ensures Dropped(s, body) == Some(p) <==>
      && body !in s.ledger && body.kind == "PAYMENT_USER_DROPPED_WEBHOOK" && body.order == Some(p)
      && p < |s.payments| && InFlight(s.payments[p].status)
  {
    if SpeaksOfPayment(body) && body.order.Some? { PaymentTextParses(body, body.order.value); }
    TextsThatParse(body);
  }

  function CreationReply(c: Creation): Option<CreatedOrder> {
    if c.Accepted? then Some(CreatedOrder(Pending, c.reference)) else None
  }

  /** Whether a Pay call reaches createOrder. */
  predicate ReachesProvider(s: Store, caller: string, booking: string, read: Option<OrderRead>) {
    && MayPay(s, caller, booking)
    && match InFlightOf(s, booking)
       case TooManyRows => false
       case NoRow => SettledOf(s, booking).NoRow?
       case OneRow(p) =>
         p < |s.payments| && read.Some? && EffectiveOutcome(read.value, s.payments[p]).status in {Failed, Cancelled}
  }

  /** The service call that a move makes, if it makes one. */
  function CallOf(m: Move): Option<Call> {
    match m
    case ProviderMoves(_, _) => None
    case Deliver(body, _) => Some(Webhook(body))
    case VerifyNow(p, read) => Some(Verify(p, read))
    case PayNow(caller, booking, read, creation) => Some(Pay(caller, booking, read, CreationReply(creation)))
    case RefundNow(isAdmin, p, amount, reply) => Some(IssueRefund(isAdmin, p, amount, reply))
    case BookingTurns(booking, status) => Some(BookingMoves(booking, status))
  }

  function OrdersAfter(w: World, m: Move): map<nat, OrderState> {
    match m
    case ProviderMoves(p, next) => w.orders[p := next]
    case Deliver(body, termination) =>
      if Dropped(w.store, body).None? || termination.Refuses? then w.orders
      else w.orders[Dropped(w.store, body).value := if termination.Promises? then Terminating else Terminated]
    case PayNow(caller, booking, read, creation) =>
      if ReachesProvider(w.store, caller, booking, read) && !creation.Declined?
      then w.orders[|w.store.payments| := Open]
      else w.orders
    case _ => w.orders
  }

  function Next(w: World, m: Move): World {
    World(if CallOf(m).Some? then Step(w.store, CallOf(m).value) else w.store, OrdersAfter(w, m))
  }

  // ---------------------------------------------------------------------------------------------
  // The property and the calls that break it

  ghost predicate DeadIfClosed(w: World, p: nat)
    requires p < |w.store.payments|
  {
    w.store.payments[p].status in {Failed, Cancelled} && p in w.orders ==> !Collectible(w.orders[p])
  }

  ghost predicate ClosedIsDead(w: World) {
    forall p | 0 <= p < |w.store.payments| :: DeadIfClosed(w, p)
  }

  /** A read that closes a row while its order can take, or has taken, money. */
  predicate ReadAbandons(w: World, p: nat, read: Option<OrderRead>) {
    && p < |w.store.payments| && InFlight(w.store.payments[p].status)
    && read.Some? && p in w.orders
    && (w.orders[p] == Terminating
        || (w.orders[p] == Paid && Mismatched(w.store.payments[p], Reported(read.value.amount, read.value.currency))))
  }

  /** An event that closes the row while its order can still take, or has taken, money. */
  predicate EventAbandons(w: World, body: Payload, termination: Termination) {
    && Target(w.store, body).Some?
    && var p := Target(w.store, body).value; var e := ParseWebhook(body).value;
    && p in w.orders && Collectible(w.orders[p])
    && (e.kind == PaymentSuccess ==> Mismatched(w.store.payments[p], Reported(e.amount, e.currency)))
    && (e.kind == PaymentUserDropped ==> !termination.Terminates?)
  }

  predicate PayAbandons(w: World, caller: string, booking: string, read: Option<OrderRead>, creation: Creation) {
    && MayPay(w.store, caller, booking)
    && ((InFlightOf(w.store, booking).OneRow? && ReadAbandons(w, InFlightOf(w.store, booking).id, read))
        || (ReachesProvider(w.store, caller, booking, read) && creation.Unanswered?))
  }

  predicate Abandons(w: World, m: Move) {
    match m
    case Deliver(body, termination) => EventAbandons(w, body, termination)
    case VerifyNow(p, read) => ReadAbandons(w, p, read)
    case PayNow(caller, booking, read, creation) => PayAbandons(w, caller, booking, read, creation)
    case _ => false
  }

  // ---------------------------------------------------------------------------------------------
  // Exactly which moves break it

  /** Only the row `p` has to be looked at. */
  lemma OneRowDecides(w: World, w': World, p: nat)
    requires ClosedIsDead(w) && p < |w.store.payments| == |w'.store.payments|
    requires forall q | 0 <= q < |w.store.payments| && q != p ::
               && (w'.store.payments[q].status == w.store.payments[q].status || Settled(w'.store.payments[q].status))
               && (q in w'.orders ==> q in w.orders && w'.orders[q] == w.orders[q])
    ensures ClosedIsDead(w') <==> DeadIfClosed(w', p)
  {
    forall q | 0 <= q < |w.store.payments| && q != p ensures DeadIfClosed(w', q) { assert DeadIfClosed(w, q); }
  }

  lemma DeliverCase(w: World, body: Payload, termination: Termination)
    requires ClosedIsDead(w) && Legal(w, Deliver(body, termination))
    ensures ClosedIsDead(Next(w, Deliver(body, termination))) <==> !EventAbandons(w, body, termination)
  {
    var s, w' := w.store, Next(w, Deliver(body, termination));
    WebhookTouchesTarget(s, body);
    if Target(s, body).Some? {
      var p := Target(s, body).value;
      OneRowDecides(w, w', p);
      TargetCase(w, body, termination);
    } else {
      forall q | 0 <= q < |s.payments| ensures DeadIfClosed(w', q) { assert DeadIfClosed(w, q); }
    }
  }

  lemma TargetCase(w: World, body: Payload, termination: Termination)
    requires Legal(w, Deliver(body, termination)) && Target(w.store, body).Some?
    ensures var w' := Next(w, Deliver(body, termination)); var p := Target(w.store, body).value;
      p < |w'.store.payments| && (DeadIfClosed(w', p) <==> !EventAbandons(w, body, termination))
  {
    WebhookTouchesTarget(w.store, body);
  }

  lemma AbandonedIffClosedAlive(w: World, p: nat, read: OrderRead)
    requires TruthfulRead(w, p, Some(read)) && p < |w.store.payments| && InFlight(w.store.payments[p].status)
    ensures StatusAfter(w.store.payments[p], read) in {Failed, Cancelled} && Collectible(w.orders[p])
      <==> ReadAbandons(w, p, Some(read))
  {
  }

  lemma VerifyCase(w: World, p: nat, read: Option<OrderRead>)
    requires ClosedIsDead(w) && TruthfulRead(w, p, read)
    ensures ClosedIsDead(Next(w, VerifyNow(p, read))) <==> !ReadAbandons(w, p, read)
  {
    var w' := Next(w, VerifyNow(p, read));
    if p < |w.store.payments| && read.Some? {
      VerifyRewritesOneRow(w.store, p, read.value);
      OneRowDecides(w, w', p);
      if InFlight(w.store.payments[p].status) {
        AbandonedIffClosedAlive(w, p, read.value);
      } else {
        assert DeadIfClosed(w, p);
      }
    }
  }

  lemma ResumeCase(w: World, p: nat, read: Option<OrderRead>)
    requires ClosedIsDead(w) && TruthfulRead(w, p, read)
    requires p < |w.store.payments| && InFlight(w.store.payments[p].status)
    ensures ClosedIsDead(w.(store := ResumeInFlight(w.store, p, read).0)) <==> !ReadAbandons(w, p, read)
  {
    var w' := w.(store := ResumeInFlight(w.store, p, read).0);
    ResumeTouchesOneRow(w.store, p, read);
    OneRowDecides(w, w', p);
    if read.Some? {
      AbandonedIffClosedAlive(w, p, read.value);
      ResumeLeavesStatus(w.store, p, read.value);
    }
  }

  lemma OpenCase(w: World, booking: string, creation: Creation)
    requires booking in w.store.bookings && |w.store.payments| !in w.orders
    ensures var p := |w.store.payments|;
      var orders := if creation.Declined? then w.orders else w.orders[p := Open];
      var w' := World(OpenPayment(w.store, booking, CreationReply(creation)).0, orders);
      ClosedIsDead(w') <==> ClosedIsDead(w) && !creation.Unanswered?
  {
    var p := |w.store.payments|;
    var orders := if creation.Declined? then w.orders else w.orders[p := Open];
    var w' := World(OpenPayment(w.store, booking, CreationReply(creation)).0, orders);
    forall q | 0 <= q < p ensures DeadIfClosed(w', q) <==> DeadIfClosed(w, q) {}
    assert DeadIfClosed(w', p) <==> !creation.Unanswered?;
  }

  lemma PayCase(w: World, booking: string, read: Option<OrderRead>, creation: Creation)
    requires OneLivePerBooking(w.store) && ClosedIsDead(w) && OrdersNumbered(w)
    requires booking in w.store.bookings && w.store.bookings[booking].status in {Requested, Confirmed}
    requires Legal(w, PayNow(w.store.bookings[booking].booker, booking, read, creation))
    ensures var m := PayNow(w.store.bookings[booking].booker, booking, read, creation);
      ClosedIsDead(Next(w, m)) <==> !Abandons(w, m)
  {
    var s := w.store;
    AtMostOneRow(s, booking);
    if InFlightOf(s, booking).OneRow? {
      ResumedPayCase(w, booking, InFlightOf(s, booking).id, read, creation);
    } else if SettledOf(s, booking).NoRow? {
      OpenCase(w, booking, creation);
    }
  }

  /** What a payment call does when one payment of the booking is in flight. */
  lemma ResumedPay(w: World, booking: string, p: nat, read: Option<OrderRead>, creation: Creation)
    requires OneLivePerBooking(w.store) && InFlightOf(w.store, booking) == OneRow(p)
    requires booking in w.store.bookings && w.store.bookings[booking].status in {Requested, Confirmed}
    ensures p < |w.store.payments| && InFlight(w.store.payments[p].status)
    ensures var m := PayNow(w.store.bookings[booking].booker, booking, read, creation);
      var (s1, resumed) := ResumeInFlight(w.store, p, read);
      && booking in s1.bookings && |s1.payments| == |w.store.payments|
      && (resumed.Answer? ==> Next(w, m) == w.(store := s1))
      && (resumed.Dead? ==>
            var orders := if creation.Declined? then w.orders else w.orders[|s1.payments| := Open];
            Next(w, m) == World(OpenPayment(s1, booking, CreationReply(creation)).0, orders))
      && (resumed.Dead? <==> ReachesProvider(w.store, w.store.bookings[booking].booker, booking, read))
  {
    SingleFinds(w.store.payments, booking, IN_FLIGHT);
    ResumeTouchesOneRow(w.store, p, read);
    if ResumeInFlight(w.store, p, read).1.Dead? {
      NothingSettledBesideInFlight(w.store, booking, p, read);
    }
  }

  lemma ResumedPayCase(w: World, booking: string, p: nat, read: Option<OrderRead>, creation: Creation)
    requires OneLivePerBooking(w.store) && ClosedIsDead(w) && OrdersNumbered(w)
    requires booking in w.store.bookings && w.store.bookings[booking].status in {Requested, Confirmed}
    requires InFlightOf(w.store, booking) == OneRow(p) && TruthfulRead(w, p, read)
    ensures var m := PayNow(w.store.bookings[booking].booker, booking, read, creation);
      ClosedIsDead(Next(w, m)) <==> !Abandons(w, m)
  {
    ResumedPay(w, booking, p, read, creation);
    ResumeCase(w, p, read);
    if ResumeInFlight(w.store, p, read).1.Dead? {
      OpenCase(w.(store := ResumeInFlight(w.store, p, read).0), booking, creation);
    }
  }

  /** A call leaves every closed row with a dead order exactly when it is none of the abandoning ones. */
  lemma ClosedIsDeadUnlessAbandoned(w: World, m: Move)
    requires OneLivePerBooking(w.store) && ClosedIsDead(w) && OrdersNumbered(w) && Legal(w, m)
    ensures ClosedIsDead(Next(w, m)) <==> !Abandons(w, m)
  {
    match m
    case ProviderMoves(p, next) =>
      var w' := Next(w, m);
      forall q | 0 <= q < |w.store.payments| ensures DeadIfClosed(w', q) { assert DeadIfClosed(w, q); }
    case Deliver(body, termination) => DeliverCase(w, body, termination);
    case VerifyNow(p, read) => VerifyCase(w, p, read);
    case PayNow(caller, booking, read, creation) =>
      if MayPay(w.store, caller, booking) {
        PayCase(w, booking, read, creation);
      } else {
        assert Next(w, m) == w;
      }
    case RefundNow(isAdmin, p, amount, reply) =>
      RefundCallClosesNothing(w.store, isAdmin, p, amount, reply);
      var w' := Next(w, m);
      forall q | 0 <= q < |w.store.payments| ensures DeadIfClosed(w', q) { assert DeadIfClosed(w, q); }
    case BookingTurns(booking, status) =>
      var w' := Next(w, m);
      forall q | 0 <= q < |w.store.payments| ensures DeadIfClosed(w', q) { assert DeadIfClosed(w, q); }
  }

  // ---------------------------------------------------------------------------------------------
  // Over every run

  /** Orders are those of rows that exist. */
  ghost predicate OrdersNumbered(w: World) {
    forall p | p in w.orders :: p < |w.store.payments|
  }

  /** A call that reaches createOrder has inserted its row. */
  lemma ReachingProviderOpens(s: Store, caller: string, booking: string, read: Option<OrderRead>,
                              created: Option<CreatedOrder>)
    requires OneLivePerBooking(s) && ReachesProvider(s, caller, booking, read)
    ensures |CreatePayment(s, caller, booking, read, created).0.payments| > |s.payments|
  {
    if InFlightOf(s, booking).OneRow? {
      ResumeOpensOnlyAfterDeath(s, booking, InFlightOf(s, booking).id, read, created);
    }
  }

  lemma OrdersStayNumbered(w: World, m: Move)
    requires Inv(w.store) && OrdersNumbered(w) && Legal(w, m)
    ensures OrdersNumbered(Next(w, m))
  {
    if CallOf(m).Some? { StepKeeps(w.store, CallOf(m).value); }
    if m.PayNow? && ReachesProvider(w.store, m.caller, m.booking, m.read) {
      ReachingProviderOpens(w.store, m.caller, m.booking, m.read, CreationReply(m.creation));
    }
  }

  function Run(w: World, moves: seq<Move>): World
    decreases |moves|
  {
    if moves == [] then w else Run(Next(w, moves[0]), moves[1..])
  }

  ghost predicate AllLegal(w: World, moves: seq<Move>)
    decreases |moves|
  {
    moves != [] ==> Legal(w, moves[0]) && AllLegal(Next(w, moves[0]), moves[1..])
  }

  predicate NoneAbandons(w: World, moves: seq<Move>)
    decreases |moves|
  {
    moves != [] ==> !Abandons(w, moves[0]) && NoneAbandons(Next(w, moves[0]), moves[1..])
  }

  ghost predicate ClosedIsDeadThroughout(w: World, moves: seq<Move>)
    decreases |moves|
  {
    ClosedIsDead(w) && (moves != [] ==> ClosedIsDeadThroughout(Next(w, moves[0]), moves[1..]))
  }

  ghost predicate Good(w: World) {
    Inv(w.store) && OrdersNumbered(w) && ClosedIsDead(w)
  }

  lemma {:induction false} RunKeepsGood(w: World, moves: seq<Move>)
    requires Good(w) && AllLegal(w, moves)
    ensures ClosedIsDeadThroughout(w, moves) <==> NoneAbandons(w, moves)
    ensures NoneAbandons(w, moves) ==> Good(Run(w, moves))
    decreases |moves|
  {
    if moves != [] {
      var m, w1 := moves[0], Next(w, moves[0]);
      ClosedIsDeadUnlessAbandoned(w, m);
      OrdersStayNumbered(w, m);
      if CallOf(m).Some? { StepKeeps(w.store, CallOf(m).value); }
      if !Abandons(w, m) {
        RunKeepsGood(w1, moves[1..]);
      } else {
        assert !ClosedIsDead(w1);
      }
    }
  }

  /** Bookings exist, and nothing has been paid or ordered. */
  ghost predicate Opening(w: World) {
    PaymentRuns.Opening(w.store) && w.orders == map[]
  }

  /** From the start, every closed row has a dead order at every moment exactly when no move abandons one. */
  lemma ClosedIsDeadThroughoutIff(start: World, moves: seq<Move>)
    requires Opening(start) && AllLegal(start, moves)
    ensures ClosedIsDeadThroughout(start, moves) <==> NoneAbandons(start, moves)
  {
    OpeningIsSound(start.store);
    RunKeepsGood(start, moves);
  }

  /** While closed rows have dead orders, no booking has two orders that can take money. */
  lemma NoDoubleCharge(w: World, p: nat, q: nat)
    requires OneLivePerBooking(w.store) && ClosedIsDead(w)
    requires p < q < |w.store.payments| && w.store.payments[p].booking == w.store.payments[q].booking
    ensures !(p in w.orders && q in w.orders && Collectible(w.orders[p]) && Collectible(w.orders[q]))
  {
    assert DeadIfClosed(w, p) && DeadIfClosed(w, q);
    LiveOrClosed(w.store.payments[p].status);
    LiveOrClosed(w.store.payments[q].status);
  }

  /**
   * So in every run without such a move a booking never has two orders that can take money, however
   * often payment is retried.
   */
  lemma NeverTwoCollectibleOrders(start: World, moves: seq<Move>, p: nat, q: nat)
    requires Opening(start) && AllLegal(start, moves) && NoneAbandons(start, moves)
    requires var w := Run(start, moves);
      p < q < |w.store.payments| && w.store.payments[p].booking == w.store.payments[q].booking
    ensures var w := Run(start, moves);
      !(p in w.orders && q in w.orders && Collectible(w.orders[p]) && Collectible(w.orders[q]))
  {
    OpeningIsSound(start.store);
    RunKeepsGood(start, moves);
    NoDoubleCharge(Run(start, moves), p, q);
  }

  // ---------------------------------------------------------------------------------------------
  // What an abandoned order leads to

  /** Beside a closed row whose order is collectible, paying again makes a second collectible order. */
  lemma AbandonedOrderIsDoubled(w: World, p: nat, reference: Option<string>)
    requires p < |w.store.payments| && p in w.orders && Collectible(w.orders[p])
    requires var booking := w.store.payments[p].booking;
      && booking in w.store.bookings && w.store.bookings[booking].status in {Requested, Confirmed}
      && InFlightOf(w.store, booking).NoRow? && SettledOf(w.store, booking).NoRow?
    ensures var booking := w.store.payments[p].booking; var q := |w.store.payments|;
      var w' := Next(w, PayNow(w.store.bookings[booking].booker, booking, None, Accepted(reference)));
      && p < q < |w'.store.payments|
      && w'.store.payments[p].booking == w'.store.payments[q].booking == booking
      && p in w'.orders && q in w'.orders && Collectible(w'.orders[p]) && w'.orders[q] == Open
  {
    var booking := w.store.payments[p].booking;
    var created := Some(CreatedOrder(Pending, reference));
    assert CreatePayment(w.store, w.store.bookings[booking].booker, booking, None, created).0
        == OpenPayment(w.store, booking, created).0;
  }

  predicate Declines(s: Store, p: nat, body: Payload) {
    && p < |s.payments| && InFlight(s.payments[p].status)
    && body !in s.ledger && body.kind == "PAYMENT_FAILED_WEBHOOK" && body.order == Some(p)
  }

  lemma DeclineClosesRow(s: Store, p: nat, body: Payload)
    requires Declines(s, p, body)
    ensures var s' := HandleWebhook(s, body);
      && s'.bookings == s.bookings && |s'.payments| == |s.payments|
      && s'.payments == s.payments[p := s'.payments[p]]
      && s'.payments[p].booking == s.payments[p].booking && s'.payments[p].status == Failed
  {
    var e := ParseWebhook(body).value;
    assert HandleWebhook(s, body).payments == ApplyPaymentEvent(s, e).0.payments;
  }

  /** Once its one live payment is closed, a booking has none. */
  lemma ClosingFreesBooking(s: Store, p: nat, row: Payment)
    requires OneLivePerBooking(s) && p < |s.payments| && InFlight(s.payments[p].status)
    requires row.status == Failed
    ensures var s' := WithPayment(s, p, row); var booking := s.payments[p].booking;
      InFlightOf(s', booking).NoRow? && SettledOf(s', booking).NoRow?
  {
    var s', booking := WithPayment(s, p, row), s.payments[p].booking;
    SingleFinds(s'.payments, booking, IN_FLIGHT);
    SingleFinds(s'.payments, booking, SETTLED);
    forall r: nat
      ensures !IsPaymentOf(s'.payments, booking, IN_FLIGHT, r) && !IsPaymentOf(s'.payments, booking, SETTLED, r)
    {
      if r < |s.payments| && r != p && s.payments[r].booking == booking {
        assert Live(s.payments[p].status);
        assert !Live(s.payments[r].status);
      }
    }
  }

  /**
   * The promise fails: a declined card (`PAYMENT_FAILED_WEBHOOK`) on an order that stays open closes
   * the row, the next payment opens a second order, and both orders can then be paid.
   */
  lemma DeclinedCardThenSecondCharge(w: World, p: nat, body: Payload, reference: Option<string>)
    requires OneLivePerBooking(w.store) && Declines(w.store, p, body)
    requires p in w.orders && w.orders[p] == Open && OrdersNumbered(w)
    requires w.store.payments[p].booking in w.store.bookings
    requires w.store.bookings[w.store.payments[p].booking].status in {Requested, Confirmed}
    ensures var booking := w.store.payments[p].booking;
      var q := |w.store.payments|;
      var w1 := Next(w, Deliver(body, Refuses));
      var w2 := Next(w1, PayNow(w.store.bookings[booking].booker, booking, None, Accepted(reference)));
      var w4 := Next(Next(w2, ProviderMoves(p, Paid)), ProviderMoves(q, Paid));
      && p < q < |w4.store.payments|
      && w4.store.payments[p].booking == w4.store.payments[q].booking == booking
      && p in w4.orders && q in w4.orders && w4.orders[p] == w4.orders[q] == Paid
  {
    var s1 := HandleWebhook(w.store, body);
    DeclineClosesRow(w.store, p, body);
    ClosingFreesBooking(w.store, p, s1.payments[p]);
    var w1 := Next(w, Deliver(body, Refuses));
    assert w1.orders == w.orders && w1.store.payments == WithPayment(w.store, p, s1.payments[p]).payments;
    AbandonedOrderIsDoubled(w1, p, reference);
  }
}
