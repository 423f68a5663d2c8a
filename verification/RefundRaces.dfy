/**
 * createRefund taken apart into its statements, with any number of callers and webhooks between
 * them. The balance a caller read may be stale, so an insert is for any amount at all; the trigger
 * `enforce_refund_balance` checks it again. The provider's answer is written by id, with no guard.
 */
module RefundRaces {
  import opened Common
  import opened Cashfree
  import opened Payments
  import opened PaymentRuns

  datatype Statement =
    | InsertRefund(payment: nat, amount: int)
    | WriteAnswer(refund: nat, status: RefundStatus)
    | RefundEvent(refund: nat, kind: EventKind)

  /** The trigger's check, on top of the column check that an amount is positive. */
  predicate BalanceAllows(s: Store, p: nat, amount: int) {
    p < |s.payments| && amount > 0 && Committed(s, p) + amount <= s.payments[p].amount
  }

  function Execute(s: Store, stmt: Statement): Store {
    match stmt
    case InsertRefund(p, amount) =>
      if BalanceAllows(s, p, amount) then s.(refunds := s.refunds + [Refund(p, RefundPending, amount, None)]) else s
    case WriteAnswer(r, status) =>
      if r < |s.refunds| then WithRefund(s, r, s.refunds[r].(status := status)) else s
    case RefundEvent(r, kind) =>
      if r < |s.refunds| then WithRefund(s, r, s.refunds[r].(status := RefundAfter(s.refunds[r].status, kind))) else s
  }

  function ExecuteAll(s: Store, stmts: seq<Statement>): Store
    decreases |stmts|
  {
    if stmts == [] then s else ExecuteAll(Execute(s, stmts[0]), stmts[1..])
  }

  ghost predicate RefundsPositive(s: Store) {
    forall r | 0 <= r < |s.refunds| :: s.refunds[r].amount > 0 && s.refunds[r].payment < |s.payments|
  }

  /**
   * What a statement needs: an answer that commits money to a refund no longer holding any must
   * pass the insert's balance check once more.
   */
  predicate InTime(s: Store, stmt: Statement) {
    match stmt
    case WriteAnswer(r, status) =>
      r < |s.refunds| && status in COMMITTED && s.refunds[r].status !in COMMITTED ==>
        BalanceAllows(s, s.refunds[r].payment, s.refunds[r].amount)
    case _ => true
  }

  /** One statement keeps every payment within its balance exactly when it comes in time. */
  lemma StatementKeepsBalanceIffInTime(s: Store, stmt: Statement)
    requires RefundsPositive(s) && WithinBalance(s)
    ensures RefundsPositive(Execute(s, stmt))
    ensures WithinBalance(Execute(s, stmt)) <==> InTime(s, stmt)
  {
    var s' := Execute(s, stmt);
    match stmt
    case InsertRefund(p, amount) =>
      forall q: nat | q < |s.payments| ensures Committed(s', q) <= s.payments[q].amount {
        TotalAppend(s.refunds, Refund(p, RefundPending, amount, None), q, COMMITTED);
      }
    case WriteAnswer(r, status) => RewriteCase(s, r, status);
    case RefundEvent(r, kind) =>
      if r < |s.refunds| { RewriteCase(s, r, RefundAfter(s.refunds[r].status, kind)); }
  }

  lemma RewriteCase(s: Store, r: nat, status: RefundStatus)
    requires RefundsPositive(s) && WithinBalance(s)
    ensures WithinBalance(Execute(s, WriteAnswer(r, status))) <==> InTime(s, WriteAnswer(r, status))
  {
    if r < |s.refunds| {
      var row := s.refunds[r].(status := status);
      var s' := WithRefund(s, r, row);
      forall q: nat
        ensures Committed(s', q) == Committed(s, q) - Share(s.refunds[r], q, COMMITTED) + Share(row, q, COMMITTED)
      {
        TotalUpdate(s.refunds, r, row, q, COMMITTED);
      }
      assert WithinBalance(s') <==> Committed(s', row.payment) <= s.payments[row.payment].amount;
    }
  }

  ghost predicate AllInTime(s: Store, stmts: seq<Statement>)
    decreases |stmts|
  {
    stmts == [] || (InTime(s, stmts[0]) && AllInTime(Execute(s, stmts[0]), stmts[1..]))
  }

  ghost predicate WithinBalanceThroughout(s: Store, stmts: seq<Statement>)
    decreases |stmts|
  {
    WithinBalance(s) && (stmts != [] ==> WithinBalanceThroughout(Execute(s, stmts[0]), stmts[1..]))
  }

  /**
   * Over every interleaving, the sums stay within the balance at every moment exactly when every
   * answer comes in time.
   */
  lemma {:induction false} InterleavingsKeepBalance(s: Store, stmts: seq<Statement>)
    requires RefundsPositive(s) && WithinBalance(s)
    ensures WithinBalanceThroughout(s, stmts) <==> AllInTime(s, stmts)
    ensures AllInTime(s, stmts) ==> WithinBalance(ExecuteAll(s, stmts))
    decreases |stmts|
  {
    if stmts != [] {
      StatementKeepsBalanceIffInTime(s, stmts[0]);
      if InTime(s, stmts[0]) {
        InterleavingsKeepBalance(Execute(s, stmts[0]), stmts[1..]);
      } else {
        assert !WithinBalance(Execute(s, stmts[0]));
      }
    }
  }

  // ---------------------------------------------------------------------------------------------
  // Split in two only: the read apart, but the insert and its answer together

  datatype Half = InsertAndAnswer(payment: nat, amount: int, status: RefundStatus) | Event(refund: nat, kind: EventKind)

  function ExecuteHalf(s: Store, h: Half): Store {
    match h
    case InsertAndAnswer(p, amount, status) =>
      if BalanceAllows(s, p, amount) then
        Execute(Execute(s, InsertRefund(p, amount)), WriteAnswer(|s.refunds|, status))
      else s
    case Event(r, kind) => Execute(s, RefundEvent(r, kind))
  }

  function ExecuteHalves(s: Store, halves: seq<Half>): Store
    decreases |halves|
  {
    if halves == [] then s else ExecuteHalves(ExecuteHalf(s, halves[0]), halves[1..])
  }

  /** Stale reads alone never overdraw a payment, whatever was read and however calls interleave. */
  lemma {:induction false} StaleReadsKeepBalance(s: Store, halves: seq<Half>)
    requires RefundsPositive(s) && WithinBalance(s)
    ensures WithinBalance(ExecuteHalves(s, halves))
    decreases |halves|
  {
    if halves != [] {
      match halves[0] {
        case InsertAndAnswer(p, amount, status) =>
          StatementKeepsBalanceIffInTime(s, InsertRefund(p, amount));
          StatementKeepsBalanceIffInTime(Execute(s, InsertRefund(p, amount)), WriteAnswer(|s.refunds|, status));
        case Event(r, kind) => StatementKeepsBalanceIffInTime(s, RefundEvent(r, kind));
      }
      StaleReadsKeepBalance(ExecuteHalf(s, halves[0]), halves[1..]);
    }
  }

  // ---------------------------------------------------------------------------------------------
  // Split in three the bound fails

  /**
   * For any payment with a balance left: a refund of all of it is reported failed by webhook before
   * its own call writes the provider's answer, which was pending or successful, a second full refund
   * takes the freed balance, and the late answer then commits the same money twice.
   */
  lemma LateAnswerOverdraws(s: Store, p: nat, status: RefundStatus)
    requires RefundsPositive(s) && WithinBalance(s) && status in COMMITTED
    requires p < |s.payments| && Committed(s, p) < s.payments[p].amount
    ensures var left := s.payments[p].amount - Committed(s, p); var r := |s.refunds|;
      var s' := ExecuteAll(s, [InsertRefund(p, left), RefundEvent(r, RefundFailedEvent),
                               InsertRefund(p, left), WriteAnswer(r, status)]);
      Committed(s', p) == s.payments[p].amount + left
  {
    var left, r := s.payments[p].amount - Committed(s, p), |s.refunds|;
    var s1 := Execute(s, InsertRefund(p, left));
    InsertCommits(s, p, left);
    var s2 := Execute(s1, RefundEvent(r, RefundFailedEvent));
    RewriteCommits(s1, r, RefundFailed);
    var s3 := Execute(s2, InsertRefund(p, left));
    InsertCommits(s2, p, left);
    RewriteCommits(s3, r, status);
    InSequence(s, InsertRefund(p, left), RefundEvent(r, RefundFailedEvent),
               InsertRefund(p, left), WriteAnswer(r, status));
  }

  lemma InsertCommits(s: Store, p: nat, amount: int)
    requires BalanceAllows(s, p, amount)
    ensures var s' := Execute(s, InsertRefund(p, amount));
      && s'.payments == s.payments && s'.refunds == s.refunds + [Refund(p, RefundPending, amount, None)]
      && Committed(s', p) == Committed(s, p) + amount
  {
    TotalAppend(s.refunds, Refund(p, RefundPending, amount, None), p, COMMITTED);
  }

  /** A refund's money is committed while its status counts, and only then. */
  lemma RewriteCommits(s: Store, r: nat, status: RefundStatus)
    requires r < |s.refunds|
    ensures var s' := Execute(s, WriteAnswer(r, status)); var p := s.refunds[r].payment;
      && s'.payments == s.payments && s'.refunds == s.refunds[r := s.refunds[r].(status := status)]
      && Committed(s', p) == Committed(s, p)
           - (if s.refunds[r].status in COMMITTED then s.refunds[r].amount else 0)
           + (if status in COMMITTED then s.refunds[r].amount else 0)
  {
    TotalUpdate(s.refunds, r, s.refunds[r].(status := status), s.refunds[r].payment, COMMITTED);
  }

  lemma InSequence(s: Store, a: Statement, b: Statement, c: Statement, d: Statement)
    ensures ExecuteAll(s, [a, b, c, d]) == Execute(Execute(Execute(Execute(s, a), b), c), d)
  {
    assert [a, b, c, d][1..] == [b, c, d] && [b, c, d][1..] == [c, d] && [c, d][1..] == [d] && [d][1..] == [];
    var s1 := Execute(s, a);
    var s2 := Execute(s1, b);
    var s3 := Execute(s2, c);
    assert ExecuteAll(s3, [d]) == Execute(s3, d);
    assert ExecuteAll(s2, [c, d]) == ExecuteAll(s3, [d]);
    assert ExecuteAll(s1, [b, c, d]) == ExecuteAll(s2, [c, d]);
  }

  // ---------------------------------------------------------------------------------------------
  // Statuses

  /** The statement rewrites a finished refund with another status. */
  predicate Unfinishes(s: Store, stmt: Statement) {
    && stmt.WriteAnswer? && stmt.refund < |s.refunds|
    && TerminalRefund(s.refunds[stmt.refund].status) && stmt.status != s.refunds[stmt.refund].status
  }

  /** Refunds only move forward exactly while no late answer unfinishes one. */
  lemma RefundsEvolveUnlessUnfinished(s: Store, stmt: Statement)
    ensures RefundsEvolve(s, Execute(s, stmt)) <==> !Unfinishes(s, stmt)
  {
    if Unfinishes(s, stmt) {
      var r := stmt.refund;
      assert !RefundReaches(s.refunds[r].status, Execute(s, stmt).refunds[r].status);
    }
  }

  /** The statement takes back the only money given back, or part of all the money there was. */
  predicate TakesBack(s: Store, stmt: Statement, p: nat)
    requires p < |s.payments|
  {
    && Unfinishes(s, stmt)
    && s.refunds[stmt.refund].payment == p && s.refunds[stmt.refund].status == RefundSuccess
    && RefundedSum(s, p) in {s.refunds[stmt.refund].amount, s.payments[p].amount}
  }

  lemma RefundedSumAfter(s: Store, stmt: Statement, p: nat)
    requires RefundsPositive(s) && p < |s.payments|
    ensures var s' := Execute(s, stmt);
      var loses := Unfinishes(s, stmt) && s.refunds[stmt.refund].payment == p
                   && s.refunds[stmt.refund].status == RefundSuccess;
      && s'.payments == s.payments
      && (loses ==> RefundedSum(s', p) == RefundedSum(s, p) - s.refunds[stmt.refund].amount)
      && (!loses ==> RefundedSum(s', p) >= RefundedSum(s, p))
  {
    match stmt
    case InsertRefund(q, amount) => TotalAppend(s.refunds, Refund(q, RefundPending, amount, None), p, {RefundSuccess});
    case WriteAnswer(r, status) =>
      if r < |s.refunds| { TotalUpdate(s.refunds, r, s.refunds[r].(status := status), p, {RefundSuccess}); }
    case RefundEvent(r, kind) =>
      if r < |s.refunds| {
        var row := s.refunds[r].(status := RefundAfter(s.refunds[r].status, kind));
        TotalUpdate(s.refunds, r, row, p, {RefundSuccess});
      }
  }

  /** A refund that counts is part of the sum. */
  lemma {:induction false} SumHoldsShare(refunds: seq<Refund>, r: nat, p: nat)
    requires r < |refunds| && refunds[r].payment == p && refunds[r].status == RefundSuccess
    requires forall i | 0 <= i < |refunds| :: refunds[i].amount > 0
    ensures Total(refunds, p, {RefundSuccess}) >= refunds[r].amount
  {
    var last := |refunds| - 1;
    if r < last {
      SumHoldsShare(refunds[..last], r, p);
    } else {
      TotalBounds(refunds[..last], p);
    }
  }

  /**
   * Recomputed after a statement, a settled payment moves backwards exactly when the statement takes
   * back the only money given back, or part of all there was.
   */
  lemma PaymentRegressesIffTakenBack(s: Store, stmt: Statement, p: nat)
    requires RefundsPositive(s) && WithinBalance(s) && p < |s.payments|
    requires Settled(s.payments[p].status) && StatusTellsRefunds(s, p)
    ensures var s' := Recompute(Execute(s, stmt), p);
      !StatusReaches(s.payments[p].status, s'.payments[p].status) <==> TakesBack(s, stmt, p)
  {
    var s1 := Execute(s, stmt);
    RefundedSumAfter(s, stmt, p);
    TotalBounds(s.refunds, p);
    RecomputedStatus(s1, p);
    if Unfinishes(s, stmt) && s.refunds[stmt.refund].payment == p && s.refunds[stmt.refund].status == RefundSuccess {
      SumHoldsShare(s.refunds, stmt.refund, p);
    }
  }

  lemma RecomputedStatus(s: Store, p: nat)
    requires p < |s.payments| && Settled(s.payments[p].status)
    ensures Recompute(s, p).payments[p].status == RefundedStatus(RefundedSum(s, p), s.payments[p].amount)
  {
  }

  /**
   * Such a statement: a first refund is reported successful by webhook, and its own call then writes
   * the pending answer it had been given. The payment, refunded in whole or in part, is a plain
   * success again.
   */
  lemma LateAnswerRegresses(s: Store, p: nat, amount: int)
    requires RefundsPositive(s) && p < |s.payments| && s.payments[p].status == Success
    requires BalanceAllows(s, p, amount) && RefundedSum(s, p) == 0
    ensures var r := |s.refunds|;
      var s1 := Execute(s, InsertRefund(p, amount));
      var s2 := Recompute(Execute(s1, RefundEvent(r, RefundSucceeded)), p);
      var s3 := Recompute(Execute(s2, WriteAnswer(r, RefundPending)), p);
      && p < |s2.payments| && s2.payments[p].status in {PartiallyRefunded, Refunded}
      && p < |s3.payments| && s3.payments[p].status == Success
  {
    var r, row := |s.refunds|, Refund(p, RefundPending, amount, None);
    var s1 := Execute(s, InsertRefund(p, amount));
    TotalAppend(s.refunds, row, p, {RefundSuccess});
    var given := Execute(s1, RefundEvent(r, RefundSucceeded));
    TotalUpdate(s1.refunds, r, row.(status := RefundSuccess), p, {RefundSuccess});
    RecomputedStatus(given, p);
    var s2 := Recompute(given, p);
    assert s2.refunds == given.refunds;
    var taken := Execute(s2, WriteAnswer(r, RefundPending));
    TotalUpdate(s2.refunds, r, row, p, {RefundSuccess});
    RecomputedStatus(taken, p);
  }
}
