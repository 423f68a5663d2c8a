/**
 * The payment provider adapter: the normalized vocabulary of
 * src/modules/payments/providers/PaymentProvider.ts and the pure decisions of
 * src/modules/payments/providers/CashfreeProvider.ts. HTTP and signatures are the environment: a
 * provider answer enters as a value, and `None` stands for a call that threw.
 */
module Cashfree {
  import opened Common

  datatype PaymentStatus = Created | Pending | Success | Failed | Cancelled | Refunded | PartiallyRefunded

  /** The statuses an order read can normalize to. */
  type OrderStatus = s: PaymentStatus | s in {Pending, Success, Failed, Cancelled} witness Pending

  datatype RefundStatus = RefundPending | RefundSuccess | RefundFailed | RefundCancelled

  datatype AttemptStatus =
    | AttemptSuccess | AttemptPending | AttemptFailed | Dropped
    | AttemptCancelled | Void | NotAttempted | Unknown

  /**
   * `attemptedAt` is `Date.parse` of the reported timestamp; `None` when it is missing or unparsable.
   * `details` is everything else an attempt carries, which no decision reads.
   */
  datatype Attempt = Attempt(
    id: Option<string>, status: AttemptStatus,
    amount: Option<int>, currency: Option<string>, attemptedAt: Option<int>, details: string)

  /** An attempt as the provider reports it. */
  datatype ReportedAttempt = ReportedAttempt(
    id: Option<string>, status: Option<string>,
    amount: Option<real>, currency: Option<string>, attemptedAt: Option<int>, details: string)

  datatype OrderBody = OrderBody(
    status: string, reference: Option<string>, amount: Option<real>, currency: Option<string>)

  datatype OrderRead = OrderRead(
    status: OrderStatus, reference: Option<string>, amount: Option<int>, currency: Option<string>,
    settled: Option<Attempt>, last: Option<Attempt>)

  // ---------------------------------------------------------------------------------------------
  // The money boundary

  function ToMajorUnits(minor: int): real {
    minor as real / 100.0
  }

  /** `Math.round(n * 100)`, rounding halves up; `None` for anything that is not a finite number. */
  function ToMinorUnits(major: Option<real>): Option<int> {
    match major
    case None => None
    case Some(n) => Some((n * 100.0 + 0.5).Floor)
  }

  /** Reading back what was sent is exact, and it tolerates exactly the drifts below half a minor unit. */
  lemma MoneyRoundTrip(minor: int, drift: real)
    ensures ToMinorUnits(Some(ToMajorUnits(minor) + drift)) == Some(minor) <==> -0.005 <= drift < 0.005
  {
    var scaled := (ToMajorUnits(minor) + drift) * 100.0 + 0.5;
    assert scaled == minor as real + drift * 100.0 + 0.5;
  }

  // ---------------------------------------------------------------------------------------------
  // Status maps

  function MapOrderStatus(status: string): OrderStatus {
    if status == "PAID" then Success
    else if status == "ACTIVE" then Pending
    else if status == "EXPIRED" then Failed
    else if status == "TERMINATED" || status == "TERMINATION_REQUESTED" then Cancelled
    else Pending
  }

  function MapRefundStatus(status: Option<string>): RefundStatus {
    if status == Some("SUCCESS") then RefundSuccess
    else if status == Some("FAILED") then RefundFailed
    else if status == Some("CANCELLED") then RefundCancelled
    else RefundPending
  }

  function MapAttemptStatus(status: Option<string>): AttemptStatus {
    if status == Some("SUCCESS") then AttemptSuccess
    else if status == Some("PENDING") then AttemptPending
    else if status == Some("FAILED") then AttemptFailed
    else if status == Some("USER_DROPPED") then Dropped
    else if status == Some("CANCELLED") then AttemptCancelled
    else if status == Some("VOID") then Void
    else if status == Some("NOT_ATTEMPTED") then NotAttempted
    else Unknown
  }

  function ToProviderAttempt(a: ReportedAttempt): Attempt {
    Attempt(a.id, MapAttemptStatus(a.status), ToMinorUnits(a.amount), a.currency, a.attemptedAt, a.details)
  }

  function ToProviderAttempts(attempts: seq<ReportedAttempt>): seq<Attempt> {
    seq(|attempts|, i requires 0 <= i < |attempts| => ToProviderAttempt(attempts[i]))
  }

  predicate Unsuccessful(a: Attempt) {
    a.status in {AttemptFailed, Dropped, AttemptCancelled, Void}
  }

  // ---------------------------------------------------------------------------------------------
  // Attempt order. `collate` stands for the locale's collation: it places every id on a line, so
  // that `x.localeCompare(y)` has the sign of `collate(x) - collate(y)`.

  type Collation = string -> real

  function IdOrEmpty(a: Attempt): string {
    a.id.GetOr("")
  }

  function Compare(a: Attempt, b: Attempt, collate: Collation): real {
    if a.attemptedAt.Some? && b.attemptedAt.Some? && a.attemptedAt != b.attemptedAt then
      (b.attemptedAt.value - a.attemptedAt.value) as real
    else if a.attemptedAt.Some? != b.attemptedAt.Some? then
      if a.attemptedAt.Some? then -1.0 else 1.0
    else
      collate(IdOrEmpty(b)) - collate(IdOrEmpty(a))
  }

  predicate Precedes(a: Attempt, b: Attempt, collate: Collation) {
    Compare(a, b, collate) < 0.0
  }

  function SortKey(a: Attempt, collate: Collation): (Option<int>, real) {
    (a.attemptedAt, collate(IdOrEmpty(a)))
  }

  predicate Tied(a: Attempt, b: Attempt, collate: Collation) {
    !Precedes(a, b, collate) && !Precedes(b, a, collate)
  }

  /** The comparator is a strict weak order, and it ties exactly the attempts with equal keys. */
  lemma ComparatorIsStrictWeakOrder(a: Attempt, b: Attempt, c: Attempt, collate: Collation)
    ensures !(Precedes(a, b, collate) && Precedes(b, a, collate))
    ensures Precedes(a, b, collate) && Precedes(b, c, collate) ==> Precedes(a, c, collate)
    ensures Tied(a, b, collate) && Tied(b, c, collate) ==> Tied(a, c, collate)
    ensures Tied(a, b, collate) <==> SortKey(a, collate) == SortKey(b, collate)
  {
  }

  /** A stable sort of a copy, as `Array.prototype.sort` is: an attempt is put before its equals. */
  function SortNewestFirst(attempts: seq<Attempt>, collate: Collation): seq<Attempt> {
    if attempts == [] then [] else Insert(attempts[0], SortNewestFirst(attempts[1..], collate), collate)
  }

  function Insert(a: Attempt, sorted: seq<Attempt>, collate: Collation): seq<Attempt> {
    if sorted == [] || !Precedes(sorted[0], a, collate) then [a] + sorted
    else [sorted[0]] + Insert(a, sorted[1..], collate)
  }

  ghost predicate NewestFirst(s: seq<Attempt>, collate: Collation) {
    forall i, j | 0 <= i < j < |s| :: !Precedes(s[j], s[i], collate)
  }

  lemma {:induction false} InsertAdds(a: Attempt, s: seq<Attempt>, collate: Collation)
    ensures multiset(Insert(a, s, collate)) == multiset{a} + multiset(s)
  {
    if s != [] && Precedes(s[0], a, collate) {
      InsertAdds(a, s[1..], collate);
      assert s == [s[0]] + s[1..];
    }
  }

  lemma {:induction false} InsertedFrom(a: Attempt, s: seq<Attempt>, collate: Collation, x: Attempt)
    requires x in Insert(a, s, collate)
    ensures x == a || x in s
  {
    if s != [] && Precedes(s[0], a, collate) && x != s[0] {
      assert Insert(a, s, collate)[1..] == Insert(a, s[1..], collate);
      InsertedFrom(a, s[1..], collate, x);
    }
  }

  /** An attempt that goes before the head of a sorted list goes before all of it. */
  lemma HeadDecides(a: Attempt, s: seq<Attempt>, collate: Collation, x: Attempt)
    requires NewestFirst(s, collate) && s != [] && !Precedes(s[0], a, collate) && x in s
    ensures !Precedes(x, a, collate)
  {
    var i :| 0 <= i < |s| && s[i] == x;
    ComparatorIsStrictWeakOrder(x, a, s[0], collate);
    ComparatorIsStrictWeakOrder(a, s[0], x, collate);
  }

  lemma PutFirst(a: Attempt, s: seq<Attempt>, collate: Collation)
    requires NewestFirst(s, collate)
    requires forall x | x in s :: !Precedes(x, a, collate)
    ensures NewestFirst([a] + s, collate)
  {
    var r := [a] + s;
    forall i, j | 0 <= i < j < |r| ensures !Precedes(r[j], r[i], collate) {
      assert r[j] == s[j - 1];
    }
  }

  lemma {:induction false} InsertKeepsOrder(a: Attempt, s: seq<Attempt>, collate: Collation)
    requires NewestFirst(s, collate)
    ensures NewestFirst(Insert(a, s, collate), collate)
  {
    if s == [] {
    } else if !Precedes(s[0], a, collate) {
      forall x | x in s ensures !Precedes(x, a, collate) { HeadDecides(a, s, collate, x); }
      PutFirst(a, s, collate);
    } else {
      var rest := Insert(a, s[1..], collate);
      InsertKeepsOrder(a, s[1..], collate);
      forall x | x in rest ensures !Precedes(x, s[0], collate) {
        InsertedFrom(a, s[1..], collate, x);
        ComparatorIsStrictWeakOrder(s[0], a, a, collate);
      }
      PutFirst(s[0], rest, collate);
    }
  }

  lemma {:induction false} SortSorts(s: seq<Attempt>, collate: Collation)
    ensures multiset(SortNewestFirst(s, collate)) == multiset(s)
    ensures NewestFirst(SortNewestFirst(s, collate), collate)
  {
    if s != [] {
      SortSorts(s[1..], collate);
      InsertAdds(s[0], SortNewestFirst(s[1..], collate), collate);
      InsertKeepsOrder(s[0], SortNewestFirst(s[1..], collate), collate);
      assert s == [s[0]] + s[1..];
    }
  }

  // ---------------------------------------------------------------------------------------------
  // Attempt selection

  function FirstWith(s: seq<Attempt>, wanted: Attempt -> bool): Option<Attempt> {
    if s == [] then None else if wanted(s[0]) then Some(s[0]) else FirstWith(s[1..], wanted)
  }

  datatype Selection = Selection(settled: Option<Attempt>, last: Option<Attempt>)

  function SelectAttempts(attempts: seq<Attempt>, collate: Collation): Selection {
    var ordered := SortNewestFirst(attempts, collate);
    var settled := FirstWith(ordered, (a: Attempt) => a.status == AttemptSuccess);
    if settled.Some? then Selection(settled, settled)
    else
      var pending := FirstWith(ordered, (a: Attempt) => a.status == AttemptPending);
      if pending.Some? then Selection(None, pending)
      else Selection(None, FirstWith(ordered, (a: Attempt) => Unsuccessful(a)))
  }

  lemma {:induction false} FirstWithFinds(s: seq<Attempt>, wanted: Attempt -> bool, collate: Collation)
    requires NewestFirst(s, collate)
    ensures var r := FirstWith(s, wanted);
      && (r.Some? <==> exists a :: a in s && wanted(a))
      && (r.Some? ==> r.value in s && wanted(r.value)
                      && forall a | a in s && wanted(a) :: !Precedes(a, r.value, collate))
  {
    if s != [] {
      if wanted(s[0]) {
        ComparatorIsStrictWeakOrder(s[0], s[0], s[0], collate);
      } else {
        FirstWithFinds(s[1..], wanted, collate);
        assert forall a :: a in s <==> a == s[0] || a in s[1..];
      }
    }
  }

  /** A settled attempt is chosen exactly when some attempt succeeded, whatever its age, and it is a newest success. */
  lemma SettledIffSomeSuccess(attempts: seq<Attempt>, collate: Collation)
    ensures var pick := SelectAttempts(attempts, collate);
      && (pick.settled.Some? <==> exists a :: a in attempts && a.status == AttemptSuccess)
      && (pick.settled.Some? ==>
            && pick.last == pick.settled
            && pick.settled.value in attempts && pick.settled.value.status == AttemptSuccess
            && forall a | a in attempts && a.status == AttemptSuccess :: !Precedes(a, pick.settled.value, collate))
  {
    SortSorts(attempts, collate);
    var ordered := SortNewestFirst(attempts, collate);
    FirstWithFinds(ordered, (a: Attempt) => a.status == AttemptSuccess, collate);
    SameElements(attempts, ordered);
  }

  /** With no success, the advisory is a newest pending attempt, else a newest unsuccessful one, else nothing. */
  lemma AdvisoryWithoutSuccess(attempts: seq<Attempt>, collate: Collation)
    requires forall a | a in attempts :: a.status != AttemptSuccess
    ensures var pick := SelectAttempts(attempts, collate);
      var wanted := (a: Attempt) => if exists p :: p in attempts && p.status == AttemptPending
                                     then a.status == AttemptPending else Unsuccessful(a);
      && pick.settled == None
      && (pick.last.Some? <==> exists a :: a in attempts && wanted(a))
      && (pick.last.Some? ==> pick.last.value in attempts && wanted(pick.last.value)
                              && forall a | a in attempts && wanted(a) :: !Precedes(a, pick.last.value, collate))
  {
    SettledIffSomeSuccess(attempts, collate);
    SortSorts(attempts, collate);
    var ordered := SortNewestFirst(attempts, collate);
    SameElements(attempts, ordered);
    FirstWithFinds(ordered, (a: Attempt) => a.status == AttemptPending, collate);
    FirstWithFinds(ordered, (a: Attempt) => Unsuccessful(a), collate);
  }

  lemma SameElements(s: seq<Attempt>, t: seq<Attempt>)
    requires multiset(s) == multiset(t)
    ensures forall a :: a in s <==> a in t
  {
    forall a ensures a in s <==> a in t {
      assert a in s <==> a in multiset(s);
      assert a in t <==> a in multiset(t);
    }
  }

  ghost predicate DistinctKeys(s: seq<Attempt>, collate: Collation) {
    forall i, j | 0 <= i < j < |s| :: SortKey(s[i], collate) != SortKey(s[j], collate)
  }

  lemma HeadsAgree(s: seq<Attempt>, t: seq<Attempt>, collate: Collation)
    requires s != [] && t != [] && multiset(s) == multiset(t)
    requires NewestFirst(s, collate) && NewestFirst(t, collate)
    ensures SortKey(s[0], collate) == SortKey(t[0], collate) && t[0] in s
  {
    SameElements(s, t);
    assert s[0] in t && t[0] in s;
    var i :| 0 <= i < |t| && t[i] == s[0];
    var j :| 0 <= j < |s| && s[j] == t[0];
    ComparatorIsStrictWeakOrder(s[0], t[0], t[0], collate);
  }

  lemma TailsAgree(s: seq<Attempt>, t: seq<Attempt>)
    requires s != [] && t != [] && multiset(s) == multiset(t) && s[0] == t[0]
    ensures multiset(s[1..]) == multiset(t[1..])
  {
    assert s == [s[0]] + s[1..] && t == [t[0]] + t[1..];
    assert multiset(s[1..]) == multiset(s) - multiset{s[0]};
    assert multiset(t[1..]) == multiset(t) - multiset{t[0]};
  }

  /** Equal keys mean equal attempts. */
  ghost predicate KeysIdentify(s: seq<Attempt>, collate: Collation) {
    forall a, b | a in s && b in s && SortKey(a, collate) == SortKey(b, collate) :: a == b
  }

  lemma {:induction false} SortedPermutationIsUnique(s: seq<Attempt>, t: seq<Attempt>, collate: Collation)
    requires multiset(s) == multiset(t)
    requires NewestFirst(s, collate) && NewestFirst(t, collate)
    requires KeysIdentify(s, collate)
    ensures s == t
  {
    assert |s| == |multiset(s)| && |t| == |multiset(t)|;
    if s != [] {
      HeadsAgree(s, t, collate);
      TailsAgree(s, t);
      SortedPermutationIsUnique(s[1..], t[1..], collate);
      assert s == [s[0]] + s[1..] && t == [t[0]] + t[1..];
    }
  }

  /** However the provider orders its answer, attempts with distinct keys select the same way. */
  lemma SelectionIgnoresInputOrder(s: seq<Attempt>, t: seq<Attempt>, collate: Collation)
    requires multiset(s) == multiset(t)
    requires DistinctKeys(s, collate)
    ensures SelectAttempts(s, collate) == SelectAttempts(t, collate)
  {
    SortSorts(s, collate);
    SortSorts(t, collate);
    var a, b := SortNewestFirst(s, collate), SortNewestFirst(t, collate);
    SameElements(s, a);
    assert KeysIdentify(a, collate) by {
      forall x, y | x in a && y in a && SortKey(x, collate) == SortKey(y, collate) ensures x == y {
        var i :| 0 <= i < |s| && s[i] == x;
        var j :| 0 <= j < |s| && s[j] == y;
      }
    }
    SortedPermutationIsUnique(a, b, collate);
  }

  /** So two different successes sharing a key answer in the order they are listed. */
  lemma TiedSuccessesKeepInputOrder(a: Attempt, b: Attempt, collate: Collation)
    requires a.status == b.status == AttemptSuccess
    requires SortKey(a, collate) == SortKey(b, collate)
    ensures SelectAttempts([a, b], collate).settled == Some(a)
    ensures SelectAttempts([b, a], collate).settled == Some(b)
  {
    ComparatorIsStrictWeakOrder(a, b, b, collate);
    forall x: Attempt, y: Attempt | Tied(x, y, collate) ensures SortNewestFirst([x, y], collate) == [x, y] {
      assert [x, y][1..] == [y] && [y][1..] == [];
      assert SortNewestFirst([y], collate) == [y];
      assert Insert(x, [y], collate) == [x, y];
    }
  }

  // ---------------------------------------------------------------------------------------------
  // Exactly when the order of the provider's list matters

  /** The attempts the answer is chosen from: the successes, else the pending ones, else the unsuccessful ones. */
  ghost predicate Deciding(s: seq<Attempt>, a: Attempt) {
    && a in s
    && if exists x :: x in s && x.status == AttemptSuccess then a.status == AttemptSuccess
       else if exists x :: x in s && x.status == AttemptPending then a.status == AttemptPending
       else Unsuccessful(a)
  }

  ghost predicate NewestDeciding(s: seq<Attempt>, collate: Collation, a: Attempt) {
    Deciding(s, a) && forall x | Deciding(s, x) :: !Precedes(x, a, collate)
  }

  /** The newest deciding attempts, if there are any, are copies of one. */
  ghost predicate OneNewest(s: seq<Attempt>, collate: Collation) {
    forall a, b | NewestDeciding(s, collate, a) && NewestDeciding(s, collate, b) :: a == b
  }

  ghost predicate OrderDoesNotMatter(s: seq<Attempt>, collate: Collation) {
    forall t | multiset(t) == multiset(s) :: SelectAttempts(t, collate) == SelectAttempts(s, collate)
  }

  /** The advisory is a newest deciding attempt, and there is none exactly when nothing decides. */
  lemma AdvisoryIsNewestDeciding(s: seq<Attempt>, collate: Collation)
    ensures var pick := SelectAttempts(s, collate);
      && (pick.last.Some? <==> exists a :: Deciding(s, a))
      && (pick.last.Some? ==> NewestDeciding(s, collate, pick.last.value))
      && pick.settled == if pick.last.Some? && pick.last.value.status == AttemptSuccess then pick.last else None
  {
    SettledIffSomeSuccess(s, collate);
    var pick := SelectAttempts(s, collate);
    if pick.settled.Some? {
      assert Deciding(s, pick.settled.value);
    } else {
      AdvisoryWithoutSuccess(s, collate);
      if pick.last.Some? {
        assert Deciding(s, pick.last.value);
      }
    }
  }

  lemma SameDeciding(s: seq<Attempt>, t: seq<Attempt>, a: Attempt)
    requires multiset(s) == multiset(t)
    ensures Deciding(s, a) <==> Deciding(t, a)
  {
    SameElements(s, t);
  }

  lemma OneNewestSuffices(s: seq<Attempt>, t: seq<Attempt>, collate: Collation)
    requires multiset(s) == multiset(t) && OneNewest(s, collate)
    ensures SelectAttempts(t, collate) == SelectAttempts(s, collate)
  {
    AdvisoryIsNewestDeciding(s, collate);
    AdvisoryIsNewestDeciding(t, collate);
    forall a ensures Deciding(s, a) <==> Deciding(t, a) { SameDeciding(s, t, a); }
    var x, y := SelectAttempts(s, collate).last, SelectAttempts(t, collate).last;
    if x.Some? {
      assert NewestDeciding(s, collate, y.value);
    }
  }

  /** A wanted attempt put into a sorted list before every wanted one not newer than it is found first. */
  lemma {:induction false} InsertedIsFound(a: Attempt, s: seq<Attempt>, collate: Collation, wanted: Attempt -> bool)
    requires wanted(a) && forall x | x in s && wanted(x) :: !Precedes(x, a, collate)
    ensures FirstWith(Insert(a, s, collate), wanted) == Some(a)
  {
    if s != [] && Precedes(s[0], a, collate) {
      InsertedIsFound(a, s[1..], collate, wanted);
    }
  }

  lemma {:induction false} NoneFound(s: seq<Attempt>, wanted: Attempt -> bool)
    requires forall x | x in s :: !wanted(x)
    ensures FirstWith(s, wanted) == None
  {
    if s != [] { NoneFound(s[1..], wanted); }
  }

  /** Listed first, a newest deciding attempt is the one selected. */
  lemma ListedFirstIsSelected(a: Attempt, rest: seq<Attempt>, collate: Collation)
    requires NewestDeciding([a] + rest, collate, a)
    ensures SelectAttempts([a] + rest, collate).last == Some(a)
  {
    var s := [a] + rest;
    var tail := SortNewestFirst(rest, collate);
    assert s[1..] == rest && SortNewestFirst(s, collate) == Insert(a, tail, collate);
    SortSorts(rest, collate);
    SameElements(rest, tail);
    SortSorts(s, collate);
    SameElements(s, Insert(a, tail, collate));
    if a.status == AttemptSuccess {
      InsertedIsFound(a, tail, collate, (x: Attempt) => x.status == AttemptSuccess);
    } else {
      NoneFound(Insert(a, tail, collate), (x: Attempt) => x.status == AttemptSuccess);
      if a.status == AttemptPending {
        InsertedIsFound(a, tail, collate, (x: Attempt) => x.status == AttemptPending);
      } else {
        NoneFound(Insert(a, tail, collate), (x: Attempt) => x.status == AttemptPending);
        InsertedIsFound(a, tail, collate, (x: Attempt) => Unsuccessful(x));
      }
    }
  }

  lemma CanBeSelected(s: seq<Attempt>, collate: Collation, a: Attempt) returns (t: seq<Attempt>)
    requires NewestDeciding(s, collate, a)
    ensures multiset(t) == multiset(s) && SelectAttempts(t, collate).last == Some(a)
  {
    var i :| 0 <= i < |s| && s[i] == a;
    var rest := s[..i] + s[i + 1..];
    assert s == s[..i] + [a] + s[i + 1..];
    t := [a] + rest;
    forall x ensures Deciding(s, x) <==> Deciding(t, x) { SameDeciding(s, t, x); }
    ListedFirstIsSelected(a, rest, collate);
  }

  /**
   * The same set of attempts produces the same answer, however the provider lists it, exactly when
   * its newest deciding attempts are copies of one.
   */
  lemma SelectionIgnoresOrderIff(s: seq<Attempt>, collate: Collation)
    ensures OrderDoesNotMatter(s, collate) <==> OneNewest(s, collate)
  {
    if OneNewest(s, collate) {
      forall t | multiset(t) == multiset(s) ensures SelectAttempts(t, collate) == SelectAttempts(s, collate) {
        OneNewestSuffices(s, t, collate);
      }
    }
    if OrderDoesNotMatter(s, collate) {
      forall a, b | NewestDeciding(s, collate, a) && NewestDeciding(s, collate, b) ensures a == b {
        var t := CanBeSelected(s, collate, a);
        var u := CanBeSelected(s, collate, b);
      }
    }
  }

  // ---------------------------------------------------------------------------------------------
  // The selection by status, time and id

  /** A success decides over a pending attempt, a pending one over an unsuccessful one; the rest decide nothing. */
  function Weight(status: AttemptStatus): nat {
    match status
    case AttemptSuccess => 3
    case AttemptPending => 2
    case AttemptFailed => 1
    case Dropped => 1
    case AttemptCancelled => 1
    case Void => 1
    case NotAttempted => 0
    case Unknown => 0
  }

  /** Later, or dated where the other is not; or at the same time with an id that collates no lower. */
  predicate NoEarlier(a: Attempt, b: Attempt, collate: Collation) {
    && (b.attemptedAt.Some? ==> a.attemptedAt.Some? && a.attemptedAt.value >= b.attemptedAt.value)
    && (a.attemptedAt == b.attemptedAt ==> collate(a.id.GetOr("")) >= collate(b.id.GetOr("")))
  }

  lemma NotPrecededIsNoEarlier(a: Attempt, b: Attempt, collate: Collation)
    ensures NoEarlier(a, b, collate) <==> !Precedes(b, a, collate)
  {
  }

  lemma DecidingIsWeightiest(s: seq<Attempt>, a: Attempt)
    ensures Deciding(s, a) <==>
      a in s && Weight(a.status) > 0 && forall x | x in s :: Weight(x.status) <= Weight(a.status)
  {
  }

  /**
   * What is selected weighs most, and of what weighs as much nothing is later, nor at the same time
   * with a higher id; nothing is selected exactly when nothing weighs anything.
   */
  lemma SelectedIsLatest(s: seq<Attempt>, collate: Collation)
    ensures var pick := SelectAttempts(s, collate);
      && (pick.last.None? <==> forall a | a in s :: Weight(a.status) == 0)
      && (pick.last.Some? ==>
            var last := pick.last.value;
            && last in s && Weight(last.status) > 0
            && forall a | a in s ::
                 && Weight(a.status) <= Weight(last.status)
                 && (Weight(a.status) == Weight(last.status) ==> NoEarlier(last, a, collate)))
      && pick.settled == if pick.last.Some? && Weight(pick.last.value.status) == 3 then pick.last else None
  {
    AdvisoryIsNewestDeciding(s, collate);
    var pick := SelectAttempts(s, collate);
    if pick.last.Some? {
      var last := pick.last.value;
      DecidingIsWeightiest(s, last);
      forall a | a in s && Weight(a.status) == Weight(last.status) ensures NoEarlier(last, a, collate) {
        DecidingIsWeightiest(s, a);
        NotPrecededIsNoEarlier(last, a, collate);
      }
    } else if exists a :: a in s && Weight(a.status) > 0 {
      var a :| a in s && Weight(a.status) > 0;
      SomethingDecides(s, a);
    }
  }

  lemma SomethingDecides(s: seq<Attempt>, a: Attempt)
    requires a in s && Weight(a.status) > 0
    ensures exists x :: Deciding(s, x)
  {
    if exists x :: x in s && x.status == AttemptSuccess {
      var x :| x in s && x.status == AttemptSuccess;
      assert Deciding(s, x);
    } else if exists x :: x in s && x.status == AttemptPending {
      var x :| x in s && x.status == AttemptPending;
      assert Deciding(s, x);
    } else {
      assert Deciding(s, a);
    }
  }

  // ---------------------------------------------------------------------------------------------
  // fetchOrder

  /** `attempts` is the second, best-effort read; it is consulted only for an ACTIVE order. */
  function FetchOrder(body: OrderBody, attempts: Option<seq<ReportedAttempt>>, collate: Collation): OrderRead {
    var pick :=
      if body.status == "ACTIVE" && attempts.Some? then SelectAttempts(ToProviderAttempts(attempts.value), collate)
      else Selection(None, None);
    OrderRead(MapOrderStatus(body.status), body.reference, ToMinorUnits(body.amount), body.currency,
              pick.settled, pick.last)
  }

  // ---------------------------------------------------------------------------------------------
  // Webhook parsing

  datatype RefundPart = RefundPart(
    order: Option<nat>, refund: Option<nat>, status: Option<string>, amount: Option<real>)

  /**
   * A delivered body. Order and refund ids are `pb_<row>` and `pbr_<row>`, so a body names a row
   * number; `rest` is every other byte, which only the idempotency ledger looks at.
   */
  datatype Payload = Payload(
    kind: string, order: Option<nat>, reference: Option<string>, amount: Option<real>,
    currency: Option<string>, refund: Option<RefundPart>, rest: string)

  datatype EventKind = PaymentSuccess | PaymentFailed | PaymentUserDropped
    | RefundCreated | RefundSucceeded | RefundFailedEvent

  datatype Event = Event(
    kind: EventKind, order: nat, reference: Option<string>, refund: Option<nat>,
    amount: Option<int>, currency: Option<string>)

  function ParseWebhook(p: Payload): Option<Event> {
    if p.kind == "PAYMENT_SUCCESS_WEBHOOK" || p.kind == "PAYMENT_FAILED_WEBHOOK"
       || p.kind == "PAYMENT_USER_DROPPED_WEBHOOK" then
      if p.order.None? then None
      else
        var kind :=
          if p.kind == "PAYMENT_SUCCESS_WEBHOOK" then PaymentSuccess
          else if p.kind == "PAYMENT_USER_DROPPED_WEBHOOK" then PaymentUserDropped
          else PaymentFailed;
        Some(Event(kind, p.order.value, p.reference, None, ToMinorUnits(p.amount), p.currency))
    else if "REFUND" <= p.kind then
      if p.refund.None? || p.refund.value.order.None? then None
      else
        var status := MapRefundStatus(p.refund.value.status);
        var kind := if status == RefundSuccess then RefundSucceeded
                    else if status == RefundFailed then RefundFailedEvent else RefundCreated;
        Some(Event(kind, p.refund.value.order.value, None, p.refund.value.refund,
                   ToMinorUnits(p.refund.value.amount), None))
    else None
  }
}
