/**
 * The one price calculation, src/modules/bookings/pricing.ts, over exact arithmetic. A location's
 * time zone enters as the function from an instant to its local day number.
 */
module Pricing {
  import opened Common
  import opened Bookings

  datatype Kind = HourlyKind | HalfDayKind | DayKind | MultiDayKind

  /** `Math.round` of `worth` divided by an hour, halves rounding up. */
  function PerHour(worth: int): int {
    (2 * worth + HOUR) / (2 * HOUR)
  }

  function HourlyAmount(rate: nat, elapsed: int): int {
    PerHour(rate * elapsed)
  }

  /** Inclusive count of local days from one instant to another. */
  function CountDays(start: int, end: int, localDay: LocalDay): int {
    localDay(end) - localDay(start) + 1
  }

  /** `rate` is the active price for this kind of booking, if the location offers one. */
  function CalculateBookingPrice(kind: Kind, rate: Option<nat>, start: int, end: int, localDay: LocalDay): Result<int> {
    match rate
    case None => Err(Validation)
    case Some(amount) =>
      match kind
      case HourlyKind =>
        var base := HourlyAmount(amount, end - start);
        if amount > 0 && base == 0 then Err(Internal) else Ok(base)
      case HalfDayKind => Ok(amount)
      case DayKind => Ok(amount)
      case MultiDayKind => Ok(amount * CountDays(start, end, localDay))
  }

  lemma PerHourIsNearest(worth: int)
    ensures -HOUR < 2 * (PerHour(worth) * HOUR - worth) <= HOUR
  {
  }

  lemma PerHourIsMonotone(less: int, more: int)
    requires less <= more
    ensures PerHour(less) <= PerHour(more)
  {
  }

  lemma PerHourVanishesIff(worth: nat)
    ensures PerHour(worth) == 0 <==> 2 * worth < HOUR
  {
  }

  /** The hourly amount is the whole number of minor units nearest to rate times duration. */
  lemma HourlyAmountIsNearest(rate: nat, elapsed: nat)
    ensures -HOUR < 2 * (HourlyAmount(rate, elapsed) * HOUR - rate * elapsed) <= HOUR
  {
    PerHourIsNearest(rate * elapsed);
  }

  lemma WorthGrows(rate: nat, shorter: nat, longer: nat)
    requires shorter <= longer
    ensures rate * shorter <= rate * longer
  {
  }

  lemma HourlyAmountIsMonotone(rate: nat, shorter: nat, longer: nat)
    requires shorter <= longer
    ensures HourlyAmount(rate, shorter) <= HourlyAmount(rate, longer)
  {
    WorthGrows(rate, shorter, longer);
    PerHourIsMonotone(rate * shorter, rate * longer);
  }

  /** Splitting a stay costs at most one minor unit more or less than booking it whole. */
  lemma SplittingAnHourlyStay(rate: nat, a: nat, b: nat)
    ensures -1 <= HourlyAmount(rate, a) + HourlyAmount(rate, b) - HourlyAmount(rate, a + b) <= 1
  {
    assert rate * (a + b) == rate * a + rate * b;
    PerHourSplits(rate * a, rate * b);
  }

  lemma PerHourSplits(x: int, y: int)
    ensures -1 <= PerHour(x) + PerHour(y) - PerHour(x + y) <= 1
  {
    PerHourIsNearest(x);
    PerHourIsNearest(y);
    PerHourIsNearest(x + y);
  }

  lemma WholeHour(rate: nat)
    ensures HourlyAmount(rate, HOUR) == rate
  {
    PerHourIsNearest(rate * HOUR);
  }

  /** A booking of an hour or more costs at least its rate, so the zero-amount guard never fires. */
  lemma AcceptedHourlyIsNeverFree(rate: nat, start: int, end: int, localDay: LocalDay)
    requires SchemaAccepts(Hourly(start, end))
    ensures var r := CalculateBookingPrice(HourlyKind, Some(rate), start, end, localDay);
      r.Ok? && r.value >= rate && (end - start == HOUR ==> r.value == rate)
  {
    HourlyAmountIsMonotone(rate, HOUR, end - start);
    WholeHour(rate);
  }

  /** Without the schema's floor, the guard fires exactly for stays worth less than half a minor unit. */
  lemma ZeroGuardFiresIff(rate: nat, start: int, end: int, localDay: LocalDay)
    requires start <= end
    ensures CalculateBookingPrice(HourlyKind, Some(rate), start, end, localDay) == Err(Internal)
      <==> rate > 0 && 2 * (rate * (end - start)) < HOUR
  {
    var elapsed: nat := end - start;
    WorthGrows(rate, 0, elapsed);
    PerHourVanishesIff(rate * elapsed);
  }

  /** A run of days costs what its two halves cost. */
  lemma MultiDayIsAdditive(rate: nat, start: int, lastOfFirst: int, firstOfSecond: int, end: int, localDay: LocalDay)
    requires localDay(firstOfSecond) == localDay(lastOfFirst) + 1
    ensures var whole := CalculateBookingPrice(MultiDayKind, Some(rate), start, end, localDay).value;
      var first := CalculateBookingPrice(MultiDayKind, Some(rate), start, lastOfFirst, localDay).value;
      var second := CalculateBookingPrice(MultiDayKind, Some(rate), firstOfSecond, end, localDay).value;
      whole == first + second
  {
    var m, n := CountDays(start, lastOfFirst, localDay), CountDays(firstOfSecond, end, localDay);
    assert rate * (m + n) == rate * m + rate * n;
  }

  /**
   * A multi-day request that is_interval_available accepts is charged for exactly the days it names.
   * The windows may have changed between the reading it was resolved from and the one that accepts it.
   */
  lemma AcceptedMultiDayChargesNamedDays(rate: nat, first: int, last: int, resolved: Availability,
                                         checked: Availability,
                                         conflicting: bool, midnight: Midnights, localDay: LocalDay)
    requires LocalDays(midnight) && CalendarOf(localDay, midnight)
    requires WindowsWithinDays(resolved, midnight) && WindowsWithinDays(checked, midnight)
    requires SchemaAccepts(MultiDay(first, last)) && ResolveInterval(MultiDay(first, last), resolved, None).Ok?
    requires var w := ResolveInterval(MultiDay(first, last), resolved, None).value;
      IsIntervalAvailable(w.start, w.end, checked, conflicting, localDay)
    ensures var w := ResolveInterval(MultiDay(first, last), resolved, None).value;
      CalculateBookingPrice(MultiDayKind, Some(rate), w.start, w.end, localDay) == Ok(rate * (last - first + 1))
  {
    SpanWithinDay(first, resolved, midnight);
    SpanWithinDay(last, resolved, midnight);
    var w := ResolveInterval(MultiDay(first, last), resolved, None).value;
    assert localDay(w.start) == first;
    if w.end == midnight(last + 1) {
      MidnightEndIsRefused(w.start, last + 1, checked, conflicting, localDay, midnight);
    } else {
      assert localDay(w.end) == last;
    }
  }

  /** A location that offers no price for this kind of booking refuses it; half days and days are flat. */
  lemma FlatAndMissingPrices(kind: Kind, rate: nat, start: int, end: int, localDay: LocalDay)
    ensures CalculateBookingPrice(kind, None, start, end, localDay) == Err(Validation)
    ensures kind.HalfDayKind? || kind.DayKind? ==>
              CalculateBookingPrice(kind, Some(rate), start, end, localDay) == Ok(rate)
  {
  }

  /** An hourly price that is given is the whole number of minor units nearest to rate times duration. */
  lemma HourlyPriceIsNearest(rate: nat, start: int, end: int, localDay: LocalDay)
    requires start <= end
    ensures var r := CalculateBookingPrice(HourlyKind, Some(rate), start, end, localDay);
      r.Ok? ==> -HOUR < 2 * (r.value * HOUR - rate * (end - start)) <= HOUR
  {
    HourlyAmountIsNearest(rate, end - start);
  }
}
