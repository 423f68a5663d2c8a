/**
 * Calendar dates and getAvailability (src/modules/availability/availability.service.ts). A date is
 * the text YYYY-MM-DD, whose order as text is the order of its fields.
 */
module Calendar {
  import opened Common
  import opened Groups

  datatype Fields = Fields(year: nat, month: nat, day: nat)

  predicate IsLeap(year: nat) {
    year % 4 == 0 && (year % 100 != 0 || year % 400 == 0)
  }

  function DaysIn(year: nat, month: nat): nat {
    if month == 2 then (if IsLeap(year) then 29 else 28)
    else if month in {4, 6, 9, 11} then 30
    else 31
  }

  predicate IsDate(f: Fields) {
    1 <= f.month <= 12 && 1 <= f.day <= DaysIn(f.year, f.month)
  }

  type Date = f: Fields | IsDate(f) witness Fields(1970, 1, 1)

  /** setUTCDate(getUTCDate() + 1): a day past the end of its month rolls over. */
  function NextDay(date: Date): Date {
    if date.day < DaysIn(date.year, date.month) then Fields(date.year, date.month, date.day + 1)
    else if date.month < 12 then Fields(date.year, date.month + 1, 1)
    else Fields(date.year + 1, 1, 1)
  }

  predicate Before(a: Date, b: Date) {
    a.year < b.year || (a.year == b.year && (a.month < b.month || (a.month == b.month && a.day < b.day)))
  }

  // ---------------------------------------------------------------------------------------------
  // Day numbers: what a Date object holds, in days

  /** The days of all the years before `year`, in the Gregorian calendar. */
  function DaysBeforeYear(year: nat): nat {
    365 * year + (year + 3) / 4 - (year + 99) / 100 + (year + 399) / 400
  }

  function DaysBeforeMonth(year: nat, month: nat): nat {
    if month <= 1 then 0 else DaysBeforeMonth(year, month - 1) + DaysIn(year, month - 1)
  }

  function DayNumber(date: Date): nat {
    DaysBeforeYear(date.year) + DaysBeforeMonth(date.year, date.month) + date.day - 1
  }

  // ceil(year / k) grows exactly at the multiples of k.

  lemma FoursCarry(year: nat)
    ensures (year + 4) / 4 == (year + 3) / 4 + if year % 4 == 0 then 1 else 0
  {
  }

  lemma CenturiesCarry(year: nat)
    ensures (year + 100) / 100 == (year + 99) / 100 + if year % 100 == 0 then 1 else 0
  {
  }

  lemma FourCenturiesCarry(year: nat)
    ensures (year + 400) / 400 == (year + 399) / 400 + if year % 400 == 0 then 1 else 0
  {
  }

  lemma EveryHundredthIsAFourth(year: nat)
    ensures year % 100 == 0 ==> year % 4 == 0
  {
    var centuries := year / 100;
    assert year == 100 * centuries + year % 100;
    assert (100 * centuries) % 4 == 0;
  }

  lemma EveryFourHundredthIsAHundredth(year: nat)
    ensures year % 400 == 0 ==> year % 100 == 0
  {
    var cycles := year / 400;
    assert year == 400 * cycles + year % 400;
    assert (400 * cycles) % 100 == 0;
  }

  lemma YearLength(year: nat)
    ensures DaysBeforeYear(year + 1) == DaysBeforeYear(year) + if IsLeap(year) then 366 else 365
  {
    FoursCarry(year);
    CenturiesCarry(year);
    FourCenturiesCarry(year);
    EveryHundredthIsAFourth(year);
    EveryFourHundredthIsAHundredth(year);
  }

  lemma MonthsFillYear(year: nat)
    ensures DaysBeforeMonth(year, 12) + 31 == if IsLeap(year) then 366 else 365
  {
    assert DaysBeforeMonth(year, 2) == 31;
    assert DaysBeforeMonth(year, 3) == 31 + DaysIn(year, 2);
    assert DaysBeforeMonth(year, 5) == DaysBeforeMonth(year, 3) + 61;
    assert DaysBeforeMonth(year, 7) == DaysBeforeMonth(year, 5) + 61;
    assert DaysBeforeMonth(year, 9) == DaysBeforeMonth(year, 7) + 62;
    assert DaysBeforeMonth(year, 11) == DaysBeforeMonth(year, 9) + 61;
    assert DaysBeforeMonth(year, 12) == DaysBeforeMonth(year, 11) + 30;
  }

  /** Day numbers count from the first day of year zero. */
  lemma FirstDayIsZero()
    ensures DayNumber(Fields(0, 1, 1)) == 0
  {
  }

  /** The next day is the next day number, across the ends of months, of years and of February. */
  lemma NextDayAdvances(date: Date)
    ensures DayNumber(NextDay(date)) == DayNumber(date) + 1
  {
    if date.day == DaysIn(date.year, date.month) && date.month == 12 {
      YearLength(date.year);
      MonthsFillYear(date.year);
    }
  }

  lemma {:induction false} MonthsAdd(year: nat, a: nat, b: nat)
    requires 1 <= a < b
    ensures DaysBeforeMonth(year, a) + DaysIn(year, a) <= DaysBeforeMonth(year, b)
  {
    if a + 1 < b { MonthsAdd(year, a, b - 1); }
  }

  lemma {:induction false} YearsAdd(a: nat, b: nat)
    requires a < b
    ensures DaysBeforeYear(a) + (if IsLeap(a) then 366 else 365) <= DaysBeforeYear(b)
  {
    YearLength(b - 1);
    if a + 1 < b { YearsAdd(a, b - 1); }
  }

  lemma WithinYear(date: Date)
    ensures DaysBeforeMonth(date.year, date.month) + date.day <= if IsLeap(date.year) then 366 else 365
  {
    MonthsFillYear(date.year);
    if date.month < 12 { MonthsAdd(date.year, date.month, 12); }
  }

  lemma BeforeNumbersLess(a: Date, b: Date)
    requires Before(a, b)
    ensures DayNumber(a) < DayNumber(b)
  {
    if a.year < b.year {
      WithinYear(a);
      YearsAdd(a.year, b.year);
    } else if a.month < b.month {
      MonthsAdd(a.year, a.month, b.month);
    }
  }

  /** Dates compare as their day numbers do, so a day number names one date. */
  lemma OrderIsNumeric(a: Date, b: Date)
    ensures Before(a, b) <==> DayNumber(a) < DayNumber(b)
    ensures a == b <==> DayNumber(a) == DayNumber(b)
  {
    if Before(a, b) {
      BeforeNumbersLess(a, b);
    } else if Before(b, a) {
      BeforeNumbersLess(b, a);
    }
  }

  /** The months have the lengths of the Gregorian calendar. */
  lemma MonthLengths(year: nat, month: nat)
    requires 1 <= month <= 12
    ensures var leap := year % 400 == 0 || (year % 4 == 0 && year % 100 != 0);
      DaysIn(year, month) == [31, if leap then 29 else 28, 31, 30, 31, 30, 31, 31, 30, 31, 30, 31][month - 1]
  {
    EveryFourHundredthIsAHundredth(year);
    EveryHundredthIsAFourth(year);
  }

  // ---------------------------------------------------------------------------------------------
  // eachDate

  predicate NotAfter(a: Date, b: Date) {
    !Before(b, a)
  }

  /** The loop of eachDate; two Date objects compare by their instants. */
  method EachDate(from: Date, to: Date) returns (dates: seq<Date>)
    ensures Lists(dates, from, to)
  {
    dates := [];
    var cursor := from;
    while DayNumber(cursor) <= DayNumber(to)
      invariant DayNumber(cursor) == DayNumber(from) + |dates|
      invariant |dates| > 0 ==> DayNumber(cursor) <= DayNumber(to) + 1
      invariant forall i | 0 <= i < |dates| :: DayNumber(dates[i]) == DayNumber(from) + i
      decreases DayNumber(to) - DayNumber(cursor)
    {
      dates := dates + [cursor];
      NextDayAdvances(cursor);
      cursor := NextDay(cursor);
    }
  }

  /** `dates` counts the days from `from` up to `to`, and is empty when `to` comes first. */
  ghost predicate Lists(dates: seq<Date>, from: Date, to: Date) {
    && |dates| == (if DayNumber(from) <= DayNumber(to) then DayNumber(to) - DayNumber(from) + 1 else 0)
    && forall i | 0 <= i < |dates| :: DayNumber(dates[i]) == DayNumber(from) + i
  }

  /** The list holds exactly the dates of the range, each once, in ascending order. */
  lemma EveryDateListedOnce(dates: seq<Date>, from: Date, to: Date)
    requires Lists(dates, from, to)
    ensures forall date: Date :: date in dates <==> NotAfter(from, date) && NotAfter(date, to)
    ensures forall i, j | 0 <= i < j < |dates| :: Before(dates[i], dates[j])
    ensures Distinct(dates)
  {
    forall date: Date ensures date in dates <==> NotAfter(from, date) && NotAfter(date, to) {
      DateListedIff(dates, from, to, date);
    }
    forall i, j | 0 <= i < j < |dates| ensures Before(dates[i], dates[j]) {
      OrderIsNumeric(dates[i], dates[j]);
    }
  }

  lemma DateListedIff(dates: seq<Date>, from: Date, to: Date, date: Date)
    requires Lists(dates, from, to)
    ensures date in dates <==> NotAfter(from, date) && NotAfter(date, to)
  {
    OrderIsNumeric(date, from);
    OrderIsNumeric(to, date);
    if NotAfter(from, date) && NotAfter(date, to) {
      var at := DayNumber(date) - DayNumber(from);
      OrderIsNumeric(dates[at], date);
    }
  }

  // ---------------------------------------------------------------------------------------------
  // getAvailability

  datatype Day = Day(date: Date, windows: seq<Window>)

  function WindowsOf(byDate: map<Date, seq<Window>>, date: Date): seq<Window> {
    if date in byDate then byDate[date] else []
  }

  ghost predicate Grouped(byDate: map<Date, seq<Window>>, rows: seq<(Date, Window)>) {
    forall d: Date :: WindowsOf(byDate, d) == Under(rows, d)
  }

  lemma PushKeepsGroups(byDate: map<Date, seq<Window>>, rows: seq<(Date, Window)>, date: Date, window: Window)
    requires Grouped(byDate, rows)
    ensures Grouped(byDate[date := WindowsOf(byDate, date) + [window]], rows + [(date, window)])
  {
    var after := byDate[date := WindowsOf(byDate, date) + [window]];
    forall d: Date ensures WindowsOf(after, d) == Under(rows + [(date, window)], d) {
      assert WindowsOf(byDate, d) == Under(rows, d);
      UnderAppend(rows, (date, window), d);
    }
  }

  method GroupByDate(rows: seq<(Date, Window)>) returns (byDate: map<Date, seq<Window>>)
    ensures forall d: Date :: WindowsOf(byDate, d) == Under(rows, d)
  {
    byDate := map[];
    for n := 0 to |rows|
      invariant Grouped(byDate, rows[..n])
    {
      var (date, window) := rows[n];
      PushKeepsGroups(byDate, rows[..n], date, window);
      byDate := byDate[date := WindowsOf(byDate, date) + [window]];
      assert rows[..n + 1] == rows[..n] + [(date, window)];
    }
    assert rows[..|rows|] == rows;
  }

  /**
   * `visible` says whether the location is, and `answer` is what get_location_availability returns:
   * the rows, each a date and a window.
   */
  method GetAvailability(visible: bool, answer: Result<seq<(Date, Window)>>, from: Date, to: Date)
    returns (result: Result<seq<Day>>)
    ensures result.Ok? <==> visible && answer.Ok?
    ensures !visible ==> result == Err(NotFound)
    ensures result.Ok? ==> Lists(Dates(result.value), from, to)
    ensures result.Ok? ==> forall i | 0 <= i < |result.value| ::
              result.value[i].windows == Under(answer.value, result.value[i].date)
  {
    if !visible {
      return Err(NotFound);
    }
    if answer.Err? {
      return Err(answer.error);
    }
    var byDate := GroupByDate(answer.value);
    var dates := EachDate(from, to);
    var days := seq(|dates|, i requires 0 <= i < |dates| => Day(dates[i], WindowsOf(byDate, dates[i])));
    assert Dates(days) == dates;
    return Ok(days);
  }

  function Dates(days: seq<Day>): seq<Date> {
    seq(|days|, i requires 0 <= i < |days| => days[i].date)
  }

  /** All the windows of the answer with their dates, day by day. */
  function Unfold(days: seq<Day>): seq<(Date, Window)> {
    if days == [] then [] else Tagged(days[0].date, days[0].windows) + Unfold(days[1..])
  }

  lemma {:induction false} UnfoldFlattens(days: seq<Day>, rows: seq<(Date, Window)>)
    requires forall i | 0 <= i < |days| :: days[i].windows == Under(rows, days[i].date)
    ensures Unfold(days) == Flatten(Dates(days), rows)
  {
    if days != [] {
      UnfoldFlattens(days[1..], rows);
      assert Dates(days)[1..] == Dates(days[1..]);
    }
  }

  ghost predicate InRange(rows: seq<(Date, Window)>, from: Date, to: Date) {
    forall i | 0 <= i < |rows| :: NotAfter(from, rows[i].0) && NotAfter(rows[i].0, to)
  }

  ghost predicate ByDate(rows: seq<(Date, Window)>) {
    forall i, j | 0 <= i < j < |rows| :: NotAfter(rows[i].0, rows[j].0)
  }

  /**
   * The answer has one entry for each date of the range. When every row lies in the range no window
   * is lost or duplicated, and rows that come by date, as the database function emits them, are read
   * back from the answer exactly.
   */
  lemma NothingLost(days: seq<Day>, rows: seq<(Date, Window)>, from: Date, to: Date)
    requires Lists(Dates(days), from, to)
    requires forall i | 0 <= i < |days| :: days[i].windows == Under(rows, days[i].date)
    requires InRange(rows, from, to)
    ensures forall date: Date :: date in Dates(days) <==> NotAfter(from, date) && NotAfter(date, to)
    ensures Distinct(Dates(days))
    ensures multiset(Unfold(days)) == multiset(rows)
    ensures ByDate(rows) ==> Unfold(days) == rows
  {
    var dates := Dates(days);
    EveryDateListedOnce(dates, from, to);
    UnfoldFlattens(days, rows);
    FlattenIsPermutation(dates, rows);
    if ByDate(rows) {
      DatesOrderRows(dates, rows, from, to);
      FlattenRestores(dates, rows);
    }
  }

  lemma DatesOrderRows(dates: seq<Date>, rows: seq<(Date, Window)>, from: Date, to: Date)
    requires Lists(dates, from, to) && ByDate(rows)
    ensures InKeyOrder(dates, rows)
  {
    forall i, j | 0 <= i < j < |rows| ensures NoLater(dates, rows[i].0, rows[j].0) {
      OrderIsNumeric(rows[j].0, rows[i].0);
    }
  }

}
