/**
 * The booking protocol of src/modules/bookings/bookings.service.ts. Instants are milliseconds,
 * dates are day numbers. Every database statement is one atomic step, and any number of calls
 * interleave; the service's own reads may be stale by the time it writes.
 */
module Bookings {
  import opened Common

  // ---------------------------------------------------------------------------------------------
  // Resolving a request to a half-open interval

  datatype Request =
    | Hourly(start: int, end: int)
    | HalfDay(start: int)
    | Day(date: int)
    | MultiDay(first: int, last: int)

  const HOUR := 3_600_000

  /** The cross-field checks of bookings.schema.ts. */
  predicate SchemaAccepts(req: Request) {
    match req
    case Hourly(start, end) => end - start >= HOUR
    case MultiDay(first, last) => last >= first
    case _ => true
  }

  /** The windows `get_location_availability` reports for a date. */
  type Availability = int -> seq<Window>

  /** The start of every local day; strictly increasing, whatever the length of a day. */
  type Midnights = int -> int

  ghost predicate LocalDays(midnight: Midnights) {
    forall d, e | d < e :: midnight(d) < midnight(e)
  }

  /** Reported windows are non-empty and lie within their own local day. */
  ghost predicate WindowsWithinDays(open: Availability, midnight: Midnights) {
    forall d, i | 0 <= i < |open(d)| ::
      midnight(d) <= open(d)[i].start < open(d)[i].end <= midnight(d + 1)
  }

  function Earliest(windows: seq<Window>): int
    requires windows != []
  {
    var last := windows[|windows| - 1].start;
    if |windows| == 1 then last
    else
      var before := Earliest(windows[..|windows| - 1]);
      if last < before then last else before
  }

  function Latest(windows: seq<Window>): int
    requires windows != []
  {
    var last := windows[|windows| - 1].end;
    if |windows| == 1 then last
    else
      var before := Latest(windows[..|windows| - 1]);
      if last > before then last else before
  }

  lemma {:induction false} EarliestIsTight(windows: seq<Window>) returns (at: nat)
    requires windows != []
    ensures at < |windows| && windows[at].start == Earliest(windows)
    ensures forall i | 0 <= i < |windows| :: Earliest(windows) <= windows[i].start
  {
    at := |windows| - 1;
    if |windows| > 1 {
      var rest := windows[..|windows| - 1];
      var before := EarliestIsTight(rest);
      assert forall i | 0 <= i < |rest| :: rest[i] == windows[i];
      if Earliest(rest) <= windows[at].start { at := before; }
    }
  }

  lemma {:induction false} LatestIsTight(windows: seq<Window>) returns (at: nat)
    requires windows != []
    ensures at < |windows| && windows[at].end == Latest(windows)
    ensures forall i | 0 <= i < |windows| :: windows[i].end <= Latest(windows)
  {
    at := |windows| - 1;
    if |windows| > 1 {
      var rest := windows[..|windows| - 1];
      var before := LatestIsTight(rest);
      assert forall i | 0 <= i < |rest| :: rest[i] == windows[i];
      if Latest(rest) >= windows[at].end { at := before; }
    }
  }

  lemma SpanIsTight(windows: seq<Window>)
    requires windows != []
    ensures forall w | w in windows :: Earliest(windows) <= w.start && w.end <= Latest(windows)
    ensures exists w :: w in windows && w.start == Earliest(windows)
    ensures exists w :: w in windows && w.end == Latest(windows)
  {
    var first := EarliestIsTight(windows);
    var last := LatestIsTight(windows);
    assert windows[first] in windows && windows[last] in windows;
  }

  function DaySpan(windows: seq<Window>): Result<Window> {
    if windows == [] then Err(Validation) else Ok(Window(Earliest(windows), Latest(windows)))
  }

  /** `pricing` is the active half-day price: `None` when none is offered, with its duration in hours. */
  function ResolveInterval(req: Request, open: Availability, pricing: Option<Option<int>>): Result<Window> {
    match req
    case Hourly(start, end) => Ok(Window(start, end))
    case HalfDay(start) =>
      if pricing.None? || pricing.value.None? then Err(Validation)
      else Ok(Window(start, start + pricing.value.value * HOUR))
    case Day(date) => DaySpan(open(date))
    case MultiDay(first, last) =>
      var checkIn := DaySpan(open(first));
      var checkOut := DaySpan(open(last));
      if checkIn.Err? then checkIn else if checkOut.Err? then checkOut
      else Ok(Window(checkIn.value.start, checkOut.value.end))
  }

  /** Whatever the booking type, an accepted request resolves to an interval that is not empty. */
  lemma ResolvedIntervalIsNonEmpty(req: Request, open: Availability, pricing: Option<Option<int>>, midnight: Midnights)
    requires SchemaAccepts(req) && LocalDays(midnight) && WindowsWithinDays(open, midnight)
    requires pricing.Some? && pricing.value.Some? ==> 1 <= pricing.value.value <= 23
    ensures var r := ResolveInterval(req, open, pricing); r.Ok? ==> r.value.start < r.value.end
  {
    match req
    case Hourly(_, _) =>
    case HalfDay(_) =>
    case Day(date) => if open(date) != [] { SpanWithinDay(date, open, midnight); }
    case MultiDay(first, last) =>
      if open(first) != [] && open(last) != [] {
        SpanWithinDay(first, open, midnight);
        SpanWithinDay(last, open, midnight);
        assert first < last ==> midnight(first + 1) <= midnight(last);
      }
  }

  // ---------------------------------------------------------------------------------------------
  // is_interval_available: the check before the insert

  /** The local date of every instant. */
  type LocalDay = int -> int

  /** Instants fall on the local day whose midnights enclose them. */
  ghost predicate CalendarOf(localDay: LocalDay, midnight: Midnights) {
    forall t, d :: localDay(t) == d <==> midnight(d) <= t < midnight(d + 1)
  }

  predicate HoldsWhole(w: Window, start: int, end: int) { w.start <= start && end <= w.end }

  predicate HoldsStart(w: Window, start: int) { w.start <= start < w.end }

  predicate HoldsEnd(w: Window, end: int) { w.start < end <= w.end }

  /**
   * Within one day the interval must lie in a window; over several, its start must lie in a window
   * of the first day and its end in one of the last. `conflicting` is the answer of
   * has_conflicting_period.
   */
  predicate IsIntervalAvailable(start: int, end: int, open: Availability, conflicting: bool, localDay: LocalDay) {
    && start < end && !conflicting
    && var first, last := localDay(start), localDay(end);
    if first == last then exists i | 0 <= i < |open(first)| :: HoldsWhole(open(first)[i], start, end)
    else
      && (exists i | 0 <= i < |open(first)| :: HoldsStart(open(first)[i], start))
      && (exists i | 0 <= i < |open(last)| :: HoldsEnd(open(last)[i], end))
  }

  /** An interval that ends at midnight is refused: it ends on a day none of whose windows has begun. */
  lemma MidnightEndIsRefused(start: int, day: int, open: Availability, conflicting: bool, localDay: LocalDay,
                             midnight: Midnights)
    requires LocalDays(midnight) && WindowsWithinDays(open, midnight) && CalendarOf(localDay, midnight)
    ensures !IsIntervalAvailable(start, midnight(day), open, conflicting, localDay)
  {
    assert midnight(day) < midnight(day + 1);
    assert localDay(midnight(day)) == day;
    forall i | 0 <= i < |open(day)| ensures !HoldsEnd(open(day)[i], midnight(day)) {}
    if start < midnight(day) {
      assert localDay(start) != day;
    }
  }

  /** A day's windows come in order, with a gap between each and the next: what touches is reported as one window. */
  ghost predicate Gapped(windows: seq<Window>) {
    forall i, j | 0 <= i < j < |windows| :: windows[i].end < windows[j].start
  }

  /**
   * What happens to the span of one day, by the reading it was resolved from: it is accepted exactly
   * when the day has no gap.
   */
  lemma DaySpanIsAvailableIff(date: int, open: Availability, localDay: LocalDay, midnight: Midnights)
    requires LocalDays(midnight) && WindowsWithinDays(open, midnight) && CalendarOf(localDay, midnight)
    requires open(date) != [] && Gapped(open(date))
    ensures var w := DaySpan(open(date)).value;
      IsIntervalAvailable(w.start, w.end, open, false, localDay) <==> |open(date)| == 1 && w.end < midnight(date + 1)
  {
    var w := DaySpan(open(date)).value;
    SpanWithinDay(date, open, midnight);
    SpanIsTight(open(date));
    if w.end == midnight(date + 1) {
      MidnightEndIsRefused(w.start, date + 1, open, false, localDay, midnight);
    } else {
      assert localDay(w.start) == date && localDay(w.end) == date;
      forall i | 0 <= i < |open(date)| ensures HoldsWhole(open(date)[i], w.start, w.end) <==> |open(date)| == 1 {
        WholeDayNeedsOneWindow(open(date), i);
      }
      assert open(date)[0] in open(date);
    }
  }

  lemma WholeDayNeedsOneWindow(windows: seq<Window>, i: nat)
    requires i < |windows| && Gapped(windows)
    requires forall j | 0 <= j < |windows| :: windows[j].start < windows[j].end
    ensures HoldsWhole(windows[i], Earliest(windows), Latest(windows)) <==> |windows| == 1
  {
    SpanIsTight(windows);
    if |windows| > 1 {
      var j := if i == 0 then 1 else 0;
      assert windows[j] in windows;
    }
  }

  /** A span of several days is accepted exactly when it ends before midnight, whatever gaps its days have. */
  lemma MultiDaySpanIsAvailableIff(first: int, last: int, open: Availability, localDay: LocalDay, midnight: Midnights)
    requires first < last && LocalDays(midnight) && WindowsWithinDays(open, midnight) && CalendarOf(localDay, midnight)
    requires ResolveInterval(MultiDay(first, last), open, None).Ok?
    ensures var w := ResolveInterval(MultiDay(first, last), open, None).value;
      IsIntervalAvailable(w.start, w.end, open, false, localDay) <==> w.end < midnight(last + 1)
  {
    var w := ResolveInterval(MultiDay(first, last), open, None).value;
    SpanWithinDay(first, open, midnight);
    SpanWithinDay(last, open, midnight);
    if w.end == midnight(last + 1) {
      MidnightEndIsRefused(w.start, last + 1, open, false, localDay, midnight);
    } else {
      assert midnight(first + 1) <= midnight(last);
      assert localDay(w.start) == first && localDay(w.end) == last;
      SpanReaches(open(first));
      SpanReaches(open(last));
    }
  }

  lemma SpanReaches(windows: seq<Window>)
    requires windows != [] && forall i | 0 <= i < |windows| :: windows[i].start < windows[i].end
    ensures exists i | 0 <= i < |windows| :: HoldsStart(windows[i], Earliest(windows))
    ensures exists i | 0 <= i < |windows| :: HoldsEnd(windows[i], Latest(windows))
  {
    SpanIsTight(windows);
    var s :| s in windows && s.start == Earliest(windows);
    var e :| e in windows && e.end == Latest(windows);
    var i :| 0 <= i < |windows| && windows[i] == s;
    var j :| 0 <= j < |windows| && windows[j] == e;
    assert HoldsStart(windows[i], s.start) && HoldsEnd(windows[j], e.end);
  }

  /** A period in conflict refuses whatever the windows, and so does an interval that is not one. */
  lemma ConflictOrEmptyIsRefused(start: int, end: int, open: Availability, conflicting: bool, localDay: LocalDay)
    requires conflicting || end <= start
    ensures !IsIntervalAvailable(start, end, open, conflicting, localDay)
  {
  }

  /** Free of conflict, an interval within one local day is available exactly when one window of the day contains it. */
  lemma WithinDayIsAvailableIff(start: int, end: int, open: Availability, localDay: LocalDay)
    requires start < end && localDay(start) == localDay(end)
    ensures IsIntervalAvailable(start, end, open, false, localDay) <==>
              exists w :: w in open(localDay(start)) && w.start <= start && end <= w.end
  {
    var windows := open(localDay(start));
    if exists w :: w in windows && w.start <= start && end <= w.end {
      var w :| w in windows && w.start <= start && end <= w.end;
      var i :| 0 <= i < |windows| && windows[i] == w;
      assert HoldsWhole(windows[i], start, end);
    }
    if IsIntervalAvailable(start, end, open, false, localDay) {
      var i :| 0 <= i < |windows| && HoldsWhole(windows[i], start, end);
      assert windows[i] in windows;
    }
  }

  /**
   * Free of conflict, an interval over several local days is available exactly when a window of the
   * first contains its start and a window of the last its end.
   */
  lemma AcrossDaysIsAvailableIff(start: int, end: int, open: Availability, localDay: LocalDay)
    requires start < end && localDay(start) != localDay(end)
    ensures IsIntervalAvailable(start, end, open, false, localDay) <==>
              && (exists w :: w in open(localDay(start)) && w.start <= start < w.end)
              && (exists w :: w in open(localDay(end)) && w.start < end <= w.end)
  {
    var first, last := open(localDay(start)), open(localDay(end));
    if (exists w :: w in first && w.start <= start < w.end) && (exists w :: w in last && w.start < end <= w.end) {
      var v :| v in first && v.start <= start < v.end;
      var w :| w in last && w.start < end <= w.end;
      var i :| 0 <= i < |first| && first[i] == v;
      var j :| 0 <= j < |last| && last[j] == w;
      assert HoldsStart(first[i], start) && HoldsEnd(last[j], end);
    }
    if IsIntervalAvailable(start, end, open, false, localDay) {
      var i :| 0 <= i < |first| && HoldsStart(first[i], start);
      var j :| 0 <= j < |last| && HoldsEnd(last[j], end);
      assert first[i] in first && last[j] in last;
    }
  }

  // ---------------------------------------------------------------------------------------------
  // What each kind of request asks for

  /** `at` is the least start among the windows. */
  ghost predicate OpensAt(windows: seq<Window>, at: int) {
    (exists w :: w in windows && w.start == at) && forall w | w in windows :: at <= w.start
  }

  /** `at` is the greatest end among the windows. */
  ghost predicate ClosesAt(windows: seq<Window>, at: int) {
    (exists w :: w in windows && w.end == at) && forall w | w in windows :: w.end <= at
  }

  /** A request is well formed unless it is hourly and under sixty minutes, or its last date comes before its first. */
  lemma WellFormedIff(req: Request)
    ensures SchemaAccepts(req) <==>
      && (req.Hourly? ==> req.end >= req.start + 60 * 60 * 1000)
      && (req.MultiDay? ==> !(req.last < req.first))
  {
  }

  /** What a request needs that the location may lack. */
  predicate Lacks(req: Request, open: Availability, pricing: Option<Option<int>>) {
    match req
    case Hourly(_, _) => false
    case HalfDay(_) => pricing == None || pricing == Some(None)
    case Day(date) => |open(date)| == 0
    case MultiDay(first, last) => |open(first)| == 0 || |open(last)| == 0
  }

  /** The interval a request stands for. */
  ghost predicate AsksFor(req: Request, open: Availability, pricing: Option<Option<int>>, w: Window) {
    match req
    case Hourly(start, end) => w.start == start && w.end == end
    case HalfDay(start) =>
      && pricing.Some? && pricing.value.Some?
      && w.start == start && w.end - w.start == pricing.value.value * 60 * 60 * 1000
    case Day(date) => OpensAt(open(date), w.start) && ClosesAt(open(date), w.end)
    case MultiDay(first, last) => OpensAt(open(first), w.start) && ClosesAt(open(last), w.end)
  }

  /** A request resolves to the interval it asks for, and is refused exactly when what it needs is missing. */
  lemma ResolvedAsAsked(req: Request, open: Availability, pricing: Option<Option<int>>)
    ensures var r := ResolveInterval(req, open, pricing);
      && (r == Err(Validation) <==> Lacks(req, open, pricing))
      && (r.Ok? <==> !Lacks(req, open, pricing))
      && (r.Ok? ==> AsksFor(req, open, pricing, r.value))
  {
    match req
    case Hourly(_, _) =>
    case HalfDay(_) =>
    case Day(date) => if open(date) != [] { SpanIsTight(open(date)); }
    case MultiDay(first, last) =>
      if open(first) != [] { SpanIsTight(open(first)); }
      if open(last) != [] { SpanIsTight(open(last)); }
  }

  /** A request asks for one interval. */
  lemma AskedOnce(req: Request, open: Availability, pricing: Option<Option<int>>, v: Window, w: Window)
    requires AsksFor(req, open, pricing, v) && AsksFor(req, open, pricing, w)
    ensures v == w
  {
  }

  lemma SpanWithinDay(date: int, open: Availability, midnight: Midnights)
    requires WindowsWithinDays(open, midnight) && open(date) != []
    ensures midnight(date) <= Earliest(open(date)) < Latest(open(date)) <= midnight(date + 1)
  {
    SpanIsTight(open(date));
    var s :| s in open(date) && s.start == Earliest(open(date));
    var e :| e in open(date) && e.end == Latest(open(date));
    var i :| 0 <= i < |open(date)| && open(date)[i] == s;
    var j :| 0 <= j < |open(date)| && open(date)[j] == e;
  }

  // ---------------------------------------------------------------------------------------------
  // Rows, the exclusion constraint and the compare-and-swap

  datatype Booking = Booking(
    location: string, booker: string, start: int, end: int,
    status: BookingStatus, cancelledBy: Option<string>, reason: Option<string>)

  predicate Active(s: BookingStatus) { s == Requested || s == Confirmed }

  predicate Occupies(b: Booking, instant: int) { b.start <= instant < b.end }

  predicate RangesMeet(a: Booking, b: Booking) { a.start < b.end && b.start < a.end }

  /** For non-empty intervals the range operator says that some instant lies in both. */
  lemma RangesMeetIffSharedInstant(a: Booking, b: Booking)
    requires a.start < a.end && b.start < b.end
    ensures RangesMeet(a, b) <==> exists t :: Occupies(a, t) && Occupies(b, t)
  {
    if RangesMeet(a, b) {
      var t := if a.start < b.start then b.start else a.start;
      assert Occupies(a, t) && Occupies(b, t);
    }
  }

  /** The table's CHECK (end_at > start_at) and its partial EXCLUDE constraint. */
  predicate Admits(rows: seq<Booking>, row: Booking) {
    && row.start < row.end
    && (Active(row.status) ==>
          forall i | 0 <= i < |rows| ::
            !(rows[i].location == row.location && Active(rows[i].status) && RangesMeet(rows[i], row)))
  }

  datatype Action = Confirm | Reject(why: Option<string>) | Complete | Cancel(why: Option<string>)

  predicate AllowedFrom(action: Action, status: BookingStatus) {
    match action
    case Confirm => status == Requested
    case Reject(_) => status == Requested
    case Complete => status == Confirmed
    case Cancel(_) => status == Requested || status == Confirmed
  }

  function Target(action: Action): BookingStatus {
    match action
    case Confirm => Confirmed
    case Reject(_) => Rejected
    case Complete => Completed
    case Cancel(_) => CancelledBooking
  }

  function Patched(row: Booking, action: Action, caller: string): Booking {
    match action
    case Confirm => row.(status := Confirmed)
    case Reject(why) => row.(status := Rejected, reason := why)
    case Complete => row.(status := Completed)
    case Cancel(why) => row.(status := CancelledBooking, cancelledBy := Some(caller), reason := why)
  }

  /** Being the booker is decided first: a host who booked their own location acts only as its booker. */
  predicate Permitted(action: Action, row: Booking, host: Option<string>, caller: string, isAdmin: bool) {
    var isBooker := row.booker == caller;
    var isHost := !isBooker && host == Some(caller);
    isHost || isAdmin || (action.Cancel? && isBooker)
  }

  /** `loadBookingAccess` and the action's own checks; success fixes the status the write will expect. */
  function Authorize(rows: seq<Booking>, id: nat, action: Action, host: Option<string>, caller: string,
                     isAdmin: bool): Result<BookingStatus> {
    if id >= |rows| then Err(NotFound)
    else if !Permitted(action, rows[id], host, caller, isAdmin) then Err(Forbidden)
    else if !AllowedFrom(action, rows[id].status) then Err(Validation)
    else Ok(rows[id].status)
  }

  function CompareAndSwap(rows: seq<Booking>, id: nat, expected: BookingStatus, action: Action,
                          caller: string): Result<seq<Booking>> {
    if id < |rows| && rows[id].status == expected then Ok(rows[id := Patched(rows[id], action, caller)])
    else Err(Conflict)
  }

  // ---------------------------------------------------------------------------------------------
  // The service's statements over a mutable table

  class BookingTable {
    var rows: seq<Booking>

    constructor ()
      ensures rows == []
    {
      rows := [];
    }

    static method SpanOf(windows: seq<Window>) returns (r: Result<Window>)
      ensures r == DaySpan(windows)
    {
      if |windows| == 0 {
        return Err(Validation);
      }
      var start, end := windows[0].start, windows[0].end;
      for i := 1 to |windows|
        invariant start == Earliest(windows[..i]) && end == Latest(windows[..i])
      {
        assert windows[..i + 1][..i] == windows[..i];
        if windows[i].start < start { start := windows[i].start; }
        if windows[i].end > end { end := windows[i].end; }
      }
      assert windows[..|windows|] == windows;
      return Ok(Window(start, end));
    }

    method Insert(row: Booking) returns (result: Result<nat>)
      modifies this
      ensures result.Ok? <==> Admits(old(rows), row)
      ensures rows == if result.Ok? then old(rows) + [row] else old(rows)
      ensures result == if Admits(old(rows), row) then Ok(|old(rows)|)
                        else if row.start >= row.end then Err(Internal) else Err(Conflict)
    {
      if row.start >= row.end {
        return Err(Internal);
      }
      if Active(row.status) {
        for i := 0 to |rows|
          invariant rows == old(rows)
          invariant forall k | 0 <= k < i ::
            !(rows[k].location == row.location && Active(rows[k].status) && RangesMeet(rows[k], row))
        {
          if rows[i].location == row.location && Active(rows[i].status) && RangesMeet(rows[i], row) {
            return Err(Conflict);
          }
        }
      }
      rows := rows + [row];
      return Ok(|rows| - 1);
    }

    method TransitionBooking(id: nat, expected: BookingStatus, action: Action,
                             caller: string) returns (result: Result<Booking>)
      modifies this
      ensures var swapped := CompareAndSwap(old(rows), id, expected, action, caller);
        && rows == (if swapped.Ok? then swapped.value else old(rows))
        && result == (if swapped.Ok? then Ok(rows[id]) else Err(Conflict))
    {
      if id >= |rows| || rows[id].status != expected {
        return Err(Conflict);
      }
      rows := rows[id := Patched(rows[id], action, caller)];
      return Ok(rows[id]);
    }
  }

  /** The refusals before a transition is written, in their order: no such booking, not this caller, not this status. */
  lemma TransitionRefusals(rows: seq<Booking>, id: nat, action: Action, host: Option<string>, caller: string,
                           isAdmin: bool)
    ensures Authorize(rows, id, action, host, caller, isAdmin) ==
      if id >= |rows| then Err(NotFound)
      else if !isAdmin && (if rows[id].booker == caller then !action.Cancel? else host != Some(caller))
      then Err(Forbidden)
      else if rows[id].status == Requested && !action.Complete? then Ok(Requested)
      else if rows[id].status == Confirmed && (action.Complete? || action.Cancel?) then Ok(Confirmed)
      else Err(Validation)
  {
  }
}
