/** Any number of create and transition calls, interleaved statement by statement. */
module BookingRaces {
  import opened Common
  import opened Bookings

  /** Where a call is between two of its statements. */
  datatype Call =
    | Inserting(row: Booking)
    | Swapping(id: nat, expected: BookingStatus, action: Action, caller: string)

  datatype Commit = Commit(id: nat, before: BookingStatus, after: BookingStatus)

  /** `trails` and `commits` record what happened; no statement reads them. */
  datatype World = World(
    rows: seq<Booking>, hosts: map<string, string>, admins: set<string>, calls: map<nat, Call>,
    trails: seq<seq<BookingStatus>>, commits: seq<Commit>)

  function HostOf(w: World, location: string): Option<string> {
    if location in w.hosts then Some(w.hosts[location]) else None
  }

  /**
   * `Prepare` is everything createBooking does before its insert: the location is found published,
   * the request is resolved against what was then open, and the interval is checked against what is
   * open and not in conflict a moment later. All of it may be stale when the insert happens.
   */
  datatype Step =
    | Prepare(call: nat, location: string, published: bool, booker: string, request: Request,
              open: Availability, pricing: Option<Option<int>>,
              checked: Availability, conflicting: bool, localDay: LocalDay, instant: bool)
    | Insert(call: nat)
    | Load(call: nat, id: nat, action: Action, caller: string)
    | Swap(call: nat)

  function Next(w: World, step: Step): World {
    match step
    case Prepare(c, location, published, booker, request, open, pricing, checked, conflicting, localDay, instant) =>
      var interval := ResolveInterval(request, open, pricing);
      if !published || interval.Err? then w
      else if !IsIntervalAvailable(interval.value.start, interval.value.end, checked, conflicting, localDay) then w
      else
        var row := Booking(location, booker, interval.value.start, interval.value.end,
                           if instant then Confirmed else Requested, None, None);
        w.(calls := w.calls[c := Inserting(row)])
    case Insert(c) =>
      if c !in w.calls || !w.calls[c].Inserting? then w
      else
        var row := w.calls[c].row;
        var w1 := w.(calls := w.calls - {c});
        if Admits(w.rows, row) then w1.(rows := w.rows + [row], trails := w.trails + [[row.status]]) else w1
    case Load(c, id, action, caller) =>
      var host := if id < |w.rows| then HostOf(w, w.rows[id].location) else None;
      var expected := Authorize(w.rows, id, action, host, caller, caller in w.admins);
      if expected.Err? then w else w.(calls := w.calls[c := Swapping(id, expected.value, action, caller)])
    case Swap(c) =>
      if c !in w.calls || !w.calls[c].Swapping? then w
      else
        var Swapping(id, expected, action, caller) := w.calls[c];
        var w1 := w.(calls := w.calls - {c});
        var swapped := CompareAndSwap(w.rows, id, expected, action, caller);
        if swapped.Err? || id >= |w.trails| then w1
        else w1.(rows := swapped.value, trails := w.trails[id := w.trails[id] + [Target(action)]],
                 commits := w.commits + [Commit(id, expected, Target(action))])
  }

  function Run(w: World, steps: seq<Step>): World
    decreases |steps|
  {
    if steps == [] then w else Run(Next(w, steps[0]), steps[1..])
  }

  // ---------------------------------------------------------------------------------------------
  // What every step keeps

  predicate Edge(a: BookingStatus, b: BookingStatus) {
    || (a == Requested && b in {Confirmed, Rejected, CancelledBooking})
    || (a == Confirmed && b in {Completed, CancelledBooking})
  }

  function Rank(s: BookingStatus): nat {
    match s
    case Requested => 0
    case Confirmed => 1
    case _ => 2
  }

  ghost predicate NoDoubleBooking(rows: seq<Booking>) {
    forall i, j | 0 <= i < j < |rows| && rows[i].location == rows[j].location
        && Active(rows[i].status) && Active(rows[j].status) ::
      !RangesMeet(rows[i], rows[j])
  }

  ghost predicate RowSound(w: World, b: Booking) {
    && b.start < b.end
    && (b.cancelledBy.Some? <==> b.status == CancelledBooking)
    && (b.cancelledBy.Some? ==>
          b.cancelledBy.value == b.booker || b.cancelledBy == HostOf(w, b.location) || b.cancelledBy.value in w.admins)
  }

  predicate Path(trail: seq<BookingStatus>) {
    && trail != []
    && Active(trail[0])
    && forall k | 0 <= k < |trail| - 1 :: Edge(trail[k], trail[k + 1])
  }

  ghost predicate TrailsSound(w: World) {
    && |w.trails| == |w.rows|
    && forall i | 0 <= i < |w.rows| ::
         Path(w.trails[i]) && w.trails[i][|w.trails[i]| - 1] == w.rows[i].status
  }

  ghost predicate CallSound(w: World, call: Call) {
    match call
    case Inserting(row) => Active(row.status) && row.cancelledBy == None
    case Swapping(id, expected, action, caller) =>
      && id < |w.rows| && AllowedFrom(action, expected)
      && (action.Cancel? ==>
            caller == w.rows[id].booker || HostOf(w, w.rows[id].location) == Some(caller) || caller in w.admins)
  }

  ghost predicate CommitsSound(w: World) {
    && (forall i | 0 <= i < |w.commits| ::
          && w.commits[i].id < |w.rows|
          && Edge(w.commits[i].before, w.commits[i].after)
          && Rank(w.commits[i].before) < Rank(w.rows[w.commits[i].id].status))
    && (forall i, j | 0 <= i < j < |w.commits| && w.commits[i].id == w.commits[j].id ::
          Rank(w.commits[i].before) < Rank(w.commits[j].before))
  }

  ghost predicate Inv(w: World) {
    && NoDoubleBooking(w.rows)
    && (forall i | 0 <= i < |w.rows| :: RowSound(w, w.rows[i]))
    && TrailsSound(w)
    && (forall c | c in w.calls :: CallSound(w, w.calls[c]))
    && CommitsSound(w)
  }

  lemma AdmittedRowKeepsApart(rows: seq<Booking>, row: Booking)
    requires NoDoubleBooking(rows) && Admits(rows, row)
    ensures NoDoubleBooking(rows + [row])
  {
  }

  lemma InsertKeeps(w: World, c: nat)
    requires Inv(w)
    ensures Inv(Next(w, Insert(c)))
  {
    if c in w.calls && w.calls[c].Inserting? {
      assert CallSound(w, w.calls[c]);
      var row := w.calls[c].row;
      if Admits(w.rows, row) {
        AdmittedRowKeepsApart(w.rows, row);
        InsertKeepsTrails(w, c);
      }
    }
  }

  lemma InsertKeepsTrails(w: World, c: nat)
    requires TrailsSound(w) && c in w.calls && w.calls[c].Inserting? && CallSound(w, w.calls[c])
    ensures TrailsSound(Next(w, Insert(c)))
  {
    var w' := Next(w, Insert(c));
    forall i | 0 <= i < |w'.rows| ensures Path(w'.trails[i]) && w'.trails[i][|w'.trails[i]| - 1] == w'.rows[i].status {
      if i < |w.rows| { assert Path(w.trails[i]); }
    }
  }

  /** The swap of call `c` finds the status it expects. */
  ghost predicate Wins(w: World, c: nat) {
    && c in w.calls && w.calls[c].Swapping? && CallSound(w, w.calls[c])
    && |w.trails| == |w.rows| && w.rows[w.calls[c].id].status == w.calls[c].expected
  }

  lemma SwapKeepsRows(w: World, c: nat)
    requires Wins(w, c) && NoDoubleBooking(w.rows)
    requires forall i | 0 <= i < |w.rows| :: RowSound(w, w.rows[i])
    ensures var w' := Next(w, Swap(c));
      NoDoubleBooking(w'.rows) && forall i | 0 <= i < |w'.rows| :: RowSound(w', w'.rows[i])
  {
    var Swapping(id, expected, action, caller) := w.calls[c];
    var w' := Next(w, Swap(c));
    assert w'.rows == w.rows[id := Patched(w.rows[id], action, caller)];
    assert Active(w'.rows[id].status) ==> Active(w.rows[id].status);
    assert RowSound(w, w.rows[id]);
    forall i | 0 <= i < |w.rows| ensures RowSound(w', w'.rows[i]) { assert RowSound(w, w.rows[i]); }
  }

  lemma SwapKeepsTrails(w: World, c: nat)
    requires Wins(w, c) && TrailsSound(w)
    ensures TrailsSound(Next(w, Swap(c)))
  {
    var Swapping(id, expected, action, caller) := w.calls[c];
    var w' := Next(w, Swap(c));
    assert Path(w.trails[id]) && Edge(expected, Target(action));
    assert w'.trails[id] == w.trails[id] + [Target(action)];
    forall i | 0 <= i < |w.rows| ensures Path(w'.trails[i]) { assert Path(w.trails[i]); }
  }

  lemma SwapKeepsCommits(w: World, c: nat)
    requires Wins(w, c) && CommitsSound(w)
    ensures CommitsSound(Next(w, Swap(c)))
  {
    var Swapping(id, expected, action, caller) := w.calls[c];
    var w' := Next(w, Swap(c));
    assert w'.commits == w.commits + [Commit(id, expected, Target(action))];
    assert Edge(expected, Target(action)) && w'.rows[id].status == Target(action);
  }

  lemma SwapKeepsCalls(w: World, c: nat)
    requires Wins(w, c) && forall d | d in w.calls :: CallSound(w, w.calls[d])
    ensures var w' := Next(w, Swap(c)); forall d | d in w'.calls :: CallSound(w', w'.calls[d])
  {
    var w' := Next(w, Swap(c));
    forall d | d in w'.calls ensures CallSound(w', w'.calls[d]) { assert CallSound(w, w.calls[d]); }
  }

  lemma SwapKeeps(w: World, c: nat)
    requires Inv(w)
    ensures Inv(Next(w, Swap(c)))
  {
    if Wins(w, c) {
      SwapKeepsRows(w, c);
      SwapKeepsTrails(w, c);
      SwapKeepsCommits(w, c);
      SwapKeepsCalls(w, c);
    } else {
      LosingSwapKeeps(w, c);
    }
  }

  lemma LosingSwapKeeps(w: World, c: nat)
    requires Inv(w) && !Wins(w, c)
    ensures Next(w, Swap(c)) == w || Next(w, Swap(c)) == w.(calls := w.calls - {c})
    ensures Inv(Next(w, Swap(c)))
  {
    var w' := Next(w, Swap(c));
    if c in w.calls { assert CallSound(w, w.calls[c]); }
    assert forall i | 0 <= i < |w.rows| :: RowSound(w, w.rows[i]) ==> RowSound(w', w.rows[i]);
    assert forall d | d in w'.calls :: CallSound(w, w.calls[d]) ==> CallSound(w', w.calls[d]);
  }

  lemma StepKeeps(w: World, step: Step)
    requires Inv(w)
    ensures Inv(Next(w, step))
  {
    match step
    case Insert(c) => InsertKeeps(w, c);
    case Swap(c) => SwapKeeps(w, c);
    case _ =>
  }

  ghost predicate Opening(w: World) {
    w.rows == [] && w.calls == map[] && w.trails == [] && w.commits == []
  }

  lemma {:induction false} RunKeeps(w: World, steps: seq<Step>)
    requires Inv(w)
    ensures Inv(Run(w, steps))
    decreases |steps|
  {
    if steps != [] {
      StepKeeps(w, steps[0]);
      RunKeeps(Next(w, steps[0]), steps[1..]);
    }
  }

  // ---------------------------------------------------------------------------------------------
  // The promises

  ghost predicate Reachable(w: World, start: World, steps: seq<Step>) {
    Opening(start) && w == Run(start, steps)
  }

  /** No instant of a location is ever held by two requested or confirmed bookings. */
  lemma NoInstantBookedTwice(w: World, start: World, steps: seq<Step>, i: nat, j: nat, instant: int)
    requires Reachable(w, start, steps)
    requires i < j < |w.rows| && w.rows[i].location == w.rows[j].location
    requires Occupies(w.rows[i], instant) && Occupies(w.rows[j], instant)
    ensures !(Active(w.rows[i].status) && Active(w.rows[j].status))
  {
    RunKeeps(start, steps);
  }

  /** Every booking's committed history is a path of the transition diagram, and no status recurs in it. */
  lemma HistoriesArePaths(w: World, start: World, steps: seq<Step>, i: nat)
    requires Reachable(w, start, steps) && i < |w.rows|
    ensures |w.trails| == |w.rows| && Path(w.trails[i])
    ensures w.trails[i][|w.trails[i]| - 1] == w.rows[i].status
    ensures forall k, l | 0 <= k < l < |w.trails[i]| :: w.trails[i][k] != w.trails[i][l]
  {
    RunKeeps(start, steps);
    PathsClimb(w.trails[i]);
  }

  lemma {:induction false} PathsClimb(trail: seq<BookingStatus>)
    requires Path(trail)
    ensures forall k, l | 0 <= k < l < |trail| :: Rank(trail[k]) < Rank(trail[l])
  {
    var last := |trail| - 1;
    if last > 0 {
      PathsClimb(trail[..last]);
      assert forall k | 0 <= k < last :: trail[..last][k] == trail[k];
      assert Edge(trail[last - 1], trail[last]);
    }
  }

  /** Of all the calls that validated one booking against one status, at most one commits. */
  lemma OneWinnerPerStatus(w: World, start: World, steps: seq<Step>, i: nat, j: nat)
    requires Reachable(w, start, steps)
    requires i < |w.commits| && j < |w.commits|
    requires w.commits[i].id == w.commits[j].id && w.commits[i].before == w.commits[j].before
    ensures i == j
  {
    RunKeeps(start, steps);
  }

  /** A booking names who cancelled it exactly when it is cancelled: its booker, its host or an admin. */
  lemma CancelledByIffCancelled(w: World, start: World, steps: seq<Step>, i: nat)
    requires Reachable(w, start, steps) && i < |w.rows|
    ensures w.rows[i].cancelledBy.Some? <==> w.rows[i].status == CancelledBooking
    ensures w.rows[i].cancelledBy.Some? ==>
      || w.rows[i].cancelledBy.value == w.rows[i].booker
      || w.rows[i].cancelledBy == HostOf(w, w.rows[i].location)
      || w.rows[i].cancelledBy.value in w.admins
  {
    RunKeeps(start, steps);
    assert RowSound(w, w.rows[i]);
  }

  /** A booking that no longer holds its slot never holds it again. */
  lemma NoTransitionReactivates(w: World, step: Step, i: nat)
    requires Inv(w) && i < |w.rows| && !Active(w.rows[i].status)
    ensures Next(w, step).rows[i] == w.rows[i]
  {
    if step.Swap? && step.call in w.calls {
      assert CallSound(w, w.calls[step.call]);
    }
  }

  /** A swap that lost the race changes nothing but its own call. */
  lemma LoserChangesNothing(w: World, c: nat)
    requires c in w.calls && w.calls[c].Swapping?
    requires w.calls[c].id < |w.rows| && w.rows[w.calls[c].id].status != w.calls[c].expected
    ensures Next(w, Swap(c)) == w.(calls := w.calls - {c})
  {
  }

  // ---------------------------------------------------------------------------------------------
  // Calls nobody interrupts

  predicate MayAct(w: World, id: nat, action: Action, caller: string) {
    && id < |w.rows|
    && ((action.Cancel? && w.rows[id].booker == caller)
        || (w.rows[id].booker != caller && HostOf(w, w.rows[id].location) == Some(caller))
        || caller in w.admins)
    && Edge(w.rows[id].status, Target(action))
  }

  /**
   * Left alone, an action moves its booking exactly when the diagram has the edge and the caller may
   * take it, and no other booking.
   */
  lemma UncontestedActionTakesEffect(w: World, c: nat, id: nat, action: Action, caller: string)
    requires Inv(w) && c !in w.calls
    ensures var w' := Run(w, [Load(c, id, action, caller), Swap(c)]);
      && (!MayAct(w, id, action, caller) ==> w'.rows == w.rows)
      && (MayAct(w, id, action, caller) ==>
            w'.rows == w.rows[id := w.rows[id].(
                                status := Target(action),
                                cancelledBy := if action.Cancel? then Some(caller) else None,
                                reason := if action.Cancel? || action.Reject? then action.why else w.rows[id].reason)])
  {
    RunTwo(w, Load(c, id, action, caller), Swap(c));
    LoadAuthorizes(w, c, id, action, caller);
    if MayAct(w, id, action, caller) {
      assert RowSound(w, w.rows[id]);
    }
  }

  lemma LoadAuthorizes(w: World, c: nat, id: nat, action: Action, caller: string)
    ensures Next(w, Load(c, id, action, caller))
         == if MayAct(w, id, action, caller)
            then w.(calls := w.calls[c := Swapping(id, w.rows[id].status, action, caller)]) else w
  {
    if id < |w.rows| {
      assert AllowedFrom(action, w.rows[id].status) <==> Edge(w.rows[id].status, Target(action));
    }
  }

  /**
   * Left alone, a request books its interval exactly when the location is published, the interval is
   * available and no active booking meets it.
   */
  lemma UncontestedRequestBooks(w: World, c: nat, location: string, published: bool, booker: string, request: Request,
                                open: Availability, pricing: Option<Option<int>>,
                                checked: Availability, conflicting: bool, localDay: LocalDay, instant: bool)
    requires c !in w.calls
    ensures var prepare := Prepare(c, location, published, booker, request, open, pricing,
        checked, conflicting, localDay, instant);
      var w' := Run(w, [prepare, Insert(c)]);
      var r := ResolveInterval(request, open, pricing);
      var books :=
        && published && r.Ok?
        && IsIntervalAvailable(r.value.start, r.value.end, checked, conflicting, localDay)
        && forall i | 0 <= i < |w.rows| && w.rows[i].location == location && Active(w.rows[i].status) ::
             w.rows[i].end <= r.value.start || r.value.end <= w.rows[i].start;
      && (!books ==> w'.rows == w.rows)
      && c !in w'.calls
      && (books ==>
            w'.rows == w.rows + [Booking(location, booker, r.value.start, r.value.end,
                                         if instant then Confirmed else Requested, None, None)])
  {
    var prepare := Prepare(c, location, published, booker, request, open, pricing,
        checked, conflicting, localDay, instant);
    RunTwo(w, prepare, Insert(c));
  }

  /**
   * So what is booked is what was asked: an hourly request its two instants, a half day the configured
   * hours, a day or a run of days from the first opening to the last closing.
   */
  lemma BookedAsAsked(w: World, c: nat, location: string, published: bool, booker: string, request: Request,
                      open: Availability, pricing: Option<Option<int>>,
                      checked: Availability, conflicting: bool, localDay: LocalDay, instant: bool)
    requires c !in w.calls
    ensures var prepare := Prepare(c, location, published, booker, request, open, pricing,
                                   checked, conflicting, localDay, instant);
      var w' := Run(w, [prepare, Insert(c)]); var n := |w.rows|;
      && (Lacks(request, open, pricing) ==> w'.rows == w.rows)
      && (w'.rows != w.rows ==>
            && |w'.rows| == n + 1 && w'.rows[..n] == w.rows
            && AsksFor(request, open, pricing, Window(w'.rows[n].start, w'.rows[n].end))
            && w'.rows[n].location == location && w'.rows[n].booker == booker
            && w'.rows[n].status == if instant then Confirmed else Requested)
  {
    UncontestedRequestBooks(w, c, location, published, booker, request, open, pricing,
                            checked, conflicting, localDay, instant);
    ResolvedAsAsked(request, open, pricing);
  }

  lemma RunTwo(w: World, first: Step, second: Step)
    ensures Run(w, [first, second]) == Next(Next(w, first), second)
  {
    var w1 := Next(w, first);
    assert [first, second][1..] == [second] && [second][1..] == [];
    assert Run(w1, [second]) == Run(Next(w1, second), []);
  }
}
