/** Completions, deletions and reorders of any number of callers, interleaved statement by statement. */
module GalleryRaces {
  import opened Common
  import opened Galleries

  /** What a completion asks for; `storageKey` is the storage key of its location and media id. */
  datatype Request = Request(
    id: string, location: string, section: Option<string>, position: Option<int>, storageKey: string)

  /** Where a call is between two of its statements. */
  datatype Call =
    | Finding(want: Request)
    | Verifying(want: Request)
    | Recording(want: Request)
    | FindingAgain(want: Request)
    | Reordering(location: string, section: Option<string>, ids: seq<string>)

  datatype Completion = Completion(row: Row, created: bool)

  /** `history` records the insertions and removals of every media id. */
  datatype Event = Created(id: string) | Removed(id: string)

  datatype World = World(media: Table, calls: map<nat, Call>, history: seq<Event>)

  datatype Step =
    | Complete(call: nat, want: Request)
    | Find(call: nat)
    | Head(call: nat, uploaded: Result<()>)
    | RecordRow(call: nat)
    | FindAgain(call: nat)
    | ReadGallery(call: nat, location: string, section: Option<string>, ids: seq<string>)
    | ApplyOrder(call: nat)
    | Remove(id: string, location: string)

  /** The reply of the call that a step ends, if it ends one. */
  datatype Reply = Silent | Answered(result: Result<Completion>) | Ordered(outcome: Result<()>)

  /** The answer completeUpload gives for a row it found. */
  function Found(media: Table, want: Request): Result<Completion>
    requires want.id in media
  {
    if media[want.id].location != want.location then Err(NotFound) else Ok(Completion(media[want.id], false))
  }

  function Next(w: World, step: Step): (World, Reply) {
    match step
    case Complete(c, want) => (if c in w.calls then w else w.(calls := w.calls[c := Finding(want)]), Silent)
    case Find(c) =>
      if c !in w.calls || !w.calls[c].Finding? then (w, Silent)
      else
        var want := w.calls[c].want;
        if want.id in w.media then (w.(calls := w.calls - {c}), Answered(Found(w.media, want)))
        else (w.(calls := w.calls[c := Verifying(want)]), Silent)
    case Head(c, uploaded) =>
      if c !in w.calls || !w.calls[c].Verifying? then (w, Silent)
      else if uploaded.Err? then (w.(calls := w.calls - {c}), Answered(Err(uploaded.error)))
      else (w.(calls := w.calls[c := Recording(w.calls[c].want)]), Silent)
    case RecordRow(c) =>
      if c !in w.calls || !w.calls[c].Recording? then (w, Silent)
      else
        var want := w.calls[c].want;
        var recorded := Record(w.media, want.id, want.location, want.section, want.position, want.storageKey);
        if recorded.Err? then (w.(calls := w.calls[c := FindingAgain(want)]), Silent)
        else
          (World(recorded.value, w.calls - {c}, w.history + [Created(want.id)]),
           Answered(Ok(Completion(recorded.value[want.id], true))))
    case FindAgain(c) =>
      if c !in w.calls || !w.calls[c].FindingAgain? then (w, Silent)
      else
        var want := w.calls[c].want;
        (w.(calls := w.calls - {c}), Answered(if want.id in w.media then Found(w.media, want) else Err(Internal)))
    case ReadGallery(c, location, section, ids) =>
      if c in w.calls then (w, Silent)
      else if !AcceptsOrder(w.media, location, section, ids) then (w, Ordered(Err(Validation)))
      else (w.(calls := w.calls[c := Reordering(location, section, ids)]), Silent)
    case ApplyOrder(c) =>
      if c !in w.calls || !w.calls[c].Reordering? then (w, Silent)
      else
        var Reordering(location, section, ids) := w.calls[c];
        var reordered := Reorder(w.media, location, section, ids);
        if reordered.Err? then (w.(calls := w.calls - {c}), Ordered(Err(Internal)))
        else (w.(media := reordered.value, calls := w.calls - {c}), Ordered(Ok(())))
    case Remove(id, location) =>
      var media := Delete(w.media, id, location);
      (if media == w.media then w else w.(media := media, history := w.history + [Removed(id)]), Silent)
  }

  function Run(w: World, steps: seq<Step>): World
    decreases |steps|
  {
    if steps == [] then w else Run(Next(w, steps[0]).0, steps[1..])
  }

  ghost predicate Opening(w: World) {
    w.media == map[] && w.calls == map[] && w.history == []
  }

  // ---------------------------------------------------------------------------------------------
  // Positions

  /** A completion that asks for no position of its own, or any step that is not a completion. */
  predicate Appends(step: Step) {
    step.Complete? ==> step.want.position.None?
  }

  predicate CallAppends(call: Call) {
    !call.Reordering? ==> call.want.position.None?
  }

  ghost predicate AllAppend(w: World) {
    forall c | c in w.calls :: CallAppends(w.calls[c])
  }

  lemma DeleteKeepsDistinct(media: Table, id: string, location: string)
    requires PositionsDistinct(media)
    ensures PositionsDistinct(Delete(media, id, location))
  {
  }

  lemma RecordKeepsPositions(w: World, c: nat)
    requires PositionsDistinct(w.media) && NonNegative(w.media) && AllAppend(w)
    ensures PositionsDistinct(Next(w, RecordRow(c)).0.media) && NonNegative(Next(w, RecordRow(c)).0.media)
  {
    if c in w.calls && w.calls[c].Recording? {
      var want := w.calls[c].want;
      assert CallAppends(w.calls[c]);
      if Record(w.media, want.id, want.location, want.section, want.position, want.storageKey).Ok? {
        RecordKeepsDistinctIff(w.media, want.id, want.location, want.section, want.position, want.storageKey);
      }
    }
  }

  lemma ApplyKeepsPositions(w: World, c: nat)
    requires PositionsDistinct(w.media) && NonNegative(w.media)
    ensures PositionsDistinct(Next(w, ApplyOrder(c)).0.media) && NonNegative(Next(w, ApplyOrder(c)).0.media)
  {
    if c in w.calls && w.calls[c].Reordering? {
      var Reordering(location, section, ids) := w.calls[c];
      if Reorder(w.media, location, section, ids).Ok? {
        ReorderKeepsDistinct(w.media, location, section, ids);
      }
    }
  }

  lemma StepKeepsAppending(w: World, step: Step)
    requires AllAppend(w) && Appends(step)
    ensures AllAppend(Next(w, step).0)
  {
    var w' := Next(w, step).0;
    forall c | c in w'.calls ensures CallAppends(w'.calls[c]) {
      if c in w.calls { assert CallAppends(w.calls[c]); }
    }
  }

  lemma StepKeepsPositions(w: World, step: Step)
    requires PositionsDistinct(w.media) && NonNegative(w.media) && AllAppend(w) && Appends(step)
    ensures PositionsDistinct(Next(w, step).0.media) && NonNegative(Next(w, step).0.media)
  {
    match step
    case RecordRow(c) => RecordKeepsPositions(w, c);
    case ApplyOrder(c) => ApplyKeepsPositions(w, c);
    case Remove(id, location) => DeleteKeepsDistinct(w.media, id, location);
    case _ =>
  }

  lemma {:induction false} RunKeepsPositions(w: World, steps: seq<Step>)
    requires PositionsDistinct(w.media) && NonNegative(w.media) && AllAppend(w)
    requires forall i | 0 <= i < |steps| :: Appends(steps[i])
    ensures PositionsDistinct(Run(w, steps).media) && NonNegative(Run(w, steps).media)
    decreases |steps|
  {
    if steps != [] {
      StepKeepsPositions(w, steps[0]);
      StepKeepsAppending(w, steps[0]);
      RunKeepsPositions(Next(w, steps[0]).0, steps[1..]);
    }
  }

  /**
   * From empty galleries, whatever append completions, deletions and reorders interleave, positions
   * are distinct in every gallery.
   */
  lemma AppendsKeepPositionsDistinct(start: World, steps: seq<Step>, a: string, b: string)
    requires Opening(start)
    requires forall i | 0 <= i < |steps| :: Appends(steps[i])
    ensures var media := Run(start, steps).media;
      a in media && b in media && a != b && SameGallery(media[a], media[b]) ==> media[a].position != media[b].position
  {
    RunKeepsPositions(start, steps);
  }

  /** The positions clash at once when a completion may name its own: any gallery of one photo shows it. */
  lemma ExplicitPositionClashes(media: Table, first: string, second: string, storageKey: string)
    requires first in media && second !in media && PositionsDistinct(media)
    ensures var row := media[first];
      var media' := Record(media, second, row.location, row.section, Some(row.position), storageKey);
      media'.Ok? && !PositionsDistinct(media'.value)
  {
    var row := media[first];
    assert first in Gallery(media, row.location, row.section);
    RecordKeepsDistinctIff(media, second, row.location, row.section, Some(row.position), storageKey);
  }

  // ---------------------------------------------------------------------------------------------
  // Idempotent completion

  /** Completing an upload in one indivisible step, for an object that was uploaded. */
  function AtomicComplete(media: Table, want: Request): (Table, Result<Completion>) {
    if want.id in media then (media, Found(media, want))
    else
      var row := NewRow(media, want.location, want.section, want.position, want.storageKey);
      (media[want.id := row], Ok(Completion(row, true)))
  }

  function Want(call: Call): Request
    requires !call.Reordering?
  {
    call.want
  }

  /**
   * Linearizability: a completion that succeeds, or is refused because its media id belongs to
   * another location, takes effect at its last statement exactly as an atomic completion would;
   * every other statement of a completion leaves the table alone.
   */
  lemma CompletionsLinearize(w: World, step: Step)
    requires step.Find? || step.Head? || step.RecordRow? || step.FindAgain?
    ensures var (w', reply) := Next(w, step);
      && (reply.Answered? && reply.result.Ok? ==>
            step.call in w.calls && !w.calls[step.call].Reordering?
            && (w'.media, reply.result) == AtomicComplete(w.media, Want(w.calls[step.call])))
      && (!(reply.Answered? && reply.result.Ok? && reply.result.value.created) ==> w'.media == w.media)
      && (reply.Answered? && reply.result.Ok? ==>
            reply.result.value.row.location == Want(w.calls[step.call]).location
            && w'.media[Want(w.calls[step.call]).id] == reply.result.value.row)
      && ((step.Find? || step.FindAgain?) && reply.Answered? && Want(w.calls[step.call]).id in w.media ==>
            (w'.media, reply.result) == AtomicComplete(w.media, Want(w.calls[step.call])))
  {
  }

  /** The operations, each in one indivisible step. */
  datatype Operation =
    | Completing(want: Request)
    | Ordering(location: string, section: Option<string>, ids: seq<string>)
    | Removing(id: string, location: string)

  function Atomically(media: Table, op: Operation): Table {
    match op
    case Completing(want) => AtomicComplete(media, want).0
    case Ordering(location, section, ids) =>
      var reordered := Reorder(media, location, section, ids);
      if reordered.Ok? then reordered.value else media
    case Removing(id, location) => Delete(media, id, location)
  }

  function OneByOne(media: Table, ops: seq<Operation>): Table
    decreases |ops|
  {
    if ops == [] then media else OneByOne(Atomically(media, ops[0]), ops[1..])
  }

  /** The operation that takes effect at a step: a call's does at its last statement, if it succeeds. */
  function TakesEffect(w: World, step: Step): seq<Operation> {
    var reply := Next(w, step).1;
    if reply.Answered? && reply.result.Ok? && step.call in w.calls && !w.calls[step.call].Reordering? then
      [Completing(Want(w.calls[step.call]))]
    else if step.ApplyOrder? && reply == Ordered(Ok(())) && step.call in w.calls && w.calls[step.call].Reordering? then
      var Reordering(location, section, ids) := w.calls[step.call];
      [Ordering(location, section, ids)]
    else if step.Remove? then [Removing(step.id, step.location)]
    else []
  }

  function AllEffects(w: World, steps: seq<Step>): seq<Operation>
    decreases |steps|
  {
    if steps == [] then [] else TakesEffect(w, steps[0]) + AllEffects(Next(w, steps[0]).0, steps[1..])
  }

  lemma StepIsAtomic(w: World, step: Step)
    ensures Next(w, step).0.media == OneByOne(w.media, TakesEffect(w, step))
  {
    var ops := TakesEffect(w, step);
    if ops != [] {
      assert ops[1..] == [];
      assert OneByOne(w.media, ops) == Atomically(w.media, ops[0]);
    }
  }

  lemma {:induction false} OneByOneSplits(media: Table, a: seq<Operation>, b: seq<Operation>)
    ensures OneByOne(media, a + b) == OneByOne(OneByOne(media, a), b)
    decreases |a|
  {
    if a == [] {
      assert a + b == b;
    } else {
      assert (a + b)[0] == a[0] && (a + b)[1..] == a[1..] + b;
      OneByOneSplits(Atomically(media, a[0]), a[1..], b);
    }
  }

  /**
   * Whatever the interleaving, the galleries end as the operations that took effect leave them,
   * executed one by one.
   */
  lemma {:induction false} InterleavingsAreSequential(w: World, steps: seq<Step>)
    ensures Run(w, steps).media == OneByOne(w.media, AllEffects(w, steps))
    decreases |steps|
  {
    if steps != [] {
      var w1 := Next(w, steps[0]).0;
      StepIsAtomic(w, steps[0]);
      InterleavingsAreSequential(w1, steps[1..]);
      OneByOneSplits(w.media, TakesEffect(w, steps[0]), AllEffects(w1, steps[1..]));
    }
  }

  /**
   * Insertions and removals of one media id alternate: it has been created once more than removed
   * exactly while present.
   */
  ghost predicate HistoryBalanced(w: World, id: string) {
    multiset(w.history)[Created(id)] == multiset(w.history)[Removed(id)] + if id in w.media then 1 else 0
  }

  lemma ReorderKeepsIds(media: Table, location: string, section: Option<string>, ids: seq<string>)
    requires Reorder(media, location, section, ids).Ok?
    ensures Reorder(media, location, section, ids).value.Keys == media.Keys
  {
  }

  lemma ApplyOrderKeepsBalance(w: World, c: nat, id: string)
    requires HistoryBalanced(w, id)
    ensures HistoryBalanced(Next(w, ApplyOrder(c)).0, id)
  {
    if c in w.calls && w.calls[c].Reordering? {
      var Reordering(location, section, ids) := w.calls[c];
      if Reorder(w.media, location, section, ids).Ok? {
        ReorderKeepsIds(w.media, location, section, ids);
      }
    }
  }

  lemma RecordKeepsBalance(w: World, c: nat, id: string)
    requires HistoryBalanced(w, id)
    ensures HistoryBalanced(Next(w, RecordRow(c)).0, id)
  {
    if c in w.calls && w.calls[c].Recording? {
      var other := w.calls[c].want.id;
    }
  }

  lemma RemoveKeepsBalance(w: World, removed: string, location: string, id: string)
    requires HistoryBalanced(w, id)
    ensures HistoryBalanced(Next(w, Remove(removed, location)).0, id)
  {
    if removed in w.media && w.media[removed].location == location {
      assert removed !in Delete(w.media, removed, location);
    } else {
      assert Next(w, Remove(removed, location)).0 == w;
    }
  }

  lemma StepKeepsBalance(w: World, step: Step, id: string)
    requires HistoryBalanced(w, id)
    ensures HistoryBalanced(Next(w, step).0, id)
  {
    match step
    case RecordRow(c) => RecordKeepsBalance(w, c, id);
    case ApplyOrder(c) => ApplyOrderKeepsBalance(w, c, id);
    case Remove(removed, location) => RemoveKeepsBalance(w, removed, location, id);
    case _ =>
  }

  lemma {:induction false} RunKeepsBalance(w: World, steps: seq<Step>, id: string)
    requires HistoryBalanced(w, id)
    ensures HistoryBalanced(Run(w, steps), id)
    decreases |steps|
  {
    if steps != [] {
      StepKeepsBalance(w, steps[0], id);
      RunKeepsBalance(Next(w, steps[0]).0, steps[1..], id);
    }
  }

  /**
   * At every moment of every run an absent media id has been created as often as removed and a
   * present one once more: until it is deleted exactly one call creates it, however many complete it.
   */
  lemma OneCreationPerLifetime(start: World, steps: seq<Step>, id: string)
    requires Opening(start)
    ensures var w := Run(start, steps);
      multiset(w.history)[Created(id)] == multiset(w.history)[Removed(id)] + if id in w.media then 1 else 0
  {
    RunKeepsBalance(start, steps, id);
  }

  /** A stale order is refused: what is applied was the whole gallery, each photo once, at that moment. */
  lemma AppliedOrderIsCurrent(w: World, c: nat)
    requires c in w.calls && w.calls[c].Reordering? && Next(w, ApplyOrder(c)).1 == Ordered(Ok(()))
    ensures var Reordering(location, section, ids) := w.calls[c]; var media' := Next(w, ApplyOrder(c)).0.media;
      && Distinct(ids) && (set id | id in ids) == Gallery(w.media, location, section)
      && (forall i | 0 <= i < |ids| :: ids[i] in media' && media'[ids[i]].position == i)
      && (forall id | id in w.media && id !in ids :: id in media' && media'[id] == w.media[id])
  {
    var Reordering(location, section, ids) := w.calls[c];
    AcceptedIffPermutation(w.media, location, section, ids);
    ReorderRenumbersGallery(w.media, location, section, ids);
  }

  // ---------------------------------------------------------------------------------------------
  // Calls that go through

  lemma RunStep(w: World, first: Step, rest: seq<Step>)
    ensures Run(w, [first] + rest) == Run(Next(w, first).0, rest)
  {
    assert ([first] + rest)[1..] == rest;
  }

  /** The row that a recording leaves: what was asked for, at the position asked for or one above the gallery. */
  ghost predicate RecordedAsWanted(media: Table, want: Request, row: Row) {
    && row.location == want.location && row.section == want.section && row.storageKey == want.storageKey
    && (want.position.Some? ==> row.position == want.position.value)
    && (want.position.None? ==>
          var gallery := Gallery(media, want.location, want.section);
          && (gallery == {} ==> row.position == 0)
          && (forall id | id in gallery :: row.position > media[id].position)
          && (gallery != {} ==> exists id :: id in gallery && row.position == media[id].position + 1))
  }

  lemma NewRowIsAsWanted(media: Table, want: Request)
    ensures RecordedAsWanted(media, want,
              NewRow(media, want.location, want.section, want.position, want.storageKey))
  {
    var gallery := Gallery(media, want.location, want.section);
    if want.position.None? && gallery != {} {
      assert Highest(media, gallery) in Positions(media, gallery);
    }
  }

  /** Left alone, a completion of a new, uploaded media id adds exactly its row and answers it as created. */
  lemma UncontestedCompletionRecords(w: World, c: nat, want: Request)
    requires c !in w.calls && want.id !in w.media
    ensures var w1 := Run(w, [Complete(c, want), Find(c), Head(c, Ok(()))]);
      var (w', reply) := Next(w1, RecordRow(c));
      && want.id in w'.media && w'.media == w.media[want.id := w'.media[want.id]]
      && RecordedAsWanted(w.media, want, w'.media[want.id])
      && reply == Answered(Ok(Completion(w'.media[want.id], true)))
      && c !in w'.calls
  {
    RunStep(w, Complete(c, want), [Find(c), Head(c, Ok(()))]);
    var w1 := Next(w, Complete(c, want)).0;
    RunStep(w1, Find(c), [Head(c, Ok(()))]);
    var w2 := Next(w1, Find(c)).0;
    RunStep(w2, Head(c, Ok(())), []);
    NewRowIsAsWanted(w.media, want);
  }

  /** An upload that is missing or unfit ends the call with that answer, and nothing is recorded. */
  lemma UnfitUploadIsRefused(w: World, c: nat, want: Request, error: Error)
    requires c !in w.calls && want.id !in w.media
    ensures var w1 := Run(w, [Complete(c, want), Find(c)]);
      Next(w1, Head(c, Err(error))) == (w, Answered(Err(error)))
  {
    RunStep(w, Complete(c, want), [Find(c)]);
    RunStep(Next(w, Complete(c, want)).0, Find(c), []);
    assert w.calls[c := Verifying(want)] - {c} == w.calls;
    assert w.calls[c := Finding(want)][c := Verifying(want)] == w.calls[c := Verifying(want)];
  }

  /** What a completion answers for a media id that is recorded: its row as stored, or that there is none here. */
  function Stored(media: Table, want: Request): Reply
    requires want.id in media
  {
    if media[want.id].location == want.location then Answered(Ok(Completion(media[want.id], false)))
    else Answered(Err(NotFound))
  }

  /** A completion that finds its media id recorded answers the stored row and changes nothing. */
  lemma ReplayedCompletionAnswersStored(w: World, c: nat, want: Request)
    requires c !in w.calls && want.id in w.media
    ensures Next(Next(w, Complete(c, want)).0, Find(c)) == (w, Stored(w.media, want))
  {
    assert w.calls[c := Finding(want)] - {c} == w.calls;
  }

  /** So does one that is beaten to it between its lookup and its recording. */
  lemma BeatenCompletionAnswersStored(w: World, c: nat, want: Request)
    requires c in w.calls && w.calls[c] == Recording(want) && want.id in w.media
    ensures var (w1, silent) := Next(w, RecordRow(c));
      && silent == Silent && w1.media == w.media
      && Next(w1, FindAgain(c)) == (w.(calls := w.calls - {c}), Stored(w.media, want))
  {
    assert w.calls[c := FindingAgain(want)] - {c} == w.calls - {c};
  }

  /** A completion whose rival's row is gone when it looks again is an internal error; so is a stale order. */
  lemma OvertakenCallsFail(w: World, c: nat)
    ensures c in w.calls && w.calls[c].FindingAgain? && w.calls[c].want.id !in w.media ==>
              Next(w, FindAgain(c)) == (w.(calls := w.calls - {c}), Answered(Err(Internal)))
    ensures c in w.calls && w.calls[c].Reordering?
            && !AcceptsOrder(w.media, w.calls[c].location, w.calls[c].section, w.calls[c].ids) ==>
              Next(w, ApplyOrder(c)) == (w.(calls := w.calls - {c}), Ordered(Err(Internal)))
  {
  }

  /** Left alone, an order that lists the whole non-empty gallery is applied, and any other is refused. */
  lemma UncontestedOrderIsApplied(w: World, c: nat, location: string, section: Option<string>, ids: seq<string>)
    requires c !in w.calls && ids != []
    ensures var (w1, early) := Next(w, ReadGallery(c, location, section, ids));
      if Distinct(ids) && (set id | id in ids) == Gallery(w.media, location, section) then
        var (w', reply) := Next(w1, ApplyOrder(c));
        && reply == Ordered(Ok(())) && w'.calls == w.calls
        && (forall i | 0 <= i < |ids| :: ids[i] in w'.media && w'.media[ids[i]].position == i)
        && (forall id | id in w.media && id !in ids :: id in w'.media && w'.media[id] == w.media[id])
      else w1 == w && early == Ordered(Err(Validation))
  {
    AcceptedIffPermutation(w.media, location, section, ids);
    if AcceptsOrder(w.media, location, section, ids) {
      var w1 := Next(w, ReadGallery(c, location, section, ids)).0;
      AppliedOrderIsCurrent(w1, c);
      assert w1.calls - {c} == w.calls;
    }
  }

  /** A removal removes that row, if it is of that location, and no other. */
  lemma RemovalRemoves(w: World, id: string, location: string)
    ensures var w' := Next(w, Remove(id, location)).0;
      && (forall other | other != id :: other in w'.media <==> other in w.media)
      && (forall other | other != id && other in w.media :: w'.media[other] == w.media[other])
      && (id in w'.media <==> id in w.media && w.media[id].location != location)
      && (id in w'.media ==> w'.media[id] == w.media[id])
  {
  }
}
