/**
 * Media galleries: src/modules/media/media.service.ts and the two database functions it calls. A
 * gallery is the media of one location in one section, or in none. `media` is the table, keyed by
 * media id.
 */
module Galleries {
  import opened Common

  datatype Row = Row(location: string, section: Option<string>, position: int, storageKey: string)

  type Table = map<string, Row>

  function Gallery(media: Table, location: string, section: Option<string>): set<string> {
    set id | id in media && media[id].location == location && media[id].section == section
  }

  predicate SameGallery(a: Row, b: Row) {
    a.location == b.location && a.section == b.section
  }

  ghost predicate PositionsDistinct(media: Table) {
    forall a, b | a in media && b in media && a != b && SameGallery(media[a], media[b]) ::
      media[a].position != media[b].position
  }

  ghost predicate NonNegative(media: Table) {
    forall id | id in media :: media[id].position >= 0
  }

  // ---------------------------------------------------------------------------------------------
  // record_location_media: an explicit position is honoured, none appends at max + 1

  function Positions(media: Table, ids: set<string>): set<int>
    requires ids <= media.Keys
  {
    set id | id in ids :: media[id].position
  }

  function Highest(media: Table, ids: set<string>): (top: int)
    requires ids != {} && ids <= media.Keys
    ensures top in Positions(media, ids) && forall id | id in ids :: media[id].position <= top
  {
    HighestExists(media, ids);
    var top :| top in Positions(media, ids) && forall id | id in ids :: media[id].position <= top;
    top
  }

  lemma {:induction false} HighestExists(media: Table, ids: set<string>)
    requires ids != {} && ids <= media.Keys
    ensures exists top :: top in Positions(media, ids) && forall id | id in ids :: media[id].position <= top
    decreases |ids|
  {
    var x :| x in ids;
    var rest := ids - {x};
    assert media[x].position in Positions(media, ids);
    if rest != {} {
      HighestExists(media, rest);
      var top :| top in Positions(media, rest) && forall id | id in rest :: media[id].position <= top;
      assert top in Positions(media, ids);
      assert ids == rest + {x};
    } else {
      assert ids == {x};
    }
  }

  function NextPosition(media: Table, location: string, section: Option<string>): int {
    var gallery := Gallery(media, location, section);
    if gallery == {} then 0 else Highest(media, gallery) + 1
  }

  function NewRow(media: Table, location: string, section: Option<string>, position: Option<int>,
                  storageKey: string): Row {
    Row(location, section, position.GetOr(NextPosition(media, location, section)), storageKey)
  }

  /** `Err(Conflict)` is the primary-key violation. */
  function Record(media: Table, id: string, location: string, section: Option<string>,
                  position: Option<int>, storageKey: string): Result<Table>
  {
    if id in media then Err(Conflict) else Ok(media[id := NewRow(media, location, section, position, storageKey)])
  }

  /** An append lands above everything present in its gallery. */
  lemma AppendLandsOnTop(media: Table, location: string, section: Option<string>, storageKey: string, other: string)
    requires other in Gallery(media, location, section)
    ensures NewRow(media, location, section, None, storageKey).position > media[other].position
  {
  }

  /** Recording keeps positions distinct exactly when it appends, or names a position nobody has. */
  lemma RecordKeepsDistinctIff(media: Table, id: string, location: string, section: Option<string>,
                               position: Option<int>, storageKey: string)
    requires PositionsDistinct(media) && Record(media, id, location, section, position, storageKey).Ok?
    ensures PositionsDistinct(Record(media, id, location, section, position, storageKey).value)
      <==> position.None? || position.value !in Positions(media, Gallery(media, location, section))
  {
    var media' := Record(media, id, location, section, position, storageKey).value;
    if position.None? {
      forall other | other in Gallery(media, location, section) ensures media[other].position != media'[id].position {
        AppendLandsOnTop(media, location, section, storageKey, other);
      }
    } else if position.value in Positions(media, Gallery(media, location, section)) {
      var other :| other in Gallery(media, location, section) && media[other].position == position.value;
      assert SameGallery(media'[other], media'[id]) && other != id;
    } else {
      forall other | other in media && SameGallery(media[other], media'[id])
        ensures media[other].position != media'[id].position
      {
        assert other in Gallery(media, location, section);
      }
    }
  }

  // ---------------------------------------------------------------------------------------------
  // reorder_location_media

  /** The checks reorderMedia makes, which the database function repeats. */
  predicate AcceptsOrder(media: Table, location: string, section: Option<string>, ids: seq<string>) {
    && Distinct(ids)
    && (forall i | 0 <= i < |ids| :: ids[i] in Gallery(media, location, section))
    && |ids| == |Gallery(media, location, section)|
  }

  function IndexOf(ids: seq<string>, id: string): nat
    requires id in ids
  {
    if ids[0] == id then 0 else 1 + IndexOf(ids[1..], id)
  }

  lemma {:induction false} IndexOfFinds(ids: seq<string>, id: string)
    requires id in ids
    ensures IndexOf(ids, id) < |ids| && ids[IndexOf(ids, id)] == id
  {
    if ids[0] != id { IndexOfFinds(ids[1..], id); }
  }

  function Renumbered(media: Table, ids: seq<string>): Table {
    map id | id in media :: if id in ids then media[id].(position := IndexOf(ids, id)) else media[id]
  }

  /** The database function refuses an empty list, which the service's own checks let through. */
  function Reorder(media: Table, location: string, section: Option<string>, ids: seq<string>): Result<Table> {
    if ids == [] then Err(Internal)
    else if !AcceptsOrder(media, location, section, ids) then Err(Internal)
    else Ok(Renumbered(media, ids))
  }

  lemma {:induction false} DistinctSize(ids: seq<string>)
    requires Distinct(ids)
    ensures |set id | id in ids| == |ids|
  {
    if ids != [] {
      var last := |ids| - 1;
      DistinctSize(ids[..last]);
      assert (set id | id in ids) == (set id | id in ids[..last]) + {ids[last]};
      assert ids[last] !in ids[..last];
    }
  }

  lemma SameSizeSubset(a: set<string>, b: set<string>)
    requires a <= b && |a| == |b|
    ensures a == b
  {
    assert |b - a| == |b| - |a|;
    assert b == a + (b - a);
  }

  /** An order is accepted exactly when it lists the whole gallery, each photo once. */
  lemma AcceptedIffPermutation(media: Table, location: string, section: Option<string>, ids: seq<string>)
    ensures AcceptsOrder(media, location, section, ids)
      <==> Distinct(ids) && (set id | id in ids) == Gallery(media, location, section)
  {
    if Distinct(ids) {
      DistinctSize(ids);
      var listed := set id | id in ids;
      if AcceptsOrder(media, location, section, ids) {
        SameSizeSubset(listed, Gallery(media, location, section));
      } else if listed == Gallery(media, location, section) {
        forall i | 0 <= i < |ids| ensures ids[i] in Gallery(media, location, section) { assert ids[i] in listed; }
      }
    }
  }

  /** An accepted order lands on exactly 0..n-1 as listed, and touches nothing else of any row. */
  lemma ReorderRenumbersGallery(media: Table, location: string, section: Option<string>, ids: seq<string>)
    requires Reorder(media, location, section, ids).Ok?
    ensures var media' := Reorder(media, location, section, ids).value;
      && media'.Keys == media.Keys
      && (forall i | 0 <= i < |ids| :: ids[i] in media' && media'[ids[i]].position == i)
      && (forall id | id in media :: media'[id].(position := media[id].position) == media[id])
      && (forall id | id in media && id !in Gallery(media, location, section) :: media'[id] == media[id])
      && Gallery(media', location, section) == set id | id in ids
  {
    AcceptedIffPermutation(media, location, section, ids);
    var media' := Reorder(media, location, section, ids).value;
    forall i | 0 <= i < |ids| ensures ids[i] in media' && media'[ids[i]].position == i {
      IndexOfFinds(ids, ids[i]);
      assert ids[i] in Gallery(media, location, section);
    }
  }

  lemma ReorderKeepsDistinct(media: Table, location: string, section: Option<string>, ids: seq<string>)
    requires PositionsDistinct(media) && Reorder(media, location, section, ids).Ok?
    ensures PositionsDistinct(Reorder(media, location, section, ids).value)
  {
    AcceptedIffPermutation(media, location, section, ids);
    var media' := Reorder(media, location, section, ids).value;
    forall a, b | a in media' && b in media' && a != b && SameGallery(media'[a], media'[b])
      ensures media'[a].position != media'[b].position
    {
      assert a in ids <==> a in Gallery(media, location, section);
      assert b in ids <==> b in Gallery(media, location, section);
      if a in ids {
        IndexOfFinds(ids, a);
        IndexOfFinds(ids, b);
      }
    }
  }

  /** A reorder repairs even a gallery whose explicit positions collide. */
  lemma ReorderMakesDistinct(media: Table, location: string, section: Option<string>, ids: seq<string>, a: string,
                             b: string)
    requires Reorder(media, location, section, ids).Ok?
    requires a in Gallery(media, location, section) && b in Gallery(media, location, section) && a != b
    ensures var media' := Reorder(media, location, section, ids).value; media'[a].position != media'[b].position
  {
    AcceptedIffPermutation(media, location, section, ids);
    assert a in (set id | id in ids) && b in (set id | id in ids);
    IndexOfFinds(ids, a);
    IndexOfFinds(ids, b);
  }

  /** A later accepted order fully overrides an earlier one. */
  lemma LaterReorderOverrides(media: Table, location: string, section: Option<string>, earlier: seq<string>,
                              later: seq<string>)
    requires Reorder(media, location, section, earlier).Ok? && Reorder(media, location, section, later).Ok?
    ensures Reorder(Reorder(media, location, section, earlier).value, location, section, later)
         == Reorder(media, location, section, later)
  {
    var media' := Reorder(media, location, section, earlier).value;
    ReorderRenumbersGallery(media, location, section, earlier);
    assert Gallery(media', location, section) == Gallery(media, location, section);
    AcceptedIffPermutation(media, location, section, earlier);
    AcceptedIffPermutation(media, location, section, later);
    forall id | id in media ensures Renumbered(media', later)[id] == Renumbered(media, later)[id] {
      assert id in later <==> id in (set i | i in later);
      assert id in earlier <==> id in (set i | i in earlier);
    }
    assert Renumbered(media', later) == Renumbered(media, later);
  }

  // ---------------------------------------------------------------------------------------------
  // Why the renumbering takes two passes: the planned unique index on positions would be checked
  // after every row that a statement updates, and a statement updates its rows in no stated order.
  // `done` is the rows updated so far.

  function Vacating(media: Table, ids: seq<string>, done: set<string>): Table {
    map id | id in media ::
      if id in ids && id in done then media[id].(position := -(IndexOf(ids, id) + 1)) else media[id]
  }

  function Numbering(media: Table, ids: seq<string>, done: set<string>): Table {
    map id | id in media ::
      if id !in ids then media[id]
      else media[id].(position := if id in done then IndexOf(ids, id) else -(IndexOf(ids, id) + 1))
  }

  function Overwriting(media: Table, ids: seq<string>, done: set<string>): Table {
    map id | id in media :: if id in ids && id in done then media[id].(position := IndexOf(ids, id)) else media[id]
  }

  lemma ListedTogether(media: Table, location: string, section: Option<string>, ids: seq<string>, a: string, b: string)
    requires AcceptsOrder(media, location, section, ids)
    requires a in media && b in media && a != b && SameGallery(media[a], media[b])
    ensures a in ids <==> b in ids
    ensures a in ids && b in ids ==> IndexOf(ids, a) != IndexOf(ids, b)
  {
    AcceptedIffPermutation(media, location, section, ids);
    var listed := set id | id in ids;
    assert a in listed <==> b in listed;
    if a in ids {
      IndexOfFinds(ids, a);
      IndexOfFinds(ids, b);
    }
  }

  /** No row that the first pass has updated collides with any other, nor does any it has yet to update. */
  lemma VacatingNeverCollides(media: Table, location: string, section: Option<string>, ids: seq<string>,
                              done: set<string>)
    requires PositionsDistinct(media) && NonNegative(media) && AcceptsOrder(media, location, section, ids)
    ensures PositionsDistinct(Vacating(media, ids, done))
  {
    var media' := Vacating(media, ids, done);
    forall a, b | a in media' && b in media' && a != b && SameGallery(media'[a], media'[b])
      ensures media'[a].position != media'[b].position
    {
      ListedTogether(media, location, section, ids, a, b);
    }
  }

  /** Nor in the second pass. */
  lemma NumberingNeverCollides(media: Table, location: string, section: Option<string>, ids: seq<string>,
                               done: set<string>)
    requires PositionsDistinct(media) && AcceptsOrder(media, location, section, ids)
    ensures PositionsDistinct(Numbering(media, ids, done))
  {
    var media' := Numbering(media, ids, done);
    forall a, b | a in media' && b in media' && a != b && SameGallery(media'[a], media'[b])
      ensures media'[a].position != media'[b].position
    {
      ListedTogether(media, location, section, ids, a, b);
    }
  }

  /** Some listed photo moves onto the place that another listed photo held. */
  ghost predicate TakesAnothersPlace(media: Table, ids: seq<string>) {
    exists a, b :: Takes(media, ids, a, b)
  }

  predicate Takes(media: Table, ids: seq<string>, a: string, b: string) {
    a in ids && b in ids && a != b && b in media && media[b].position == IndexOf(ids, a)
  }

  /**
   * One pass is free of collisions, whatever order it takes the rows in, exactly when no photo takes
   * another's place.
   */
  lemma OnePassIsSafeIff(media: Table, location: string, section: Option<string>, ids: seq<string>)
    requires PositionsDistinct(media) && AcceptsOrder(media, location, section, ids)
    ensures (forall done :: PositionsDistinct(Overwriting(media, ids, done))) <==> !TakesAnothersPlace(media, ids)
  {
    if TakesAnothersPlace(media, ids) {
      var a, b :| Takes(media, ids, a, b);
      OnePassCollides(media, location, section, ids, a, b);
    } else {
      forall done ensures PositionsDistinct(Overwriting(media, ids, done)) {
        OnePassKeepsDistinct(media, location, section, ids, done);
      }
    }
  }

  lemma OnePassCollides(media: Table, location: string, section: Option<string>, ids: seq<string>, a: string, b: string)
    requires AcceptsOrder(media, location, section, ids) && Takes(media, ids, a, b)
    ensures !PositionsDistinct(Overwriting(media, ids, {a}))
  {
    AcceptedIffPermutation(media, location, section, ids);
    var listed := set id | id in ids;
    assert a in listed && b in listed;
    var media' := Overwriting(media, ids, {a});
    assert SameGallery(media'[a], media'[b]);
  }

  lemma OnePassKeepsDistinct(media: Table, location: string, section: Option<string>, ids: seq<string>,
                             done: set<string>)
    requires PositionsDistinct(media) && AcceptsOrder(media, location, section, ids) && !TakesAnothersPlace(media, ids)
    ensures PositionsDistinct(Overwriting(media, ids, done))
  {
    var media' := Overwriting(media, ids, done);
    forall a, b | a in media' && b in media' && a != b && SameGallery(media'[a], media'[b])
      ensures media'[a].position != media'[b].position
    {
      ListedTogether(media, location, section, ids, a, b);
      assert !Takes(media, ids, a, b) && !Takes(media, ids, b, a);
    }
  }

  function Delete(media: Table, id: string, location: string): Table {
    if id in media && media[id].location == location then media - {id} else media
  }

  /** What the two functions refuse, and with which error. */
  lemma GalleryRefusals(media: Table, id: string, location: string, section: Option<string>, position: Option<int>,
                        storageKey: string, ids: seq<string>)
    ensures Record(media, id, location, section, position, storageKey) == Err(Conflict) <==> id in media
    ensures Record(media, id, location, section, position, storageKey).Ok? <==> id !in media
    ensures Reorder(media, location, section, ids).Ok? || Reorder(media, location, section, ids) == Err(Internal)
    ensures Reorder(media, location, section, ids).Ok? <==>
              ids != [] && Distinct(ids) && (set i | i in ids) == Gallery(media, location, section)
  {
    AcceptedIffPermutation(media, location, section, ids);
  }

  /** The first pass gives the photos listed so far the positions -1, -2, -3 and so on, and leaves the rest. */
  lemma VacatedPositions(media: Table, ids: seq<string>, done: set<string>, id: string)
    requires id in media
    ensures var after := Vacating(media, ids, done)[id];
      && (id in ids && id in done ==> -|ids| <= after.position < 0 && ids[-after.position - 1] == id)
      && (id !in ids || id !in done ==> after == media[id])
      && after.(position := media[id].position) == media[id]
  {
    if id in ids { IndexOfFinds(ids, id); }
  }

  /** The second pass takes each photo from there to its place in the list. */
  lemma NumberedPositions(media: Table, ids: seq<string>, done: set<string>, id: string)
    requires id in media
    ensures var before := Vacating(media, ids, media.Keys)[id]; var after := Numbering(media, ids, done)[id];
      && (id in ids && id in done ==> 0 <= after.position < |ids| && ids[after.position] == id)
      && (id !in ids || id !in done ==> after == before)
      && after.(position := media[id].position) == media[id]
  {
    if id in ids { IndexOfFinds(ids, id); }
  }

  // ---------------------------------------------------------------------------------------------
  // The statements over a mutable table

  class MediaTable {
    var media: Table

    constructor ()
      ensures media == map[]
    {
      media := map[];
    }

    method RecordLocationMedia(id: string, location: string, section: Option<string>,
                               position: Option<int>, storageKey: string) returns (result: Result<Row>)
      modifies this
      ensures var recorded := Record(old(media), id, location, section, position, storageKey);
        && media == (if recorded.Ok? then recorded.value else old(media))
        && result == (if recorded.Ok? then Ok(media[id]) else Err(Conflict))
    {
      var resolved;
      if position.Some? {
        resolved := position.value;
      } else {
        resolved := MaxPlusOne(location, section);
      }
      if id in media {
        return Err(Conflict);
      }
      media := media[id := Row(location, section, resolved, storageKey)];
      return Ok(media[id]);
    }

    /** coalesce(max(position) + 1, 0) over the gallery. */
    method MaxPlusOne(location: string, section: Option<string>) returns (next: int)
      ensures next == NextPosition(media, location, section)
    {
      var gallery := Gallery(media, location, section);
      var left := gallery;
      next := 0;
      while left != {}
        invariant left <= gallery
        invariant left == gallery ==> next == 0
        invariant left != gallery ==> next - 1 in Positions(media, gallery)
        invariant forall id | id in gallery - left && left != gallery :: media[id].position < next
        decreases left
      {
        var id :| id in left;
        var p := media[id].position;
        assert p in Positions(media, gallery);
        if left == gallery || p >= next {
          next := p + 1;
        }
        left := left - {id};
      }
    }

    /** Two statements, the first vacating the non-negative positions. */
    method ReorderLocationMedia(location: string, ids: seq<string>,
                                section: Option<string>) returns (result: Result<()>)
      modifies this
      ensures var reordered := Reorder(old(media), location, section, ids);
        && media == (if reordered.Ok? then reordered.value else old(media))
        && result == (if reordered.Ok? then Ok(()) else Err(Internal))
    {
      if |ids| == 0 || !AcceptsOrder(media, location, section, ids) {
        return Err(Internal);
      }
      media := Vacating(media, ids, media.Keys);
      media := Numbering(media, ids, media.Keys);
      return Ok(());
    }

    method DeleteMedia(id: string, location: string) returns (result: Result<()>)
      modifies this
      ensures media == Delete(old(media), id, location)
      ensures result == if id in old(media) && old(media)[id].location == location then Ok(()) else Err(NotFound)
    {
      if id !in media || media[id].location != location {
        return Err(NotFound);
      }
      media := media - {id};
      return Ok(());
    }
  }
}
