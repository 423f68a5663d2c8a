/**
 * Keyset pagination: src/modules/messaging/messages.service.ts (listMessages) and
 * conversations.service.ts (listConversations) page through rows ordered by (timestamp, id),
 * newest first, asking for one row more than the page. A table maps each row id to its ordering
 * timestamp: a message's never changes, a conversation's rises with every message in it.
 */
module Keyset {
  import opened Common

  datatype Key = Key(at: int, id: int)

  type Table = map<int, int>

  predicate Less(a: Key, b: Key) {
    a.at < b.at || (a.at == b.at && a.id < b.id)
  }

  predicate IsBelow(k: Key, cursor: Option<Key>) {
    cursor.None? || Less(k, cursor.value)
  }

  function Keys(t: Table): set<Key> {
    set id | id in t :: Key(t[id], id)
  }

  function Below(keys: set<Key>, cursor: Option<Key>): set<Key> {
    set k | k in keys && IsBelow(k, cursor)
  }

  ghost predicate Descending(s: seq<Key>) {
    forall i, j | 0 <= i < j < |s| :: Less(s[j], s[i])
  }

  // ---------------------------------------------------------------------------------------------
  // ORDER BY at DESC, id DESC LIMIT n

  ghost function Newest(keys: set<Key>): (k: Key)
    requires keys != {}
    ensures k in keys && forall o | o in keys && o != k :: Less(o, k)
  {
    NewestExists(keys);
    var k :| k in keys && forall o | o in keys && o != k :: Less(o, k);
    k
  }

  lemma {:induction false} NewestExists(keys: set<Key>)
    requires keys != {}
    ensures exists k :: k in keys && forall o | o in keys && o != k :: Less(o, k)
    decreases |keys|
  {
    var x :| x in keys;
    var rest := keys - {x};
    if rest == {} {
      assert keys == {x};
    } else {
      NewestExists(rest);
      var y :| y in rest && forall o | o in rest && o != y :: Less(o, y);
      var k := if Less(x, y) then y else x;
      forall o | o in keys && o != k ensures Less(o, k) {
        assert o == x || o in rest;
      }
    }
  }

  ghost function Fetch(keys: set<Key>, n: nat): seq<Key>
    decreases n
  {
    if n == 0 || keys == {} then [] else [Newest(keys)] + Fetch(keys - {Newest(keys)}, n - 1)
  }

  lemma {:induction false} FetchTakesNewest(keys: set<Key>, n: nat)
    ensures var s := Fetch(keys, n);
      && |s| == (if n < |keys| then n else |keys|)
      && Descending(s)
      && (forall i | 0 <= i < |s| :: s[i] in keys)
      && (forall k, i | k in keys && k !in s && 0 <= i < |s| :: Less(k, s[i]))
    decreases n
  {
    if n > 0 && keys != {} {
      var top := Newest(keys);
      FetchTakesNewest(keys - {top}, n - 1);
      assert |keys - {top}| == |keys| - 1;
      var s := Fetch(keys, n);
      forall k, i | k in keys && k !in s && 0 <= i < |s| ensures Less(k, s[i]) {
        assert k != top by { assert s[0] == top; }
        assert k in keys - {top} && k !in Fetch(keys - {top}, n - 1);
      }
    }
  }

  // ---------------------------------------------------------------------------------------------
  // One page

  /** The database clamps what it is asked for to between 1 and 101 rows. */
  function Clamp(n: int): nat {
    var capped := if n < 101 then n else 101;
    if capped > 1 then capped else 1
  }

  datatype Page = Page(cursor: Option<Key>, rows: seq<Key>, hasMore: bool, next: Option<Key>)

  ghost function ListPage(t: Table, cursor: Option<Key>, limit: nat): Page {
    var fetched := Fetch(Below(Keys(t), cursor), Clamp(limit + 1));
    var hasMore := |fetched| > limit;
    var rows := if hasMore then fetched[..limit] else fetched;
    Page(cursor, rows, hasMore, if hasMore && rows != [] then Some(rows[|rows| - 1]) else None)
  }

  predicate ValidLimit(limit: int) { 1 <= limit <= 100 }

  /** All but the last of the rows fetched, when there is one row more than the limit. */
  lemma AllButLast(keys: set<Key>, limit: nat)
    requires 0 < limit < |keys|
    ensures var fetched := Fetch(keys, limit + 1);
      && |fetched| == limit + 1
      && Descending(fetched[..limit])
      && (forall i | 0 <= i < limit :: fetched[..limit][i] in keys)
      && (forall k | k in keys && k !in fetched[..limit] :: Less(k, fetched[limit - 1]))
  {
    FetchTakesNewest(keys, limit + 1);
    var fetched := Fetch(keys, limit + 1);
    var rows := fetched[..limit];
    forall i, j | 0 <= i < j < limit ensures Less(rows[j], rows[i]) {
      assert Less(fetched[j], fetched[i]);
    }
    forall k | k in keys && k !in rows ensures Less(k, fetched[limit - 1]) {
      assert fetched == rows + [fetched[limit]];
    }
  }

  /** The database gives what it is asked for, and no fewer than one row or more than 101. */
  lemma ClampedRead(n: int)
    ensures 1 <= n <= 101 ==> Clamp(n) == n
    ensures n < 1 ==> Clamp(n) == 1
    ensures n > 101 ==> Clamp(n) == 101
  {
  }

  /** The limits a query may name are those that leave room for the extra row. */
  lemma ExtraRowFits(limit: int)
    ensures ValidLimit(limit) <==> limit >= 1 && Clamp(limit + 1) == limit + 1
  {
  }

  lemma FullPage(t: Table, cursor: Option<Key>, limit: nat)
    requires ValidLimit(limit) && |Below(Keys(t), cursor)| > limit
    ensures var p := ListPage(t, cursor, limit); var below := Below(Keys(t), cursor);
      && |p.rows| == limit && p.hasMore && p.next == Some(p.rows[limit - 1])
      && Descending(p.rows)
      && (forall i | 0 <= i < limit :: p.rows[i] in below)
      && (forall k | k in below && k !in p.rows :: Less(k, p.next.value))
  {
    AllButLast(Below(Keys(t), cursor), limit);
    assert ListPage(t, cursor, limit).rows == Fetch(Below(Keys(t), cursor), limit + 1)[..limit];
  }

  lemma ShortPage(t: Table, cursor: Option<Key>, limit: nat)
    requires ValidLimit(limit) && |Below(Keys(t), cursor)| <= limit
    ensures var p := ListPage(t, cursor, limit); var below := Below(Keys(t), cursor);
      && |p.rows| == |below| && !p.hasMore && p.next == None
      && Descending(p.rows)
      && (forall i | 0 <= i < |p.rows| :: p.rows[i] in below)
      && (forall k | k in below :: k in p.rows)
  {
    var below := Below(Keys(t), cursor);
    FetchTakesNewest(below, limit + 1);
    forall k | k in below ensures k in Fetch(below, limit + 1) { AllFetched(below, limit + 1, k); }
  }

  /** A page is the newest rows below its cursor; whatever it leaves out lies below its next cursor. */
  lemma PageIsNewestBelow(t: Table, cursor: Option<Key>, limit: nat)
    requires ValidLimit(limit)
    ensures var p := ListPage(t, cursor, limit); var below := Below(Keys(t), cursor);
      && |p.rows| == (if limit < |below| then limit else |below|)
      && (p.hasMore <==> |below| > limit) && (p.hasMore <==> p.next.Some?)
      && Descending(p.rows)
      && (forall i | 0 <= i < |p.rows| :: p.rows[i] in below)
      && (forall k | k in below && k !in p.rows :: p.next.Some? && Less(k, p.next.value))
      && (p.next.Some? ==> p.next.value == p.rows[|p.rows| - 1])
  {
    if |Below(Keys(t), cursor)| > limit { FullPage(t, cursor, limit); } else { ShortPage(t, cursor, limit); }
  }

  lemma {:induction false} AllFetched(keys: set<Key>, n: nat, k: Key)
    requires 0 < |keys| <= n && k in keys
    ensures k in Fetch(keys, n)
    decreases n
  {
    if k != Newest(keys) {
      assert k in keys - {Newest(keys)};
      AllFetched(keys - {Newest(keys)}, n - 1, k);
    }
  }

  // ---------------------------------------------------------------------------------------------
  // A walk: page after page, each read from the table as it then is

  /** `tables[i]` is the table at the i-th read; the walk stops at the first page without more. */
  ghost function Walk(tables: seq<Table>, cursor: Option<Key>, limit: nat): seq<Page>
    decreases |tables|
  {
    if tables == [] then []
    else
      var p := ListPage(tables[0], cursor, limit);
      [p] + if p.hasMore then Walk(tables[1..], p.next, limit) else []
  }

  /** What follows a page. */
  ghost function After(tables: seq<Table>, p: Page, limit: nat): seq<Page> {
    if p.hasMore && tables != [] then Walk(tables[1..], p.next, limit) else []
  }

  lemma WalkUnfolds(tables: seq<Table>, cursor: Option<Key>, limit: nat)
    requires tables != []
    ensures var p := ListPage(tables[0], cursor, limit); var walk := Walk(tables, cursor, limit);
      walk == [p] + After(tables, p, limit) && walk[0] == p && walk[1..] == After(tables, p, limit)
      && Rows(walk) == p.rows + Rows(After(tables, p, limit))
  {
  }

  ghost predicate Complete(walk: seq<Page>) {
    walk != [] && !walk[|walk| - 1].hasMore
  }

  ghost function Rows(walk: seq<Page>): seq<Key> {
    if walk == [] then [] else walk[0].rows + Rows(walk[1..])
  }

  /** Rows are only added, and a row's timestamp only rises. */
  ghost predicate Grows(a: Table, b: Table) {
    forall id | id in a :: id in b && b[id] >= a[id]
  }

  ghost predicate Growing(tables: seq<Table>) {
    forall i | 0 <= i < |tables| - 1 :: Grows(tables[i], tables[i + 1])
  }

  ghost predicate Unmoved(tables: seq<Table>, id: int) {
    forall i, j | 0 <= i < |tables| && 0 <= j < |tables| ::
      id in tables[i] && id in tables[j] && tables[i][id] == tables[j][id]
  }

  /** `rows` are strictly decreasing keys, all below the cursor. */
  ghost predicate DescendBelow(rows: seq<Key>, cursor: Option<Key>) {
    Descending(rows) && forall i | 0 <= i < |rows| :: IsBelow(rows[i], cursor)
  }

  lemma PageDescendsBelow(t: Table, cursor: Option<Key>, limit: nat)
    requires ValidLimit(limit)
    ensures DescendBelow(ListPage(t, cursor, limit).rows, cursor)
  {
    PageIsNewestBelow(t, cursor, limit);
    var rows := ListPage(t, cursor, limit).rows;
    forall i | 0 <= i < |rows| ensures IsBelow(rows[i], cursor) {
      assert rows[i] in Below(Keys(t), cursor);
    }
  }

  lemma DescentContinues(a: seq<Key>, b: seq<Key>, cursor: Option<Key>)
    requires DescendBelow(a, cursor)
    requires b != [] ==> a != [] && DescendBelow(b, Some(a[|a| - 1]))
    ensures DescendBelow(a + b, cursor)
  {
    if b != [] {
      var rows, last := a + b, a[|a| - 1];
      forall i, j | 0 <= i < j < |rows| ensures Less(rows[j], rows[i]) {
        if i < |a| <= j {
          assert Less(b[j - |a|], last);
          assert i == |a| - 1 || Less(last, a[i]);
        }
      }
      forall i | |a| <= i < |rows| ensures IsBelow(rows[i], cursor) {
        assert Less(b[i - |a|], last) && IsBelow(last, cursor);
      }
    } else {
      assert a + b == a;
    }
  }

  /** Whatever happens to the table meanwhile, a walk yields strictly decreasing keys below its cursor. */
  lemma {:induction false} WalkDescends(tables: seq<Table>, cursor: Option<Key>, limit: nat)
    requires ValidLimit(limit)
    ensures DescendBelow(Rows(Walk(tables, cursor, limit)), cursor)
    decreases |tables|
  {
    if tables != [] {
      var p := ListPage(tables[0], cursor, limit);
      WalkUnfolds(tables, cursor, limit);
      PageDescendsBelow(tables[0], cursor, limit);
      PageIsNewestBelow(tables[0], cursor, limit);
      if p.hasMore { WalkDescends(tables[1..], p.next, limit); }
      DescentContinues(p.rows, Rows(After(tables, p, limit)), cursor);
    }
  }

  /** A row at or above the cursor, whose timestamp can only rise, is never returned from there on. */
  lemma {:induction false} AboveIsNeverReturned(tables: seq<Table>, cursor: Option<Key>, limit: nat, id: int)
    requires ValidLimit(limit) && Growing(tables)
    requires tables != [] && id in tables[0] && !IsBelow(Key(tables[0][id], id), cursor)
    ensures forall r | r in Rows(Walk(tables, cursor, limit)) :: r.id != id
    decreases |tables|
  {
    var p := ListPage(tables[0], cursor, limit);
    PageIsNewestBelow(tables[0], cursor, limit);
    var walk := Walk(tables, cursor, limit);
    if p.hasMore && |tables| > 1 {
      assert Grows(tables[0], tables[1]);
      assert Less(p.next.value, cursor.value);
      AboveIsNeverReturned(tables[1..], p.next, limit, id);
    }
    assert walk[1..] == if p.hasMore then Walk(tables[1..], p.next, limit) else [];
  }

  ghost predicate Returns(walk: seq<Page>, id: int) {
    exists r :: r in Rows(walk) && r.id == id
  }

  /** A row on a page stays at or above the page's next cursor, so no later page returns it. */
  lemma LaterPagesSkip(tables: seq<Table>, cursor: Option<Key>, limit: nat, r: Key)
    requires ValidLimit(limit) && Growing(tables) && tables != []
    requires r in ListPage(tables[0], cursor, limit).rows
    ensures forall q | q in Rows(After(tables, ListPage(tables[0], cursor, limit), limit)) :: q.id != r.id
  {
    var p := ListPage(tables[0], cursor, limit);
    PageIsNewestBelow(tables[0], cursor, limit);
    if p.hasMore && |tables| > 1 {
      assert r in Below(Keys(tables[0]), cursor) && Grows(tables[0], tables[1]);
      assert !Less(r, p.next.value);
      AboveIsNeverReturned(tables[1..], p.next, limit, r.id);
    }
  }

  ghost predicate DistinctIds(rows: seq<Key>) {
    forall i, j | 0 <= i < j < |rows| :: rows[i].id != rows[j].id
  }

  lemma DistinctIdsConcat(a: seq<Key>, b: seq<Key>)
    requires DistinctIds(a) && DistinctIds(b)
    requires forall r, q | r in a && q in b :: q.id != r.id
    ensures DistinctIds(a + b)
  {
    var rows := a + b;
    forall i, j | 0 <= i < j < |rows| ensures rows[i].id != rows[j].id {
      if i < |a| <= j { assert rows[i] in a && rows[j] in b; }
    }
  }

  lemma PageHasDistinctIds(t: Table, cursor: Option<Key>, limit: nat)
    requires ValidLimit(limit)
    ensures DistinctIds(ListPage(t, cursor, limit).rows)
  {
    var p := ListPage(t, cursor, limit);
    PageIsNewestBelow(t, cursor, limit);
    forall i, j | 0 <= i < j < |p.rows| ensures p.rows[i].id != p.rows[j].id {
      assert p.rows[i] in Below(Keys(t), cursor) && p.rows[j] in Below(Keys(t), cursor);
      assert Less(p.rows[j], p.rows[i]);
    }
  }

  /** No row is returned twice, however the table grows between pages. */
  lemma {:induction false} NoRowTwice(tables: seq<Table>, cursor: Option<Key>, limit: nat)
    requires ValidLimit(limit) && Growing(tables)
    ensures DistinctIds(Rows(Walk(tables, cursor, limit)))
    decreases |tables|
  {
    if tables != [] {
      var p := ListPage(tables[0], cursor, limit);
      WalkUnfolds(tables, cursor, limit);
      PageHasDistinctIds(tables[0], cursor, limit);
      NoRowTwice(tables[1..], p.next, limit);
      var later := Rows(After(tables, p, limit));
      forall r, q | r in p.rows && q in later ensures q.id != r.id {
        LaterPagesSkip(tables, cursor, limit, r);
      }
      DistinctIdsConcat(p.rows, later);
    }
  }

  /** The row is lifted to or above the cursor before any page has returned it. */
  ghost predicate LiftedAway(tables: seq<Table>, walk: seq<Page>, id: int)
    requires |walk| <= |tables|
  {
    exists i :: 0 <= i < |walk| && id in tables[i]
      && !IsBelow(Key(tables[i][id], id), walk[i].cursor) && !Returns(walk[..i], id)
  }

  lemma {:induction false} WalkLength(tables: seq<Table>, cursor: Option<Key>, limit: nat)
    ensures |Walk(tables, cursor, limit)| <= |tables|
    decreases |tables|
  {
    if tables != [] {
      WalkLength(tables[1..], ListPage(tables[0], cursor, limit).next, limit);
    }
  }

  /**
   * A complete walk returns a row that was below its cursor at the start exactly when the row is
   * not lifted away first. Messages never move; a conversation does when a message arrives in it.
   */
  lemma {:induction false} ReturnedUnlessLiftedAway(tables: seq<Table>, cursor: Option<Key>, limit: nat, id: int)
    requires ValidLimit(limit) && Growing(tables)
    requires Complete(Walk(tables, cursor, limit))
    requires tables != [] && id in tables[0] && IsBelow(Key(tables[0][id], id), cursor)
    ensures |Walk(tables, cursor, limit)| <= |tables|
    ensures Returns(Walk(tables, cursor, limit), id) <==> !LiftedAway(tables, Walk(tables, cursor, limit), id)
    decreases |tables|
  {
    WalkLength(tables, cursor, limit);
    WalkUnfolds(tables, cursor, limit);
    var p, walk := ListPage(tables[0], cursor, limit), Walk(tables, cursor, limit);
    var k := Key(tables[0][id], id);
    if k in p.rows {
      OnFirstPage(tables, walk, k);
    } else {
      LeftForLater(tables[0], cursor, limit, id);
      assert Grows(tables[0], tables[1]);
      WalkLength(tables[1..], p.next, limit);
      FirstPageIsNoMatter(tables, walk, id);
      if IsBelow(Key(tables[1][id], id), p.next) {
        ReturnedUnlessLiftedAway(tables[1..], p.next, limit, id);
      } else {
        LiftedAtOnce(tables[1..], p.next, limit, id);
      }
    }
  }

  lemma LeftForLater(t: Table, cursor: Option<Key>, limit: nat, id: int)
    requires ValidLimit(limit) && id in t && IsBelow(Key(t[id], id), cursor)
    requires Key(t[id], id) !in ListPage(t, cursor, limit).rows
    ensures var p := ListPage(t, cursor, limit);
      p.hasMore && p.next.Some? && forall r | r in p.rows :: r.id != id
  {
    PageIsNewestBelow(t, cursor, limit);
    assert Key(t[id], id) in Below(Keys(t), cursor);
    NotOnFirstPage(t, ListPage(t, cursor, limit), id);
  }

  lemma OnFirstPage(tables: seq<Table>, walk: seq<Page>, k: Key)
    requires 1 <= |walk| <= |tables| && k in walk[0].rows
    requires k.id in tables[0] && IsBelow(Key(tables[0][k.id], k.id), walk[0].cursor)
    ensures Returns(walk, k.id) && !LiftedAway(tables, walk, k.id)
  {
    FirstPageReturns(walk, k);
    forall i | 0 < i < |walk| ensures Returns(walk[..i], k.id) {
      FirstPageReturns(walk[..i], k);
    }
  }

  lemma LiftedAtOnce(tables: seq<Table>, cursor: Option<Key>, limit: nat, id: int)
    requires ValidLimit(limit) && Growing(tables)
    requires tables != [] && id in tables[0] && !IsBelow(Key(tables[0][id], id), cursor)
    ensures |Walk(tables, cursor, limit)| <= |tables|
    ensures !Returns(Walk(tables, cursor, limit), id) && LiftedAway(tables, Walk(tables, cursor, limit), id)
  {
    AboveIsNeverReturned(tables, cursor, limit, id);
    WalkLength(tables, cursor, limit);
    var walk := Walk(tables, cursor, limit);
    assert !Returns(walk[..0], id) && walk[0].cursor == cursor;
  }

  lemma FirstPageIsNoMatter(tables: seq<Table>, walk: seq<Page>, id: int)
    requires 1 <= |walk| <= |tables| && id in tables[0] && IsBelow(Key(tables[0][id], id), walk[0].cursor)
    requires forall r | r in walk[0].rows :: r.id != id
    ensures Returns(walk, id) <==> Returns(walk[1..], id)
    ensures LiftedAway(tables, walk, id) <==> LiftedAway(tables[1..], walk[1..], id)
  {
    forall i | 0 <= i <= |walk| - 1 ensures Returns(walk[..i + 1], id) <==> Returns(walk[1..][..i], id) {
      assert walk[..i + 1] == [walk[0]] + walk[1..][..i];
      SkipFirstPage(walk[0], walk[1..][..i], id);
    }
    assert walk == [walk[0]] + walk[1..];
    SkipFirstPage(walk[0], walk[1..], id);
    LiftShifts(tables, walk, id);
  }

  lemma FirstPageReturns(walk: seq<Page>, k: Key)
    requires walk != [] && k in walk[0].rows
    ensures Returns(walk, k.id)
  {
    assert k in Rows(walk);
  }

  lemma NotOnFirstPage(t: Table, p: Page, id: int)
    requires id in t && Key(t[id], id) !in p.rows
    requires forall i | 0 <= i < |p.rows| :: p.rows[i] in Keys(t)
    ensures forall r | r in p.rows :: r.id != id
  {
  }

  lemma SkipFirstPage(p: Page, rest: seq<Page>, id: int)
    requires forall r | r in p.rows :: r.id != id
    ensures Returns([p] + rest, id) <==> Returns(rest, id)
  {
    assert ([p] + rest)[1..] == rest;
    assert Rows([p] + rest) == p.rows + Rows(rest);
  }

  lemma LiftShifts(tables: seq<Table>, walk: seq<Page>, id: int)
    requires 1 <= |walk| <= |tables| && id in tables[0] && IsBelow(Key(tables[0][id], id), walk[0].cursor)
    requires forall i | 0 <= i <= |walk| - 1 :: Returns(walk[..i + 1], id) <==> Returns(walk[1..][..i], id)
    ensures LiftedAway(tables, walk, id) <==> LiftedAway(tables[1..], walk[1..], id)
  {
    if LiftedAway(tables, walk, id) {
      var i :| 0 <= i < |walk| && id in tables[i] && !IsBelow(Key(tables[i][id], id), walk[i].cursor)
          && !Returns(walk[..i], id);
      assert tables[1..][i - 1] == tables[i] && walk[1..][i - 1] == walk[i];
      assert !Returns(walk[1..][..i - 1], id);
    }
    if LiftedAway(tables[1..], walk[1..], id) {
      var i :| 0 <= i < |walk[1..]| && id in tables[1..][i]
          && !IsBelow(Key(tables[1..][i][id], id), walk[1..][i].cursor) && !Returns(walk[1..][..i], id);
      assert tables[i + 1] == tables[1..][i] && walk[i + 1] == walk[1..][i];
      assert !Returns(walk[..i + 1], id);
    }
  }

  /** Every row present at the start whose timestamp does not move is returned, ties and inserts notwithstanding. */
  lemma {:induction false} UnmovedIsReturned(tables: seq<Table>, cursor: Option<Key>, limit: nat, id: int)
    requires ValidLimit(limit) && Complete(Walk(tables, cursor, limit))
    requires tables != [] && Unmoved(tables, id) && id in tables[0] && IsBelow(Key(tables[0][id], id), cursor)
    ensures Key(tables[0][id], id) in Rows(Walk(tables, cursor, limit))
    decreases |tables|
  {
    var walk := Walk(tables, cursor, limit);
    var p := ListPage(tables[0], cursor, limit);
    PageIsNewestBelow(tables[0], cursor, limit);
    var k := Key(tables[0][id], id);
    assert k in Below(Keys(tables[0]), cursor);
    if k !in p.rows {
      var rest := Walk(tables[1..], p.next, limit);
      assert walk[1..] == rest && Complete(rest);
      assert tables[1][id] == tables[0][id];
      UnmovedIsReturned(tables[1..], p.next, limit, id);
    }
  }

  /** A history walk returns every message present at its start exactly once. */
  lemma MessageReturnedExactlyOnce(tables: seq<Table>, limit: nat, id: int)
    requires ValidLimit(limit) && Growing(tables) && Complete(Walk(tables, None, limit))
    requires tables != [] && id in tables[0] && Unmoved(tables, id)
    ensures var rows := Rows(Walk(tables, None, limit));
      exists i :: 0 <= i < |rows| && rows[i] == Key(tables[0][id], id)
                  && forall j | 0 <= j < |rows| && j != i :: rows[j].id != id
  {
    UnmovedIsReturned(tables, None, limit, id);
    NoRowTwice(tables, None, limit);
    var rows := Rows(Walk(tables, None, limit));
    var i :| 0 <= i < |rows| && rows[i] == Key(tables[0][id], id);
  }

  /** With its two rows, a page of one holds the newer and points at it. */
  lemma FirstPageOfTwo(t: Table, low: Key, high: Key)
    requires t == map[low.id := low.at, high.id := high.at] && low.id != high.id && Less(low, high)
    ensures var p := ListPage(t, None, 1); p.rows == [high] && p.hasMore && p.next == Some(high)
  {
    assert Below(Keys(t), None) == {low, high} by {
      assert t[low.id] == low.at && t[high.id] == high.at;
    }
    PageIsNewestBelow(t, None, 1);
  }

  lemma EmptyPage(t: Table, cursor: Option<Key>, limit: nat)
    requires ValidLimit(limit) && Below(Keys(t), cursor) == {}
    ensures !ListPage(t, cursor, limit).hasMore && ListPage(t, cursor, limit).rows == []
  {
    PageIsNewestBelow(t, cursor, limit);
  }

  /** The inbox walk can miss a conversation: a message arriving between two pages lifts it over the cursor. */
  lemma ConversationCanBeMissed()
    ensures var before := map[1 := 10, 2 := 20]; var after := before[1 := 30];
      var walk := Walk([before, after], None, 1);
      Growing([before, after]) && Complete(walk) && !Returns(walk, 1)
  {
    var before: Table := map[1 := 10, 2 := 20];
    var after := before[1 := 30];
    var tables := [before, after];
    FirstPageOfTwo(before, Key(10, 1), Key(20, 2));
    var p := ListPage(before, None, 1);
    WalkUnfolds(tables, None, 1);
    assert tables[1..] == [after];
    assert Below(Keys(after), p.next) == {};
    EmptyPage(after, p.next, 1);
    WalkUnfolds([after], p.next, 1);
    SkipFirstPage(p, Walk([after], p.next, 1), 1);
  }

  // ---------------------------------------------------------------------------------------------
  // A table nobody writes to

  ghost predicate Quiet(tables: seq<Table>, t: Table) {
    forall i | 0 <= i < |tables| :: tables[i] == t
  }

  /** Full pages of `limit` rows and a last, possibly short one; a single empty page when there is nothing. */
  function PageCount(rows: nat, limit: nat): nat
    requires limit > 0
  {
    if rows <= limit then 1 else 1 + PageCount(rows - limit, limit)
  }

  lemma {:induction false} PageCountIsCeiling(rows: nat, limit: nat)
    requires limit > 0
    ensures rows == 0 ==> PageCount(rows, limit) == 1
    ensures rows > 0 ==> (PageCount(rows, limit) - 1) * limit < rows <= PageCount(rows, limit) * limit
  {
    if rows > limit {
      PageCountIsCeiling(rows - limit, limit);
      var n := PageCount(rows - limit, limit);
      assert (n + 1) * limit == n * limit + limit && n * limit == (n - 1) * limit + limit;
    } else {
      assert (1 - 1) * limit == 0 && 1 * limit == limit;
    }
  }

  /**
   * Over an unchanging table the walk is the sorted list, in as many pages as it takes; the rows
   * left below the cursor shrink by a full page each time.
   */
  lemma {:induction false} QuietWalkIsSortedList(tables: seq<Table>, t: Table, cursor: Option<Key>, limit: nat)
    requires ValidLimit(limit) && Quiet(tables, t)
    requires |tables| >= PageCount(|Below(Keys(t), cursor)|, limit)
    ensures var walk := Walk(tables, cursor, limit);
      && Complete(walk)
      && |walk| == PageCount(|Below(Keys(t), cursor)|, limit)
      && Rows(walk) == Sorted(t, cursor)
    decreases |tables|
  {
    PageSize(t, cursor, limit);
    if ListPage(t, cursor, limit).hasMore {
      RestOfPage(t, cursor, limit);
      QuietWalkIsSortedList(tables[1..], t, ListPage(t, cursor, limit).next, limit);
      WalkGoesOn(tables, cursor, limit);
    } else {
      LastPage(t, cursor, limit);
      WalkStops(tables, cursor, limit);
    }
  }

  lemma WalkGoesOn(tables: seq<Table>, cursor: Option<Key>, limit: nat)
    requires tables != [] && ListPage(tables[0], cursor, limit).hasMore
    ensures var p := ListPage(tables[0], cursor, limit);
      var walk := Walk(tables, cursor, limit); var rest := Walk(tables[1..], p.next, limit);
      && |walk| == 1 + |rest| && Rows(walk) == p.rows + Rows(rest)
      && (Complete(rest) ==> Complete(walk))
  {
    WalkUnfolds(tables, cursor, limit);
  }

  lemma WalkStops(tables: seq<Table>, cursor: Option<Key>, limit: nat)
    requires tables != [] && !ListPage(tables[0], cursor, limit).hasMore
    ensures var walk := Walk(tables, cursor, limit);
      |walk| == 1 && Complete(walk) && Rows(walk) == ListPage(tables[0], cursor, limit).rows
  {
    WalkUnfolds(tables, cursor, limit);
  }

  /** All the rows below the cursor, newest first. */
  ghost function Sorted(t: Table, cursor: Option<Key>): seq<Key> {
    Fetch(Below(Keys(t), cursor), |Below(Keys(t), cursor)|)
  }

  lemma PageSize(t: Table, cursor: Option<Key>, limit: nat)
    requires ValidLimit(limit)
    ensures ListPage(t, cursor, limit).hasMore <==> |Below(Keys(t), cursor)| > limit
  {
    PageIsNewestBelow(t, cursor, limit);
  }

  lemma LastPage(t: Table, cursor: Option<Key>, limit: nat)
    requires ValidLimit(limit) && !ListPage(t, cursor, limit).hasMore
    ensures ListPage(t, cursor, limit).rows == Sorted(t, cursor)
  {
    PageSize(t, cursor, limit);
    FetchAll(Below(Keys(t), cursor), |Below(Keys(t), cursor)|, limit + 1);
  }

  /** Asking for fewer rows of the same set yields a prefix. */
  lemma {:induction false} FetchPrefix(keys: set<Key>, m: nat, n: nat)
    requires m <= n
    ensures |Fetch(keys, m)| <= |Fetch(keys, n)| && Fetch(keys, m) == Fetch(keys, n)[..|Fetch(keys, m)|]
    decreases n
  {
    if m > 0 && keys != {} {
      FetchPrefix(keys - {Newest(keys)}, m - 1, n - 1);
    }
  }

  lemma FetchAll(keys: set<Key>, m: nat, n: nat)
    requires |keys| <= m && |keys| <= n
    ensures Fetch(keys, m) == Fetch(keys, n)
  {
    FetchTakesNewest(keys, m);
    FetchTakesNewest(keys, n);
    if m <= n { FetchPrefix(keys, m, n); } else { FetchPrefix(keys, n, m); }
  }

  lemma FullPageIsPrefix(below: set<Key>, limit: nat)
    requires limit < |below|
    ensures |Fetch(below, limit + 1)| == limit + 1 && |Fetch(below, limit)| == limit
    ensures Fetch(below, limit + 1)[..limit] == Fetch(below, limit)
  {
    FetchPrefix(below, limit, limit + 1);
    FetchTakesNewest(below, limit);
    FetchTakesNewest(below, limit + 1);
  }

  /** Below the next cursor lies exactly what the page did not take. */
  lemma RestIsWhatWasNotTaken(t: Table, cursor: Option<Key>, limit: nat)
    requires ValidLimit(limit) && ListPage(t, cursor, limit).hasMore
    ensures var p := ListPage(t, cursor, limit);
      Below(Keys(t), p.next) == Below(Keys(t), cursor) - (set k | k in p.rows)
  {
    var p, below := ListPage(t, cursor, limit), Below(Keys(t), cursor);
    PageIsNewestBelow(t, cursor, limit);
    var last := p.next.value;
    assert last in below;
    forall k ensures k in Below(Keys(t), p.next) <==> k in below && k !in p.rows {
      if k in p.rows { assert !Less(k, last); }
    }
  }

  /** What a full page leaves is the rest of the sorted list. */
  lemma RestOfPage(t: Table, cursor: Option<Key>, limit: nat)
    requires ValidLimit(limit) && ListPage(t, cursor, limit).hasMore
    ensures var p := ListPage(t, cursor, limit);
      && |Below(Keys(t), p.next)| == |Below(Keys(t), cursor)| - limit
      && Sorted(t, cursor) == p.rows + Sorted(t, p.next)
  {
    var below := Below(Keys(t), cursor);
    PageSize(t, cursor, limit);
    RestIsWhatWasNotTaken(t, cursor, limit);
    FullPageIsPrefix(below, limit);
    TakingSplits(below, limit);
  }

  lemma TakenSize(keys: set<Key>, limit: nat)
    requires limit < |keys|
    ensures |keys - (set k | k in Fetch(keys, limit))| == |keys| - limit
  {
    FetchTakesNewest(keys, limit);
    var taken := set k | k in Fetch(keys, limit);
    DescendingIsDistinct(Fetch(keys, limit));
    assert taken <= keys;
  }

  lemma TakingSplits(keys: set<Key>, limit: nat)
    requires limit < |keys|
    ensures var head := Fetch(keys, limit); var rest := keys - (set k | k in head);
      |rest| == |keys| - limit && Fetch(keys, |keys|) == head + Fetch(rest, |rest|)
  {
    TakenSize(keys, limit);
    FetchSplit(keys, limit, |keys| - limit);
  }

  lemma {:induction false} DescendingIsDistinct(s: seq<Key>)
    requires Descending(s)
    ensures |set k | k in s| == |s|
  {
    if s != [] {
      var last := |s| - 1;
      DescendingIsDistinct(s[..last]);
      assert (set k | k in s) == (set k | k in s[..last]) + {s[last]};
      assert s[last] !in s[..last];
    }
  }

  lemma {:induction false} FetchSplit(keys: set<Key>, m: nat, n: nat)
    ensures var head := Fetch(keys, m);
      Fetch(keys, m + n) == head + Fetch(keys - (set k | k in head), n)
    decreases m
  {
    if keys == {} {
    } else if m == 0 {
      assert keys - (set k | k in Fetch(keys, 0)) == keys;
    } else {
      var top := Newest(keys);
      FetchSplit(keys - {top}, m - 1, n);
      var head := Fetch(keys - {top}, m - 1);
      assert keys - (set k | k in Fetch(keys, m)) == keys - {top} - (set k | k in head);
    }
  }
}
