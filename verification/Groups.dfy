/** Keyed rows and the groups a single pass over them makes. */
module Groups {
  import opened Common

  /** The values filed under `k`, in the order of the rows. */
  function Under<K(==), V>(rows: seq<(K, V)>, k: K): seq<V> {
    if rows == [] then []
    else
      var last := |rows| - 1;
      Under(rows[..last], k) + if rows[last].0 == k then [rows[last].1] else []
  }

  lemma UnderAppend<K, V>(rows: seq<(K, V)>, row: (K, V), k: K)
    ensures Under(rows + [row], k) == Under(rows, k) + if row.0 == k then [row.1] else []
  {
    assert (rows + [row])[..|rows|] == rows;
  }

  lemma {:induction false} UnderConcat<K, V>(a: seq<(K, V)>, b: seq<(K, V)>, k: K)
    ensures Under(a + b, k) == Under(a, k) + Under(b, k)
    decreases |b|
  {
    if b == [] {
      assert a + b == a;
    } else {
      var last := |b| - 1;
      assert a + b == (a + b[..last]) + [b[last]];
      UnderAppend(a + b[..last], b[last], k);
      UnderConcat(a, b[..last], k);
    }
  }

  predicate Covers<K(==), V>(keys: seq<K>, rows: seq<(K, V)>) {
    forall i | 0 <= i < |rows| :: rows[i].0 in keys
  }

  function Tagged<K, V>(k: K, values: seq<V>): (r: seq<(K, V)>)
    ensures |r| == |values|
  {
    seq(|values|, i requires 0 <= i < |values| => (k, values[i]))
  }

  /** The groups laid end to end again. */
  function Flatten<K(==), V>(keys: seq<K>, rows: seq<(K, V)>): seq<(K, V)> {
    if keys == [] then [] else Tagged(keys[0], Under(rows, keys[0])) + Flatten(keys[1..], rows)
  }

  lemma TaggedGrows<K, V>(rows: seq<(K, V)>, row: (K, V), k: K)
    ensures multiset(Tagged(k, Under(rows + [row], k)))
         == multiset(Tagged(k, Under(rows, k))) + if row.0 == k then multiset{row} else multiset{}
  {
    UnderAppend(rows, row, k);
    if row.0 == k {
      assert Tagged(k, Under(rows + [row], k)) == Tagged(k, Under(rows, k)) + [row];
    } else {
      assert Under(rows, k) + [] == Under(rows, k);
    }
  }

  lemma FlattenSplits<K, V>(keys: seq<K>, rows: seq<(K, V)>)
    requires keys != []
    ensures multiset(Flatten(keys, rows))
         == multiset(Tagged(keys[0], Under(rows, keys[0]))) + multiset(Flatten(keys[1..], rows))
  {
  }

  lemma {:induction false} FlattenGrows<K, V>(keys: seq<K>, rows: seq<(K, V)>, row: (K, V))
    requires Distinct(keys)
    ensures multiset(Flatten(keys, rows + [row]))
         == multiset(Flatten(keys, rows)) + if row.0 in keys then multiset{row} else multiset{}
  {
    if keys != [] {
      TaggedGrows(rows, row, keys[0]);
      FlattenGrows(keys[1..], rows, row);
      FlattenSplits(keys, rows);
      FlattenSplits(keys, rows + [row]);
      InTail(keys, row.0);
    }
  }

  lemma InTail<K>(keys: seq<K>, k: K)
    requires keys != [] && Distinct(keys)
    ensures k in keys <==> k == keys[0] || k in keys[1..]
    ensures k == keys[0] ==> k !in keys[1..]
  {
    assert keys == [keys[0]] + keys[1..];
  }

  /** Grouping loses no row and duplicates none. */
  lemma {:induction false} FlattenIsPermutation<K, V>(keys: seq<K>, rows: seq<(K, V)>)
    requires Distinct(keys) && Covers(keys, rows)
    ensures multiset(Flatten(keys, rows)) == multiset(rows)
  {
    if rows == [] {
      FlattenOfNothing<K, V>(keys);
    } else {
      var last := |rows| - 1;
      FlattenIsPermutation(keys, rows[..last]);
      FlattenGrows(keys, rows[..last], rows[last]);
      assert rows == rows[..last] + [rows[last]];
    }
  }

  lemma {:induction false} FlattenOfNothing<K, V>(keys: seq<K>)
    ensures Flatten<K, V>(keys, []) == []
  {
    if keys != [] { FlattenOfNothing<K, V>(keys[1..]); }
  }

  function Sizes<K(==), V>(keys: seq<K>, rows: seq<(K, V)>): nat {
    if keys == [] then 0 else |Under(rows, keys[0])| + Sizes(keys[1..], rows)
  }

  lemma {:induction false} SizesOfFlatten<K, V>(keys: seq<K>, rows: seq<(K, V)>)
    ensures Sizes(keys, rows) == |Flatten(keys, rows)|
  {
    if keys != [] { SizesOfFlatten(keys[1..], rows); }
  }

  /** The sizes of the groups add up to the rows read. */
  lemma SizesAddUp<K, V>(keys: seq<K>, rows: seq<(K, V)>)
    requires Distinct(keys) && Covers(keys, rows)
    ensures Sizes(keys, rows) == |rows|
  {
    SizesOfFlatten(keys, rows);
    FlattenIsPermutation(keys, rows);
    assert |multiset(Flatten(keys, rows))| == |multiset(rows)|;
  }

  ghost predicate NoLater<K>(keys: seq<K>, a: K, b: K) {
    forall p, q | 0 <= p < |keys| && 0 <= q < |keys| && keys[p] == a && keys[q] == b :: p <= q
  }

  /** The rows come in the order of the keys. */
  ghost predicate InKeyOrder<K, V>(keys: seq<K>, rows: seq<(K, V)>) {
    forall i, j | 0 <= i < j < |rows| :: NoLater(keys, rows[i].0, rows[j].0)
  }

  predicate AllUnder<K(==), V>(rows: seq<(K, V)>, k: K) {
    forall i | 0 <= i < |rows| :: rows[i].0 == k
  }

  predicate NoneUnder<K(==), V>(rows: seq<(K, V)>, k: K) {
    forall i | 0 <= i < |rows| :: rows[i].0 != k
  }

  lemma {:induction false} UnderAbsent<K, V>(rows: seq<(K, V)>, k: K)
    requires NoneUnder(rows, k)
    ensures Under(rows, k) == []
  {
    if rows != [] { UnderAbsent(rows[..|rows| - 1], k); }
  }

  /** The first value of a group is that of the first row filed under its key. */
  lemma {:induction false} FirstOfGroup<K, V>(rows: seq<(K, V)>, k: K) returns (i: nat)
    requires !NoneUnder(rows, k)
    ensures i < |rows| && Under(rows, k) != [] && rows[i] == (k, Under(rows, k)[0])
    ensures forall j | 0 <= j < i :: rows[j].0 != k
  {
    var last := |rows| - 1;
    if NoneUnder(rows[..last], k) {
      i := last;
      assert rows[last].0 == k;
      UnderAbsent(rows[..last], k);
    } else {
      i := FirstOfGroup(rows[..last], k);
    }
  }

  lemma {:induction false} UnderUniform<K, V>(rows: seq<(K, V)>, k: K)
    requires AllUnder(rows, k)
    ensures Tagged(k, Under(rows, k)) == rows
  {
    if rows != [] {
      var last := |rows| - 1;
      UnderUniform(rows[..last], k);
      assert rows == rows[..last] + [rows[last]];
    }
  }

  /** The length of the leading run of rows filed under `k`. */
  function Lead<K(==), V>(rows: seq<(K, V)>, k: K): (n: nat)
    ensures n <= |rows| && AllUnder(rows[..n], k) && (n < |rows| ==> rows[n].0 != k)
  {
    if rows == [] || rows[0].0 != k then 0
    else
      var m := Lead(rows[1..], k);
      assert rows[..m + 1] == [rows[0]] + rows[1..][..m];
      m + 1
  }

  lemma UnderSkips<K, V>(lead: seq<(K, V)>, rest: seq<(K, V)>, k: K, other: K)
    requires AllUnder(lead, k) && other != k
    ensures Under(lead + rest, other) == Under(rest, other)
  {
    UnderConcat(lead, rest, other);
    UnderAbsent(lead, other);
  }

  lemma {:induction false} FlattenWithout<K, V>(keys: seq<K>, lead: seq<(K, V)>, rest: seq<(K, V)>, k: K)
    requires k !in keys && AllUnder(lead, k)
    ensures Flatten(keys, lead + rest) == Flatten(keys, rest)
  {
    if keys != [] {
      UnderSkips(lead, rest, k, keys[0]);
      FlattenWithout(keys[1..], lead, rest, k);
    }
  }

  /** Rows that came in key order are put back exactly. */
  lemma {:induction false} FlattenRestores<K, V>(keys: seq<K>, rows: seq<(K, V)>)
    requires Distinct(keys) && Covers(keys, rows) && InKeyOrder(keys, rows)
    ensures Flatten(keys, rows) == rows
  {
    if rows == [] {
      FlattenOfNothing<K, V>(keys);
    } else {
      SomeKey(keys, rows);
      var n := Lead(rows, keys[0]);
      RestFits(keys, rows, n);
      FlattenRestores(keys[1..], rows[n..]);
      LeadThenRest(keys, rows, n);
    }
  }

  lemma LeadThenRest<K, V>(keys: seq<K>, rows: seq<(K, V)>, n: nat)
    requires keys != [] && keys[0] !in keys[1..] && n == Lead(rows, keys[0])
    requires Covers(keys[1..], rows[n..]) && Flatten(keys[1..], rows[n..]) == rows[n..]
    ensures Flatten(keys, rows) == rows
  {
    FlattenPeels(keys, rows[..n], rows[n..]);
    assert rows == rows[..n] + rows[n..];
  }

  lemma SomeKey<K, V>(keys: seq<K>, rows: seq<(K, V)>)
    requires rows != [] && Covers(keys, rows)
    ensures keys != []
  {
    assert rows[0].0 in keys;
  }

  lemma RestFits<K, V>(keys: seq<K>, rows: seq<(K, V)>, n: nat)
    requires keys != [] && Distinct(keys) && Covers(keys, rows) && InKeyOrder(keys, rows)
    requires n == Lead(rows, keys[0])
    ensures Distinct(keys[1..]) && keys[0] !in keys[1..]
    ensures Covers(keys[1..], rows[n..]) && InKeyOrder(keys[1..], rows[n..])
  {
    forall i | 0 <= i < |rows[n..]| ensures rows[n..][i].0 in keys[1..] {
      LaterRowsDiffer(keys, rows, n, n + i);
    }
    RestInKeyOrder(keys, rows, n);
  }

  lemma FlattenPeels<K, V>(keys: seq<K>, lead: seq<(K, V)>, rest: seq<(K, V)>)
    requires keys != [] && keys[0] !in keys[1..]
    requires AllUnder(lead, keys[0]) && Covers(keys[1..], rest)
    ensures Flatten(keys, lead + rest) == lead + Flatten(keys[1..], rest)
  {
    UnderConcat(lead, rest, keys[0]);
    assert NoneUnder(rest, keys[0]) by {
      forall i | 0 <= i < |rest| ensures rest[i].0 != keys[0] {
        assert rest[i].0 in keys[1..];
      }
    }
    UnderAbsent(rest, keys[0]);
    UnderUniform(lead, keys[0]);
    assert Under(lead, keys[0]) + [] == Under(lead, keys[0]);
    FlattenWithout(keys[1..], lead, rest, keys[0]);
  }

  lemma LaterRowsDiffer<K, V>(keys: seq<K>, rows: seq<(K, V)>, n: nat, i: nat)
    requires keys != [] && Distinct(keys) && Covers(keys, rows) && InKeyOrder(keys, rows)
    requires n == Lead(rows, keys[0]) && n <= i < |rows|
    ensures rows[i].0 in keys[1..]
  {
    assert rows[n].0 in keys && rows[i].0 in keys;
    var q :| 0 <= q < |keys| && rows[n].0 == keys[q];
    var p :| 0 <= p < |keys| && rows[i].0 == keys[p];
    assert n < i ==> NoLater(keys, rows[n].0, rows[i].0);
    assert 0 < q <= p || n == i;
    assert 0 < p && keys[p] == keys[1..][p - 1];
  }

  lemma RestInKeyOrder<K, V>(keys: seq<K>, rows: seq<(K, V)>, n: nat)
    requires keys != [] && n <= |rows| && InKeyOrder(keys, rows)
    ensures InKeyOrder(keys[1..], rows[n..])
  {
    forall i, j | 0 <= i < j < |rows[n..]| ensures NoLater(keys[1..], rows[n..][i].0, rows[n..][j].0) {
      assert NoLater(keys, rows[n + i].0, rows[n + j].0);
      NoLaterInTail(keys, rows[n + i].0, rows[n + j].0);
    }
  }

  lemma NoLaterInTail<K>(keys: seq<K>, a: K, b: K)
    requires keys != [] && NoLater(keys, a, b)
    ensures NoLater(keys[1..], a, b)
  {
    forall p, q | 0 <= p < |keys[1..]| && 0 <= q < |keys[1..]| && keys[1..][p] == a && keys[1..][q] == b
      ensures p <= q
    {
      assert keys[p + 1] == a && keys[q + 1] == b;
    }
  }
}
