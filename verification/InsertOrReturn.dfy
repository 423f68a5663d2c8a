/**
 * Insert-or-return-existing under races: sendMessage (src/modules/messaging/messages.service.ts)
 * keyed by (conversation, sender, client message id), and getOrCreateConversation
 * (src/modules/messaging/conversations.service.ts) keyed by (booker, location). An authorized call
 * inserts; on a unique violation it looks the existing row up. Each statement is one atomic step
 * and rows are never deleted.
 */
module InsertOrReturn {
  import opened Common

  /** `at` is the place of the call's own insert among all insert statements executed. */
  datatype Phase<K, V> = Ready(key: K, row: V) | Collided(key: K, at: nat)

  datatype Answer<K, V> = Answer(key: K, row: V, created: bool, at: nat)

  datatype Attempt<K, V> = Attempt(call: nat, key: K, row: V)

  /**
   * `attempts` lists the insert statements in the order they executed, `creators` the one that
   * created each row; both only record. `notified` holds the calls that sent a notification.
   */
  datatype World<!K, V> = World(
    rows: map<K, V>, calls: map<nat, Phase<K, V>>, answers: map<nat, Answer<K, V>>,
    failed: set<nat>, notified: set<nat>, attempts: seq<Attempt<K, V>>, creators: map<K, nat>)

  datatype Step<K, V> = Begin(call: nat, key: K, row: V) | Insert(call: nat) | LookUp(call: nat)

  function Next<K, V>(w: World<K, V>, step: Step<K, V>): World<K, V> {
    match step
    case Begin(c, key, row) =>
      if c in w.calls || c in w.answers || c in w.failed then w else w.(calls := w.calls[c := Ready(key, row)])
    case Insert(c) => if c in w.calls && w.calls[c].Ready? then InsertBy(w, c) else w
    case LookUp(c) => if c in w.calls && w.calls[c].Collided? then LookUpBy(w, c) else w
  }

  function InsertBy<K, V>(w: World<K, V>, c: nat): World<K, V>
    requires c in w.calls && w.calls[c].Ready?
  {
    var Ready(key, row) := w.calls[c];
    var at := |w.attempts|;
    var w1 := w.(attempts := w.attempts + [Attempt(c, key, row)]);
    if key in w.rows then w1.(calls := w.calls[c := Collided(key, at)])
    else
      w1.(rows := w.rows[key := row], calls := w.calls - {c}, creators := w.creators[key := at],
          answers := w.answers[c := Answer(key, row, true, at)], notified := w.notified + {c})
  }

  function LookUpBy<K, V>(w: World<K, V>, c: nat): World<K, V>
    requires c in w.calls && w.calls[c].Collided?
  {
    var Collided(key, at) := w.calls[c];
    var w1 := w.(calls := w.calls - {c});
    if key in w.rows then w1.(answers := w.answers[c := Answer(key, w.rows[key], false, at)])
    else w1.(failed := w.failed + {c})
  }

  function Run<K, V>(w: World<K, V>, steps: seq<Step<K, V>>): World<K, V>
    decreases |steps|
  {
    if steps == [] then w else Run(Next(w, steps[0]), steps[1..])
  }

  ghost predicate Opening<K, V>(w: World<K, V>) {
    && w.rows == map[] && w.calls == map[] && w.answers == map[]
    && w.failed == {} && w.notified == {} && w.attempts == [] && w.creators == map[]
  }

  // ---------------------------------------------------------------------------------------------
  // What every step keeps

  ghost predicate RowsRecorded<K, V>(w: World<K, V>) {
    && w.rows.Keys == w.creators.Keys
    && (forall k | k in w.rows :: w.creators[k] < |w.attempts|
          && w.attempts[w.creators[k]].key == k && w.attempts[w.creators[k]].row == w.rows[k])
    && (forall i | 0 <= i < |w.attempts| :: w.attempts[i].key in w.rows && w.creators[w.attempts[i].key] <= i)
  }

  ghost predicate CollisionRecorded<K, V>(w: World<K, V>, c: nat, key: K, at: nat) {
    && at < |w.attempts| && w.attempts[at].call == c && w.attempts[at].key == key
    && key in w.creators && w.creators[key] < at
  }

  ghost predicate AnswerRecorded<K, V>(w: World<K, V>, c: nat, a: Answer<K, V>) {
    && a.at < |w.attempts| && w.attempts[a.at].call == c && w.attempts[a.at].key == a.key
    && a.key in w.rows && a.key in w.creators && a.row == w.rows[a.key]
    && (a.created <==> w.creators[a.key] == a.at)
    && (c in w.notified <==> a.created)
  }

  ghost predicate CreatorAnswered<K, V>(w: World<K, V>, key: K) {
    && key in w.creators && w.creators[key] < |w.attempts|
    && var c := w.attempts[w.creators[key]].call;
    c in w.answers && w.answers[c].key == key && w.answers[c].created
  }

  ghost predicate Inv<K, V>(w: World<K, V>) {
    && RowsRecorded(w)
    && w.failed == {} && w.notified <= w.answers.Keys && w.calls.Keys !! w.answers.Keys
    && (forall c | c in w.calls && w.calls[c].Collided? :: CollisionRecorded(w, c, w.calls[c].key, w.calls[c].at))
    && (forall c | c in w.answers :: AnswerRecorded(w, c, w.answers[c]))
    && (forall k | k in w.creators :: CreatorAnswered(w, k))
  }

  lemma CollidingInsertKeeps<K, V>(w: World<K, V>, c: nat)
    requires Inv(w) && c in w.calls && w.calls[c].Ready? && w.calls[c].key in w.rows
    ensures Inv(InsertBy(w, c))
  {
    var w' := InsertBy(w, c);
    forall d | d in w'.calls && w'.calls[d].Collided?
      ensures CollisionRecorded(w', d, w'.calls[d].key, w'.calls[d].at)
    {
      if d != c { assert CollisionRecorded(w, d, w.calls[d].key, w.calls[d].at); }
    }
    forall d | d in w'.answers ensures AnswerRecorded(w', d, w'.answers[d]) {
      assert AnswerRecorded(w, d, w.answers[d]);
    }
    forall k | k in w'.creators ensures CreatorAnswered(w', k) { assert CreatorAnswered(w, k); }
  }

  lemma CreatingInsertKeeps<K, V>(w: World<K, V>, c: nat)
    requires Inv(w) && c in w.calls && w.calls[c].Ready? && w.calls[c].key !in w.rows
    ensures Inv(InsertBy(w, c))
  {
    CreationIsRecorded(w, c);
    CreationKeepsAnswers(w, c);
    CreationKeepsCollisions(w, c);
    CreationAnswers(w, c);
  }

  lemma CreationKeepsCollisions<K, V>(w: World<K, V>, c: nat)
    requires Inv(w) && c in w.calls && w.calls[c].Ready? && w.calls[c].key !in w.rows
    ensures var w' := InsertBy(w, c);
      forall d | d in w'.calls && w'.calls[d].Collided? :: CollisionRecorded(w', d, w'.calls[d].key, w'.calls[d].at)
  {
    var w' := InsertBy(w, c);
    forall d | d in w'.calls && w'.calls[d].Collided?
      ensures CollisionRecorded(w', d, w'.calls[d].key, w'.calls[d].at)
    {
      assert CollisionRecorded(w, d, w.calls[d].key, w.calls[d].at);
    }
  }

  lemma CreationAnswers<K, V>(w: World<K, V>, c: nat)
    requires Inv(w) && c in w.calls && w.calls[c].Ready? && w.calls[c].key !in w.rows
    ensures var w' := InsertBy(w, c); forall k | k in w'.creators :: CreatorAnswered(w', k)
  {
    var w' := InsertBy(w, c);
    forall k | k in w'.creators ensures CreatorAnswered(w', k) {
      if k != w.calls[c].key { assert CreatorAnswered(w, k); }
    }
  }

  lemma CreationKeepsAnswers<K, V>(w: World<K, V>, c: nat)
    requires Inv(w) && c in w.calls && w.calls[c].Ready? && w.calls[c].key !in w.rows
    ensures var w' := InsertBy(w, c); forall d | d in w'.answers :: AnswerRecorded(w', d, w'.answers[d])
  {
    var w' := InsertBy(w, c);
    forall d | d in w'.answers ensures AnswerRecorded(w', d, w'.answers[d]) {
      if d != c { assert AnswerRecorded(w, d, w.answers[d]); }
    }
  }

  lemma CreationIsRecorded<K, V>(w: World<K, V>, c: nat)
    requires RowsRecorded(w) && c in w.calls && w.calls[c].Ready? && w.calls[c].key !in w.rows
    ensures RowsRecorded(InsertBy(w, c))
  {
  }

  lemma InsertKeeps<K, V>(w: World<K, V>, c: nat)
    requires Inv(w) && c in w.calls && w.calls[c].Ready?
    ensures Inv(InsertBy(w, c))
  {
    if w.calls[c].key in w.rows { CollidingInsertKeeps(w, c); } else { CreatingInsertKeeps(w, c); }
  }

  lemma LookUpKeeps<K, V>(w: World<K, V>, c: nat)
    requires Inv(w) && c in w.calls && w.calls[c].Collided?
    ensures Inv(LookUpBy(w, c))
  {
    var w' := LookUpBy(w, c);
    assert CollisionRecorded(w, c, w.calls[c].key, w.calls[c].at);
    forall d | d in w'.calls && w'.calls[d].Collided?
      ensures CollisionRecorded(w', d, w'.calls[d].key, w'.calls[d].at)
    {
      assert CollisionRecorded(w, d, w.calls[d].key, w.calls[d].at);
    }
    forall d | d in w'.answers ensures AnswerRecorded(w', d, w'.answers[d]) {
      if d in w.answers { assert AnswerRecorded(w, d, w.answers[d]); }
    }
    forall k | k in w'.creators ensures CreatorAnswered(w', k) {
      if k in w.creators { assert CreatorAnswered(w, k); }
    }
  }

  lemma BeginKeeps<K, V>(w: World<K, V>, c: nat, key: K, row: V)
    requires Inv(w)
    ensures Inv(Next(w, Begin(c, key, row)))
  {
    var w' := Next(w, Begin(c, key, row));
    forall d | d in w'.calls && w'.calls[d].Collided?
      ensures CollisionRecorded(w', d, w'.calls[d].key, w'.calls[d].at)
    {
      assert CollisionRecorded(w, d, w.calls[d].key, w.calls[d].at);
    }
    forall d | d in w'.answers ensures AnswerRecorded(w', d, w'.answers[d]) {
      assert AnswerRecorded(w, d, w.answers[d]);
    }
    forall k | k in w'.creators ensures CreatorAnswered(w', k) { assert CreatorAnswered(w, k); }
  }

  lemma {:induction false} RunKeeps<K, V>(w: World<K, V>, steps: seq<Step<K, V>>)
    requires Inv(w)
    ensures Inv(Run(w, steps))
    decreases |steps|
  {
    if steps != [] {
      match steps[0] {
        case Begin(c, key, row) => BeginKeeps(w, c, key, row);
        case Insert(c) => if c in w.calls && w.calls[c].Ready? { InsertKeeps(w, c); }
        case LookUp(c) => if c in w.calls && w.calls[c].Collided? { LookUpKeeps(w, c); }
      }
      RunKeeps(Next(w, steps[0]), steps[1..]);
    }
  }

  // ---------------------------------------------------------------------------------------------
  // The sequential object the interleavings must match

  /** The first attempt on a key creates its row; `f` is that attempt for the key of attempt `i`. */
  ghost predicate IsFirstOn<K, V>(attempts: seq<Attempt<K, V>>, f: nat, i: nat) {
    && f <= i < |attempts| && attempts[f].key == attempts[i].key
    && forall j | 0 <= j < f :: attempts[j].key != attempts[i].key
  }

  /**
   * Linearizability: in every run each answered call answers what an atomic get-or-create would,
   * had the calls executed one after the other in the order of their insert statements: the first
   * attempt on its key creates, and everyone is given the row that attempt wrote.
   */
  lemma AnswersAreSequential<K, V>(start: World<K, V>, steps: seq<Step<K, V>>, c: nat)
    requires Opening(start) && c in Run(start, steps).answers
    ensures var w := Run(start, steps); var a := w.answers[c];
      && a.at < |w.attempts| && w.attempts[a.at].call == c && w.attempts[a.at].key == a.key
      && exists f: nat :: IsFirstOn(w.attempts, f, a.at) && a.row == w.attempts[f].row && (a.created <==> f == a.at)
  {
    RunKeeps(start, steps);
    var w := Run(start, steps);
    var a := w.answers[c];
    assert AnswerRecorded(w, c, a);
    assert IsFirstOn(w.attempts, w.creators[a.key], a.at);
  }

  /** Once any call on a key has answered, exactly one call created the row, and every answer carries that row. */
  lemma ExactlyOneCreator<K, V>(start: World<K, V>, steps: seq<Step<K, V>>, c: nat, d: nat)
    requires Opening(start)
    requires var w := Run(start, steps); c in w.answers && d in w.answers && w.answers[c].key == w.answers[d].key
    ensures var w := Run(start, steps); var key := w.answers[c].key;
      && w.answers[c].row == w.answers[d].row
      && (w.answers[c].created && w.answers[d].created ==> c == d)
      && exists e :: e in w.answers && w.answers[e].key == key && w.answers[e].created
  {
    RunKeeps(start, steps);
    var w := Run(start, steps);
    assert AnswerRecorded(w, c, w.answers[c]) && AnswerRecorded(w, d, w.answers[d]);
    assert CreatorAnswered(w, w.answers[c].key);
  }

  /** Only creating calls notify, and no collision is ever left without its row. */
  lemma OnlyCreatorNotifies<K, V>(start: World<K, V>, steps: seq<Step<K, V>>, c: nat)
    requires Opening(start)
    ensures var w := Run(start, steps);
      && w.failed == {}
      && (c in w.notified <==> c in w.answers && w.answers[c].created)
  {
    RunKeeps(start, steps);
    var w := Run(start, steps);
    if c in w.answers { assert AnswerRecorded(w, c, w.answers[c]); }
  }

  /** A stored row is never rewritten. */
  lemma {:induction false} FirstWriteWins<K, V>(w: World<K, V>, steps: seq<Step<K, V>>, key: K)
    requires key in w.rows
    ensures key in Run(w, steps).rows && Run(w, steps).rows[key] == w.rows[key]
    decreases |steps|
  {
    if steps != [] {
      FirstWriteWins(Next(w, steps[0]), steps[1..], key);
    }
  }

  // ---------------------------------------------------------------------------------------------
  // Every call answers

  /** A call that begins is answered as the creator when its insert comes first on the key. */
  lemma FirstInsertAnswers<K, V>(w: World<K, V>, c: nat, key: K, row: V)
    requires c !in w.calls && c !in w.answers && c !in w.failed && key !in w.rows
    ensures var w1 := Next(w, Begin(c, key, row)); var w' := Next(w1, Insert(c));
      && w'.rows == w.rows[key := row]
      && c in w'.answers && w'.answers[c].key == key && w'.answers[c].row == row && w'.answers[c].created
      && w'.notified == w.notified + {c} && c !in w'.calls
  {
  }

  /** One whose insert collides is answered with the stored row by its lookup, and tells nobody. */
  lemma CollidedInsertAnswers<K, V>(w: World<K, V>, c: nat, key: K, row: V)
    requires c !in w.calls && c !in w.answers && c !in w.failed && key in w.rows
    ensures var w1 := Next(w, Begin(c, key, row)); var w' := Next(Next(w1, Insert(c)), LookUp(c));
      && w'.rows == w.rows
      && c in w'.answers && w'.answers[c].key == key && w'.answers[c].row == w.rows[key] && !w'.answers[c].created
      && w'.notified == w.notified && c !in w'.calls
  {
  }

  /** Whatever happens between its statements, a call that takes its turn is answered or goes on, and never fails. */
  lemma EveryTurnAnswers<K, V>(w: World<K, V>, c: nat)
    requires Inv(w) && c in w.calls
    ensures w.calls[c].Ready? ==>
              var w' := Next(w, Insert(c)); c in w'.answers || (c in w'.calls && w'.calls[c].Collided?)
    ensures w.calls[c].Collided? ==>
              var w' := Next(w, LookUp(c));
              c in w'.answers && w.calls[c].key in w.rows && w'.answers[c].row == w.rows[w.calls[c].key]
  {
    if w.calls[c].Collided? {
      assert CollisionRecorded(w, c, w.calls[c].key, w.calls[c].at);
    }
  }

  // ---------------------------------------------------------------------------------------------
  // One call on its own

  class Rows<!K(==), V> {
    var rows: map<K, V>
    var notified: seq<K>

    constructor ()
      ensures rows == map[] && notified == []
    {
      rows, notified := map[], [];
    }

    method Insert(key: K, row: V) returns (result: Result<V>)
      modifies this`rows
      ensures rows == (if key in old(rows) then old(rows) else old(rows)[key := row])
      ensures result == if key in old(rows) then Err(Conflict) else Ok(row)
    {
      if key in rows {
        return Err(Conflict);
      }
      rows := rows[key := row];
      return Ok(row);
    }

    /** Uninterrupted, a call stores its own row or answers the one already stored, and tells of the former only. */
    method InsertOrReturn(key: K, row: V) returns (result: Result<V>)
      modifies this
      ensures key in rows && result == Ok(rows[key])
      ensures rows == (if key in old(rows) then old(rows) else old(rows)[key := row])
      ensures notified == if key in old(rows) then old(notified) else old(notified) + [key]
    {
      result := Insert(key, row);
      if result.Ok? {
        notified := notified + [key];
      } else if key in rows {
        result := Ok(rows[key]);
      }
    }
  }

}
