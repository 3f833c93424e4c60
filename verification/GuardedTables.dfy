/**
 The "latest value" tables of the indexer. Each of them is written by
 INSERT ... ON CONFLICT (key) DO UPDATE ... WHERE table.height <= excluded.height,
 so a row is a register that keeps the write of greatest block height.

 Besides the statement itself, this module proves what is true of whole runs of such
 statements: which write a row ends up holding, that heights never go back, and exactly
 when the order in which the writes arrived does not matter.
 */
module GuardedTables {

  /** One tuple of an INSERT statement. */
  datatype Write<K, V> = Write(key: K, height: int, value: V)

  datatype Row<V> = Row(value: V, height: int)

  /** The effect of one tuple: insert, overwrite, or leave a newer row alone. */
  function Upsert<K, V>(t: map<K, Row<V>>, w: Write<K, V>): map<K, Row<V>> {
    if w.key in t && t[w.key].height > w.height then t
    else t[w.key := Row(w.value, w.height)]
  }

  /** The effect of a list of tuples, taken one after the other. */
  function UpsertAll<K, V>(t: map<K, Row<V>>, ws: seq<Write<K, V>>): map<K, Row<V>> {
    if ws == [] then t
    else Upsert(UpsertAll(t, ws[..|ws| - 1]), ws[|ws| - 1])
  }

  predicate Blocked<K(==), V>(t: map<K, Row<V>>, w: Write<K, V>) {
    w.key in t && t[w.key].height > w.height
  }

  /** The keys whose rows a statement has written after taking these tuples. */
  function Touched<K(==), V>(t: map<K, Row<V>>, ws: seq<Write<K, V>>): set<K> {
    if ws == [] then {}
    else
      var n := |ws| - 1;
      Touched(t, ws[..n]) + if Blocked(UpsertAll(t, ws[..n]), ws[n]) then {} else {ws[n].key}
  }

  /** Postgres refuses a statement that would touch a row it has itself just written. */
  predicate Accepted<K(==), V>(t: map<K, Row<V>>, ws: seq<Write<K, V>>) {
    ws == [] || (Accepted(t, ws[..|ws| - 1]) && ws[|ws| - 1].key !in Touched(t, ws[..|ws| - 1]))
  }

  /** A constraint of the table, asked when a tuple is about to be written. */
  type Check<!K, !V> = (map<K, Row<V>>, Write<K, V>) -> bool

  predicate Anything<K, V>(t: map<K, Row<V>>, w: Write<K, V>) { true }

  /** Every tuple that is written satisfies the constraint; one that is left alone need not. */
  predicate Permitted<K(==), V>(t: map<K, Row<V>>, ws: seq<Write<K, V>>, check: Check<K, V>) {
    ws == []
    || var n := |ws| - 1;
       var before := UpsertAll(t, ws[..n]);
       Permitted(t, ws[..n], check) && (Blocked(before, ws[n]) || check(before, ws[n]))
  }

  ghost predicate DistinctKeys<K, V>(ws: seq<Write<K, V>>) {
    forall i, j :: 0 <= i < j < |ws| ==> ws[i].key != ws[j].key
  }

  /** Executes one guarded multi-row INSERT. On an error the whole statement is undone. */
  method ExecUpsert<K(==), V>(t: map<K, Row<V>>, batch: seq<Write<K, V>>, check: Check<K, V>)
    returns (ok: bool, t': map<K, Row<V>>)
    ensures ok <==> Accepted(t, batch) && Permitted(t, batch, check)
    ensures ok ==> t' == UpsertAll(t, batch)
    ensures !ok ==> t' == t
  {
    var touched: set<K> := {};
    t' := t;
    for i := 0 to |batch|
      invariant t' == UpsertAll(t, batch[..i])
      invariant touched == Touched(t, batch[..i])
      invariant Accepted(t, batch[..i]) && Permitted(t, batch[..i], check)
    {
      var w := batch[i];
      assert batch[..i + 1][..i] == batch[..i];
      if w.key in touched || (!Blocked(t', w) && !check(t', w)) {
        RefusedStaysRefused(t, batch, check, i + 1);
        return false, t;
      }
      if !Blocked(t', w) {
        t' := t'[w.key := Row(w.value, w.height)];
        touched := touched + {w.key};
      }
    }
    assert batch[..|batch|] == batch;
    return true, t';
  }

  lemma {:induction false} RefusedStaysRefused<K, V>(t: map<K, Row<V>>, ws: seq<Write<K, V>>, check: Check<K, V>,
                                                     i: nat)
    requires i <= |ws| && !(Accepted(t, ws[..i]) && Permitted(t, ws[..i], check))
    ensures !(Accepted(t, ws) && Permitted(t, ws, check))
  {
    if i == |ws| {
      assert ws[..i] == ws;
    } else {
      assert ws[..|ws| - 1][..i] == ws[..i];
      RefusedStaysRefused(t, ws[..|ws| - 1], check, i);
    }
  }

  lemma {:induction false} AnythingIsPermitted<K, V>(t: map<K, Row<V>>, ws: seq<Write<K, V>>)
    ensures Permitted(t, ws, Anything)
  {
    if ws != [] {
      AnythingIsPermitted(t, ws[..|ws| - 1]);
    }
  }

  lemma {:induction false} TouchedAreKeys<K, V>(t: map<K, Row<V>>, ws: seq<Write<K, V>>, k: K)
    requires k in Touched(t, ws)
    ensures exists i :: 0 <= i < |ws| && ws[i].key == k
  {
    var n := |ws| - 1;
    if k in Touched(t, ws[..n]) {
      TouchedAreKeys(t, ws[..n], k);
      var i :| 0 <= i < n && ws[..n][i].key == k;
    }
  }

  /** A batch with distinct keys is never refused. */
  lemma {:induction false} DistinctIsAccepted<K, V>(t: map<K, Row<V>>, ws: seq<Write<K, V>>)
    requires DistinctKeys(ws)
    ensures Accepted(t, ws)
  {
    if ws != [] {
      var n := |ws| - 1;
      DistinctIsAccepted(t, ws[..n]);
      if ws[n].key in Touched(t, ws[..n]) {
        TouchedAreKeys(t, ws[..n], ws[n].key);
      }
    }
  }

  /** All tuples at one height, which no stored row of theirs exceeds. */
  ghost predicate AtHeight<K, V>(t: map<K, Row<V>>, ws: seq<Write<K, V>>, h: int) {
    forall i :: 0 <= i < |ws| ==> ws[i].height == h && (ws[i].key in t ==> t[ws[i].key].height <= h)
  }

  lemma {:induction false} AllTouched<K, V>(t: map<K, Row<V>>, ws: seq<Write<K, V>>, h: int, i: nat)
    requires AtHeight(t, ws, h) && i < |ws|
    ensures ws[i].key in Touched(t, ws)
  {
    var n := |ws| - 1;
    if i < n {
      AllTouched(t, ws[..n], h, i);
    } else {
      RowBelow(t, ws[..n], ws[n].key, h);
    }
  }

  /** A batch of one height that no stored row exceeds is accepted only if its keys are distinct. */
  lemma {:induction false} AcceptedMeansDistinct<K, V>(t: map<K, Row<V>>, ws: seq<Write<K, V>>, h: int)
    requires AtHeight(t, ws, h) && Accepted(t, ws)
    ensures DistinctKeys(ws) && forall k :: k in Touched(t, ws) <==> k in set i | 0 <= i < |ws| :: ws[i].key
  {
    if ws != [] {
      var n := |ws| - 1;
      AcceptedMeansDistinct(t, ws[..n], h);
      forall i | 0 <= i < n ensures ws[i].key != ws[n].key {
        AllTouched(t, ws[..n], h, i);
      }
    }
    forall k | k in Touched(t, ws) ensures k in set i | 0 <= i < |ws| :: ws[i].key {
      TouchedAreKeys(t, ws, k);
    }
    forall i | 0 <= i < |ws| ensures ws[i].key in Touched(t, ws) {
      AllTouched(t, ws, h, i);
    }
  }

  lemma UpsertAllAppend<K, V>(t: map<K, Row<V>>, a: seq<Write<K, V>>, b: seq<Write<K, V>>)
    ensures UpsertAll(t, a + b) == UpsertAll(UpsertAll(t, a), b)
  {
    if b == [] {
      assert a + b == a;
    } else {
      var n := |b| - 1;
      assert (a + b)[..|a + b| - 1] == a + b[..n];
      UpsertAllAppend(t, a, b[..n]);
    }
  }

  // ---- What a row holds at the end of a run --------------------------------------------

  /** No write on the same key has a greater height than write i. */
  ghost predicate IsTop<K, V>(ws: seq<Write<K, V>>, i: nat)
    requires i < |ws|
  {
    forall j :: 0 <= j < |ws| && ws[j].key == ws[i].key ==> ws[j].height <= ws[i].height
  }

  /** Write i is the last to arrive among the writes of greatest height for its key. */
  ghost predicate IsLastTop<K, V>(ws: seq<Write<K, V>>, i: nat)
    requires i < |ws|
  {
    IsTop(ws, i) && forall j :: i < j < |ws| && ws[j].key == ws[i].key ==> ws[j].height < ws[i].height
  }

  /** A stored row that every write of the run is too old to replace. */
  ghost predicate Outlives<K, V>(t: map<K, Row<V>>, ws: seq<Write<K, V>>, k: K) {
    k in t && forall j :: 0 <= j < |ws| && ws[j].key == k ==> ws[j].height < t[k].height
  }

  /** The last write of greatest height wins its row, unless the stored row is newer still. */
  lemma {:induction false} WinnerIsLastOfGreatest<K, V>(t: map<K, Row<V>>, ws: seq<Write<K, V>>, i: nat)
    requires i < |ws| && IsLastTop(ws, i)
    requires ws[i].key in t ==> t[ws[i].key].height <= ws[i].height
    ensures ws[i].key in UpsertAll(t, ws)
    ensures UpsertAll(t, ws)[ws[i].key] == Row(ws[i].value, ws[i].height)
  {
    var n := |ws| - 1;
    if i < n {
      WinnerIsLastOfGreatest(t, ws[..n], i);
    } else {
      RowBelow(t, ws[..n], ws[i].key, ws[i].height);
    }
  }

  /** A row never exceeds every height written to it. */
  lemma RowBelow<K, V>(t: map<K, Row<V>>, ws: seq<Write<K, V>>, k: K, h: int)
    requires k in t ==> t[k].height <= h
    requires forall j :: 0 <= j < |ws| && ws[j].key == k ==> ws[j].height <= h
    ensures k in UpsertAll(t, ws) ==> UpsertAll(t, ws)[k].height <= h
  {
  }

  lemma {:induction false} OutlivingRowStays<K, V>(t: map<K, Row<V>>, ws: seq<Write<K, V>>, k: K)
    requires Outlives(t, ws, k)
    ensures k in UpsertAll(t, ws) && UpsertAll(t, ws)[k] == t[k]
  {
    if ws != [] {
      OutlivingRowStays(t, ws[..|ws| - 1], k);
    }
  }

  lemma {:induction false} RowsComeFromWrites<K, V>(t: map<K, Row<V>>, ws: seq<Write<K, V>>, k: K)
    ensures k in UpsertAll(t, ws) <==> k in t || exists i :: 0 <= i < |ws| && ws[i].key == k
  {
    if ws != [] {
      var n := |ws| - 1;
      RowsComeFromWrites(t, ws[..n], k);
      if i :| 0 <= i < |ws| && ws[i].key == k {
        assert i < n ==> ws[..n][i].key == k;
      }
    }
  }

  /** A row is the one stored before or the copy of a tuple. */
  lemma {:induction false} RowIsAWrite<K, V>(t: map<K, Row<V>>, ws: seq<Write<K, V>>, k: K)
    requires k in UpsertAll(t, ws)
    ensures var r := UpsertAll(t, ws)[k]; (k in t && r == t[k]) || Write(k, r.height, r.value) in ws
  {
    if ws != [] {
      var n := |ws| - 1;
      assert ws == ws[..n] + [ws[n]];
      if k in UpsertAll(t, ws[..n]) {
        RowIsAWrite(t, ws[..n], k);
      }
    }
  }

  /** A statement of one tuple. */
  lemma OneTuple<K, V>(t: map<K, Row<V>>, w: Write<K, V>, check: Check<K, V>)
    ensures Accepted(t, [w]) && UpsertAll(t, [w]) == Upsert(t, w)
    ensures Permitted(t, [w], check) <==> Blocked(t, w) || check(t, w)
  {
    assert [w][..0] == [];
  }

  /** With distinct keys no tuple of a batch decides whether another one is outdated. */
  lemma {:induction false} BlockedAtOnce<K, V>(t: map<K, Row<V>>, ws: seq<Write<K, V>>, w: Write<K, V>)
    requires forall i :: 0 <= i < |ws| ==> ws[i].key != w.key
    ensures Blocked(UpsertAll(t, ws), w) <==> Blocked(t, w)
  {
    if ws != [] {
      BlockedAtOnce(t, ws[..|ws| - 1], w);
    }
  }

  /** A constraint that does not look at the table is asked of every tuple that is not outdated. */
  lemma {:induction false} PermittedIffEach<K(!new), V(!new)>(t: map<K, Row<V>>, ws: seq<Write<K, V>>,
                                                              check: Check<K, V>)
    requires DistinctKeys(ws)
    requires forall u, w :: check(u, w) == check(t, w)
    ensures Permitted(t, ws, check) <==> forall i :: 0 <= i < |ws| ==> Blocked(t, ws[i]) || check(t, ws[i])
  {
    if ws != [] {
      var n := |ws| - 1;
      PermittedIffEach(t, ws[..n], check);
      BlockedAtOnce(t, ws[..n], ws[n]);
    }
  }

  /** The constraint holds of tuple i when its turn comes. */
  ghost predicate HoldsInTurn<K, V>(t: map<K, Row<V>>, ws: seq<Write<K, V>>, check: Check<K, V>, i: nat)
    requires i < |ws|
  {
    check(UpsertAll(t, ws[..i]), ws[i])
  }

  lemma {:induction false} PermittedInTurn<K, V>(t: map<K, Row<V>>, ws: seq<Write<K, V>>, check: Check<K, V>)
    requires forall i :: 0 <= i < |ws| ==> HoldsInTurn(t, ws, check, i)
    ensures Permitted(t, ws, check)
  {
    if ws != [] {
      var n := |ws| - 1;
      assert HoldsInTurn(t, ws, check, n);
      forall i | 0 <= i < n ensures HoldsInTurn(t, ws[..n], check, i) {
        assert HoldsInTurn(t, ws, check, i) && ws[..n][..i] == ws[..i];
      }
      PermittedInTurn(t, ws[..n], check);
    }
  }

  /** Along any run the keys stay and the heights never decrease. */
  lemma {:induction false} HeightsNeverDecrease<K, V>(t: map<K, Row<V>>, ws: seq<Write<K, V>>, k: K)
    requires k in t
    ensures k in UpsertAll(t, ws) && t[k].height <= UpsertAll(t, ws)[k].height
  {
    if ws != [] {
      HeightsNeverDecrease(t, ws[..|ws| - 1], k);
    }
  }

  /** Some write of a touched key is the last of its greatest ones. */
  lemma {:induction false} LastTopExists<K, V>(ws: seq<Write<K, V>>, k: K) returns (i: nat)
    requires exists j :: 0 <= j < |ws| && ws[j].key == k
    ensures i < |ws| && ws[i].key == k && IsLastTop(ws, i)
  {
    var n := |ws| - 1;
    if exists j :: 0 <= j < n && ws[..n][j].key == k {
      i := LastTopExists(ws[..n], k);
      assert forall j :: 0 <= j < n && ws[j].key == k ==> ws[j].height <= ws[i].height by {
        assert IsTop(ws[..n], i);
      }
      if ws[n].key == k && ws[i].height <= ws[n].height {
        i := n;
      } else {
        forall j | i < j < |ws| && ws[j].key == k ensures ws[j].height < ws[i].height {
          assert j < n ==> ws[..n][j] == ws[j];
        }
      }
    } else {
      forall j | 0 <= j < n ensures ws[j].key != k {
        assert ws[..n][j] == ws[j];
      }
      i := n;
    }
  }

  // ---- Convergence ---------------------------------------------------------------------

  ghost predicate SameWrites<K, V>(a: seq<Write<K, V>>, b: seq<Write<K, V>>) {
    && (forall i :: 0 <= i < |a| ==> a[i] in b)
    && (forall i :: 0 <= i < |b| ==> b[i] in a)
  }

  /** Two of the newest writes of some key disagree, and the stored row is not newer still. */
  ghost predicate Contested<K, V>(t: map<K, Row<V>>, ws: seq<Write<K, V>>) {
    exists i, j :: 0 <= i < |ws| && 0 <= j < |ws| && Conflict(t, ws, i, j)
  }

  ghost predicate Conflict<K, V>(t: map<K, Row<V>>, ws: seq<Write<K, V>>, i: nat, j: nat)
    requires i < |ws| && j < |ws|
  {
    && ws[i].key == ws[j].key && ws[i].value != ws[j].value
    && IsTop(ws, i) && IsTop(ws, j)
    && (ws[i].key in t ==> t[ws[i].key].height <= ws[i].height)
  }

  /** Equal key and height imply equal value: what a deterministic chain guarantees. */
  ghost predicate Functional<K, V>(ws: seq<Write<K, V>>) {
    forall i, j :: 0 <= i < |ws| && 0 <= j < |ws| && ws[i].key == ws[j].key && ws[i].height == ws[j].height ==>
      ws[i].value == ws[j].value
  }

  /**
   Two runs over the same writes, in any order, batched in any way and with any write
   repeated any number of times, end in the same table.
   */
  lemma Convergence<K, V>(t: map<K, Row<V>>, a: seq<Write<K, V>>, b: seq<Write<K, V>>)
    requires SameWrites(a, b) && !Contested(t, a)
    ensures UpsertAll(t, a) == UpsertAll(t, b)
  {
    var ta, tb := UpsertAll(t, a), UpsertAll(t, b);
    forall k | k in ta.Keys + tb.Keys
      ensures k in ta && k in tb && ta[k] == tb[k]
    {
      RowsComeFromWrites(t, a, k);
      RowsComeFromWrites(t, b, k);
      if exists i :: 0 <= i < |a| && a[i].key == k {
        ConvergenceAt(t, a, b, k);
      } else {
        OutlivingRowStays(t, a, k);
        OutlivingRowStays(t, b, k);
      }
    }
    assert ta.Keys == tb.Keys;
  }

  lemma ConvergenceAt<K, V>(t: map<K, Row<V>>, a: seq<Write<K, V>>, b: seq<Write<K, V>>, k: K)
    requires SameWrites(a, b) && !Contested(t, a)
    requires exists i :: 0 <= i < |a| && a[i].key == k
    ensures k in UpsertAll(t, a) && k in UpsertAll(t, b) && UpsertAll(t, a)[k] == UpsertAll(t, b)[k]
  {
    var i := LastTopExists(a, k);
    assert a[i] in b;
    var j := LastTopExists(b, k);
    assert b[j] in a;
    var j' :| 0 <= j' < |a| && a[j'] == b[j];
    var i' :| 0 <= i' < |b| && b[i'] == a[i];
    assert a[i].height == b[j].height;
    assert forall m :: 0 <= m < |a| ==> a[m] in b;
    assert forall m :: 0 <= m < |b| ==> b[m] in a;
    if k in t && t[k].height > a[i].height {
      OutlivingRowStays(t, a, k);
      OutlivingRowStays(t, b, k);
    } else {
      assert !Conflict(t, a, i, j');
      WinnerIsLastOfGreatest(t, a, i);
      WinnerIsLastOfGreatest(t, b, j);
    }
  }

  lemma ConvergenceOfDeterministicWrites<K, V>(t: map<K, Row<V>>, a: seq<Write<K, V>>, b: seq<Write<K, V>>)
    requires SameWrites(a, b) && Functional(a)
    ensures UpsertAll(t, a) == UpsertAll(t, b)
  {
    Convergence(t, a, b);
  }

  /** The condition is exact: a contested run has a reordering that ends differently. */
  lemma OrderIrrelevantIffUncontested<K(!new), V(!new)>(t: map<K, Row<V>>, a: seq<Write<K, V>>)
    ensures !Contested(t, a) <==>
            forall b :: multiset(b) == multiset(a) ==> UpsertAll(t, b) == UpsertAll(t, a)
  {
    if !Contested(t, a) {
      forall b | multiset(b) == multiset(a)
        ensures UpsertAll(t, b) == UpsertAll(t, a)
      {
        forall i | 0 <= i < |a| ensures a[i] in b {
          assert a[i] in multiset(a) && a[i] in multiset(b);
        }
        forall i | 0 <= i < |b| ensures b[i] in a {
          assert b[i] in multiset(b) && b[i] in multiset(a);
        }
        Convergence(t, a, b);
      }
    } else {
      var i, j :| 0 <= i < |a| && 0 <= j < |a| && Conflict(t, a, i, j);
      var b := MovedLast(a, i);
      var c := MovedLast(a, j);
      MovedLastWins(t, a, i);
      MovedLastWins(t, a, j);
      assert UpsertAll(t, b) != UpsertAll(t, c);
    }
  }

  ghost function MovedLast<T>(s: seq<T>, i: nat): seq<T>
    requires i < |s|
  {
    s[..i] + s[i + 1..] + [s[i]]
  }

  lemma MovedLastWins<K, V>(t: map<K, Row<V>>, a: seq<Write<K, V>>, i: nat)
    requires i < |a| && IsTop(a, i) && (a[i].key in t ==> t[a[i].key].height <= a[i].height)
    ensures multiset(MovedLast(a, i)) == multiset(a)
    ensures a[i].key in UpsertAll(t, MovedLast(a, i))
    ensures UpsertAll(t, MovedLast(a, i))[a[i].key] == Row(a[i].value, a[i].height)
  {
    assert a == a[..i] + [a[i]] + a[i + 1..];
    var b := MovedLast(a, i);
    forall j | 0 <= j < |b| && b[j].key == a[i].key
      ensures b[j].height <= a[i].height
    {
      assert b[j] in multiset(b) && b[j] in multiset(a);
      var m :| 0 <= m < |a| && a[m] == b[j];
    }
    WinnerIsLastOfGreatest(t, b, |b| - 1);
  }

  // ---- Runs of statements --------------------------------------------------------------

  function Flatten<T>(batches: seq<seq<T>>): seq<T> {
    if batches == [] then [] else Flatten(batches[..|batches| - 1]) + batches[|batches| - 1]
  }

  /** Runs the statements one after the other; a refused statement changes nothing. */
  method RunBatches<K(==), V>(t: map<K, Row<V>>, batches: seq<seq<Write<K, V>>>)
    returns (t': map<K, Row<V>>)
    ensures (forall b :: b in batches ==> DistinctKeys(b)) ==> t' == UpsertAll(t, Flatten(batches))
  {
    t' := t;
    for i := 0 to |batches|
      invariant (forall b :: b in batches ==> DistinctKeys(b)) ==> t' == UpsertAll(t, Flatten(batches[..i]))
    {
      UpsertAllAppend(t, Flatten(batches[..i]), batches[i]);
      assert batches[..i + 1][..i] == batches[..i];
      var ok;
      ok, t' := ExecUpsert(t', batches[i], Anything);
      AnythingIsPermitted(UpsertAll(t, Flatten(batches[..i])), batches[i]);
      if forall b :: b in batches ==> DistinctKeys(b) {
        DistinctIsAccepted(UpsertAll(t, Flatten(batches[..i])), batches[i]);
      }
    }
    assert batches[..|batches|] == batches;
  }

  // ---- What one accepted statement stores -------------------------------------------------

  lemma {:induction false} UntouchedStays<K, V>(t: map<K, Row<V>>, ws: seq<Write<K, V>>, k: K)
    requires k !in Touched(t, ws)
    ensures k in UpsertAll(t, ws) <==> k in t
    ensures k in t ==> UpsertAll(t, ws)[k] == t[k]
  {
    if ws != [] {
      UntouchedStays(t, ws[..|ws| - 1], k);
    }
  }

  /** A tuple of an accepted statement that is not outdated has its row at the end. */
  lemma {:induction false} AcceptedStores<K, V>(t: map<K, Row<V>>, ws: seq<Write<K, V>>, i: nat)
    requires Accepted(t, ws) && i < |ws| && !Blocked(t, ws[i])
    ensures ws[i].key in Touched(t, ws) && ws[i].key in UpsertAll(t, ws)
    ensures UpsertAll(t, ws)[ws[i].key] == Row(ws[i].value, ws[i].height)
  {
    var n := |ws| - 1;
    if i < n {
      AcceptedStores(t, ws[..n], i);
    } else {
      UntouchedStays(t, ws[..n], ws[n].key);
    }
  }
}
