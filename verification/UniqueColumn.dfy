/**
 A guarded table with a second unique column, which the ON CONFLICT clause does not name: a
 tuple that would repeat the value of another row is refused. Tuples come one per statement.
 A refused tuple is lost, so the order of arrival matters again; the result says exactly when.
 */
module UniqueColumn {
  import opened GuardedTables

  /** Another row holds the value that the tuple brings. */
  predicate Taken<K(==), V, F(==)>(t: map<K, Row<V>>, w: Write<K, V>, column: V -> F) {
    exists k :: k in t && k != w.key && column(t[k].value) == column(w.value)
  }

  function Save<K(==), V, F(==)>(t: map<K, Row<V>>, w: Write<K, V>, column: V -> F): map<K, Row<V>> {
    if Taken(t, w, column) then t else Upsert(t, w)
  }

  function SaveEach<K(==), V, F(==)>(t: map<K, Row<V>>, ws: seq<Write<K, V>>, column: V -> F): map<K, Row<V>> {
    if ws == [] then t else Save(SaveEach(t, ws[..|ws| - 1], column), ws[|ws| - 1], column)
  }

  /** Two tuples of different keys that cannot both have a row. */
  predicate Rivals<K(==), V, F(==)>(v: Write<K, V>, w: Write<K, V>, column: V -> F) {
    v.key != w.key && column(v.value) == column(w.value)
  }

  /** No tuple brings a value that the table holds under another key from the start. */
  ghost predicate StoredApart<K, V, F>(t: map<K, Row<V>>, ws: seq<Write<K, V>>, column: V -> F) {
    forall w :: w in ws ==> !Taken(t, w, column)
  }

  /** No tuple of the run for this key is newer, nor is the row it starts with. */
  ghost predicate Newest<K, V>(t: map<K, Row<V>>, ws: seq<Write<K, V>>, w: Write<K, V>) {
    && !Blocked(t, w)
    && forall v :: v in ws && v.key == w.key ==> v.height <= w.height
  }

  /** A key's newest tuple has a rival that is not itself outdated from the start. */
  ghost predicate Clash<K, V, F>(t: map<K, Row<V>>, ws: seq<Write<K, V>>, column: V -> F) {
    exists w, v :: w in ws && v in ws && Newest(t, ws, w) && Rivals(v, w, column) && !Blocked(t, v)
  }

  // ---- Without a clash ------------------------------------------------------------------

  /** Where rows come from. */
  lemma {:induction false} RowOrigin<K, V, F>(t: map<K, Row<V>>, ws: seq<Write<K, V>>, column: V -> F, k: K)
    requires k in SaveEach(t, ws, column)
    ensures var r := SaveEach(t, ws, column)[k];
            (k in t && r == t[k]) || exists v :: v in ws && !Blocked(t, v) && v.key == k && r == Row(v.value, v.height)
    ensures k in t ==> SaveEach(t, ws, column)[k].height >= t[k].height
  {
    if ws != [] {
      var n := |ws| - 1;
      var before := SaveEach(t, ws[..n], column);
      KeysStay(t, ws[..n], column);
      assert ws == ws[..n] + [ws[n]];
      if k in before {
        RowOrigin(t, ws[..n], column, k);
      }
    }
  }

  lemma {:induction false} KeysStay<K, V, F>(t: map<K, Row<V>>, ws: seq<Write<K, V>>, column: V -> F)
    ensures t.Keys <= SaveEach(t, ws, column).Keys
    ensures forall k :: k in SaveEach(t, ws, column) ==> k in t || exists w :: w in ws && w.key == k
  {
    if ws != [] {
      var n := |ws| - 1;
      KeysStay(t, ws[..n], column);
      assert ws == ws[..n] + [ws[n]];
    }
  }

  /** A tuple without a live rival is never refused. */
  lemma NeverTaken<K, V, F>(t: map<K, Row<V>>, ws: seq<Write<K, V>>, column: V -> F, w: Write<K, V>)
    requires !Taken(t, w, column)
    requires forall v :: v in ws && Rivals(v, w, column) ==> Blocked(t, v)
    ensures !Taken(SaveEach(t, ws, column), w, column)
  {
    var u := SaveEach(t, ws, column);
    if k :| k in u && k != w.key && column(u[k].value) == column(w.value) {
      RowOrigin(t, ws, column, k);
      assert false;
    }
  }

  /** The newest tuple of a key has the row at the end, if no rival of it is live. */
  lemma {:induction false} NewestWins<K, V, F>(t: map<K, Row<V>>, ws: seq<Write<K, V>>, column: V -> F, w: Write<K, V>)
    requires w in ws && !Blocked(t, w) && !Taken(t, w, column)
    requires forall v :: v in ws && v.key == w.key ==> v.height < w.height || v == w
    requires forall v :: v in ws && Rivals(v, w, column) ==> Blocked(t, v)
    ensures w.key in SaveEach(t, ws, column) && SaveEach(t, ws, column)[w.key] == Row(w.value, w.height)
  {
    var n := |ws| - 1;
    var before := SaveEach(t, ws[..n], column);
    assert ws == ws[..n] + [ws[n]];
    if w in ws[..n] {
      NewestWins(t, ws[..n], column, w);
    } else {
      assert ws[n] == w;
      NeverTaken(t, ws[..n], column, w);
      if w.key in before {
        RowOrigin(t, ws[..n], column, w.key);
      }
    }
  }

  /** A stored row that every tuple is too old to replace. */
  lemma {:induction false} OutlivedStays<K, V, F>(t: map<K, Row<V>>, ws: seq<Write<K, V>>, column: V -> F, k: K)
    requires k in t && forall v :: v in ws && v.key == k ==> Blocked(t, v)
    ensures k in SaveEach(t, ws, column) && SaveEach(t, ws, column)[k] == t[k]
  {
    if ws != [] {
      var n := |ws| - 1;
      assert ws == ws[..n] + [ws[n]];
      OutlivedStays(t, ws[..n], column, k);
    }
  }

  /** Some tuple of a key is its newest. */
  lemma {:induction false} NewestExists<K, V>(ws: seq<Write<K, V>>, w: Write<K, V>) returns (m: Write<K, V>)
    requires w in ws
    ensures m in ws && m.key == w.key && w.height <= m.height
    ensures forall v :: v in ws && v.key == w.key ==> v.height <= m.height
  {
    var n := |ws| - 1;
    assert ws == ws[..n] + [ws[n]];
    m := ws[n];
    if v :| v in ws[..n] && v.key == w.key {
      m := NewestExists(ws[..n], v);
      if ws[n].key == w.key && ws[n].height > m.height {
        m := ws[n];
      }
    }
  }

  ghost predicate SameTuples<K, V>(a: seq<Write<K, V>>, b: seq<Write<K, V>>) {
    (forall w :: w in a ==> w in b) && (forall w :: w in b ==> w in a)
  }

  /** Equal key and height imply equal value. */
  ghost predicate OneValue<K, V>(ws: seq<Write<K, V>>) {
    forall v, w :: v in ws && w in ws && v.key == w.key && v.height == w.height ==> v == w
  }

  lemma SameRow<K, V, F>(t: map<K, Row<V>>, a: seq<Write<K, V>>, b: seq<Write<K, V>>, column: V -> F, k: K)
    requires SameTuples(a, b) && OneValue(a) && StoredApart(t, a, column) && !Clash(t, a, column)
    requires k in SaveEach(t, a, column)
    ensures k in SaveEach(t, b, column) && SaveEach(t, a, column)[k] == SaveEach(t, b, column)[k]
  {
    if live :| live in a && live.key == k && !Blocked(t, live) {
      var w := NewestExists(a, live);
      assert !Blocked(t, w) && Newest(t, a, w);
      NewestWins(t, a, column, w);
      NewestWins(t, b, column, w);
    } else {
      KeysStay(t, a, column);
      OutlivedStays(t, a, column, k);
      OutlivedStays(t, b, column, k);
    }
  }

  lemma ClashCarriesOver<K, V, F>(t: map<K, Row<V>>, a: seq<Write<K, V>>, b: seq<Write<K, V>>, column: V -> F)
    requires SameTuples(a, b) && Clash(t, a, column)
    ensures Clash(t, b, column)
  {
    var w, v :| w in a && v in a && Newest(t, a, w) && Rivals(v, w, column) && !Blocked(t, v);
    assert w in b && v in b && Newest(t, b, w);
  }

  lemma ClashIffClash<K, V, F>(t: map<K, Row<V>>, a: seq<Write<K, V>>, b: seq<Write<K, V>>, column: V -> F)
    requires SameTuples(a, b)
    ensures Clash(t, a, column) <==> Clash(t, b, column)
  {
    if Clash(t, a, column) {
      ClashCarriesOver(t, a, b, column);
    } else if Clash(t, b, column) {
      ClashCarriesOver(t, b, a, column);
    }
  }

  lemma NoClashConverges<K, V, F>(t: map<K, Row<V>>, a: seq<Write<K, V>>, b: seq<Write<K, V>>, column: V -> F)
    requires SameTuples(a, b) && OneValue(a) && StoredApart(t, a, column) && !Clash(t, a, column)
    ensures SaveEach(t, a, column) == SaveEach(t, b, column)
  {
    var ta, tb := SaveEach(t, a, column), SaveEach(t, b, column);
    ClashIffClash(t, a, b, column);
    forall k | k in ta ensures k in tb && ta[k] == tb[k] {
      SameRow(t, a, b, column, k);
    }
    forall k | k in tb ensures k in ta {
      SameRow(t, b, a, column, k);
    }
    assert ta.Keys == tb.Keys;
  }

  // ---- With a clash ---------------------------------------------------------------------

  function Drop<T>(s: seq<T>, i: nat): seq<T>
    requires i < |s|
  {
    s[..i] + s[i + 1..]
  }

  lemma DropMembers<T>(s: seq<T>, i: nat)
    requires i < |s|
    ensures multiset([s[i]] + Drop(s, i)) == multiset(s)
    ensures forall x :: x in Drop(s, i) ==> x in s
  {
    assert s == s[..i] + [s[i]] + s[i + 1..];
  }

  /** The copies of x first, then the others. */
  function Copies<T(==)>(s: seq<T>, x: T): seq<T> {
    if s == [] then [] else Copies(s[..|s| - 1], x) + if s[|s| - 1] == x then [x] else []
  }

  function Others<T(==)>(s: seq<T>, x: T): seq<T> {
    if s == [] then [] else Others(s[..|s| - 1], x) + if s[|s| - 1] == x then [] else [s[|s| - 1]]
  }

  lemma {:induction false} Partition<T>(s: seq<T>, x: T)
    ensures multiset(Copies(s, x)) + multiset(Others(s, x)) == multiset(s)
  {
    if s != [] {
      var n := |s| - 1;
      Partition(s[..n], x);
      assert s == s[..n] + [s[n]];
      assert multiset(s) == multiset(s[..n]) + multiset{s[n]};
    }
  }

  lemma {:induction false} PartitionMembers<T>(s: seq<T>, x: T)
    ensures forall i :: 0 <= i < |Copies(s, x)| ==> Copies(s, x)[i] == x
    ensures x !in Others(s, x)
  {
    if s != [] {
      PartitionMembers(s[..|s| - 1], x);
    }
  }

  lemma {:induction false} SaveEachAppend<K, V, F>(t: map<K, Row<V>>, a: seq<Write<K, V>>, b: seq<Write<K, V>>,
                                                   column: V -> F)
    ensures SaveEach(t, a + b, column) == SaveEach(SaveEach(t, a, column), b, column)
  {
    if b == [] {
      assert a + b == a;
    } else {
      assert (a + b)[..|a + b| - 1] == a + b[..|b| - 1];
      SaveEachAppend(t, a, b[..|b| - 1], column);
    }
  }

  lemma SaveEachOne<K, V, F>(t: map<K, Row<V>>, w: Write<K, V>, column: V -> F)
    ensures SaveEach(t, [w], column) == Save(t, w, column)
  {
    assert [w][..0] == [];
  }

  /** Of two rivals in an empty table the first keeps the row. */
  lemma FirstRivalStays<K, V, F>(v: Write<K, V>, w: Write<K, V>, column: V -> F)
    requires Rivals(v, w, column)
    ensures SaveEach(map[], [v, w], column) == map[v.key := Row(v.value, v.height)]
  {
    assert [v, w][..1] == [v];
    SaveEachOne(map[], v, column);
    var one: map<K, Row<V>> := map[v.key := Row(v.value, v.height)];
    assert v.key in one && Taken(one, w, column);
  }

  /** A refused tuple is refused as often as it is repeated. */
  lemma {:induction false} RefusedAgain<K, V, F>(t: map<K, Row<V>>, ws: seq<Write<K, V>>, column: V -> F,
                                                 w: Write<K, V>)
    requires Taken(t, w, column) && forall i :: 0 <= i < |ws| ==> ws[i] == w
    ensures SaveEach(t, ws, column) == t
  {
    if ws != [] {
      RefusedAgain(t, ws[..|ws| - 1], column, w);
    }
  }

  /** A row does not appear if no tuple brings it. */
  lemma {:induction false} RowNotBrought<K, V, F>(t: map<K, Row<V>>, ws: seq<Write<K, V>>, column: V -> F,
                                                  w: Write<K, V>)
    requires w !in ws && !(w.key in t && t[w.key] == Row(w.value, w.height))
    ensures var u := SaveEach(t, ws, column); !(w.key in u && u[w.key] == Row(w.value, w.height))
  {
    if ws != [] {
      var n := |ws| - 1;
      RowNotBrought(t, ws[..n], column, w);
      assert ws[n] in ws && ws[n] != w;
      assert ws[n].key == w.key ==> (ws[n].value, ws[n].height) != (w.value, w.height);
    }
  }

  /** A row stays if every tuple for its key is older or the same. */
  lemma {:induction false} RowHolds<K, V, F>(t: map<K, Row<V>>, ws: seq<Write<K, V>>, column: V -> F, w: Write<K, V>)
    requires w.key in t && t[w.key] == Row(w.value, w.height)
    requires forall v :: v in ws && v.key == w.key ==> v.height < w.height || v == w
    ensures var u := SaveEach(t, ws, column); w.key in u && u[w.key] == Row(w.value, w.height)
  {
    if ws != [] {
      RowHolds(t, ws[..|ws| - 1], column, w);
      assert ws[|ws| - 1] in ws;
    }
  }

  /** First the newest tuple: it has the row at the end. */
  lemma NewestFirst<K, V, F>(t: map<K, Row<V>>, a: seq<Write<K, V>>, column: V -> F, w: Write<K, V>)
    returns (b: seq<Write<K, V>>)
    requires OneValue(a) && StoredApart(t, a, column) && w in a && Newest(t, a, w)
    ensures multiset(b) == multiset(a)
    ensures w.key in SaveEach(t, b, column) && SaveEach(t, b, column)[w.key] == Row(w.value, w.height)
  {
    var i :| 0 <= i < |a| && a[i] == w;
    DropMembers(a, i);
    b := [w] + Drop(a, i);
    SaveEachAppend(t, [w], Drop(a, i), column);
    SaveEachOne(t, w, column);
    RowHolds(Save(t, w, column), Drop(a, i), column, w);
  }

  /** First the rival: the newest tuple is refused and never has the row. */
  lemma RivalFirst<K, V, F>(t: map<K, Row<V>>, a: seq<Write<K, V>>, column: V -> F, w: Write<K, V>, v: Write<K, V>)
    returns (b: seq<Write<K, V>>)
    requires StoredApart(t, a, column) && w in a && v in a && Rivals(v, w, column) && !Blocked(t, v)
    ensures multiset(b) == multiset(a)
    ensures var u := SaveEach(t, b, column); !(w.key in u && u[w.key] == Row(w.value, w.height))
  {
    var j :| 0 <= j < |a| && a[j] == v;
    DropMembers(a, j);
    var rest := Drop(a, j);
    Partition(rest, w);
    PartitionMembers(rest, w);
    var copies, others := Copies(rest, w), Others(rest, w);
    b := [v] + (copies + others);
    var t' := Save(t, v, column);
    SaveEachAppend(t, [v], copies + others, column);
    SaveEachOne(t, v, column);
    SaveEachAppend(t', copies, others, column);
    assert t' == Upsert(t, v);
    assert v.key in t' && t'[v.key] == Row(v.value, v.height);
    RefusedAgain(t', copies, column, w);
    assert !Taken(t, v, column);
    RowNotBrought(t', others, column, w);
  }

  /**
   The order of arrival does not matter if and only if no key's newest tuple has a rival that
   is not outdated from the start.
   */
  lemma OrderIrrelevantIffNoClash<K(!new), V(!new), F>(t: map<K, Row<V>>, a: seq<Write<K, V>>, column: V -> F)
    requires OneValue(a) && StoredApart(t, a, column)
    ensures !Clash(t, a, column) <==>
            forall b :: multiset(b) == multiset(a) ==> SaveEach(t, b, column) == SaveEach(t, a, column)
  {
    if !Clash(t, a, column) {
      forall b | multiset(b) == multiset(a) ensures SaveEach(t, b, column) == SaveEach(t, a, column) {
        forall w ensures w in a <==> w in b {
          assert w in a <==> w in multiset(a);
          assert w in b <==> w in multiset(b);
        }
        NoClashConverges(t, a, b, column);
      }
    } else {
      var w, v :| w in a && v in a && Newest(t, a, w) && Rivals(v, w, column) && !Blocked(t, v);
      var b := NewestFirst(t, a, column, w);
      var c := RivalFirst(t, a, column, w, v);
      assert SaveEach(t, b, column) != SaveEach(t, c, column);
    }
  }
}
