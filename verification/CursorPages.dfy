/**
 Walking a list page by page. Each fetch asks for the rows below the cursor, highest first,
 up to a limit, and a full page names the height of its last row as the next cursor. Rows
 may be inserted between any two fetches, and rows of equal height come in any order the
 database likes. The results say which rows such a walk shows: for blocks, whose heights are
 unique, all of them once; for transactions, all but those cut off at a page boundary.
 */
module CursorPages {
  import opened Wrappers
  import opened Pagination
  import opened Arithmetic

  /** One row of a query result. A join may return an entity in several rows, told apart by sub. */
  datatype Row = Row(entity: int, sub: int, height: nat)

  /** The cursor clause; a cursor that is missing or 0 is not applied at all. */
  predicate Visible(cursor: Option<nat>, r: Row) {
    cursor.Some? && cursor.value != 0 ==> r.height < cursor.value
  }

  ghost predicate Distinct<T>(s: seq<T>) {
    forall i, j :: 0 <= i < j < |s| ==> s[i] != s[j]
  }

  /** A possible answer to: WHERE height < cursor ORDER BY height DESC LIMIT limit. */
  ghost predicate IsPage(table: set<Row>, cursor: Option<nat>, limit: nat, p: seq<Row>) {
    && Distinct(p) && |p| <= limit
    && (forall r :: r in p ==> r in table && Visible(cursor, r))
    && (forall i, j :: 0 <= i < j < |p| ==> p[i].height >= p[j].height)
    && (forall r, q :: r in table && Visible(cursor, r) && r !in p && q in p ==> q.height >= r.height)
    && (|p| < limit ==> forall r :: r in table && Visible(cursor, r) ==> r in p)
  }

  /** The same with ORDER BY height ASC. */
  ghost predicate IsAscendingPage(table: set<Row>, cursor: Option<nat>, limit: nat, p: seq<Row>) {
    && Distinct(p) && |p| <= limit
    && (forall r :: r in p ==> r in table && Visible(cursor, r))
    && (forall i, j :: 0 <= i < j < |p| ==> p[i].height <= p[j].height)
    && (forall r, q :: r in table && Visible(cursor, r) && r !in p && q in p ==> q.height <= r.height)
    && (|p| < limit ==> forall r :: r in table && Visible(cursor, r) ==> r in p)
  }

  predicate Holds(es: seq<Row>, entity: int) {
    exists q :: q in es && q.entity == entity
  }

  /** getMany: the entities of the rows, each once, where it appears first. */
  function Entities(p: seq<Row>): seq<Row> {
    if p == [] then []
    else
      var before := Entities(p[..|p| - 1]);
      var r := p[|p| - 1];
      if Holds(before, r.entity) then before else before + [r]
  }

  /** The next cursor: the height of the last entity of a page that holds limit entities. */
  function NextCursor(p: seq<Row>, limit: nat): Option<nat> {
    var es := Entities(p);
    if |es| == limit && |es| > 0 then Some(es[|es| - 1].height) else None
  }

  // ---- The services ---------------------------------------------------------------------

  /** An optional number that is missing or 0 counts as absent. */
  function OrElse(x: Option<int>, d: int): int {
    if x.Some? && x.value != 0 then x.value else d
  }

  function BlockLimit(limit: Option<int>): (l: nat)
    ensures limit.None? || limit == Some(0) ==> l == 20
    ensures limit.Some? && 1 <= limit.value <= 100 ==> l == limit.value
    ensures limit.Some? && limit.value > 100 ==> l == 100
    ensures limit.Some? && limit.value < 0 ==> l == 1
  {
    Min(Max(OrElse(limit, 20), 1), 100)
  }

  /** getBlocks and getTransactions, given the answer of the database to their query. */
  method Respond(rows: seq<Row>, limit: nat) returns (data: seq<Row>, meta: Meta)
    requires limit >= 1
    ensures data == Entities(rows)
    ensures meta.nextCursor == NextCursor(rows, limit)
    ensures meta.hasNext <==> NextCursor(rows, limit).Some?
    ensures meta.page == 1 && meta.limit == limit && !meta.hasPrev && meta.total == 0 && meta.totalPages == 0
  {
    data := [];
    for i := 0 to |rows|
      invariant data == Entities(rows[..i])
    {
      assert rows[..i + 1][..i] == rows[..i];
      if !Holds(data, rows[i].entity) {
        data := data + [rows[i]];
      }
    }
    assert rows[..|rows|] == rows;
    var hasNext := |data| == limit;
    var nextCursor := if hasNext && |data| > 0 then Some(data[|data| - 1].height) else None;
    meta := BuildPaginationMeta(1, limit, -1, nextCursor, None);
  }

  // ---- Entities and cursors -------------------------------------------------------------

  ghost predicate OneRowEach(p: seq<Row>) {
    forall i, j :: 0 <= i < j < |p| ==> p[i].entity != p[j].entity
  }

  lemma {:induction false} EntitiesCover(p: seq<Row>, entity: int)
    ensures Holds(Entities(p), entity) <==> Holds(p, entity)
  {
    if p != [] {
      var n := |p| - 1;
      EntitiesCover(p[..n], entity);
      assert p == p[..n] + [p[n]];
      if p[n].entity == entity {
        assert p[n] in p;
      }
    }
  }

  lemma {:induction false} EntitiesCount(p: seq<Row>)
    ensures |Entities(p)| <= |p|
    ensures |Entities(p)| == |p| <==> OneRowEach(p)
    ensures OneRowEach(p) ==> Entities(p) == p
  {
    if p != [] {
      var n := |p| - 1;
      EntitiesCount(p[..n]);
      EntitiesStep(p);
      LastIsNew(p);
      assert p == p[..n] + [p[n]];
    }
  }

  /** The last row of a page adds its entity if it is new. */
  lemma EntitiesStep(p: seq<Row>)
    requires p != []
    ensures var n := |p| - 1;
            Entities(p) == Entities(p[..n]) + if Holds(p[..n], p[n].entity) then [] else [p[n]]
  {
    EntitiesCover(p[..|p| - 1], p[|p| - 1].entity);
  }

  lemma LastIsNew(p: seq<Row>)
    requires p != []
    ensures OneRowEach(p) <==> OneRowEach(p[..|p| - 1]) && !Holds(p[..|p| - 1], p[|p| - 1].entity)
  {
    var n := |p| - 1;
    if Holds(p[..n], p[n].entity) {
      var q :| q in p[..n] && q.entity == p[n].entity;
      var i :| 0 <= i < n && p[i] == q;
    } else {
      assert forall i :: 0 <= i < n ==> p[..n][i] in p[..n];
    }
  }

  ghost predicate FirstRow(p: seq<Row>, k: nat) {
    k < |p| && forall j :: 0 <= j < k ==> p[j].entity != p[k].entity
  }

  /** The positions of the first rows of a page. */
  ghost function FirstRows(p: seq<Row>): (at: seq<nat>)
    ensures forall k: nat :: k in at <==> FirstRow(p, k)
    ensures forall i, j :: 0 <= i < j < |at| ==> at[i] < at[j]
  {
    FirstRowsUpTo(p, |p|)
  }

  ghost function FirstRowsUpTo(p: seq<Row>, n: nat): (at: seq<nat>)
    requires n <= |p|
    ensures forall k: nat :: k in at <==> k < n && FirstRow(p, k)
    ensures forall i, j :: 0 <= i < j < |at| ==> at[i] < at[j]
  {
    if n == 0 then []
    else
      var before := FirstRowsUpTo(p, n - 1);
      assert forall i :: 0 <= i < |before| ==> before[i] in before;
      if FirstRow(p, n - 1) then before + [n - 1] else before
  }

  /** The entities of a page are the first rows of theirs, in the order of the page. */
  lemma {:induction false} EntitiesAreFirstRows(p: seq<Row>)
    ensures |FirstRows(p)| == |Entities(p)|
    ensures forall i :: 0 <= i < |Entities(p)| ==>
              FirstRows(p)[i] in FirstRows(p) && Entities(p)[i] == p[FirstRows(p)[i]]
  {
    if p != [] {
      var n := |p| - 1;
      EntitiesAreFirstRows(p[..n]);
      EntitiesStep(p);
      LastIsFirst(p);
      SameFirstRows(p, p[..n], n);
    }
  }

  lemma {:induction false} SameFirstRows(p: seq<Row>, q: seq<Row>, n: nat)
    requires n <= |p| && n <= |q| && p[..n] == q[..n]
    ensures FirstRowsUpTo(p, n) == FirstRowsUpTo(q, n)
  {
    if n > 0 {
      assert p[..n][..n - 1] == q[..n][..n - 1];
      assert forall j :: 0 <= j < n ==> p[j] == p[..n][j] == q[j];
      SameFirstRows(p, q, n - 1);
    }
  }

  lemma LastIsFirst(p: seq<Row>)
    requires p != []
    ensures FirstRow(p, |p| - 1) <==> !Holds(p[..|p| - 1], p[|p| - 1].entity)
  {
    var n := |p| - 1;
    if !Holds(p[..n], p[n].entity) {
      assert forall i :: 0 <= i < n ==> p[..n][i] in p[..n];
    }
  }

  /** A page with a next cursor is full, holds no entity twice and ends at the cursor. */
  lemma FullPage(p: seq<Row>, limit: nat)
    requires limit >= 1 && |p| <= limit && NextCursor(p, limit).Some?
    ensures |p| == limit && OneRowEach(p) && NextCursor(p, limit).value == p[|p| - 1].height
  {
    EntitiesCount(p);
  }

  // ---- Walks ----------------------------------------------------------------------------

  function CursorAt(pages: seq<seq<Row>>, i: nat, limit: nat): Option<nat>
    requires i <= |pages|
  {
    if i == 0 then None else NextCursor(pages[i - 1], limit)
  }

  /** Fetches in a row, each following the cursor of the page before, against a table of its own. */
  ghost predicate IsChain(tables: seq<set<Row>>, limit: nat, pages: seq<seq<Row>>) {
    && |tables| == |pages|
    && (forall i :: 0 <= i < |pages| ==> IsPage(tables[i], CursorAt(pages, i, limit), limit, pages[i]))
    && (forall i :: 0 < i < |pages| ==> CursorAt(pages, i, limit).Some?)
  }

  /** A chain that ends because its last page names no cursor. */
  ghost predicate IsWalk(tables: seq<set<Row>>, limit: nat, pages: seq<seq<Row>>) {
    IsChain(tables, limit, pages) && pages != [] && CursorAt(pages, |pages|, limit).None?
  }

  ghost predicate Growing(tables: seq<set<Row>>) {
    forall i, j :: 0 <= i <= j < |tables| ==> tables[i] <= tables[j]
  }

  ghost predicate PositiveHeights(tables: seq<set<Row>>) {
    forall i, r :: 0 <= i < |tables| && r in tables[i] ==> r.height > 0
  }

  /** A cursor is the height of the last row of the page that names it. */
  lemma CursorRow(tables: seq<set<Row>>, limit: nat, pages: seq<seq<Row>>, i: nat) returns (r: Row)
    requires limit >= 1 && IsChain(tables, limit, pages) && PositiveHeights(tables)
    requires i < |pages| && CursorAt(pages, i + 1, limit).Some?
    ensures r in pages[i] && r in tables[i] && Visible(CursorAt(pages, i, limit), r)
    ensures r.height == CursorAt(pages, i + 1, limit).value > 0
    ensures forall q :: q in pages[i] ==> q.height >= r.height
    ensures |pages[i]| == limit && OneRowEach(pages[i])
  {
    FullPage(pages[i], limit);
    r := pages[i][|pages[i]| - 1];
    assert r in pages[i];
    forall q | q in pages[i] ensures q.height >= r.height {
      var k :| 0 <= k < |pages[i]| && pages[i][k] == q;
    }
  }

  /** What the rest of the argument needs to know of a fetch: where its page lies. */
  ghost predicate Placed(limit: nat, pages: seq<seq<Row>>, i: nat)
    requires i < |pages|
  {
    var from, next := CursorAt(pages, i, limit), CursorAt(pages, i + 1, limit);
    && (i > 0 ==> from.Some? && from.value > 0)
    && (forall q :: q in pages[i] ==> Visible(from, q) && (next.Some? ==> q.height >= next.value))
    && (next.Some? ==> 0 < next.value && (i > 0 ==> next.value < from.value))
  }

  ghost predicate AllPlaced(limit: nat, pages: seq<seq<Row>>) {
    forall i :: 0 <= i < |pages| ==> Placed(limit, pages, i)
  }

  lemma ChainIsPlaced(tables: seq<set<Row>>, limit: nat, pages: seq<seq<Row>>)
    requires limit >= 1 && IsChain(tables, limit, pages) && PositiveHeights(tables)
    ensures AllPlaced(limit, pages)
  {
    forall i | 0 <= i < |pages| ensures Placed(limit, pages, i) {
      if i > 0 {
        var r := CursorRow(tables, limit, pages, i - 1);
      }
      if CursorAt(pages, i + 1, limit).Some? {
        var r := CursorRow(tables, limit, pages, i);
      }
      assert IsPage(tables[i], CursorAt(pages, i, limit), limit, pages[i]);
    }
  }

  /** The cursors of a chain strictly decrease. */
  lemma {:induction false} CursorsDecrease(limit: nat, pages: seq<seq<Row>>, i: nat, j: nat)
    requires AllPlaced(limit, pages)
    requires 0 < i <= j <= |pages| && CursorAt(pages, j, limit).Some?
    ensures CursorAt(pages, i, limit).Some?
    ensures CursorAt(pages, i, limit).value >= CursorAt(pages, j, limit).value + (j - i)
    ensures CursorAt(pages, j, limit).value > 0
  {
    assert Placed(limit, pages, j - 1);
    if i < j {
      CursorsDecrease(limit, pages, i, j - 1);
    }
  }

  /** Whatever is inserted meanwhile, a walk makes at most as many fetches as its first cursor is high. */
  lemma WalkTerminates(tables: seq<set<Row>>, limit: nat, pages: seq<seq<Row>>)
    requires limit >= 1 && IsChain(tables, limit, pages) && PositiveHeights(tables)
    requires |pages| >= 2
    ensures |pages| <= CursorAt(pages, 1, limit).value + 1
  {
    ChainIsPlaced(tables, limit, pages);
    CursorsDecrease(limit, pages, 1, |pages| - 1);
  }

  /** Every query has an answer. */
  lemma {:induction false} PageExists(table: set<Row>, cursor: Option<nat>, limit: nat) returns (p: seq<Row>)
    ensures IsPage(table, cursor, limit, p)
  {
    p := [];
    if limit > 0 {
      p := PageExists(table, cursor, limit - 1);
      var rest := set r | r in table && Visible(cursor, r) && r !in p;
      if |p| == limit - 1 && rest != {} {
        var top := Highest(rest);
        assert forall i :: 0 <= i < |p| ==> p[i] in p;
        assert top in rest;
        p := p + [top];
        assert forall r :: r in table && Visible(cursor, r) && r !in p ==> r in rest;
      } else if |p| == limit - 1 {
        assert forall r :: r in table && Visible(cursor, r) && r !in p ==> r in rest;
      }
    }
  }

  lemma {:induction false} Highest(rows: set<Row>) returns (top: Row)
    requires rows != {}
    ensures top in rows && forall r :: r in rows ==> r.height <= top.height
  {
    top :| top in rows;
    var others := rows - {top};
    assert forall r :: r in rows ==> r == top || r in others;
    if others != {} {
      var other := Highest(others);
      if other.height > top.height {
        top := other;
      }
    }
  }

  /** Every chain of fetches can be followed to an end, so there is a walk over every table. */
  lemma {:induction false} WalkExists(table: set<Row>, limit: nat, begun: seq<seq<Row>>) returns (pages: seq<seq<Row>>)
    requires limit >= 1 && PositiveHeights([table])
    requires IsChain(Constant(table, |begun|), limit, begun)
    requires begun != [] ==> CursorAt(begun, |begun|, limit).Some?
    ensures IsWalk(Constant(table, |pages|), limit, pages) && begun <= pages
    decreases if begun == [] then 1 else 0, if begun == [] then 0 else CursorAt(begun, |begun|, limit).value
  {
    var p := PageExists(table, CursorAt(begun, |begun|, limit), limit);
    pages := begun + [p];
    ChainExtends(table, limit, begun, p);
    if CursorAt(pages, |pages|, limit).Some? {
      if begun != [] {
        NextIsLower(table, limit, begun, p);
      }
      pages := WalkExists(table, limit, pages);
    }
  }

  lemma NextIsLower(table: set<Row>, limit: nat, begun: seq<seq<Row>>, p: seq<Row>)
    requires limit >= 1 && PositiveHeights([table])
    requires IsChain(Constant(table, |begun| + 1), limit, begun + [p])
    requires begun != [] && CursorAt(begun + [p], |begun| + 1, limit).Some?
    ensures CursorAt(begun, |begun|, limit).Some?
    ensures CursorAt(begun + [p], |begun| + 1, limit).value < CursorAt(begun, |begun|, limit).value
  {
    var more := begun + [p];
    ConstantPositive(table, |more|);
    ChainIsPlaced(Constant(table, |more|), limit, more);
    assert Placed(limit, more, |begun|);
    SameCursor(begun, more, |begun|, limit);
  }

  lemma ConstantPositive(table: set<Row>, n: nat)
    requires PositiveHeights([table])
    ensures PositiveHeights(Constant(table, n))
  {
    assert [table][0] == table;
  }

  lemma ChainExtends(table: set<Row>, limit: nat, begun: seq<seq<Row>>, p: seq<Row>)
    requires IsChain(Constant(table, |begun|), limit, begun)
    requires begun != [] ==> CursorAt(begun, |begun|, limit).Some?
    requires IsPage(table, CursorAt(begun, |begun|, limit), limit, p)
    ensures IsChain(Constant(table, |begun| + 1), limit, begun + [p])
  {
    var more := begun + [p];
    forall i | 0 <= i < |more| ensures IsPage(table, CursorAt(more, i, limit), limit, more[i]) {
      SameCursor(begun, more, i, limit);
      if i < |begun| {
        assert IsPage(Constant(table, |begun|)[i], CursorAt(begun, i, limit), limit, begun[i]);
      }
    }
    forall i | 0 < i < |more| ensures CursorAt(more, i, limit).Some? {
      SameCursor(begun, more, i, limit);
    }
  }

  /** A row still below the cursor of fetch n is on none of the pages before. */
  lemma LowRowsNotBefore(limit: nat, pages: seq<seq<Row>>, n: nat, r: Row)
    requires AllPlaced(limit, pages)
    requires n < |pages| && Visible(CursorAt(pages, n, limit), r)
    ensures forall i :: 0 <= i < n ==> r !in pages[i]
  {
    forall i | 0 <= i < n ensures r !in pages[i] {
      assert Placed(limit, pages, i) && Placed(limit, pages, n);
      CursorsDecrease(limit, pages, i + 1, n);
    }
  }

  /** No row is on two pages. */
  lemma PagesDisjoint(tables: seq<set<Row>>, limit: nat, pages: seq<seq<Row>>, i: nat, j: nat, r: Row)
    requires limit >= 1 && IsChain(tables, limit, pages) && PositiveHeights(tables)
    requires i < j < |pages| && r in pages[j]
    ensures r !in pages[i]
  {
    ChainIsPlaced(tables, limit, pages);
    assert Placed(limit, pages, j);
    LowRowsNotBefore(limit, pages, j, r);
  }

  /** Row r has the height at which page i ends, but is not on it. */
  ghost predicate CutOff(limit: nat, pages: seq<seq<Row>>, i: nat, r: Row)
    requires i < |pages|
  {
    CursorAt(pages, i + 1, limit) == Some(r.height) && r !in pages[i]
  }

  ghost predicate CutSomewhere(limit: nat, pages: seq<seq<Row>>, r: Row) {
    exists i :: 0 <= i < |pages| && CutOff(limit, pages, i, r)
  }

  ghost predicate Shown(pages: seq<seq<Row>>, r: Row) {
    exists i :: 0 <= i < |pages| && r in pages[i]
  }

  /** The last page is full of rows but not of entities, and leaves r out. */
  ghost predicate EndedEarly(limit: nat, pages: seq<seq<Row>>, r: Row)
    requires pages != []
  {
    var last := |pages| - 1;
    |pages[last]| == limit && Visible(CursorAt(pages, last, limit), r) && r !in pages[last]
  }

  /** The first fetch after which a row is no longer below the cursor. */
  lemma {:induction false} PassedAt(limit: nat, pages: seq<seq<Row>>, r: Row, n: nat) returns (i: nat)
    requires 0 < n <= |pages| && !Visible(CursorAt(pages, n, limit), r)
    ensures i < n && Visible(CursorAt(pages, i, limit), r) && !Visible(CursorAt(pages, i + 1, limit), r)
  {
    if Visible(CursorAt(pages, n - 1, limit), r) {
      i := n - 1;
    } else {
      i := PassedAt(limit, pages, r, n - 1);
    }
  }

  /**
   Which rows a finished walk does not show, of those that were there from the start:
   exactly the rows cut off at a page boundary, and the rows left when the walk ends at a
   page that the join has filled with repeated entities.
   */
  lemma UnseenRows(tables: seq<set<Row>>, limit: nat, pages: seq<seq<Row>>, r: Row)
    requires limit >= 1 && IsWalk(tables, limit, pages) && PositiveHeights(tables) && Growing(tables)
    requires r in tables[0]
    ensures !Shown(pages, r) <==>
            CutSomewhere(limit, pages, r) || EndedEarly(limit, pages, r)
  {
    if CutSomewhere(limit, pages, r) || EndedEarly(limit, pages, r) {
      ChainIsPlaced(tables, limit, pages);
      LeftOutIsUnseen(limit, pages, r);
    } else {
      OthersAreShown(tables, limit, pages, r);
    }
  }

  lemma LeftOutIsUnseen(limit: nat, pages: seq<seq<Row>>, r: Row)
    requires AllPlaced(limit, pages) && pages != []
    requires CutSomewhere(limit, pages, r) || EndedEarly(limit, pages, r)
    ensures !Shown(pages, r)
  {
    if EndedEarly(limit, pages, r) {
      LowRowsNotBefore(limit, pages, |pages| - 1, r);
    } else {
      var j :| 0 <= j < |pages| && CutOff(limit, pages, j, r);
      CutOffIsUnseen(limit, pages, j, r);
    }
  }

  lemma OthersAreShown(tables: seq<set<Row>>, limit: nat, pages: seq<seq<Row>>, r: Row)
    requires limit >= 1 && IsWalk(tables, limit, pages) && PositiveHeights(tables) && Growing(tables)
    requires r in tables[0]
    requires !EndedEarly(limit, pages, r)
    requires !CutSomewhere(limit, pages, r)
    ensures Shown(pages, r)
  {
    var last := |pages| - 1;
    if Visible(CursorAt(pages, last, limit), r) {
      assert r in tables[last];
      assert IsPage(tables[last], CursorAt(pages, last, limit), limit, pages[last]);
    } else {
      var i := PassedAt(limit, pages, r, last);
      PassedIsShownOrCut(tables, limit, pages, i, r);
      assert !CutOff(limit, pages, i, r);
    }
  }

  lemma PassedIsShownOrCut(tables: seq<set<Row>>, limit: nat, pages: seq<seq<Row>>, i: nat, r: Row)
    requires limit >= 1 && IsChain(tables, limit, pages) && PositiveHeights(tables)
    requires i < |pages| && r in tables[i]
    requires Visible(CursorAt(pages, i, limit), r) && !Visible(CursorAt(pages, i + 1, limit), r)
    ensures r in pages[i] || CutOff(limit, pages, i, r)
  {
    var end := CursorRow(tables, limit, pages, i);
    PageTop(tables[i], CursorAt(pages, i, limit), limit, pages[i], end, r);
  }

  /** A row at or above the end of a page is on the page, or ties with its end. */
  lemma PageTop(table: set<Row>, cursor: Option<nat>, limit: nat, p: seq<Row>, end: Row, r: Row)
    requires IsPage(table, cursor, limit, p) && end in p
    requires r in table && Visible(cursor, r) && r.height >= end.height
    ensures r in p || r.height == end.height
  {
  }

  lemma CutOffIsUnseen(limit: nat, pages: seq<seq<Row>>, j: nat, r: Row)
    requires AllPlaced(limit, pages)
    requires j < |pages| && CutOff(limit, pages, j, r)
    ensures !Shown(pages, r)
  {
    assert Placed(limit, pages, j);
    LowRowsNotBefore(limit, pages, j, r);
    forall i | j < i < |pages| ensures r !in pages[i] {
      assert Placed(limit, pages, i);
      CursorsDecrease(limit, pages, j + 1, i);
    }
  }

  // ---- Entities with several rows (getTransactionsAdvanced) --------------------------------

  /** Some row of the entity is on the page, so the entity is in the response. */
  ghost predicate ShowsEntity(p: seq<Row>, entity: int) {
    exists r :: r in p && r.entity == entity
  }

  /** The rows of an entity: all of one height, at least one, and none added later. */
  ghost predicate SettledEntity(tables: seq<set<Row>>, entity: int, height: nat) {
    && (exists r :: InTable(tables, 0, r, entity))
    && (forall i, r :: InTable(tables, i, r, entity) ==> r.height == height && r in tables[0])
  }

  ghost predicate InTable(tables: seq<set<Row>>, i: int, r: Row, entity: int) {
    0 <= i < |tables| && r in tables[i] && r.entity == entity
  }

  lemma EntityRowShown(tables: seq<set<Row>>, limit: nat, pages: seq<seq<Row>>, i: nat, entity: int, height: nat)
    returns (r: Row)
    requires IsChain(tables, limit, pages) && i < |pages| && SettledEntity(tables, entity, height)
    requires ShowsEntity(pages[i], entity)
    ensures r in pages[i] && r.entity == entity && r.height == height && r in tables[0]
  {
    r :| r in pages[i] && r.entity == entity;
    assert IsPage(tables[i], CursorAt(pages, i, limit), limit, pages[i]);
    assert InTable(tables, i, r, entity);
  }

  /**
   Which transactions a finished walk never has in a response: those whose height ends a page
   that shows none of their rows, and those the walk leaves below a last page that the join
   has filled.
   */
  lemma UnseenEntities(tables: seq<set<Row>>, limit: nat, pages: seq<seq<Row>>, entity: int, height: nat)
    requires limit >= 1 && IsWalk(tables, limit, pages) && PositiveHeights(tables) && Growing(tables)
    requires SettledEntity(tables, entity, height)
    ensures (forall i :: 0 <= i < |pages| ==> !ShowsEntity(pages[i], entity)) <==>
            || EntityCutOff(limit, pages, entity, height)
            || EntityEndedEarly(limit, pages, entity, height)
  {
    var r :| InTable(tables, 0, r, entity);
    UnseenRows(tables, limit, pages, r);
    if forall i :: 0 <= i < |pages| ==> !ShowsEntity(pages[i], entity) {
      NeverShown(pages, entity, r);
      if CutSomewhere(limit, pages, r) {
        var i :| 0 <= i < |pages| && CutOff(limit, pages, i, r);
      }
    } else {
      var j :| 0 <= j < |pages| && ShowsEntity(pages[j], entity);
      var s := EntityRowShown(tables, limit, pages, j, entity, height);
      assert Shown(pages, s);
      UnseenRows(tables, limit, pages, s);
      forall i | 0 <= i < |pages| && CursorAt(pages, i + 1, limit) == Some(height)
        ensures ShowsEntity(pages[i], entity)
      {
        assert !CutOff(limit, pages, i, s);
      }
    }
  }

  lemma NeverShown(pages: seq<seq<Row>>, entity: int, r: Row)
    requires forall i :: 0 <= i < |pages| ==> !ShowsEntity(pages[i], entity)
    requires r.entity == entity
    ensures !Shown(pages, r)
  {
    if i :| 0 <= i < |pages| && r in pages[i] {
      assert ShowsEntity(pages[i], entity);
    }
  }

  /** A page ends at the height without showing any of the entity's rows. */
  ghost predicate EntityCutOff(limit: nat, pages: seq<seq<Row>>, entity: int, height: nat) {
    exists i :: 0 <= i < |pages| && CursorAt(pages, i + 1, limit) == Some(height) && !ShowsEntity(pages[i], entity)
  }

  /** The last page is full of rows, has not come down to the height, and shows none of the entity's rows. */
  ghost predicate EntityEndedEarly(limit: nat, pages: seq<seq<Row>>, entity: int, height: nat)
    requires pages != []
  {
    var last := |pages| - 1;
    var from := CursorAt(pages, last, limit);
    |pages[last]| == limit && (from.Some? && from.value != 0 ==> height < from.value)
      && !ShowsEntity(pages[last], entity)
  }

  // ---- Tables with one row per entity (getTransactions) ----------------------------------

  ghost predicate OneRowPerEntity(tables: seq<set<Row>>) {
    forall i, r, s :: 0 <= i < |tables| && r in tables[i] && s in tables[i] && r.entity == s.entity ==> r == s
  }

  /** Nothing is lost exactly when no page boundary splits a height. */
  lemma NothingLostIffNoSplit(tables: seq<set<Row>>, limit: nat, pages: seq<seq<Row>>)
    requires limit >= 1 && IsWalk(tables, limit, pages) && PositiveHeights(tables) && Growing(tables)
    requires OneRowPerEntity(tables)
    ensures (forall r :: r in tables[0] ==> Shown(pages, r)) <==>
            !(exists r :: r in tables[0] && CutSomewhere(limit, pages, r))
  {
    var last := |pages| - 1;
    forall i, j | 0 <= i < j < |pages[last]| ensures pages[last][i].entity != pages[last][j].entity {
      assert pages[last][i] in tables[last] && pages[last][j] in tables[last];
    }
    EntitiesCount(pages[last]);
    forall r | r in tables[0]
      ensures Shown(pages, r) <==> !CutSomewhere(limit, pages, r)
    {
      UnseenRows(tables, limit, pages, r);
    }
  }

  // ---- Blocks ---------------------------------------------------------------------------

  ghost predicate UniqueHeights(tables: seq<set<Row>>) {
    forall i, r, s :: 0 <= i < |tables| && r in tables[i] && s in tables[i] ==>
      (r.entity == s.entity || r.height == s.height) ==> r == s
  }

  /** Every block that was there from the start is shown, on exactly one page. */
  lemma BlocksShownOnce(tables: seq<set<Row>>, limit: nat, pages: seq<seq<Row>>, r: Row)
    requires limit >= 1 && IsWalk(tables, limit, pages) && PositiveHeights(tables) && Growing(tables)
    requires UniqueHeights(tables)
    requires r in tables[0]
    ensures exists i :: 0 <= i < |pages| && r in pages[i] && forall j :: 0 <= j < |pages| && r in pages[j] ==> i == j
  {
    NothingLostIffNoSplit(tables, limit, pages);
    forall i, s | 0 <= i < |pages| && s in tables[0] ensures !CutOff(limit, pages, i, s) {
      assert tables[0] <= tables[i];
      if CursorAt(pages, i + 1, limit).Some? {
        var end := CursorRow(tables, limit, pages, i);
      }
    }
    assert Shown(pages, r);
    var i :| 0 <= i < |pages| && r in pages[i];
    forall j | 0 <= j < |pages| && r in pages[j] ensures i == j {
      if i < j {
        PagesDisjoint(tables, limit, pages, i, j, r);
      } else if j < i {
        PagesDisjoint(tables, limit, pages, j, i, r);
      }
    }
  }

  /** The pages together list the blocks from the highest down. */
  lemma BlocksDescend(tables: seq<set<Row>>, limit: nat, pages: seq<seq<Row>>, i: nat, j: nat, a: nat, b: nat)
    requires limit >= 1 && IsChain(tables, limit, pages) && PositiveHeights(tables) && UniqueHeights(tables)
    requires i <= j < |pages| && a < |pages[i]| && b < |pages[j]| && (i == j ==> a < b)
    ensures pages[i][a].height > pages[j][b].height
  {
    if i < j {
      ChainIsPlaced(tables, limit, pages);
      LaterPageLower(limit, pages, i, j, pages[i][a], pages[j][b]);
    } else {
      PageDescends(tables[i], CursorAt(pages, i, limit), limit, pages[i], a, b);
    }
  }

  lemma LaterPageLower(limit: nat, pages: seq<seq<Row>>, i: nat, j: nat, r: Row, s: Row)
    requires AllPlaced(limit, pages)
    requires i < j < |pages| && r in pages[i] && s in pages[j]
    ensures r.height > s.height
  {
    assert Placed(limit, pages, i) && Placed(limit, pages, j);
    CursorsDecrease(limit, pages, i + 1, j);
  }

  lemma PageDescends(table: set<Row>, cursor: Option<nat>, limit: nat, p: seq<Row>, a: nat, b: nat)
    requires IsPage(table, cursor, limit, p) && a < b < |p|
    requires forall r, s :: r in table && s in table && r.height == s.height ==> r == s
    ensures p[a].height > p[b].height
  {
    assert p[a] in p && p[b] in p;
  }

  function Members(p: seq<Row>): set<Row> {
    set r | r in p
  }

  lemma {:induction false} DistinctCard(p: seq<Row>)
    requires Distinct(p)
    ensures |Members(p)| == |p|
  {
    if p != [] {
      var n := |p| - 1;
      DistinctCard(p[..n]);
      assert p == p[..n] + [p[n]];
      assert Members(p) == Members(p[..n]) + {p[n]};
    }
  }

  lemma {:induction false} CardMonotonic(a: set<Row>, b: set<Row>)
    requires a <= b
    ensures |a| <= |b|
  {
    if x :| x in a {
      CardMonotonic(a - {x}, b - {x});
    }
  }

  /** The rows of the first n pages. */
  function Union(pages: seq<seq<Row>>, n: nat): set<Row>
    requires n <= |pages|
  {
    if n == 0 then {} else Union(pages, n - 1) + Members(pages[n - 1])
  }

  lemma {:induction false} UnionMembers(pages: seq<seq<Row>>, n: nat, r: Row)
    requires n <= |pages|
    ensures r in Union(pages, n) <==> exists i :: 0 <= i < n && r in pages[i]
  {
    if n > 0 {
      UnionMembers(pages, n - 1, r);
    }
  }

  ghost predicate NoCommonRows(pages: seq<seq<Row>>) {
    forall i, j, r :: 0 <= i < j < |pages| && r in pages[j] ==> r !in pages[i]
  }

  lemma DisjointFromUnion(pages: seq<seq<Row>>, n: nat)
    requires n < |pages| && NoCommonRows(pages)
    ensures Union(pages, n) !! Members(pages[n])
  {
    var p := pages[n];
    forall r | r in p ensures r !in Union(pages, n) {
      UnionMembers(pages, n, r);
    }
  }

  /** Full pages without common rows. */
  lemma {:induction false} UnionCard(limit: nat, pages: seq<seq<Row>>, n: nat)
    requires n <= |pages| && NoCommonRows(pages)
    requires forall i :: 0 <= i < n ==> Distinct(pages[i]) && |pages[i]| == limit
    ensures |Union(pages, n)| == Times(n, limit)
  {
    if n > 0 {
      UnionCard(limit, pages, n - 1);
      DistinctCard(pages[n - 1]);
      DisjointFromUnion(pages, n - 1);
      DisjointCard(Union(pages, n - 1), Members(pages[n - 1]));
    }
  }

  lemma DisjointCard(a: set<Row>, b: set<Row>)
    requires a !! b
    ensures |a + b| == |a| + |b|
  {
  }

  function Constant(table: set<Row>, n: nat): seq<set<Row>> {
    seq(n, i => table)
  }

  /** Over a table that does not change, a walk makes exactly floor(rows / limit) + 1 fetches. */
  lemma BlockFetchCount(table: set<Row>, limit: nat, pages: seq<seq<Row>>)
    requires limit >= 1 && IsWalk(Constant(table, |pages|), limit, pages)
    requires PositiveHeights([table]) && UniqueHeights([table])
    ensures |pages| == |table| / limit + 1
  {
    var tables, last := Constant(table, |pages|), |pages| - 1;
    assert forall i :: 0 <= i < |tables| ==> tables[i] == [table][0];
    FullBeforeLast(tables, limit, pages);
    WalkPagesDisjoint(tables, limit, pages);
    UnionCard(limit, pages, last);
    LastPageShort(table, limit, pages);
    PagesCover(tables, table, limit, pages);
    DisjointFromUnion(pages, last);
    DisjointCard(Union(pages, last), Members(pages[last]));
    TimesIsProduct(last, limit);
    DivIs(|table|, limit, last, |pages[last]|);
  }

  lemma WalkPagesDisjoint(tables: seq<set<Row>>, limit: nat, pages: seq<seq<Row>>)
    requires limit >= 1 && IsChain(tables, limit, pages) && PositiveHeights(tables)
    ensures NoCommonRows(pages)
  {
    forall i, j, r | 0 <= i < j < |pages| && r in pages[j] ensures r !in pages[i] {
      PagesDisjoint(tables, limit, pages, i, j, r);
    }
  }

  lemma FullBeforeLast(tables: seq<set<Row>>, limit: nat, pages: seq<seq<Row>>)
    requires limit >= 1 && IsChain(tables, limit, pages) && PositiveHeights(tables)
    ensures forall i :: 0 <= i < |pages| ==> Distinct(pages[i])
    ensures forall i :: 0 <= i < |pages| - 1 ==> |pages[i]| == limit
  {
    forall i | 0 <= i < |pages| ensures Distinct(pages[i]) && (i < |pages| - 1 ==> |pages[i]| == limit) {
      assert IsPage(tables[i], CursorAt(pages, i, limit), limit, pages[i]);
      if i < |pages| - 1 {
        var r := CursorRow(tables, limit, pages, i);
      }
    }
  }

  lemma PagesCover(tables: seq<set<Row>>, table: set<Row>, limit: nat, pages: seq<seq<Row>>)
    requires limit >= 1 && IsWalk(tables, limit, pages) && PositiveHeights(tables) && UniqueHeights(tables)
    requires forall i :: 0 <= i < |tables| ==> tables[i] == table
    ensures table == Union(pages, |pages| - 1) + Members(pages[|pages| - 1])
  {
    var last := |pages| - 1;
    forall r ensures r in table <==> r in Union(pages, last) + Members(pages[last]) {
      UnionMembers(pages, last, r);
      assert Shown(pages, r) <==> r in Union(pages, last) + Members(pages[last]) by {
        ShownSplit(pages, r);
      }
      if r in table {
        BlocksShownOnce(tables, limit, pages, r);
      }
    }
  }

  lemma ShownSplit(pages: seq<seq<Row>>, r: Row)
    requires pages != []
    ensures Shown(pages, r) <==> (exists i :: 0 <= i < |pages| - 1 && r in pages[i]) || r in pages[|pages| - 1]
  {
  }

  lemma LastPageShort(table: set<Row>, limit: nat, pages: seq<seq<Row>>)
    requires limit >= 1 && IsWalk(Constant(table, |pages|), limit, pages)
    requires UniqueHeights([table])
    ensures |pages[|pages| - 1]| < limit && |Members(pages[|pages| - 1])| == |pages[|pages| - 1]|
  {
    var last := |pages| - 1;
    var p := pages[last];
    assert IsPage(Constant(table, |pages|)[last], CursorAt(pages, last, limit), limit, p);
    assert [table][0] == table;
    forall i, j | 0 <= i < j < |p| ensures p[i].entity != p[j].entity {
      assert p[i] in table && p[j] in table;
    }
    EntitiesCount(p);
    DistinctCard(p);
  }

  // ---- Insertions at or above the cursor -------------------------------------------------

  /** With unique heights the answer to a query is determined by the rows below its cursor. */
  lemma PageUnique(t: set<Row>, u: set<Row>, cursor: Option<nat>, limit: nat, p: seq<Row>, q: seq<Row>)
    requires IsPage(t, cursor, limit, p) && IsPage(u, cursor, limit, q)
    requires forall r :: Visible(cursor, r) ==> (r in t <==> r in u)
    requires UniqueHeights([t])
    ensures p == q
  {
    var n := Min(|p|, |q|);
    SameUpTo(t, u, cursor, limit, p, q, n);
    if |p| <= |q| {
      assert p[..n] == p;
      NotShorter(t, u, cursor, limit, p, q);
    } else {
      assert q[..n] == q;
      NotShorter(u, t, cursor, limit, q, p);
    }
  }

  lemma NotShorter(t: set<Row>, u: set<Row>, cursor: Option<nat>, limit: nat, p: seq<Row>, q: seq<Row>)
    requires IsPage(t, cursor, limit, p) && IsPage(u, cursor, limit, q)
    requires forall r :: Visible(cursor, r) ==> (r in t <==> r in u)
    requires |p| <= |q| && p == q[..|p|]
    ensures p == q
  {
    if |p| < limit {
      DistinctCard(p);
      DistinctCard(q);
      CardMonotonic(Members(q), Members(p));
    }
  }

  lemma {:induction false} SameUpTo(t: set<Row>, u: set<Row>, cursor: Option<nat>, limit: nat, p: seq<Row>,
                                    q: seq<Row>, n: nat)
    requires IsPage(t, cursor, limit, p) && IsPage(u, cursor, limit, q)
    requires forall r :: Visible(cursor, r) ==> (r in t <==> r in u)
    requires UniqueHeights([t])
    requires n <= |p| && n <= |q|
    ensures p[..n] == q[..n]
  {
    if n > 0 {
      var i := n - 1;
      SameUpTo(t, u, cursor, limit, p, q, i);
      NotHigher(t, u, cursor, limit, p, q, i);
      NotHigher(u, t, cursor, limit, q, p, i);
      assert p[i] in p && q[i] in q && [t][0] == t;
      assert p[i] == q[i];
      assert p[..n] == p[..i] + [p[i]] && q[..n] == q[..i] + [q[i]];
    }
  }

  lemma NotHigher(t: set<Row>, u: set<Row>, cursor: Option<nat>, limit: nat, p: seq<Row>, q: seq<Row>, i: nat)
    requires IsPage(t, cursor, limit, p) && IsPage(u, cursor, limit, q)
    requires forall r :: Visible(cursor, r) ==> (r in t <==> r in u)
    requires i < |p| && i < |q| && p[..i] == q[..i]
    ensures p[i].height <= q[i].height
  {
    assert p[i] in p && q[i] in q;
    assert forall j :: 0 <= j < i ==> p[..i][j] == q[..i][j];
  }

  /** Between two fetches only rows at or above the current cursor are inserted. */
  ghost predicate Changed(tables: seq<set<Row>>, i: nat, r: Row)
    requires 0 < i < |tables|
  {
    !(r in tables[i - 1] <==> r in tables[i])
  }

  ghost predicate InsertsAbove(tables: seq<set<Row>>, limit: nat, pages: seq<seq<Row>>) {
    && |tables| == |pages|
    && forall i, r :: 0 < i < |pages| && Changed(tables, i, r) ==>
         CursorAt(pages, i, limit).Some? && r.height >= CursorAt(pages, i, limit).value
  }

  lemma {:induction false} SameBelowCursor(tables: seq<set<Row>>, limit: nat, pages: seq<seq<Row>>, i: nat, r: Row)
    requires AllPlaced(limit, pages) && InsertsAbove(tables, limit, pages)
    requires i < |pages| && Visible(CursorAt(pages, i, limit), r)
    ensures r in tables[i] <==> r in tables[0]
  {
    if i > 0 {
      assert Placed(limit, pages, i) && Placed(limit, pages, i - 1);
      SameBelowCursor(tables, limit, pages, i - 1, r);
      assert !Changed(tables, i, r);
    }
  }

  /** Such insertions change no later page: the walk is that over the table it started with. */
  lemma InsertionsAboveChangeNothing(tables: seq<set<Row>>, limit: nat, pages: seq<seq<Row>>, quiet: seq<seq<Row>>)
    requires limit >= 1 && IsWalk(tables, limit, pages) && PositiveHeights(tables)
    requires InsertsAbove(tables, limit, pages)
    requires IsWalk(Constant(tables[0], |quiet|), limit, quiet) && UniqueHeights([tables[0]])
    ensures pages == quiet
  {
    ChainIsPlaced(tables, limit, pages);
    var n := Min(|pages|, |quiet|);
    forall i | 0 <= i < n && pages[..i] == quiet[..i] ensures pages[i] == quiet[i] {
      NextPageSame(tables, limit, pages, quiet, i);
    }
    SamePrefix(pages, quiet, n);
    assert n > 0;
    EndTogether(limit, pages, quiet, n);
  }

  lemma EndTogether(limit: nat, pages: seq<seq<Row>>, quiet: seq<seq<Row>>, n: nat)
    requires n == Min(|pages|, |quiet|) && pages[..n] == quiet[..n]
    requires CursorAt(pages, n, limit).None? <==> n == |pages|
    requires CursorAt(quiet, n, limit).None? <==> n == |quiet|
    ensures pages == quiet
  {
    SameCursor(pages, quiet, n, limit);
    assert pages[..|pages|] == pages && quiet[..|quiet|] == quiet;
  }

  lemma SameCursor(pages: seq<seq<Row>>, quiet: seq<seq<Row>>, n: nat, limit: nat)
    requires n <= |pages| && n <= |quiet| && pages[..n] == quiet[..n]
    ensures CursorAt(pages, n, limit) == CursorAt(quiet, n, limit)
  {
    if n > 0 {
      assert pages[n - 1] == pages[..n][n - 1] == quiet[..n][n - 1] == quiet[n - 1];
    }
  }

  lemma ConstantPage(table: set<Row>, limit: nat, quiet: seq<seq<Row>>, i: nat)
    requires IsChain(Constant(table, |quiet|), limit, quiet) && i < |quiet|
    ensures IsPage(table, CursorAt(quiet, i, limit), limit, quiet[i])
  {
    assert Constant(table, |quiet|)[i] == table;
  }

  lemma NextPageSame(tables: seq<set<Row>>, limit: nat, pages: seq<seq<Row>>, quiet: seq<seq<Row>>, i: nat)
    requires limit >= 1 && IsChain(tables, limit, pages) && AllPlaced(limit, pages)
             && InsertsAbove(tables, limit, pages)
    requires i < |pages| && i < |quiet| && pages[..i] == quiet[..i]
    requires IsChain(Constant(tables[0], |quiet|), limit, quiet) && UniqueHeights([tables[0]])
    ensures pages[i] == quiet[i]
  {
    SameCursor(pages, quiet, i, limit);
    ConstantPage(tables[0], limit, quiet, i);
    SamePage(tables, limit, pages, i, quiet[i]);
  }

  lemma {:induction false} SamePrefix<T>(s: seq<T>, t: seq<T>, n: nat)
    requires n <= |s| && n <= |t|
    requires forall i :: 0 <= i < n && s[..i] == t[..i] ==> s[i] == t[i]
    ensures s[..n] == t[..n]
  {
    if n > 0 {
      SamePrefix(s, t, n - 1);
      assert s[..n] == s[..n - 1] + [s[n - 1]] && t[..n] == t[..n - 1] + [t[n - 1]];
    }
  }

  lemma SamePage(tables: seq<set<Row>>, limit: nat, pages: seq<seq<Row>>, i: nat, q: seq<Row>)
    requires limit >= 1 && IsChain(tables, limit, pages) && AllPlaced(limit, pages)
             && InsertsAbove(tables, limit, pages)
    requires i < |pages| && IsPage(tables[0], CursorAt(pages, i, limit), limit, q)
    requires UniqueHeights([tables[0]])
    ensures q == pages[i]
  {
    var c := CursorAt(pages, i, limit);
    forall r | Visible(c, r) ensures r in tables[0] <==> r in tables[i] {
      SameBelowCursor(tables, limit, pages, i, r);
    }
    PageUnique(tables[0], tables[i], c, limit, q, pages[i]);
  }

  // ---- Ascending order, and the join (getTransactionsAdvanced) ---------------------------

  /**
   Under sort_order ASC the cursor clause still asks for lower heights: whatever is inserted
   below the cursor in between, the second fetch shows no row that was there at the first
   fetch and not on its page.
   */
  lemma AscendingRepeats(before: set<Row>, after: set<Row>, limit: nat, first: seq<Row>, second: seq<Row>)
    requires limit >= 1 && PositiveHeights([before])
    requires IsAscendingPage(before, None, limit, first)
    requires NextCursor(first, limit).Some?
    requires IsAscendingPage(after, NextCursor(first, limit), limit, second)
    ensures first[|first| - 1] !in second
    ensures forall r :: r in second && r in before ==> r in first
  {
    FullPage(first, limit);
    var end := first[|first| - 1];
    assert end in first && [before][0] == before && end.height > 0;
    forall r | r in second && r in before ensures r in first {
      assert Visible(NextCursor(first, limit), r) && Visible(None, r);
    }
  }

  /**
   Under sort_order ASC the cursor clause still asks for lower heights: if only rows at or above
   the cursor are inserted in between, the second fetch repeats rows of the first page and names
   no cursor, so the walk ends there.
   */
  lemma AscendingEndsInTwo(before: set<Row>, after: set<Row>, limit: nat, first: seq<Row>, second: seq<Row>)
    requires limit >= 1 && PositiveHeights([before])
    requires IsAscendingPage(before, None, limit, first)
    requires NextCursor(first, limit).Some?
    requires forall r :: Visible(NextCursor(first, limit), r) ==> (r in before <==> r in after)
    requires IsAscendingPage(after, NextCursor(first, limit), limit, second)
    ensures NextCursor(second, limit).None?
    ensures forall r :: r in second ==> r in first
  {
    AscendingRepeats(before, after, limit, first, second);
    var end := first[|first| - 1];
    assert end in first;
    assert Members(second) <= Members(first) - {end};
    DistinctCard(first);
    DistinctCard(second);
    CardMonotonic(Members(second), Members(first) - {end});
    EntitiesCount(second);
  }

  /** A finished walk in ascending order, over a table that does not change. */
  ghost predicate IsAscendingWalk(table: set<Row>, limit: nat, pages: seq<seq<Row>>) {
    && pages != []
    && (forall i :: 0 <= i < |pages| ==> IsAscendingPage(table, CursorAt(pages, i, limit), limit, pages[i]))
    && (forall i :: 0 < i < |pages| ==> CursorAt(pages, i, limit).Some?)
    && CursorAt(pages, |pages|, limit).None?
  }

  lemma AscendingShowsFirstPage(table: set<Row>, limit: nat, pages: seq<seq<Row>>)
    requires limit >= 1 && PositiveHeights([table]) && IsAscendingWalk(table, limit, pages)
    ensures |pages| <= 2
    ensures forall r :: Shown(pages, r) <==> r in pages[0]
  {
    if |pages| >= 2 {
      assert CursorAt(pages, 1, limit).Some? && CursorAt(pages, 0, limit) == None;
      AscendingEndsInTwo(table, table, limit, pages[0], pages[1]);
      assert CursorAt(pages, 2, limit).None?;
    }
  }

  /** A walk in ascending order is complete exactly when its first page is: the table has at most limit rows. */
  lemma AscendingCompleteIff(table: set<Row>, limit: nat, pages: seq<seq<Row>>)
    requires limit >= 1 && PositiveHeights([table]) && IsAscendingWalk(table, limit, pages)
    ensures (forall r :: r in table ==> Shown(pages, r)) <==> |table| <= limit
  {
    var first := pages[0];
    AscendingShowsFirstPage(table, limit, pages);
    assert IsAscendingPage(table, CursorAt(pages, 0, limit), limit, first);
    DistinctCard(first);
    assert Members(first) <= table;
    if forall r :: r in table ==> Shown(pages, r) {
      assert table == Members(first);
    } else {
      var r :| r in table && !Shown(pages, r);
      assert Visible(None, r) && r !in first;
      CardMonotonic(Members(first), table - {r});
    }
  }

  /** One transaction to a page, in ascending order: the second one is never shown. */
  lemma AscendingLosesTransactions()
    ensures var a, b := Row(1, 0, 1), Row(2, 0, 2);
            IsAscendingWalk({a, b}, 1, [[a], []]) && !Shown([[a], []], b)
  {
    var a, b := Row(1, 0, 1), Row(2, 0, 2);
    JoinEndsWalk([a], 1);
    JoinEndsWalk([], 1);
    FullPage([a], 1);
    var pages := [[a], []];
    assert CursorAt(pages, 0, 1) == None && CursorAt(pages, 1, 1) == Some(1) && CursorAt(pages, 2, 1) == None;
  }

  /** A page names a next cursor exactly when it is full and the join repeats no entity on it. */
  lemma JoinEndsWalk(p: seq<Row>, limit: nat)
    requires limit >= 1 && |p| <= limit
    ensures NextCursor(p, limit).Some? <==> |p| == limit && OneRowEach(p)
  {
    EntitiesCount(p);
  }

  /** Two messages of one transaction fill a page of two, and the transaction below is never shown. */
  lemma JoinLosesTransactions()
    ensures var a, b, c := Row(1, 0, 2), Row(1, 1, 2), Row(2, 0, 1);
            IsWalk([{a, b, c}], 2, [[a, b]]) && !Shown([[a, b]], c)
  {
    var a, b, c := Row(1, 0, 2), Row(1, 1, 2), Row(2, 0, 1);
    JoinEndsWalk([a, b], 2);
    assert CursorAt([[a, b]], 0, 2).None?;
  }
}
