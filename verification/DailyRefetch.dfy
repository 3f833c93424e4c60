/**
 The daily backfill: which blocks are missing, the loop that fetches them again, and the
 slashing block handler as the example of a handler that writes at its own height.
 The main results say that a backfill which succeeds leaves the store in the state of an
 ingest without gaps, and exactly which blocks a backfill that stops has added.
 */
module DailyRefetch {
  import opened Wrappers
  import opened GuardedTables
  import opened IndexerDb

  // ---- Missing blocks -------------------------------------------------------------------

  /** The heights of [lo, hi] that the block table lacks, in ascending order. */
  function Missing(blocks: set<int>, lo: int, hi: int): (heights: seq<int>)
    ensures forall h :: h in heights <==> lo <= h <= hi && h !in blocks
    ensures forall i, j :: 0 <= i < j < |heights| ==> heights[i] < heights[j]
    decreases hi - lo + 1
  {
    if lo > hi then []
    else
      var rest := Missing(blocks, lo + 1, hi);
      assert forall i :: 0 <= i < |rest| ==> rest[i] in rest;
      if lo in blocks then rest else [lo] + rest
  }

  predicate FitsInt4(x: int) { -0x8000_0000 <= x < 0x8000_0000 }

  /**
   The query casts both bounds to a 32-bit integer. A height beyond it makes the query fail,
   and the failure is returned as "nothing is missing".
   */
  function GetMissingBlocks(blocks: set<int>, startHeight: int, endHeight: int): seq<int> {
    if FitsInt4(startHeight) && FitsInt4(endHeight) then Missing(blocks, startHeight, endHeight) else []
  }

  // ---- One block ------------------------------------------------------------------------

  /** A signing info as the chain reports it; the handler adds the height. */
  datatype ChainInfo = ChainInfo(consAddr: string, startHeight: int, indexOffset: int, jailedUntil: int,
                                 tombstoned: bool, missedBlocks: int)

  /** What the chain answers at each height; None is a query that fails. */
  type Chain = int -> Option<seq<ChainInfo>>

  function Stamped(x: ChainInfo, h: int): SigningInfo {
    SigningInfo(x.consAddr, x.startHeight, x.indexOffset, x.jailedUntil, x.tombstoned, x.missedBlocks, h)
  }

  function InfosAt(chain: Chain, h: int): seq<SigningInfo> {
    match chain(h)
    case None => []
    case Some(xs) => seq(|xs|, i requires 0 <= i < |xs| => Stamped(xs[i], h))
  }

  function WritesAt(chain: Chain, h: int): seq<Write<string, SigningRow>> {
    SigningWrites(InfosAt(chain, h))
  }

  datatype State = State(blocks: set<int>, signing: map<string, Row<SigningRow>>)

  function Processed(s: State, chain: Chain, h: int): State {
    State(s.blocks + {h},
          if Accepted(s.signing, WritesAt(chain, h)) then UpsertAll(s.signing, WritesAt(chain, h)) else s.signing)
  }

  function Ingested(s: State, chain: Chain, heights: seq<int>): State {
    if heights == [] then s
    else Processed(Ingested(s, chain, heights[..|heights| - 1]), chain, heights[|heights| - 1])
  }

  datatype Outcome = Done | LatestHeightError | StartHeightError | ContextError | BlockError(height: int)

  // ---- What one run of the job does -----------------------------------------------------

  /** The position of the first height that cannot be fetched, or the number of heights. */
  function FirstFailure(heights: seq<int>, reachable: int -> bool): (n: nat)
    ensures n <= |heights|
    ensures forall i :: 0 <= i < n ==> reachable(heights[i])
    ensures n < |heights| ==> !reachable(heights[n])
  {
    if heights == [] || !reachable(heights[0]) then 0 else 1 + FirstFailure(heights[1..], reachable)
  }

  lemma FirstFailureIs(heights: seq<int>, reachable: int -> bool, i: nat)
    requires i < |heights| && FirstFailure(heights, reachable) >= i && !reachable(heights[i])
    ensures FirstFailure(heights, reachable) == i
  {
  }

  lemma FirstFailureAfter(heights: seq<int>, reachable: int -> bool, i: nat)
    requires i < |heights| && FirstFailure(heights, reachable) >= i && reachable(heights[i])
    ensures FirstFailure(heights, reachable) > i
  {
  }

  function Planned(blocks: set<int>, latest: Option<int>, dayAgo: Option<int>, contextOk: bool,
                   reachable: int -> bool): Outcome
  {
    if latest.None? then LatestHeightError
    else if dayAgo.None? then StartHeightError
    else
      var missing := GetMissingBlocks(blocks, dayAgo.value, latest.value);
      if missing == [] then Done
      else if !contextOk then ContextError
      else
        var n := FirstFailure(missing, reachable);
        if n < |missing| then BlockError(missing[n]) else Done
  }

  function Fetched(blocks: set<int>, latest: Option<int>, dayAgo: Option<int>, contextOk: bool,
                   reachable: int -> bool): seq<int>
  {
    if latest.None? || dayAgo.None? || !contextOk then []
    else
      var missing := GetMissingBlocks(blocks, dayAgo.value, latest.value);
      missing[..FirstFailure(missing, reachable)]
  }

  // ---- The program ------------------------------------------------------------------------

  class Indexer {
    var blocks: set<int>
    var signing: map<string, Row<SigningRow>>

    function Contents(): State
      reads this
    {
      State(blocks, signing)
    }

    constructor ()
      ensures Contents() == State({}, map[])
    {
      blocks, signing := {}, map[];
    }

    /** HandleBlock of x/slashing; the caller logs its error and goes on. */
    method HandleBlock(chain: Chain, h: int) returns (ok: bool)
      modifies this`signing
      ensures ok <==> chain(h).Some? && Accepted(old(signing), WritesAt(chain, h))
      ensures Contents() == Processed(old(Contents()), chain, h).(blocks := blocks)
    {
      if chain(h).None? {
        assert WritesAt(chain, h) == [];
        return false;
      }
      var signingInfos := chain(h).value;
      var infos: seq<SigningInfo> := [];
      for i := 0 to |signingInfos|
        invariant |infos| == i
        invariant infos == InfosAt(chain, h)[..i]
      {
        infos := infos + [Stamped(signingInfos[i], h)];
      }
      assert infos == InfosAt(chain, h);
      AnythingIsPermitted(signing, SigningWrites(infos));
      ok, signing := ExecUpsert(signing, SigningWrites(infos), Anything);
    }

    /** One height: fetch it, store the block, run the handler. */
    method Process(chain: Chain, reachable: int -> bool, h: int) returns (ok: bool)
      modifies this
      ensures ok == reachable(h)
      ensures Contents() == if ok then Processed(old(Contents()), chain, h) else old(Contents())
    {
      if !reachable(h) {
        return false;
      }
      blocks := blocks + {h};
      var _ := HandleBlock(chain, h);
      return true;
    }

    /** The daily job. Every question it asks of its surroundings is a parameter. */
    method RefetchMissingBlocks(latest: Option<int>, dayAgo: Option<int>, contextOk: bool,
                                chain: Chain, reachable: int -> bool) returns (r: Outcome)
      modifies this
      ensures r == Planned(old(blocks), latest, dayAgo, contextOk, reachable)
      ensures Contents() == Ingested(old(Contents()), chain, Fetched(old(blocks), latest, dayAgo, contextOk, reachable))
    {
      if latest.None? {
        return LatestHeightError;
      }
      if dayAgo.None? {
        return StartHeightError;
      }
      var missing := GetMissingBlocks(blocks, dayAgo.value, latest.value);
      if missing == [] {
        return Done;
      }
      if !contextOk {
        return ContextError;
      }
      r := FetchAll(chain, reachable, missing);
    }

    /** The loop of the job, which stops at the first height that cannot be fetched. */
    method FetchAll(chain: Chain, reachable: int -> bool, missing: seq<int>) returns (r: Outcome)
      modifies this
      ensures var n := FirstFailure(missing, reachable);
              && r == (if n < |missing| then BlockError(missing[n]) else Done)
              && Contents() == Ingested(old(Contents()), chain, missing[..n])
    {
      for i := 0 to |missing|
        invariant Contents() == Ingested(old(Contents()), chain, missing[..i])
        invariant FirstFailure(missing, reachable) >= i
      {
        var ok := Process(chain, reachable, missing[i]);
        if !ok {
          FirstFailureIs(missing, reachable, i);
          return BlockError(missing[i]);
        }
        FirstFailureAfter(missing, reachable, i);
        assert missing[..i + 1][..i] == missing[..i];
      }
      return Done;
    }
  }

  // ---- Which blocks the job adds ------------------------------------------------------------

  lemma {:induction false} IngestedBlocks(s: State, chain: Chain, heights: seq<int>, h: int)
    ensures h in Ingested(s, chain, heights).blocks <==> h in s.blocks || h in heights
  {
    if heights != [] {
      var n := |heights| - 1;
      IngestedBlocks(s, chain, heights[..n], h);
      assert heights == heights[..n] + [heights[n]];
    }
  }

  lemma AscendingPrefix(heights: seq<int>, n: nat, h: int)
    requires n < |heights| && forall i, j :: 0 <= i < j < |heights| ==> heights[i] < heights[j]
    ensures h in heights[..n] <==> h in heights && h < heights[n]
  {
    if h in heights && h < heights[n] {
      var i :| 0 <= i < |heights| && heights[i] == h;
      assert heights[..n][i] == h;
    }
  }

  /** A job that stops at a block has added exactly the missing blocks below it. */
  lemma StoppedBackfill(s: State, chain: Chain, latest: Option<int>, dayAgo: Option<int>, contextOk: bool,
                        reachable: int -> bool, h: int)
    requires Planned(s.blocks, latest, dayAgo, contextOk, reachable).BlockError?
    ensures var failed := Planned(s.blocks, latest, dayAgo, contextOk, reachable).height;
            var after := Ingested(s, chain, Fetched(s.blocks, latest, dayAgo, contextOk, reachable));
            h in after.blocks <==> h in s.blocks || dayAgo.value <= h < failed
  {
    var missing := GetMissingBlocks(s.blocks, dayAgo.value, latest.value);
    var n := FirstFailure(missing, reachable);
    IngestedBlocks(s, chain, missing[..n], h);
    assert missing[n] in missing;
    AscendingPrefix(missing, n, h);
  }

  ghost predicate Covered(blocks: set<int>, lo: int, hi: int) {
    forall h :: lo <= h <= hi ==> h in blocks
  }

  /** A job that reports success leaves no gap, exactly when the two bounds fit the cast. */
  lemma BackfillCompleteness(s: State, chain: Chain, latest: int, dayAgo: int, contextOk: bool, reachable: int -> bool)
    requires Planned(s.blocks, Some(latest), Some(dayAgo), contextOk, reachable) == Done
    ensures var after := Ingested(s, chain, Fetched(s.blocks, Some(latest), Some(dayAgo), contextOk, reachable));
            Covered(after.blocks, dayAgo, latest)
            <==> || (-2147483648 <= dayAgo <= 2147483647 && -2147483648 <= latest <= 2147483647)
                 || forall h :: dayAgo <= h <= latest ==> h in s.blocks
  {
    var missing := GetMissingBlocks(s.blocks, dayAgo, latest);
    var fetched := Fetched(s.blocks, Some(latest), Some(dayAgo), contextOk, reachable);
    assert fetched == missing;
    forall h | dayAgo <= h <= latest
      ensures h in Ingested(s, chain, fetched).blocks <==> h in s.blocks || h in missing
    {
      IngestedBlocks(s, chain, fetched, h);
    }
    if missing != Missing(s.blocks, dayAgo, latest) {
      var h := Missing(s.blocks, dayAgo, latest)[0];
      assert h in Missing(s.blocks, dayAgo, latest);
      assert dayAgo <= h <= latest && h !in Ingested(s, chain, fetched).blocks;
      assert !Covered(Ingested(s, chain, fetched).blocks, dayAgo, latest);
    } else {
      assert forall h :: dayAgo <= h <= latest && h !in s.blocks ==> h in missing;
      assert Covered(Ingested(s, chain, fetched).blocks, dayAgo, latest);
    }
  }

  // ---- The job in terms of heights ----------------------------------------------------------

  /** A height of the interval that is not stored. */
  predicate Lacking(blocks: set<int>, dayAgo: int, latest: int, h: int) {
    dayAgo <= h <= latest && h !in blocks
  }

  /** Every height that is lacking up to h can be fetched. */
  ghost predicate ReachableUpTo(blocks: set<int>, dayAgo: int, latest: int, reachable: int -> bool, h: int) {
    forall l :: l <= h && Lacking(blocks, dayAgo, latest, l) ==> reachable(l)
  }

  lemma FirstFailureBefore(heights: seq<int>, reachable: int -> bool, k: nat)
    requires forall i, j :: 0 <= i < j < |heights| ==> heights[i] < heights[j]
    requires k < |heights|
    ensures k < FirstFailure(heights, reachable)
            <==> forall l :: l in heights && l <= heights[k] ==> reachable(l)
    ensures k == FirstFailure(heights, reachable)
            <==> !reachable(heights[k]) && forall l :: l in heights && l < heights[k] ==> reachable(l)
  {
    var n := FirstFailure(heights, reachable);
    forall l | l in heights && l < heights[k] ensures l in heights[..k] {
      AscendingPrefix(heights, k, l);
    }
    forall l | l in heights && k <= n && l < heights[k] ensures reachable(l) {
      var i :| 0 <= i < k && heights[i] == l;
    }
    if n < k {
      assert heights[n] in heights && heights[n] < heights[k] && !reachable(heights[n]);
    }
    assert heights[k] in heights;
  }

  /** The two failing queries end the job before anything else is looked at. */
  lemma HeightErrors(blocks: set<int>, latest: Option<int>, dayAgo: Option<int>, contextOk: bool,
                     reachable: int -> bool)
    ensures Planned(blocks, latest, dayAgo, contextOk, reachable) == LatestHeightError <==> latest.None?
    ensures Planned(blocks, latest, dayAgo, contextOk, reachable) == StartHeightError <==> latest.Some? && dayAgo.None?
    ensures latest.None? || dayAgo.None? ==> Fetched(blocks, latest, dayAgo, contextOk, reachable) == []
  {
  }

  /** Which heights one run fetches, and how it ends, for bounds of 32 bits. */
  lemma JobMeans(blocks: set<int>, latest: int, dayAgo: int, contextOk: bool, reachable: int -> bool)
    requires -2147483648 <= dayAgo <= 2147483647 && -2147483648 <= latest <= 2147483647
    ensures var r := Planned(blocks, Some(latest), Some(dayAgo), contextOk, reachable);
            && (r == ContextError <==> !contextOk && exists h :: Lacking(blocks, dayAgo, latest, h))
            && (r == Done <==> forall h :: Lacking(blocks, dayAgo, latest, h) ==> contextOk && reachable(h))
            && (forall h :: r == BlockError(h) <==>
                  && contextOk && Lacking(blocks, dayAgo, latest, h) && !reachable(h)
                  && ReachableUpTo(blocks, dayAgo, latest, reachable, h - 1))
    ensures forall h :: h in Fetched(blocks, Some(latest), Some(dayAgo), contextOk, reachable) <==>
              && contextOk && Lacking(blocks, dayAgo, latest, h)
              && ReachableUpTo(blocks, dayAgo, latest, reachable, h)
  {
    var missing := Missing(blocks, dayAgo, latest);
    assert GetMissingBlocks(blocks, dayAgo, latest) == missing;
    assert forall h :: h in missing <==> Lacking(blocks, dayAgo, latest, h);
    if missing == [] {
      assert forall h :: !Lacking(blocks, dayAgo, latest, h);
    } else {
      assert missing[0] in missing;
      if contextOk {
        LoopMeans(blocks, latest, dayAgo, reachable);
      }
    }
  }

  lemma LoopMeans(blocks: set<int>, latest: int, dayAgo: int, reachable: int -> bool)
    ensures var missing := Missing(blocks, dayAgo, latest);
            var n := FirstFailure(missing, reachable);
            && (n == |missing| <==> forall h :: Lacking(blocks, dayAgo, latest, h) ==> reachable(h))
            && (forall h :: (n < |missing| && missing[n] == h) <==>
                  && Lacking(blocks, dayAgo, latest, h) && !reachable(h)
                  && ReachableUpTo(blocks, dayAgo, latest, reachable, h - 1))
            && (forall h :: h in missing[..n] <==>
                  Lacking(blocks, dayAgo, latest, h) && ReachableUpTo(blocks, dayAgo, latest, reachable, h))
  {
    var missing := Missing(blocks, dayAgo, latest);
    var n := FirstFailure(missing, reachable);
    assert forall h :: h in missing <==> Lacking(blocks, dayAgo, latest, h);
    if n < |missing| {
      assert missing[n] in missing;
    }
    forall h | Lacking(blocks, dayAgo, latest, h)
      ensures h in missing[..n] <==> ReachableUpTo(blocks, dayAgo, latest, reachable, h)
      ensures (n < |missing| && missing[n] == h) <==>
              !reachable(h) && ReachableUpTo(blocks, dayAgo, latest, reachable, h - 1)
    {
      var k :| 0 <= k < |missing| && missing[k] == h;
      FirstFailureBefore(missing, reachable, k);
      assert k < n ==> missing[..n][k] == h;
    }
  }

  /** What processing a height stores of one validator: the chain's answer, under that height. */
  lemma ProcessedStores(s: State, chain: Chain, h: int, x: ChainInfo)
    requires chain(h).Some? && x in chain(h).value && Accepted(s.signing, WritesAt(chain, h))
    requires x.consAddr in s.signing ==> s.signing[x.consAddr].height <= h
    ensures var u := Processed(s, chain, h);
            && u.blocks == s.blocks + {h} && x.consAddr in u.signing && u.signing[x.consAddr].height == h
            && u.signing[x.consAddr].value.startHeight == x.startHeight
            && u.signing[x.consAddr].value.indexOffset == x.indexOffset
            && u.signing[x.consAddr].value.jailedUntil == x.jailedUntil
            && u.signing[x.consAddr].value.tombstoned == x.tombstoned
            && u.signing[x.consAddr].value.missedBlocks == x.missedBlocks
  {
    var i :| 0 <= i < |chain(h).value| && chain(h).value[i] == x;
    AcceptedStores(s.signing, WritesAt(chain, h), i);
  }

  /** And what it leaves alone: the rows of validators the chain does not name, and all of them if it names none. */
  lemma ProcessedLeaves(s: State, chain: Chain, h: int, consAddr: string)
    requires chain(h).Some? ==> forall i :: 0 <= i < |chain(h).value| ==> chain(h).value[i].consAddr != consAddr
    ensures var u := Processed(s, chain, h);
            (consAddr in u.signing <==> consAddr in s.signing)
            && (consAddr in s.signing ==> u.signing[consAddr] == s.signing[consAddr])
  {
    NotTouched(s.signing, WritesAt(chain, h), consAddr);
    UntouchedStays(s.signing, WritesAt(chain, h), consAddr);
  }

  lemma {:induction false} NotTouched(t: map<string, Row<SigningRow>>, ws: seq<Write<string, SigningRow>>, k: string)
    requires forall i :: 0 <= i < |ws| ==> ws[i].key != k
    ensures k !in Touched(t, ws)
  {
    if ws != [] {
      NotTouched(t, ws[..|ws| - 1], k);
    }
  }

  /** The first height beyond the cast: missing, never fetched, and reported as a success. */
  lemma CastHidesTheGap(reachable: int -> bool)
    ensures Planned({}, Some(0x8000_0000), Some(0x8000_0000), true, reachable) == Done
    ensures Fetched({}, Some(0x8000_0000), Some(0x8000_0000), true, reachable) == []
    ensures Missing({}, 0x8000_0000, 0x8000_0000) == [0x8000_0000]
  {
    assert Missing({}, 0x8000_0001, 0x8000_0000) == [];
  }

  // ---- The state of an ingest does not depend on its order -------------------------------

  /** The chain names each validator at most once per height. */
  ghost predicate OneInfoEach(chain: Chain) {
    forall h :: DistinctKeys(WritesAt(chain, h))
  }

  function AllWrites(chain: Chain, heights: seq<int>): seq<Write<string, SigningRow>> {
    if heights == [] then []
    else AllWrites(chain, heights[..|heights| - 1]) + WritesAt(chain, heights[|heights| - 1])
  }

  lemma {:induction false} IngestedSigning(s: State, chain: Chain, heights: seq<int>)
    requires OneInfoEach(chain)
    ensures Ingested(s, chain, heights).signing == UpsertAll(s.signing, AllWrites(chain, heights))
  {
    if heights != [] {
      var n := |heights| - 1;
      var before := Ingested(s, chain, heights[..n]);
      IngestedSigning(s, chain, heights[..n]);
      DistinctIsAccepted(before.signing, WritesAt(chain, heights[n]));
      UpsertAllAppend(s.signing, AllWrites(chain, heights[..n]), WritesAt(chain, heights[n]));
    }
  }

  /** Every tuple carries the height of the block it came from. */
  lemma {:induction false} WriteOrigin(chain: Chain, heights: seq<int>, w: Write<string, SigningRow>)
    ensures w in AllWrites(chain, heights) <==> w.height in heights && w in WritesAt(chain, w.height)
  {
    if heights != [] {
      var n := |heights| - 1;
      WriteOrigin(chain, heights[..n], w);
      assert heights == heights[..n] + [heights[n]];
      assert w in WritesAt(chain, heights[n]) ==> w.height == heights[n];
    }
  }

  lemma WritesAreFunctional(chain: Chain, heights: seq<int>)
    requires OneInfoEach(chain)
    ensures Functional(AllWrites(chain, heights))
  {
    var ws := AllWrites(chain, heights);
    forall i, j | 0 <= i < |ws| && 0 <= j < |ws| && ws[i].key == ws[j].key && ws[i].height == ws[j].height
      ensures ws[i].value == ws[j].value
    {
      assert DistinctKeys(WritesAt(chain, ws[i].height));
      WriteOrigin(chain, heights, ws[i]);
      WriteOrigin(chain, heights, ws[j]);
      OneWritePerKey(WritesAt(chain, ws[i].height), ws[i], ws[j]);
    }
  }

  lemma OneWritePerKey(ws: seq<Write<string, SigningRow>>, v: Write<string, SigningRow>, w: Write<string, SigningRow>)
    requires DistinctKeys(ws) && v in ws && w in ws && v.key == w.key
    ensures v == w
  {
    var a :| 0 <= a < |ws| && ws[a] == v;
    var b :| 0 <= b < |ws| && ws[b] == w;
  }

  /** Ingesting the same heights in any order, with repetitions, gives the same state. */
  lemma IngestOrderIrrelevant(s: State, chain: Chain, a: seq<int>, b: seq<int>)
    requires OneInfoEach(chain)
    requires forall h :: h in a <==> h in b
    ensures Ingested(s, chain, a) == Ingested(s, chain, b)
  {
    IngestedSigning(s, chain, a);
    IngestedSigning(s, chain, b);
    var wa, wb := AllWrites(chain, a), AllWrites(chain, b);
    forall i | 0 <= i < |wa| ensures wa[i] in wb {
      WriteOrigin(chain, a, wa[i]);
      WriteOrigin(chain, b, wa[i]);
    }
    forall i | 0 <= i < |wb| ensures wb[i] in wa {
      WriteOrigin(chain, a, wb[i]);
      WriteOrigin(chain, b, wb[i]);
    }
    WritesAreFunctional(chain, a);
    ConvergenceOfDeterministicWrites(s.signing, wa, wb);
    forall h ensures h in Ingested(s, chain, a).blocks <==> h in Ingested(s, chain, b).blocks {
      IngestedBlocks(s, chain, a, h);
      IngestedBlocks(s, chain, b, h);
    }
  }

  lemma {:induction false} IngestedAppend(s: State, chain: Chain, a: seq<int>, b: seq<int>)
    ensures Ingested(s, chain, a + b) == Ingested(Ingested(s, chain, a), chain, b)
  {
    if b == [] {
      assert a + b == a;
    } else {
      assert (a + b)[..|a + b| - 1] == a + b[..|b| - 1];
      IngestedAppend(s, chain, a, b[..|b| - 1]);
    }
  }

  /**
   Ingest any heights in any order, let the job succeed, and the store equals that of an
   indexer that took every one of those heights and of [dayAgo, latest] once, in order.
   */
  lemma BackfillMatchesGaplessIngest(chain: Chain, seen: seq<int>, latest: int, dayAgo: int, contextOk: bool,
                                     reachable: int -> bool, gapless: seq<int>)
    requires OneInfoEach(chain)
    requires -2147483648 <= dayAgo <= 2147483647 && -2147483648 <= latest <= 2147483647
    requires forall i, j :: 0 <= i < j < |gapless| ==> gapless[i] < gapless[j]
    requires forall h :: h in gapless <==> h in seen || dayAgo <= h <= latest
    requires Planned(Ingested(State({}, map[]), chain, seen).blocks, Some(latest), Some(dayAgo), contextOk, reachable)
             == Done
    ensures var s := Ingested(State({}, map[]), chain, seen);
            Ingested(s, chain, Fetched(s.blocks, Some(latest), Some(dayAgo), contextOk, reachable))
            == Ingested(State({}, map[]), chain, gapless)
  {
    var empty := State({}, map[]);
    var s := Ingested(empty, chain, seen);
    var missing := Missing(s.blocks, dayAgo, latest);
    assert Fetched(s.blocks, Some(latest), Some(dayAgo), contextOk, reachable) == missing;
    IngestedAppend(empty, chain, seen, missing);
    forall h ensures h in seen + missing <==> h in gapless {
      IngestedBlocks(empty, chain, seen, h);
    }
    IngestOrderIrrelevant(empty, chain, seen + missing, gapless);
  }
}
