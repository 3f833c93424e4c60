/**
 Fee grant allowances: a guarded upsert and a guarded delete on the same row, with no trace
 kept of a deletion. The reference is "the operation of greatest height decides". The main
 results say in which arrival orders the table agrees with it: always when blocks come in
 order, and otherwise exactly under a condition on the revokes.
 */
module FeeGrants {
  import opened Wrappers
  import opened GuardedTables

  datatype Pair = Pair(grantee: string, granter: string)

  datatype Op =
    | Grant(pair: Pair, allowance: string, height: int)
    | Revoke(pair: Pair, height: int)

  type Allowances = map<Pair, Row<string>>

  function Apply(t: Allowances, op: Op): Allowances {
    match op
    case Grant(p, a, h) => Upsert(t, Write(p, h, a))
    case Revoke(p, h) => if p in t && t[p].height <= h then t - {p} else t
  }

  function Run(t: Allowances, ops: seq<Op>): Allowances {
    if ops == [] then t else Apply(Run(t, ops[..|ops| - 1]), ops[|ops| - 1])
  }

  class FeeGrantDb {
    var accounts: set<string>
    var allowances: Allowances

    constructor ()
      ensures accounts == {} && allowances == map[]
    {
      accounts, allowances := {}, map[];
    }

    method SaveFeeGrantAllowance(granter: string, grantee: string, allowance: string, height: int)
      modifies this
      ensures allowances == Apply(old(allowances), Grant(Pair(grantee, granter), allowance, height))
      ensures accounts == old(accounts) + {granter, grantee}
    {
      accounts := accounts + {granter, grantee};
      var key := Pair(grantee, granter);
      if key !in allowances || allowances[key].height <= height {
        allowances := allowances[key := Row(allowance, height)];
      }
    }

    method DeleteFeeGrantAllowance(granter: string, grantee: string, height: int)
      modifies this`allowances
      ensures allowances == Apply(old(allowances), Revoke(Pair(grantee, granter), height))
    {
      var key := Pair(grantee, granter);
      if key in allowances && allowances[key].height <= height {
        allowances := allowances - {key};
      }
    }
  }

  // ---- The reference --------------------------------------------------------------------

  /** Every other operation on the pair of ops[i] happened before it on the chain. */
  ghost predicate Decides(ops: seq<Op>, i: nat)
    requires i < |ops|
  {
    forall j :: 0 <= j < |ops| && j != i && ops[j].pair == ops[i].pair ==> Before(ops, j, i)
  }

  /** Chain order: by height, and inside a block by the order of arrival. */
  ghost predicate Before(ops: seq<Op>, j: nat, i: nat)
    requires i < |ops| && j < |ops|
  {
    ops[j].height < ops[i].height || (ops[j].height == ops[i].height && j < i)
  }

  /** The row a pair has on the chain when all the operations have happened. */
  ghost predicate Agrees(t: Allowances, ops: seq<Op>, p: Pair) {
    && ((forall i :: 0 <= i < |ops| ==> ops[i].pair != p) ==> p !in t)
    && (forall i :: 0 <= i < |ops| && ops[i].pair == p && Decides(ops, i) ==>
         match ops[i]
         case Grant(_, a, h) => p in t && t[p] == Row(a, h)
         case Revoke(_, _) => p !in t)
  }

  lemma {:induction false} SomeOpDecides(ops: seq<Op>, p: Pair) returns (i: nat)
    requires exists j :: 0 <= j < |ops| && ops[j].pair == p
    ensures i < |ops| && ops[i].pair == p && Decides(ops, i)
  {
    var n := |ops| - 1;
    if exists j :: 0 <= j < n && ops[..n][j].pair == p {
      i := SomeOpDecides(ops[..n], p);
      assert forall j :: 0 <= j < n ==> ops[..n][j] == ops[j];
      if ops[n].pair == p && ops[i].height <= ops[n].height {
        forall j | 0 <= j < n && ops[j].pair == p ensures Before(ops, j, n) {
          assert j != i ==> Before(ops[..n], j, i);
        }
        i := n;
      } else {
        forall j | 0 <= j < n && j != i && ops[j].pair == p ensures Before(ops, j, i) {
          assert Before(ops[..n], j, i);
        }
      }
    } else {
      assert forall j :: 0 <= j < n ==> ops[..n][j].pair != p;
      i := n;
    }
  }

  // ---- The table during a run -----------------------------------------------------------

  /** Some revoke that arrives after grant i is at least as high. */
  ghost predicate RevokedLater(ops: seq<Op>, i: nat)
    requires i < |ops|
  {
    exists j :: i < j < |ops| && ops[j].Revoke? && ops[j].pair == ops[i].pair && ops[j].height >= ops[i].height
  }

  /** A stored row is the copy of a grant, and the run has seen no revoke for it since. */
  lemma {:induction false} RowIsALiveGrant(ops: seq<Op>, p: Pair) returns (i: nat)
    requires p in Run(map[], ops)
    ensures i < |ops| && ops[i].Grant? && ops[i].pair == p
    ensures Run(map[], ops)[p] == Row(ops[i].allowance, ops[i].height)
    ensures !RevokedLater(ops, i)
  {
    var n := |ops| - 1;
    var before := Run(map[], ops[..n]);
    if p in before && before[p] == Run(map[], ops)[p] {
      i := RowIsALiveGrant(ops[..n], p);
      assert forall j :: 0 <= j < n ==> ops[..n][j] == ops[j];
      if ops[n].Revoke? && ops[n].pair == p && ops[n].height >= ops[i].height {
        assert false;
      }
    } else {
      i := n;
    }
  }

  /** A grant that no later revoke reaches keeps the pair present, at its height or above. */
  lemma {:induction false} LiveGrantKeepsRow(ops: seq<Op>, i: nat)
    requires i < |ops| && ops[i].Grant? && !RevokedLater(ops, i)
    ensures ops[i].pair in Run(map[], ops) && Run(map[], ops)[ops[i].pair].height >= ops[i].height
  {
    var n := |ops| - 1;
    if i < n {
      assert forall j :: 0 <= j < n ==> ops[..n][j] == ops[j];
      LiveGrantKeepsRow(ops[..n], i);
    }
  }

  /** The pair is absent at the end exactly when every grant on it was revoked afterwards. */
  lemma AbsentIffAllRevoked(ops: seq<Op>, p: Pair)
    ensures p !in Run(map[], ops) <==>
            forall i :: 0 <= i < |ops| && ops[i].Grant? && ops[i].pair == p ==> RevokedLater(ops, i)
  {
    if p in Run(map[], ops) {
      var i := RowIsALiveGrant(ops, p);
    } else if i :| 0 <= i < |ops| && ops[i].Grant? && ops[i].pair == p && !RevokedLater(ops, i) {
      LiveGrantKeepsRow(ops, i);
    }
  }

  // ---- Arrival orders -------------------------------------------------------------------

  /** Operations of the same block on the same pair arrive in block order; here, at most one. */
  ghost predicate DistinctHeights(ops: seq<Op>) {
    forall i, j :: 0 <= i < j < |ops| && ops[i].pair == ops[j].pair ==> ops[i].height != ops[j].height
  }

  ghost predicate InOrder(ops: seq<Op>) {
    forall i, j :: 0 <= i < j < |ops| ==> ops[i].height <= ops[j].height
  }

  /** What an arrival order must satisfy for a pair whose deciding operation is a revoke. */
  ghost predicate RevokesReach(ops: seq<Op>, p: Pair) {
    forall r :: 0 <= r < |ops| && ops[r].Revoke? && ops[r].pair == p && Decides(ops, r) ==>
      forall i :: 0 <= i < |ops| && ops[i].Grant? && ops[i].pair == p ==> RevokedLater(ops, i)
  }

  /**
   For any order of arrival: a pair agrees with the chain if and only if it does not end in
   a revoke, or every grant on it is followed, in order of arrival, by a revoke of at
   least its height.
   */
  lemma ArrivalOrderExact(ops: seq<Op>, p: Pair)
    requires DistinctHeights(ops)
    ensures Agrees(Run(map[], ops), ops, p) <==> RevokesReach(ops, p)
  {
    var t := Run(map[], ops);
    AbsentIffAllRevoked(ops, p);
    if exists j :: 0 <= j < |ops| && ops[j].pair == p {
      var d := SomeOpDecides(ops, p);
      forall i | 0 <= i < |ops| && ops[i].pair == p && Decides(ops, i) ensures i == d {
        assert i != d ==> Before(ops, i, d) && Before(ops, d, i);
      }
      if ops[d].Grant? {
        DecidingGrantIsStored(ops, d);
      }
    }
  }

  lemma DecidingGrantIsStored(ops: seq<Op>, d: nat)
    requires DistinctHeights(ops)
    requires d < |ops| && ops[d].Grant? && Decides(ops, d)
    ensures ops[d].pair in Run(map[], ops)
    ensures Run(map[], ops)[ops[d].pair] == Row(ops[d].allowance, ops[d].height)
  {
    assert !RevokedLater(ops, d);
    LiveGrantKeepsRow(ops, d);
    var i := RowIsALiveGrant(ops, ops[d].pair);
    assert i != d ==> Before(ops, i, d);
  }

  /** When the blocks come in order, the table always agrees with the chain. */
  lemma InOrderRunAgrees(ops: seq<Op>, p: Pair)
    requires InOrder(ops)
    ensures Agrees(Run(map[], ops), ops, p)
  {
    AbsentIffAllRevoked(ops, p);
    forall d | 0 <= d < |ops| && ops[d].pair == p && Decides(ops, d)
      ensures match ops[d]
              case Grant(_, a, h) => p in Run(map[], ops) && Run(map[], ops)[p] == Row(a, h)
              case Revoke(_, _) => p !in Run(map[], ops)
    {
      forall j | 0 <= j < |ops| && ops[j].pair == p ensures j <= d {
        assert j != d ==> Before(ops, j, d);
      }
      if ops[d].Revoke? {
        forall i | 0 <= i < |ops| && ops[i].Grant? && ops[i].pair == p ensures RevokedLater(ops, i) {
          assert i < d;
        }
      } else {
        LastGrantIsStored(ops, d);
      }
    }
  }

  lemma {:induction false} LastGrantIsStored(ops: seq<Op>, d: nat)
    requires InOrder(ops) && d < |ops| && ops[d].Grant?
    requires forall j :: d < j < |ops| ==> ops[j].pair != ops[d].pair
    ensures ops[d].pair in Run(map[], ops)
    ensures Run(map[], ops)[ops[d].pair] == Row(ops[d].allowance, ops[d].height)
  {
    var n := |ops| - 1;
    if d < n {
      LastGrantIsStored(ops[..n], d);
    } else if ops[d].pair in Run(map[], ops[..n]) {
      var i := RowIsALiveGrant(ops[..n], ops[d].pair);
    }
  }

  /**
   One late operation, replayed after a run that was in order: the table is that of the
   chain order unless the late operation is a grant and the latest of the later operations
   on its pair is a revoke.
   */
  lemma LateReplayExact(pre: seq<Op>, late: Op, post: seq<Op>)
    requires InOrder(pre + [late] + post)
    requires DistinctHeights(pre + [late] + post)
    ensures Run(map[], pre + post + [late]) == Run(map[], pre + [late] + post) <==>
            !(late.Grant? && LastOnPair(post, late.pair).Some? && LastOnPair(post, late.pair).value.Revoke?)
  {
    LateReplayOtherPairs(pre, late, post);
    LateReplayAtPair(pre, late, post);
    var a, b := Run(map[], pre + post + [late]), Run(map[], pre + [late] + post);
    if SameAt(a, b, late.pair) {
      forall p ensures SameAt(a, b, p) {
      }
      MapsEqual(a, b);
    }
  }

  /** A grant that arrives after its revoke stays; in height order the pair ends without a row. */
  lemma LateGrantRevives(p: Pair, allowance: string)
    ensures p in Run(map[], [Revoke(p, 2), Grant(p, allowance, 1)])
    ensures p !in Run(map[], [Grant(p, allowance, 1), Revoke(p, 2)])
  {
    var grant, revoke := Grant(p, allowance, 1), Revoke(p, 2);
    assert [revoke, grant] == [revoke] + [grant] && [grant, revoke] == [grant] + [revoke];
    RunAppend(map[], [revoke], [grant]);
    RunAppend(map[], [grant], [revoke]);
    RunOne(map[], revoke);
    RunOne(map[], grant);
    RunOne(Run(map[], [revoke]), grant);
    RunOne(Run(map[], [grant]), revoke);
  }

  function LastOnPair(ops: seq<Op>, p: Pair): Option<Op> {
    if ops == [] then None
    else if ops[|ops| - 1].pair == p then Some(ops[|ops| - 1])
    else LastOnPair(ops[..|ops| - 1], p)
  }

  ghost predicate SameAt(a: Allowances, b: Allowances, p: Pair) {
    (p in a <==> p in b) && (p in a ==> a[p] == b[p])
  }

  lemma MapsEqual(a: Allowances, b: Allowances)
    requires forall p :: SameAt(a, b, p)
    ensures a == b
  {
    forall p | p in a.Keys + b.Keys ensures p in a && p in b && a[p] == b[p] {
      assert SameAt(a, b, p);
    }
    assert a.Keys == b.Keys;
  }

  lemma {:induction false} RunAppend(t: Allowances, a: seq<Op>, b: seq<Op>)
    ensures Run(t, a + b) == Run(Run(t, a), b)
  {
    if b == [] {
      assert a + b == a;
    } else {
      assert (a + b)[..|a + b| - 1] == a + b[..|b| - 1];
      RunAppend(t, a, b[..|b| - 1]);
    }
  }

  /** A run does to a pair only what the operations on that pair do. */
  lemma {:induction false} RunIsPairwise(s: Allowances, t: Allowances, ops: seq<Op>, p: Pair)
    requires SameAt(s, t, p)
    ensures SameAt(Run(s, ops), Run(t, ops), p)
  {
    if ops != [] {
      RunIsPairwise(s, t, ops[..|ops| - 1], p);
    }
  }

  lemma LateReplayOtherPairs(pre: seq<Op>, late: Op, post: seq<Op>)
    ensures forall p :: p != late.pair ==> SameAt(Run(map[], pre + post + [late]), Run(map[], pre + [late] + post), p)
  {
    forall p | p != late.pair
      ensures SameAt(Run(map[], pre + post + [late]), Run(map[], pre + [late] + post), p)
    {
      RunAppend(map[], pre + post, [late]);
      RunAppend(map[], pre, post);
      RunAppend(map[], pre + [late], post);
      RunAppend(map[], pre, [late]);
      var t := Run(map[], pre);
      assert [late][..0] == [];
      assert forall u: Allowances :: Run(u, [late]) == Apply(u, late);
      RunIsPairwise(t, Apply(t, late), post, p);
    }
  }

  /** After in-order operations the last one on a pair decides its row, whatever was stored below. */
  lemma {:induction false} LastOpDecidesRow(t: Allowances, ops: seq<Op>, p: Pair, h: int)
    requires InOrder(ops)
    requires p in t ==> t[p].height <= h
    requires forall i :: 0 <= i < |ops| ==> ops[i].height >= h
    ensures match LastOnPair(ops, p)
            case None => SameAt(Run(t, ops), t, p)
            case Some(Revoke(_, _)) => p !in Run(t, ops)
            case Some(Grant(_, a, g)) => p in Run(t, ops) && Run(t, ops)[p] == Row(a, g)
    ensures p in Run(t, ops) ==> Run(t, ops)[p].height <= if ops == [] then h else ops[|ops| - 1].height
    ensures LastOnPair(ops, p).Some? ==> LastOnPair(ops, p).value in ops && LastOnPair(ops, p).value.pair == p
  {
    if ops != [] {
      LastOpDecidesRow(t, ops[..|ops| - 1], p, h);
    }
  }

  lemma LateReplayAtPair(pre: seq<Op>, late: Op, post: seq<Op>)
    requires InOrder(pre + [late] + post)
    requires DistinctHeights(pre + [late] + post)
    ensures SameAt(Run(map[], pre + post + [late]), Run(map[], pre + [late] + post), late.pair) <==>
            !(late.Grant? && LastOnPair(post, late.pair).Some? && LastOnPair(post, late.pair).value.Revoke?)
  {
    var t := Run(map[], pre);
    RunAppend(map[], pre + post, [late]);
    RunAppend(map[], pre, post);
    RunAppend(map[], pre + [late], post);
    RunAppend(map[], pre, [late]);
    RunOne(t, late);
    RunOne(Run(t, post), late);
    LaterOpsAreHigher(pre, late, post);
    StoredIsLower(pre, late, post);
    LateAgainstPost(t, late, post);
  }

  lemma RunOne(t: Allowances, op: Op)
    ensures Run(t, [op]) == Apply(t, op)
  {
    assert [op][..0] == [];
  }

  lemma LaterOpsAreHigher(pre: seq<Op>, late: Op, post: seq<Op>)
    requires InOrder(pre + [late] + post)
    requires DistinctHeights(pre + [late] + post)
    ensures InOrder(post)
    ensures forall i :: 0 <= i < |post| ==> post[i].height >= late.height
    ensures forall i :: 0 <= i < |post| && post[i].pair == late.pair ==> post[i].height > late.height
  {
    var all, n := pre + [late] + post, |pre| + 1;
    assert all[|pre|] == late;
    assert forall i :: 0 <= i < |post| ==> all[n + i] == post[i];
  }

  lemma StoredIsLower(pre: seq<Op>, late: Op, post: seq<Op>)
    requires InOrder(pre + [late] + post)
    ensures late.pair in Run(map[], pre) ==> Run(map[], pre)[late.pair].height <= late.height
  {
    var all := pre + [late] + post;
    if late.pair in Run(map[], pre) {
      var i := RowIsALiveGrant(pre, late.pair);
      assert all[i] == pre[i] && all[|pre|] == late;
    }
  }

  lemma LateAgainstPost(t: Allowances, late: Op, post: seq<Op>)
    requires late.pair in t ==> t[late.pair].height <= late.height
    requires InOrder(post)
    requires forall i :: 0 <= i < |post| ==> post[i].height >= late.height
    requires forall i :: 0 <= i < |post| && post[i].pair == late.pair ==> post[i].height > late.height
    ensures SameAt(Apply(Run(t, post), late), Run(Apply(t, late), post), late.pair) <==>
            !(late.Grant? && LastOnPair(post, late.pair).Some? && LastOnPair(post, late.pair).value.Revoke?)
  {
    LastOpDecidesRow(t, post, late.pair, late.height);
    LastOpDecidesRow(Apply(t, late), post, late.pair, late.height);
  }
}
