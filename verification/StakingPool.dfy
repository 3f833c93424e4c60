/**
 The staking pool: the tokens in unbonding are summed over all validators, whose unbonding
 delegations the node hands out in pages, each naming the key of the next one. A validator
 one of whose pages fails contributes nothing.
 */
module StakingPool {
  import opened Wrappers
  import IndexerDb

  /** A delegation: the balances of its entries. */
  type Delegation = seq<int>

  datatype Page = Page(delegations: seq<Delegation>, nextKey: string)

  /** The node's answers at one height; None is a failed request. */
  type Source = (string, string) -> Option<Page>

  /** Following the keys of a validator from here ends after at most this many pages. */
  ghost predicate EndsWithin(source: Source, val: string, key: string, pages: nat)
    decreases pages
  {
    source(val, key).None? || source(val, key).value.nextKey == []
    || (pages > 0 && EndsWithin(source, val, source(val, key).value.nextKey, pages - 1))
  }

  ghost predicate Ends(source: Source, val: string) {
    exists pages: nat :: EndsWithin(source, val, "", pages)
  }

  ghost predicate Finite(source: Source) {
    forall val :: Ends(source, val)
  }

  /** Everything the pages of a validator hold from a key on, or None if one of them fails. */
  ghost function Collected(source: Source, val: string, key: string, pages: nat): Option<seq<Delegation>>
    requires EndsWithin(source, val, key, pages)
    decreases pages
  {
    match source(val, key)
    case None => None
    case Some(page) =>
      if page.nextKey == [] then Some(page.delegations)
      else Joined(page.delegations, Collected(source, val, page.nextKey, pages - 1))
  }

  function Joined(ds: seq<Delegation>, rest: Option<seq<Delegation>>): Option<seq<Delegation>> {
    if rest.None? then None else Some(ds + rest.value)
  }

  lemma JoinedTwice(a: seq<Delegation>, b: seq<Delegation>, rest: Option<seq<Delegation>>)
    ensures Joined(a, Joined(b, rest)) == Joined(a + b, rest)
    ensures Joined([], rest) == rest
  {
    assert rest.Some? ==> a + (b + rest.value) == a + b + rest.value && [] + rest.value == rest.value;
  }

  lemma {:induction false} CollectedUnique(source: Source, val: string, key: string, m: nat, n: nat)
    requires EndsWithin(source, val, key, m) && EndsWithin(source, val, key, n)
    ensures Collected(source, val, key, m) == Collected(source, val, key, n)
    decreases m
  {
    if source(val, key).Some? && source(val, key).value.nextKey != [] {
      CollectedUnique(source, val, source(val, key).value.nextKey, m - 1, n - 1);
    }
  }

  /** The unbonding delegations of a validator as the node has them. */
  ghost function Unbonding(source: Source, val: string): Option<seq<Delegation>>
    requires Finite(source)
  {
    assert Ends(source, val);
    var pages: nat :| EndsWithin(source, val, "", pages);
    Collected(source, val, "", pages)
  }

  method GetTotalUnbondingDelegationsFromValidator(source: Source, val: string) returns (r: seq<Delegation>)
    requires Finite(source)
    ensures r == match Unbonding(source, val) case None => [] case Some(ds) => ds
  {
    r := [];
    var nextKey: string := "";
    var stop := false;
    assert Ends(source, val);
    ghost var pages: nat :| EndsWithin(source, val, "", pages);
    ghost var left := pages;
    JoinedTwice([], [], Collected(source, val, "", pages));
    while !stop
      invariant stop ==> Collected(source, val, "", pages) == Some(r)
      invariant !stop ==> EndsWithin(source, val, nextKey, left)
      invariant !stop ==> Collected(source, val, "", pages) == Joined(r, Collected(source, val, nextKey, left))
      decreases !stop, left
    {
      var res := source(val, nextKey);
      if res.None? {
        AnyPages(source, val, pages);
        return [];
      }
      nextKey := res.value.nextKey;
      stop := |nextKey| == 0;
      if !stop {
        JoinedTwice(r, res.value.delegations, Collected(source, val, nextKey, left - 1));
        left := left - 1;
      }
      r := r + res.value.delegations;
    }
    AnyPages(source, val, pages);
  }

  lemma AnyPages(source: Source, val: string, pages: nat)
    requires Finite(source) && EndsWithin(source, val, "", pages)
    ensures Unbonding(source, val) == Collected(source, val, "", pages)
  {
    var chosen: nat :| EndsWithin(source, val, "", chosen)
      && Unbonding(source, val) == Collected(source, val, "", chosen);
    CollectedUnique(source, val, "", chosen, pages);
  }

  // ---- The pool -------------------------------------------------------------------------

  function Balance(d: Delegation): int {
    if d == [] then 0 else Balance(d[..|d| - 1]) + d[|d| - 1]
  }

  function Balances(ds: seq<Delegation>): int {
    if ds == [] then 0 else Balances(ds[..|ds| - 1]) + Balance(ds[|ds| - 1])
  }

  /** The sum over the validators whose pages all came through. */
  ghost function Sum(source: Source, vals: seq<string>): int
    requires Finite(source)
  {
    if vals == [] then 0
    else Sum(source, vals[..|vals| - 1]) +
         match Unbonding(source, vals[|vals| - 1]) case None => 0 case Some(ds) => Balances(ds)
  }

  /** pool: the node's bonded and not bonded tokens; validators: the operators in the database. */
  method GetStakingPool(pool: Option<(int, int)>, validators: Option<seq<string>>, source: Source, height: int)
    returns (r: Option<IndexerDb.Pool>)
    requires Finite(source)
    ensures r.Some? <==> pool.Some? && validators.Some?
    ensures r.Some? ==> r.value.bonded == pool.value.0 && r.value.notBonded == pool.value.1 && r.value.height == height
    ensures r.Some? ==> r.value.unbonding == Sum(source, validators.value)
    ensures r.Some? ==> r.value.unbonding + r.value.stakedNotBonded == r.value.notBonded
  {
    if pool.None? {
      return None;
    }
    if validators.None? {
      return None;
    }
    var validatorsList := validators.value;
    var unbondingTokens := 0;
    for i := 0 to |validatorsList|
      invariant unbondingTokens == Sum(source, validatorsList[..i])
    {
      var unbondingDelegations := GetTotalUnbondingDelegationsFromValidator(source, validatorsList[i]);
      assert validatorsList[..i + 1][..i] == validatorsList[..i];
      if |unbondingDelegations| > 0 {
        for j := 0 to |unbondingDelegations|
          invariant unbondingTokens == Sum(source, validatorsList[..i]) + Balances(unbondingDelegations[..j])
        {
          var entries := unbondingDelegations[j];
          assert unbondingDelegations[..j + 1][..j] == unbondingDelegations[..j];
          for k := 0 to |entries|
            invariant unbondingTokens
              == Sum(source, validatorsList[..i]) + Balances(unbondingDelegations[..j]) + Balance(entries[..k])
          {
            assert entries[..k + 1][..k] == entries[..k];
            unbondingTokens := unbondingTokens + entries[k];
          }
          assert entries[..|entries|] == entries;
        }
        assert unbondingDelegations[..|unbondingDelegations|] == unbondingDelegations;
      }
    }
    assert validatorsList[..|validatorsList|] == validatorsList;
    var stakedNotBondedTokens := pool.value.1 - unbondingTokens;
    return Some(IndexerDb.Pool(pool.value.0, pool.value.1, unbondingTokens, stakedNotBondedTokens, height));
  }

  /** UpdateStakingPool: at the last block in the database, which may not be found. */
  method UpdateStakingPool(db: IndexerDb.Db, lastHeight: Option<int>, pool: Option<(int, int)>,
                           validators: Option<seq<string>>, source: Source)
    returns (ok: bool)
    requires Finite(source)
    modifies db
    ensures ok <==> lastHeight.Some? && pool.Some? && validators.Some?
    ensures !ok ==> db.Contents() == old(db.Contents())
    ensures ok ==>
              var unbonding := Sum(source, validators.value);
              var (bonded, notBonded) := pool.value;
              var saved := IndexerDb.Pool(bonded, notBonded, unbonding, notBonded - unbonding, lastHeight.value);
              db.Contents() == IndexerDb.Step(old(db.Contents()), IndexerDb.StakingPool(saved))
  {
    if lastHeight.None? {
      return false;
    }
    var computed := GetStakingPool(pool, validators, source, lastHeight.value);
    if computed.None? {
      return false;
    }
    db.SaveStakingPool(computed.value);
    return true;
  }

  // ---- Against a node that never fails --------------------------------------------------

  /** The failing node answers like the complete one, when it answers. */
  ghost predicate Flaky(source: Source, complete: Source) {
    && (forall val, key :: complete(val, key).Some?)
    && (forall val, key :: source(val, key).Some? ==> source(val, key) == complete(val, key))
  }

  ghost predicate NonNegative(source: Source) {
    forall val, key :: source(val, key).Some? ==> NonNegativeAll(source(val, key).value.delegations)
  }

  ghost predicate NonNegativeAll(ds: seq<Delegation>) {
    forall d :: d in ds ==> NonNegativeEntries(d)
  }

  ghost predicate NonNegativeEntries(d: Delegation) {
    forall i :: 0 <= i < |d| ==> d[i] >= 0
  }

  /** Some page on the way from a key on fails. */
  ghost predicate Breaks(source: Source, val: string, key: string, pages: nat)
    requires EndsWithin(source, val, key, pages)
    decreases pages
  {
    source(val, key).None?
    || (source(val, key).value.nextKey != [] && Breaks(source, val, source(val, key).value.nextKey, pages - 1))
  }

  lemma {:induction false} CollectedAgrees(source: Source, complete: Source, val: string, key: string, m: nat, n: nat)
    requires Flaky(source, complete)
    requires EndsWithin(source, val, key, m) && EndsWithin(complete, val, key, n)
    ensures Collected(complete, val, key, n).Some?
    ensures Collected(source, val, key, m)
            == if Breaks(source, val, key, m) then None else Collected(complete, val, key, n)
    decreases n
  {
    var nextKey := complete(val, key).value.nextKey;
    if nextKey != [] {
      var rest: nat := n - 1;
      if source(val, key).Some? {
        CollectedAgrees(source, complete, val, nextKey, m - 1, rest);
      } else {
        CompleteCollects(complete, val, nextKey, rest);
      }
    }
  }

  lemma {:induction false} CompleteCollects(complete: Source, val: string, key: string, n: nat)
    requires forall v, k :: complete(v, k).Some?
    requires EndsWithin(complete, val, key, n)
    ensures Collected(complete, val, key, n).Some?
    decreases n
  {
    if complete(val, key).value.nextKey != [] {
      CompleteCollects(complete, val, complete(val, key).value.nextKey, n - 1);
    }
  }

  /** A validator's walk succeeds with its true delegations, or is given up as a whole. */
  lemma UnbondingAgrees(source: Source, complete: Source, val: string)
    requires Finite(source) && Finite(complete) && Flaky(source, complete)
    ensures Unbonding(complete, val).Some?
    ensures Unbonding(source, val).Some? ==> Unbonding(source, val) == Unbonding(complete, val)
    ensures forall m: nat :: EndsWithin(source, val, "", m) ==>
              (Unbonding(source, val).None? <==> Breaks(source, val, "", m))
  {
    assert Ends(complete, val) && Ends(source, val);
    var n: nat :| EndsWithin(complete, val, "", n);
    AnyPages(complete, val, n);
    forall m: nat | EndsWithin(source, val, "", m)
      ensures Unbonding(source, val).Some? <==> !Breaks(source, val, "", m)
      ensures Unbonding(source, val).Some? ==> Unbonding(source, val) == Unbonding(complete, val)
    {
      AnyPages(source, val, m);
      CollectedAgrees(source, complete, val, "", m, n);
    }
    CompleteCollects(complete, val, "", n);
    var m: nat :| EndsWithin(source, val, "", m);
  }

  lemma {:induction false} NonNegativeBalance(d: Delegation)
    requires NonNegativeEntries(d)
    ensures Balance(d) >= 0
  {
    if d != [] {
      NonNegativeBalance(d[..|d| - 1]);
    }
  }

  lemma {:induction false} NonNegativeBalances(ds: seq<Delegation>)
    requires NonNegativeAll(ds)
    ensures Balances(ds) >= 0
  {
    if ds != [] {
      NonNegativeBalances(ds[..|ds| - 1]);
      NonNegativeBalance(ds[|ds| - 1]);
    }
  }

  lemma {:induction false} CollectedNonNegative(source: Source, val: string, key: string, n: nat)
    requires NonNegative(source) && EndsWithin(source, val, key, n)
    ensures Collected(source, val, key, n).Some? ==> NonNegativeAll(Collected(source, val, key, n).value)
    decreases n
  {
    if source(val, key).Some? {
      assert NonNegativeAll(source(val, key).value.delegations);
      if source(val, key).value.nextKey != [] {
        CollectedNonNegative(source, val, source(val, key).value.nextKey, n - 1);
      }
    }
  }

  /** With non-negative balances the sum never exceeds the true total. */
  lemma {:induction false} NeverOvercounts(source: Source, complete: Source, vals: seq<string>)
    requires Finite(source) && Finite(complete) && Flaky(source, complete) && NonNegative(complete)
    ensures Sum(source, vals) <= Sum(complete, vals)
    ensures (forall v :: v in vals ==> Unbonding(source, v).Some?) ==> Sum(source, vals) == Sum(complete, vals)
  {
    if vals != [] {
      var v := vals[|vals| - 1];
      NeverOvercounts(source, complete, vals[..|vals| - 1]);
      UnbondingAgrees(source, complete, v);
      assert Ends(complete, v);
      var n: nat :| EndsWithin(complete, v, "", n);
      AnyPages(complete, v, n);
      CollectedNonNegative(complete, v, "", n);
      NonNegativeBalances(Unbonding(complete, v).value);
    }
  }

  // ---- What the sum is -------------------------------------------------------------------

  /** Entry by entry. */
  lemma {:induction false} BalanceLaws(x: int, a: Delegation, b: Delegation)
    ensures Balance([]) == 0 && Balance([x]) == x && Balance(a + b) == Balance(a) + Balance(b)
  {
    assert [x][..0] == [];
    if b == [] {
      assert a + b == a;
    } else {
      assert (a + b)[..|a + b| - 1] == a + b[..|b| - 1];
      BalanceLaws(x, a, b[..|b| - 1]);
    }
  }

  /** Delegation by delegation. */
  lemma {:induction false} BalancesLaws(d: Delegation, a: seq<Delegation>, b: seq<Delegation>)
    ensures Balances([]) == 0 && Balances([d]) == Balance(d) && Balances(a + b) == Balances(a) + Balances(b)
  {
    assert [d][..0] == [];
    if b == [] {
      assert a + b == a;
    } else {
      assert (a + b)[..|a + b| - 1] == a + b[..|b| - 1];
      BalancesLaws(d, a, b[..|b| - 1]);
    }
  }

  /** Validator by validator; one whose walk fails counts nothing. */
  lemma {:induction false} SumLaws(source: Source, val: string, a: seq<string>, b: seq<string>)
    requires Finite(source)
    ensures Sum(source, []) == 0 && Sum(source, a + b) == Sum(source, a) + Sum(source, b)
    ensures Sum(source, [val]) == match Unbonding(source, val) case None => 0 case Some(ds) => Balances(ds)
  {
    assert [val][..0] == [];
    if b == [] {
      assert a + b == a;
    } else {
      assert (a + b)[..|a + b| - 1] == a + b[..|b| - 1];
      SumLaws(source, val, a, b[..|b| - 1]);
    }
  }

  /** The pages of a validator from a key on: each names the key of the next, and the last names none. */
  ghost predicate PagesFrom(source: Source, val: string, key: string, pages: seq<Page>)
    decreases |pages|
  {
    && pages != [] && source(val, key) == Some(pages[0])
    && if |pages| == 1 then pages[0].nextKey == []
       else pages[0].nextKey != [] && PagesFrom(source, val, pages[0].nextKey, pages[1..])
  }

  /** Page after page. */
  function AllOf(pages: seq<Page>): seq<Delegation> {
    if pages == [] then [] else pages[0].delegations + AllOf(pages[1..])
  }

  lemma {:induction false} AllOfLaws(p: Page, a: seq<Page>, b: seq<Page>)
    ensures AllOf([]) == [] && AllOf([p]) == p.delegations && AllOf(a + b) == AllOf(a) + AllOf(b)
  {
    assert AllOf([p]) == p.delegations + AllOf([p][1..]) && [p][1..] == [] && AllOf([]) == [];
    if a == [] {
      assert a + b == b;
    } else {
      assert (a + b)[1..] == a[1..] + b;
      AllOfLaws(p, a[1..], b);
    }
  }

  lemma {:induction false} CollectedIsPages(source: Source, val: string, key: string, pages: seq<Page>, m: nat)
    requires PagesFrom(source, val, key, pages) && EndsWithin(source, val, key, m)
    ensures Collected(source, val, key, m) == Some(AllOf(pages))
    decreases |pages|
  {
    if |pages| == 1 {
      AllOfLaws(pages[0], [], []);
      assert pages == [pages[0]];
    } else {
      CollectedIsPages(source, val, pages[0].nextKey, pages[1..], m - 1);
    }
  }

  /** A validator whose pages all come through has exactly their delegations, in order. */
  lemma UnbondingIsPages(source: Source, val: string, pages: seq<Page>)
    requires Finite(source) && PagesFrom(source, val, "", pages)
    ensures Unbonding(source, val) == Some(AllOf(pages))
  {
    assert Ends(source, val);
    var m: nat :| EndsWithin(source, val, "", m);
    AnyPages(source, val, m);
    CollectedIsPages(source, val, "", pages, m);
  }

  lemma {:induction false} BalanceSplit(a: Delegation, x: int, b: Delegation)
    ensures Balance(a + [x] + b) == Balance(a) + x + Balance(b)
  {
    BalanceLaws(x, a, [x]);
    BalanceLaws(x, a + [x], b);
  }

  lemma {:induction false} BalancesSplit(a: seq<Delegation>, d: Delegation, b: seq<Delegation>)
    ensures Balances(a + [d] + b) == Balances(a) + Balance(d) + Balances(b)
  {
    BalancesLaws(d, a, [d]);
    BalancesLaws(d, a + [d], b);
  }

  lemma {:induction false} RaisedDelegation(d: Delegation, i: nat, n: int)
    requires i < |d|
    ensures Balance(d[i := d[i] + n]) == Balance(d) + n
  {
    var raised := d[i := d[i] + n];
    assert d == d[..i] + [d[i]] + d[i + 1..] && raised == d[..i] + [d[i] + n] + d[i + 1..];
    BalanceSplit(d[..i], d[i], d[i + 1..]);
    BalanceSplit(d[..i], d[i] + n, d[i + 1..]);
  }

  /** Raising one entry of one delegation by n raises the balances by n. */
  lemma {:induction false} RaisedEntry(ds: seq<Delegation>, k: nat, i: nat, n: int)
    requires k < |ds| && i < |ds[k]|
    ensures Balances(ds[k := ds[k][i := ds[k][i] + n]]) == Balances(ds) + n
  {
    var d, raised := ds[k], ds[k][i := ds[k][i] + n];
    RaisedDelegation(d, i, n);
    assert ds == ds[..k] + [d] + ds[k + 1..] && ds[k := raised] == ds[..k] + [raised] + ds[k + 1..];
    BalancesSplit(ds[..k], d, ds[k + 1..]);
    BalancesSplit(ds[..k], raised, ds[k + 1..]);
  }

  /** Two nodes that differ in one entry, n higher, of a validator listed once: so do their sums. */
  lemma {:induction false} RaisedSum(source: Source, raised: Source, vals: seq<string>, v: nat, k: nat, i: nat, n: int)
    requires Finite(source) && Finite(raised) && v < |vals|
    requires forall w :: 0 <= w < |vals| && w != v ==> Unbonding(raised, vals[w]) == Unbonding(source, vals[w])
    requires Unbonding(source, vals[v]).Some?
    requires var ds := Unbonding(source, vals[v]).value;
             && k < |ds| && i < |ds[k]|
             && Unbonding(raised, vals[v]) == Some(ds[k := ds[k][i := ds[k][i] + n]])
    ensures Sum(raised, vals) == Sum(source, vals) + n
  {
    var last := |vals| - 1;
    if v == last {
      SameSum(source, raised, vals[..last]);
      RaisedEntry(Unbonding(source, vals[v]).value, k, i, n);
    } else {
      RaisedSum(source, raised, vals[..last], v, k, i, n);
    }
  }

  lemma {:induction false} SameSum(source: Source, raised: Source, vals: seq<string>)
    requires Finite(source) && Finite(raised)
    requires forall w :: 0 <= w < |vals| ==> Unbonding(raised, vals[w]) == Unbonding(source, vals[w])
    ensures Sum(raised, vals) == Sum(source, vals)
  {
    if vals != [] {
      SameSum(source, raised, vals[..|vals| - 1]);
    }
  }
}
