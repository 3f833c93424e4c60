/**
 The total of a delegator's delegations. For every delegation the handler walks over the
 entries it has so far: an entry of the same denom is increased, and for every entry of
 another denom a new entry is appended. With two denoms the walk therefore counts a
 delegation more than once. The results say by how much, and exactly when the totals are right.
 */
module DelegationTotal {
  import opened Arithmetic

  datatype Coin = Coin(denom: string, amount: nat)

  /** One step of the walk, at an entry of the given denom. */
  function Visit(coins: seq<Coin>, k: nat, d: Coin): seq<Coin>
    requires k < |coins|
  {
    if coins[k].denom == d.denom then coins[k := Coin(coins[k].denom, coins[k].amount + d.amount)] else coins + [d]
  }

  /** The walk over the first n entries of the list as it was when the walk began. */
  function Walk(coins: seq<Coin>, n: nat, d: Coin): (after: seq<Coin>)
    requires n <= |coins|
    ensures |after| >= |coins|
  {
    if n == 0 then coins else Visit(Walk(coins, n - 1, d), n - 1, d)
  }

  lemma {:induction false} WalkKeepsDenoms(coins: seq<Coin>, n: nat, d: Coin)
    requires n <= |coins|
    ensures forall i :: 0 <= i < |coins| ==> Walk(coins, n, d)[i].denom == coins[i].denom
  {
    if n > 0 {
      WalkKeepsDenoms(coins, n - 1, d);
    }
  }

  function AddDelegation(coins: seq<Coin>, d: Coin): seq<Coin> {
    if coins == [] then [d] else Walk(coins, |coins|, d)
  }

  function AddAll(ds: seq<Coin>): seq<Coin> {
    if ds == [] then [] else AddDelegation(AddAll(ds[..|ds| - 1]), ds[|ds| - 1])
  }

  method TotalDelegationAmount(delegations: seq<Coin>) returns (coinObject: seq<Coin>)
    ensures coinObject == AddAll(delegations)
  {
    coinObject := [];
    for i := 0 to |delegations|
      invariant coinObject == AddAll(delegations[..i])
    {
      var each := delegations[i];
      assert delegations[..i + 1][..i] == delegations[..i];
      // the range expression is evaluated once: entries appended by the walk are not visited
      var ranged := coinObject;
      for index := 0 to |ranged|
        invariant coinObject == Walk(ranged, index, each)
      {
        WalkKeepsDenoms(ranged, index, each);
        if ranged[index].denom == each.denom {
          coinObject := coinObject[index := Coin(coinObject[index].denom, coinObject[index].amount + each.amount)];
        }
        if ranged[index].denom != each.denom {
          coinObject := coinObject + [each];
        }
      }
      if coinObject == [] {
        coinObject := coinObject + [each];
      }
    }
    assert delegations[..|delegations|] == delegations;
  }

  // ---- Totals ---------------------------------------------------------------------------

  /** The sum of the amounts of one denom over the first n entries. */
  function TotalOf(coins: seq<Coin>, n: nat, denom: string): nat
    requires n <= |coins|
  {
    if n == 0 then 0 else TotalOf(coins, n - 1, denom) + Share(coins[n - 1], denom)
  }

  function Share(c: Coin, denom: string): nat {
    if c.denom == denom then c.amount else 0
  }

  /** The sum of the amounts of one denom. */
  function Total(coins: seq<Coin>, denom: string): nat {
    TotalOf(coins, |coins|, denom)
  }

  /** How many of the first n entries have another denom. */
  function Others(coins: seq<Coin>, n: nat, denom: string): nat
    requires n <= |coins|
  {
    if n == 0 then 0 else Others(coins, n - 1, denom) + if coins[n - 1].denom == denom then 0 else 1
  }

  lemma {:induction false} TotalOfPrefix(a: seq<Coin>, b: seq<Coin>, n: nat, denom: string)
    requires n <= |a| && n <= |b| && forall i :: 0 <= i < n ==> a[i] == b[i]
    ensures TotalOf(a, n, denom) == TotalOf(b, n, denom)
  {
    if n > 0 {
      TotalOfPrefix(a, b, n - 1, denom);
    }
  }

  lemma {:induction false} TotalUpdate(coins: seq<Coin>, k: nat, c: Coin, n: nat, denom: string)
    requires k < n <= |coins|
    ensures TotalOf(coins[k := c], n, denom) + Share(coins[k], denom) == TotalOf(coins, n, denom) + Share(c, denom)
  {
    if k < n - 1 {
      TotalUpdate(coins, k, c, n - 1, denom);
    } else {
      TotalOfPrefix(coins[k := c], coins, n - 1, denom);
    }
  }

  lemma TotalAppend(coins: seq<Coin>, c: Coin, denom: string)
    ensures Total(coins + [c], denom) == Total(coins, denom) + Share(c, denom)
  {
    TotalOfPrefix(coins + [c], coins, |coins|, denom);
  }

  lemma TotalLast(ds: seq<Coin>, denom: string)
    requires ds != []
    ensures Total(ds, denom) == Total(ds[..|ds| - 1], denom) + Share(ds[|ds| - 1], denom)
  {
    TotalOfPrefix(ds, ds[..|ds| - 1], |ds| - 1, denom);
  }

  lemma VisitTotal(coins: seq<Coin>, k: nat, d: Coin, denom: string)
    requires k < |coins|
    ensures Total(Visit(coins, k, d), denom) == Total(coins, denom) + Share(d, denom)
  {
    if coins[k].denom == d.denom {
      TotalUpdate(coins, k, Coin(d.denom, coins[k].amount + d.amount), |coins|, denom);
    } else {
      TotalAppend(coins, d, denom);
    }
  }

  lemma {:induction false} WalkTotals(coins: seq<Coin>, n: nat, d: Coin, denom: string)
    requires n <= |coins|
    ensures Total(Walk(coins, n, d), denom) == Total(coins, denom) + Times(n, Share(d, denom))
  {
    if n == 0 {
      assert Walk(coins, 0, d) == coins;
    } else {
      WalkTotals(coins, n - 1, d, denom);
      VisitTotal(Walk(coins, n - 1, d), n - 1, d, denom);
    }
  }

  lemma {:induction false} WalkLength(coins: seq<Coin>, n: nat, d: Coin)
    requires n <= |coins|
    ensures |Walk(coins, n, d)| == |coins| + Others(coins, n, d.denom)
  {
    if n > 0 {
      WalkLength(coins, n - 1, d);
      WalkKeepsDenoms(coins, n - 1, d);
    }
  }

  /**
   One delegation raises the total of its denom by its amount times the current number of
   entries (once, for an empty list), leaves other totals alone, and adds one entry for
   every entry of another denom.
   */
  lemma DelegationEffect(coins: seq<Coin>, d: Coin, denom: string)
    ensures Total(AddDelegation(coins, d), denom)
            == Total(coins, denom)
               + if denom != d.denom then 0 else if coins == [] then d.amount else |coins| * d.amount
    ensures |AddDelegation(coins, d)| == if coins == [] then 1 else |coins| + Others(coins, |coins|, d.denom)
  {
    if coins == [] {
      TotalAppend([], d, denom);
      assert [] + [d] == [d];
    } else {
      WalkTotals(coins, |coins|, d, denom);
      WalkLength(coins, |coins|, d);
      TimesIsProduct(|coins|, d.amount);
      TimesZero(|coins|, Share(d, denom));
    }
  }

  /** The first n delegations are all of one denom. */
  ghost predicate SameDenom(ds: seq<Coin>, n: nat)
    requires n <= |ds|
  {
    forall i :: 0 <= i < n ==> ds[i].denom == ds[0].denom
  }

  /** With a single denom the result is one entry holding the exact sum. */
  lemma {:induction false} SingleDenomExact(ds: seq<Coin>)
    requires ds != [] && SameDenom(ds, |ds|)
    ensures AddAll(ds) == [Coin(ds[0].denom, Total(ds, ds[0].denom))]
  {
    var n := |ds| - 1;
    if n == 0 {
      assert AddAll(ds[..0]) == [] && AddAll(ds) == [ds[0]];
      assert TotalOf(ds, 1, ds[0].denom) == TotalOf(ds, 0, ds[0].denom) + ds[0].amount;
    } else {
      SingleDenomExact(ds[..n]);
      TotalLast(ds, ds[0].denom);
      var before := AddAll(ds[..n]);
      assert Walk(before, 1, ds[n]) == Walk(before, 0, ds[n])[0 := Coin(ds[0].denom, before[0].amount + ds[n].amount)];
    }
  }

  /** Every denom's total is the sum of its delegations. */
  ghost predicate TotalsRight(ds: seq<Coin>) {
    forall denom :: Total(AddAll(ds), denom) == Total(ds, denom)
  }

  /** Once two denoms have been seen, nothing of positive amount follows. */
  ghost predicate NothingAfterSecondDenom(ds: seq<Coin>) {
    forall i :: 0 <= i < |ds| && ds[i].amount > 0 ==> SameDenom(ds, i)
  }

  /** The list has one entry until a second denom arrives, and at least two ever after. */
  lemma {:induction false} EntriesCount(ds: seq<Coin>)
    requires ds != []
    ensures |AddAll(ds)| >= 1
    ensures SameDenom(ds, |ds|) <==> |AddAll(ds)| == 1
    ensures |AddAll(ds)| == 1 ==> AddAll(ds)[0].denom == ds[0].denom
  {
    var n := |ds| - 1;
    if n == 0 {
      assert AddAll(ds[..0]) == [];
    } else {
      EntriesCount(ds[..n]);
      var before := AddAll(ds[..n]);
      DelegationEffect(before, ds[n], ds[n].denom);
      if |before| == 1 {
        assert Others(before, 0, ds[n].denom) == 0;
        assert forall i :: 0 <= i < n ==> ds[..n][i] == ds[i];
      }
      if SameDenom(ds, |ds|) {
        assert SameDenom(ds[..n], n);
      }
    }
  }

  /** No total is ever too small. */
  lemma {:induction false} TotalsNeverTooSmall(ds: seq<Coin>, denom: string)
    ensures Total(AddAll(ds), denom) >= Total(ds, denom)
  {
    if ds != [] {
      var n := |ds| - 1;
      TotalsNeverTooSmall(ds[..n], denom);
      ExcessStep(ds, denom);
    }
  }

  /** How far the total of a denom exceeds the truth, and how the last delegation adds to it. */
  lemma ExcessStep(ds: seq<Coin>, denom: string)
    requires ds != []
    ensures var n := |ds| - 1;
            Total(AddAll(ds), denom) - Total(ds, denom)
            == Total(AddAll(ds[..n]), denom) - Total(ds[..n], denom) + if denom == ds[n].denom then Excess(ds) else 0
  {
    var n := |ds| - 1;
    TotalLast(ds, denom);
    if n > 0 {
      EntriesCount(ds[..n]);
      WalkExcess(AddAll(ds[..n]), ds[n], denom);
    } else {
      assert AddAll(ds[..0]) == [] && AddAll(ds) == [ds[0]] == ds;
    }
  }

  lemma WalkExcess(coins: seq<Coin>, d: Coin, denom: string)
    requires coins != []
    ensures Total(AddDelegation(coins, d), denom)
            == Total(coins, denom) + Share(d, denom) + if denom == d.denom then Times(|coins| - 1, d.amount) else 0
  {
    WalkTotals(coins, |coins|, d, denom);
    TimesZero(|coins|, Share(d, denom));
  }

  /** How often the last delegation is counted beyond once, times its amount. */
  function Excess(ds: seq<Coin>): nat
    requires ds != []
  {
    var n := |AddAll(ds[..|ds| - 1])|;
    if n == 0 then 0 else Times(n - 1, ds[|ds| - 1].amount)
  }

  /** The last delegation is counted once exactly when at most one denom came before it. */
  lemma LastCountedOnce(ds: seq<Coin>)
    requires ds != []
    ensures Excess(ds) == 0 <==> (ds[|ds| - 1].amount > 0 ==> SameDenom(ds, |ds| - 1))
  {
    var n := |ds| - 1;
    if n > 0 {
      EntriesCount(ds[..n]);
      assert forall i :: 0 <= i < n ==> ds[..n][i] == ds[i];
      assert SameDenom(ds[..n], n) <==> SameDenom(ds, n);
      TimesZero(|AddAll(ds[..n])| - 1, ds[n].amount);
    }
  }

  /**
   The totals are right if and only if no delegation of positive amount comes after two
   different denoms.
   */
  lemma {:induction false} TotalsRightIff(ds: seq<Coin>)
    ensures TotalsRight(ds) <==> NothingAfterSecondDenom(ds)
  {
    if ds == [] {
      assert AddAll(ds) == ds;
    } else {
      var n := |ds| - 1;
      TotalsRightIff(ds[..n]);
      PrefixCondition(ds);
      LastCountedOnce(ds);
      forall denom
        ensures Total(AddAll(ds), denom) == Total(ds, denom) <==>
                Total(AddAll(ds[..n]), denom) == Total(ds[..n], denom) && (denom == ds[n].denom ==> Excess(ds) == 0)
      {
        ExcessStep(ds, denom);
        TotalsNeverTooSmall(ds[..n], denom);
      }
      assert TotalsRight(ds) ==> Total(AddAll(ds), ds[n].denom) == Total(ds, ds[n].denom);
    }
  }

  /** Two denoms, then the first again: its second delegation is counted twice. */
  lemma ThirdDelegationCountsTwice(a: Coin, b: Coin)
    requires a.denom != b.denom && a.amount > 0
    ensures !TotalsRight([a, b, a])
  {
    TotalsRightIff([a, b, a]);
    assert !SameDenom([a, b, a], 2) by {
      assert [a, b, a][1].denom != [a, b, a][0].denom;
    }
  }

  lemma PrefixCondition(ds: seq<Coin>)
    requires ds != []
    ensures NothingAfterSecondDenom(ds) <==>
            NothingAfterSecondDenom(ds[..|ds| - 1]) && (ds[|ds| - 1].amount > 0 ==> SameDenom(ds, |ds| - 1))
  {
    var n := |ds| - 1;
    forall i | 0 <= i < n ensures SameDenom(ds[..n], i) <==> SameDenom(ds, i) {
      assert forall j :: 0 <= j < i ==> ds[..n][j] == ds[j];
    }
    assert forall i :: 0 <= i < n ==> ds[..n][i] == ds[i];
  }
}
