/**
 The fee totals of a block: coins are objects on the heap, and the totals are updated in place
 while the fees of the block's transactions are read. A block's transactions may share coins.
 */
module BlockFees {
  class FeeCoin {
    var denom: string
    var amount: int

    /** { ...fee }: a new object with the same fields. */
    constructor Copy(fee: FeeCoin)
      ensures denom == fee.denom && amount == fee.amount
    {
      denom, amount := fee.denom, fee.amount;
    }
  }

  /** tx.fee.amount: absent, a single coin, or an array. */
  datatype FeeAmount = Absent | Single(coin: FeeCoin) | Several(coins: seq<FeeCoin>)

  const TAKE := 1000

  function CoinsOf(fee: FeeAmount): seq<FeeCoin> {
    match fee
    case Absent => []
    case Single(coin) => [coin]
    case Several(coins) => coins
  }

  function AllCoins(fees: seq<FeeAmount>): seq<FeeCoin> {
    if fees == [] then [] else AllCoins(fees[..|fees| - 1]) + CoinsOf(fees[|fees| - 1])
  }

  /** The rows that the query hands over. */
  function Fetched<T>(rows: seq<T>): seq<T> {
    if |rows| > TAKE then rows[..TAKE] else rows
  }

  // ---- Coins as values --------------------------------------------------------------------

  type Coin = (string, int)

  function Values(coins: seq<FeeCoin>): (vs: seq<Coin>)
    reads coins
    ensures |vs| == |coins|
  {
    seq(|coins|, i requires 0 <= i < |coins| reads coins => (coins[i].denom, coins[i].amount))
  }

  function Total(vs: seq<Coin>, denom: string): int {
    if vs == [] then 0
    else Total(vs[..|vs| - 1], denom) + if vs[|vs| - 1].0 == denom then vs[|vs| - 1].1 else 0
  }

  /** Where a denom is first seen; the length when it is not. */
  function FirstSeen(vs: seq<Coin>, denom: string): (n: nat)
    ensures n <= |vs|
    ensures n < |vs| ==> vs[n].0 == denom
  {
    if vs == [] then 0 else if vs[0].0 == denom then 0 else 1 + FirstSeen(vs[1..], denom)
  }

  lemma {:induction false} SeenBefore(vs: seq<Coin>, denom: string, k: nat)
    requires k < |vs| && vs[k].0 == denom
    ensures FirstSeen(vs, denom) <= k
  {
    if vs[0].0 != denom {
      SeenBefore(vs[1..], denom, k - 1);
    }
  }

  predicate Listed(vs: seq<Coin>, denom: string) {
    FirstSeen(vs, denom) < |vs|
  }

  /**
   The totals of a list of coins: the denoms in first-seen order, hence once each, none
   missing and none made up, and for each the sum of its amounts.
   */
  ghost predicate IsTotals(vs: seq<Coin>, totals: seq<Coin>) {
    && (forall i, j :: 0 <= i < j < |totals| ==> FirstSeen(vs, totals[i].0) < FirstSeen(vs, totals[j].0))
    && (forall i :: 0 <= i < |totals| ==> totals[i].1 == Total(vs, totals[i].0))
    && (forall denom :: Listed(vs, denom) <==> Listed(totals, denom))
  }

  /** A further coin leaves first-seen places alone, and raises its own denom's sum only. */
  lemma {:induction false} OneMore(vs: seq<Coin>, v: Coin, denom: string)
    ensures FirstSeen(vs + [v], denom)
            == if FirstSeen(vs, denom) == |vs| && v.0 != denom then |vs| + 1 else FirstSeen(vs, denom)
    ensures Total(vs + [v], denom) == Total(vs, denom) + if v.0 == denom then v.1 else 0
  {
    TotalSnoc(vs, v, denom);
    if vs != [] {
      OneMore(vs[1..], v, denom);
      assert (vs + [v])[1..] == vs[1..] + [v];
    }
  }

  lemma {:induction false} Unseen(vs: seq<Coin>, denom: string)
    requires FirstSeen(vs, denom) == |vs|
    ensures Total(vs, denom) == 0
  {
    if vs != [] {
      var n := |vs| - 1;
      assert vs == vs[..n] + [vs[n]];
      OneMore(vs[..n], vs[n], denom);
      Unseen(vs[..n], denom);
    }
  }

  /** Places in a list of totals are found by denom, and the other way round. */
  lemma Place(vs: seq<Coin>, totals: seq<Coin>, i: nat)
    requires IsTotals(vs, totals) && i < |totals|
    ensures FirstSeen(totals, totals[i].0) == i
    ensures Listed(vs, totals[i].0)
  {
    SeenBefore(totals, totals[i].0, i);
    assert Listed(totals, totals[i].0);
  }

  lemma {:induction false} SameDenoms(a: seq<Coin>, b: seq<Coin>, denom: string)
    requires |a| == |b| && forall i :: 0 <= i < |a| ==> a[i].0 == b[i].0
    ensures FirstSeen(a, denom) == FirstSeen(b, denom)
  {
    if a != [] {
      SameDenoms(a[1..], b[1..], denom);
    }
  }

  lemma {:induction false} RaiseKeepsTotals(vs: seq<Coin>, totals: seq<Coin>, k: nat, v: Coin)
    requires IsTotals(vs, totals) && k < |totals| && totals[k].0 == v.0
    ensures IsTotals(vs + [v], totals[k := (v.0, totals[k].1 + v.1)])
  {
    var all, next := vs + [v], totals[k := (v.0, totals[k].1 + v.1)];
    Place(vs, totals, k);
    forall i | 0 <= i < |next|
      ensures next[i].0 == totals[i].0 && FirstSeen(all, next[i].0) == FirstSeen(vs, totals[i].0)
      ensures next[i].1 == Total(all, next[i].0)
    {
      OneMore(vs, v, totals[i].0);
      Place(vs, totals, i);
    }
    forall denom ensures Listed(all, denom) <==> Listed(next, denom) {
      OneMore(vs, v, denom);
      SameDenoms(totals, next, denom);
      assert Listed(vs, denom) <==> Listed(totals, denom);
    }
  }

  lemma {:induction false} ListedMore(vs: seq<Coin>, v: Coin, denom: string)
    ensures Listed(vs + [v], denom) <==> Listed(vs, denom) || v.0 == denom
  {
    OneMore(vs, v, denom);
  }

  /** A coin of a new denom leaves the totals so far as they are. */
  lemma {:induction false} OldTotalStays(vs: seq<Coin>, totals: seq<Coin>, v: Coin, i: nat)
    requires IsTotals(vs, totals) && !Listed(totals, v.0) && i < |totals|
    ensures FirstSeen(vs + [v], totals[i].0) == FirstSeen(vs, totals[i].0) < |vs|
    ensures totals[i].1 == Total(vs + [v], totals[i].0)
  {
    OneMore(vs, v, totals[i].0);
    Place(vs, totals, i);
  }

  lemma {:induction false} NewTotal(vs: seq<Coin>, v: Coin)
    requires !Listed(vs, v.0)
    ensures FirstSeen(vs + [v], v.0) == |vs| && Total(vs + [v], v.0) == v.1
  {
    OneMore(vs, v, v.0);
    Unseen(vs, v.0);
  }

  lemma {:induction false} PushKeepsTotals(vs: seq<Coin>, totals: seq<Coin>, v: Coin)
    requires IsTotals(vs, totals) && !Listed(totals, v.0)
    ensures IsTotals(vs + [v], totals + [v])
  {
    var all, next := vs + [v], totals + [v];
    assert !Listed(vs, v.0);
    NewTotal(vs, v);
    forall i | 0 <= i < |totals|
      ensures next[i] == totals[i] && FirstSeen(all, next[i].0) == FirstSeen(vs, totals[i].0) < |vs|
      ensures next[i].1 == Total(all, next[i].0)
    {
      OldTotalStays(vs, totals, v, i);
    }
    forall denom ensures Listed(all, denom) <==> Listed(next, denom) {
      ListedMore(vs, v, denom);
      ListedMore(totals, v, denom);
    }
  }

  /** One more coin: it raises the total of its denom, or becomes a new total. */
  function Added(totals: seq<Coin>, v: Coin): seq<Coin> {
    var n := FirstSeen(totals, v.0);
    if n < |totals| then totals[n := (v.0, totals[n].1 + v.1)] else totals + [v]
  }

  function AddedAll(totals: seq<Coin>, vs: seq<Coin>): seq<Coin> {
    if vs == [] then totals else Added(AddedAll(totals, vs[..|vs| - 1]), vs[|vs| - 1])
  }

  lemma {:induction false} AddedAllAppend(totals: seq<Coin>, a: seq<Coin>, b: seq<Coin>)
    ensures AddedAll(totals, a + b) == AddedAll(AddedAll(totals, a), b)
  {
    if b == [] {
      assert a + b == a;
    } else {
      assert (a + b)[..|a + b| - 1] == a + b[..|b| - 1];
      AddedAllAppend(totals, a, b[..|b| - 1]);
    }
  }

  lemma {:induction false} AddedKeepsTotals(vs: seq<Coin>, totals: seq<Coin>, v: Coin)
    requires IsTotals(vs, totals)
    ensures IsTotals(vs + [v], Added(totals, v))
  {
    if Listed(totals, v.0) {
      RaiseKeepsTotals(vs, totals, FirstSeen(totals, v.0), v);
    } else {
      PushKeepsTotals(vs, totals, v);
    }
  }

  /** Adding coin by coin gives the totals. */
  lemma {:induction false} AddedAllIsTotals(vs: seq<Coin>)
    ensures IsTotals(vs, AddedAll([], vs))
  {
    if vs != [] {
      var front, v := vs[..|vs| - 1], vs[|vs| - 1];
      AddedAllIsTotals(front);
      assert vs == front + [v];
      AddedKeepsTotals(front, AddedAll([], front), v);
    }
  }

  // ---- The program ------------------------------------------------------------------------

  /** acc.find, as an index; the length when no total has the denom. */
  method Find(totals: seq<FeeCoin>, denom: string) returns (n: nat)
    ensures n == FirstSeen(Values(totals), denom)
  {
    n := 0;
    while n < |totals| && totals[n].denom != denom
      invariant n <= |totals|
      invariant forall i :: 0 <= i < n ==> totals[i].denom != denom
    {
      n := n + 1;
    }
    if n < |totals| {
      SeenBefore(Values(totals), denom, n);
    }
  }

  ghost predicate Distinct(s: seq<FeeCoin>) {
    forall i, j :: 0 <= i < j < |s| ==> s[i] != s[j]
  }

  /** Adds one fee coin, either to the total of its denom or as a new total. */
  method Accumulate(acc: seq<FeeCoin>, fee: FeeCoin) returns (totals: seq<FeeCoin>)
    requires fee !in acc && Distinct(acc)
    modifies acc
    ensures Values(totals) == Added(old(Values(acc)), (fee.denom, fee.amount))
    ensures Distinct(totals) && forall k :: 0 <= k < |totals| ==> totals[k] in acc || fresh(totals[k])
  {
    ghost var before, v := Values(acc), (fee.denom, fee.amount);
    var n := Find(acc, fee.denom);
    if n < |acc| {
      acc[n].amount := acc[n].amount + fee.amount;
      totals := acc;
      assert Values(totals) == before[n := (v.0, before[n].1 + v.1)];
    } else {
      var copy := new FeeCoin.Copy(fee);
      totals := acc + [copy];
      assert Values(totals) == before + [v];
    }
  }

  /** Adds the coins of one transaction. */
  method AccumulateAll(acc: seq<FeeCoin>, fees: seq<FeeCoin>) returns (totals: seq<FeeCoin>)
    requires Distinct(acc)
    requires forall k :: 0 <= k < |fees| ==> fees[k] !in acc
    modifies acc
    ensures Values(totals) == AddedAll(old(Values(acc)), old(Values(fees)))
    ensures Distinct(totals) && forall k :: 0 <= k < |totals| ==> totals[k] in acc || fresh(totals[k])
  {
    totals := acc;
    ghost var before, added := Values(acc), Values(fees);
    for i := 0 to |fees|
      invariant Distinct(totals) && forall k :: 0 <= k < |totals| ==> totals[k] in acc || fresh(totals[k])
      invariant Values(fees) == added
      invariant Values(totals) == AddedAll(before, added[..i])
    {
      assert added[..i + 1][..i] == added[..i];
      totals := Accumulate(totals, fees[i]);
    }
    assert added[..|fees|] == added;
  }

  ghost predicate Apart(a: seq<FeeCoin>, b: seq<FeeCoin>) {
    forall i, j :: 0 <= i < |a| && 0 <= j < |b| ==> a[i] != b[j]
  }

  /** One transaction more: the totals, which are no coins of any transaction, stand for all coins seen. */
  method AddTransaction(acc: seq<FeeCoin>, fees: seq<FeeCoin>, ghost seen: seq<FeeCoin>) returns (totals: seq<FeeCoin>)
    requires Distinct(acc) && Apart(seen + fees, acc)
    requires Values(acc) == AddedAll([], Values(seen))
    modifies acc
    ensures Values(totals) == AddedAll([], Values(seen + fees))
    ensures Distinct(totals) && forall k :: 0 <= k < |totals| ==> totals[k] in acc || fresh(totals[k])
  {
    ghost var more := seen + fees;
    ghost var vs, added, all := Values(seen), Values(fees), Values(more);
    assert forall k :: 0 <= k < |fees| ==> fees[k] == more[|seen| + k];
    assert all == vs + added;
    AddedAllAppend([], vs, added);
    totals := AccumulateAll(acc, fees);
    assert Values(more) == all;
  }

  /**
   The totals of the fetched rows. Nothing is in the modifies clause: although the totals are
   updated in place, no transaction's own coin changes, and none of the totals is one of them.
   */
  method TotalFees(rows: seq<FeeAmount>) returns (totals: seq<FeeCoin>)
    ensures IsTotals(Values(AllCoins(Fetched(rows))), Values(totals))
    ensures forall k :: 0 <= k < |totals| ==> fresh(totals[k])
  {
    totals := Reduce(Fetched(rows));
    AddedAllIsTotals(Values(AllCoins(Fetched(rows))));
  }

  /** transactions.reduce(...) */
  method Reduce(transactions: seq<FeeAmount>) returns (totals: seq<FeeCoin>)
    ensures Values(totals) == AddedAll([], Values(AllCoins(transactions)))
    ensures forall k :: 0 <= k < |totals| ==> fresh(totals[k])
  {
    totals := [];
    ghost var seen: seq<FeeCoin> := [];
    for t := 0 to |transactions|
      invariant seen == AllCoins(transactions[..t])
      invariant Distinct(totals) && forall k :: 0 <= k < |totals| ==> fresh(totals[k])
      invariant forall k :: 0 <= k < |seen| ==> old(allocated(seen[k]))
      invariant Values(totals) == AddedAll([], Values(seen))
    {
      var fees := CoinsOf(transactions[t]);
      assert forall k :: 0 <= k < |fees| ==> old(allocated(fees[k]));
      totals := AddTransaction(totals, fees, seen);
      seen := seen + fees;
      assert transactions[..t + 1][..t] == transactions[..t];
    }
    assert transactions[..|transactions|] == transactions;
  }

  // ---- What the totals say ------------------------------------------------------------------

  /** The totals are determined by the coins, order included. */
  lemma TotalsUnique(vs: seq<Coin>, a: seq<Coin>, b: seq<Coin>)
    requires IsTotals(vs, a) && IsTotals(vs, b)
    ensures a == b
  {
    SamePrefix(vs, a, b, |a|);
    SamePrefix(vs, b, a, |b|);
  }

  lemma {:induction false} SamePrefix(vs: seq<Coin>, a: seq<Coin>, b: seq<Coin>, n: nat)
    requires IsTotals(vs, a) && IsTotals(vs, b) && n <= |a|
    ensures n <= |b| && forall i :: 0 <= i < n ==> a[i] == b[i]
  {
    if n > 0 {
      var m := n - 1;
      SamePrefix(vs, a, b, m);
      var j := NotBefore(vs, a, b, m);
      var k := NotBefore(vs, b, a, m);
      assert FirstSeen(vs, b[m].0) == FirstSeen(vs, a[m].0);
      assert a[m].0 == b[m].0;
    }
  }

  /** After equal prefixes of length m, the denom of a[m] stands in b at m or later. */
  lemma NotBefore(vs: seq<Coin>, a: seq<Coin>, b: seq<Coin>, m: nat) returns (j: nat)
    requires IsTotals(vs, a) && IsTotals(vs, b) && m < |a|
    requires m <= |b| && forall i :: 0 <= i < m ==> a[i] == b[i]
    ensures m <= j < |b| && FirstSeen(vs, b[m].0) <= FirstSeen(vs, a[m].0) == FirstSeen(vs, b[j].0)
    ensures Listed(vs, a[m].0)
  {
    Place(vs, a, m);
    j := FirstSeen(b, a[m].0);
    if j < m {
      Place(vs, a, j);
    }
  }

  lemma TotalSnoc(vs: seq<Coin>, v: Coin, denom: string)
    ensures Total(vs + [v], denom) == Total(vs, denom) + if v.0 == denom then v.1 else 0
  {
    assert (vs + [v])[..|vs|] == vs;
  }

  lemma {:induction false} TotalWithout(vs: seq<Coin>, k: nat, denom: string)
    requires k < |vs|
    ensures Total(vs, denom) == Total(vs[..k] + vs[k + 1..], denom) + if vs[k].0 == denom then vs[k].1 else 0
  {
    var n := |vs| - 1;
    var front := vs[..n];
    if k == n {
      assert vs[..k] + vs[k + 1..] == front;
    } else {
      TotalWithout(front, k, denom);
      assert vs[..k] + vs[k + 1..] == front[..k] + front[k + 1..] + [vs[n]];
      TotalSnoc(front[..k] + front[k + 1..], vs[n], denom);
    }
  }

  lemma RemoveOne(vs: seq<Coin>, ws: seq<Coin>, k: nat)
    requires multiset(vs) == multiset(ws) && vs != [] && k < |ws| && ws[k] == vs[|vs| - 1]
    ensures multiset(vs[..|vs| - 1]) == multiset(ws[..k] + ws[k + 1..])
  {
    var n := |vs| - 1;
    assert vs == vs[..n] + [vs[n]];
    assert ws == ws[..k] + [ws[k]] + ws[k + 1..];
    assert multiset(vs) == multiset(vs[..n]) + multiset{vs[n]};
    assert multiset(ws) == multiset(ws[..k] + ws[k + 1..]) + multiset{ws[k]};
    AddBack(multiset(vs[..n]), multiset(ws[..k] + ws[k + 1..]), vs[n]);
  }

  lemma AddBack(a: multiset<Coin>, b: multiset<Coin>, c: Coin)
    requires a + multiset{c} == b + multiset{c}
    ensures a == b
  {
    forall x ensures a[x] == b[x] {
      assert (a + multiset{c})[x] == (b + multiset{c})[x];
    }
  }

  lemma {:induction false} TotalOfPermutation(vs: seq<Coin>, ws: seq<Coin>, denom: string)
    requires multiset(vs) == multiset(ws)
    ensures Total(vs, denom) == Total(ws, denom)
  {
    assert |multiset(vs)| == |multiset(ws)|;
    if vs != [] {
      var n := |vs| - 1;
      assert vs[n] in multiset(ws);
      var k :| 0 <= k < |ws| && ws[k] == vs[n];
      RemoveOne(vs, ws, k);
      TotalOfPermutation(vs[..n], ws[..k] + ws[k + 1..], denom);
      TotalWithout(ws, k, denom);
    }
  }

  /** The query gives the rows in no fixed order: that can change the order of the totals, but no total. */
  lemma RowOrderIrrelevant(vs: seq<Coin>, ws: seq<Coin>, a: seq<Coin>, b: seq<Coin>)
    requires multiset(vs) == multiset(ws)
    requires IsTotals(vs, a) && IsTotals(ws, b)
    ensures forall c :: c in a <==> c in b
  {
    forall c | c in a ensures c in b {
      TotalCarriesOver(vs, ws, a, b, c);
    }
    forall c | c in b ensures c in a {
      TotalCarriesOver(ws, vs, b, a, c);
    }
  }

  lemma TotalCarriesOver(vs: seq<Coin>, ws: seq<Coin>, a: seq<Coin>, b: seq<Coin>, c: Coin)
    requires multiset(vs) == multiset(ws)
    requires IsTotals(vs, a) && IsTotals(ws, b) && c in a
    ensures c in b
  {
    var i :| 0 <= i < |a| && a[i] == c;
    Place(vs, a, i);
    var first := vs[FirstSeen(vs, c.0)];
    assert first in multiset(ws);
    var k :| 0 <= k < |ws| && ws[k] == first;
    SeenBefore(ws, c.0, k);
    assert Listed(ws, c.0) && Listed(b, c.0);
    TotalOfPermutation(vs, ws, c.0);
    assert b[FirstSeen(b, c.0)] == c;
  }

  // ---- Which coins are added, and how ---------------------------------------------------------

  lemma AllCoinsMore(a: seq<FeeAmount>, fee: FeeAmount)
    ensures AllCoins(a + [fee]) == AllCoins(a) + CoinsOf(fee)
  {
    assert (a + [fee])[..|a|] == a;
  }

  lemma Joined<T>(a: seq<T>, b: seq<T>, c: seq<T>)
    ensures a + b + c == a + (b + c)
  {
  }

  /** Transaction after transaction. */
  lemma {:induction false} AllCoinsAppend(a: seq<FeeAmount>, b: seq<FeeAmount>)
    ensures AllCoins(a + b) == AllCoins(a) + AllCoins(b)
  {
    if b == [] {
      assert a + b == a;
    } else {
      var front, last := b[..|b| - 1], b[|b| - 1];
      AllCoinsAppend(a, front);
      AllCoinsMore(a + front, last);
      AllCoinsMore(front, last);
      assert b == front + [last];
      Joined(a, front, [last]);
      Joined(AllCoins(a), AllCoins(front), CoinsOf(last));
    }
  }

  /** Of one transaction: no coin of a fee without amount, the one of a single coin, all of an array. */
  lemma {:induction false} AllCoinsOfOne(coin: FeeCoin, coins: seq<FeeCoin>)
    ensures AllCoins([]) == [] && AllCoins([Absent]) == []
    ensures AllCoins([Single(coin)]) == [coin]
    ensures AllCoins([Several(coins)]) == coins
  {
    AllCoinsMore([], Absent);
    AllCoinsMore([], Single(coin));
    AllCoinsMore([], Several(coins));
    assert [] + coins == coins;
  }

  /** A transaction's fee names a coin. */
  predicate Names(fee: FeeAmount, coin: FeeCoin) {
    fee == Single(coin) || (fee.Several? && coin in fee.coins)
  }

  /** A coin stands among the added ones exactly when some transaction's fee names it. */
  lemma {:induction false} AddedCoins(fees: seq<FeeAmount>, coin: FeeCoin)
    ensures coin in AllCoins(fees) <==> exists i :: 0 <= i < |fees| && Names(fees[i], coin)
  {
    if fees != [] {
      var n := |fees| - 1;
      AddedCoins(fees[..n], coin);
      CoinIsNamed(fees[n], coin);
      assert forall i :: 0 <= i < n ==> fees[..n][i] == fees[i];
    }
  }

  lemma CoinIsNamed(fee: FeeAmount, coin: FeeCoin)
    ensures coin in CoinsOf(fee) <==> Names(fee, coin)
  {
  }

  /** The first thousand rows. */
  lemma FetchedRows<T>(rows: seq<T>)
    ensures |rows| <= 1000 ==> Fetched(rows) == rows
    ensures |rows| > 1000 ==> |Fetched(rows)| == 1000
    ensures Fetched(rows) <= rows
  {
  }

  /** A total is a sum: of one coin its amount, of two lists the two totals together. */
  lemma {:induction false} TotalLaws(v: Coin, denom: string, a: seq<Coin>, b: seq<Coin>)
    ensures Total([], denom) == 0
    ensures Total([v], denom) == if v.0 == denom then v.1 else 0
    ensures Total(a + b, denom) == Total(a, denom) + Total(b, denom)
  {
    if b == [] {
      assert a + b == a;
    } else {
      var n := |b| - 1;
      TotalLaws(v, denom, a, b[..n]);
      assert (a + b)[..|a + b| - 1] == a + b[..n];
    }
  }

  /** A denom is first seen at the first coin that has it. */
  lemma FirstSeenIs(vs: seq<Coin>, denom: string, k: nat)
    requires k < |vs|
    ensures FirstSeen(vs, denom) == k <==> vs[k].0 == denom && forall i :: 0 <= i < k ==> vs[i].0 != denom
    ensures FirstSeen(vs, denom) == |vs| <==> forall i :: 0 <= i < |vs| ==> vs[i].0 != denom
  {
    if exists i :: 0 <= i < |vs| && vs[i].0 == denom {
      var i :| 0 <= i < |vs| && vs[i].0 == denom;
      SeenBefore(vs, denom, i);
    }
    if vs[k].0 == denom {
      SeenBefore(vs, denom, k);
    }
    forall i | 0 <= i < FirstSeen(vs, denom) ensures vs[i].0 != denom {
      if vs[i].0 == denom {
        SeenBefore(vs, denom, i);
      }
    }
  }
}
