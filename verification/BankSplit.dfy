/**
 SplitAccounts cuts a list of accounts into statements that stay below the number of
 parameters Postgres accepts. It sizes the result by dividing by M, but moves on to the next
 slice every M - 1 accounts, so for long lists it runs past the end of the result.
 */
module BankSplit {
  import opened Arithmetic

  const MAX_POSTGRESQL_PARAMS := 65535

  /** Panic stands for the run-time error of an index or a division. */
  datatype Result<+A> = Panic | Slices(slices: seq<seq<A>>)

  function Concat<A>(ss: seq<seq<A>>): seq<A> {
    if ss == [] then [] else Concat(ss[..|ss| - 1]) + ss[|ss| - 1]
  }

  /** The slices suffice: the last account goes to a slice that exists. */
  predicate Fits(n: nat, m: nat) {
    m >= 1 && (n <= 1 || (m >= 2 && (n - 2) / (m - 1) <= n / m))
  }

  /** Account i is the last of its slice. */
  predicate Ends(i: nat, m: nat)
    requires m >= 2
  {
    i > 0 && i % (m - 1) == 0
  }

  /** The slice that account i is put into. */
  function SliceOf(i: nat, m: nat): nat
    requires m >= 2
  {
    if i == 0 then 0 else SliceOf(i - 1, m) + if Ends(i - 1, m) then 1 else 0
  }

  /** How many accounts that slice holds before account i. */
  function Filled(i: nat, m: nat): nat
    requires m >= 2
  {
    if i == 0 || Ends(i - 1, m) then 0 else Filled(i - 1, m) + 1
  }

  /** What is left of i - 1 after the full slices; the first one counts from account 1. */
  function Rest(i: nat, m: nat): int
    requires m >= 2
  {
    if SliceOf(i, m) == 0 then Filled(i, m) - 1 else Filled(i, m)
  }

  lemma {:induction false} SlicesCount(i: nat, m: nat)
    requires m >= 2 && i > 0
    ensures 0 <= Rest(i, m) < m - 1
    ensures i - 1 == SliceOf(i, m) * (m - 1) + Rest(i, m)
  {
    if i == 1 {
      assert SliceOf(0, m) == 0 && Filled(0, m) == 0;
    } else {
      var q, r := SliceOf(i - 1, m), Rest(i - 1, m);
      SlicesCount(i - 1, m);
      assert i - 2 == q * (m - 1) + r;
      if r + 1 == m - 1 {
        Distribute(q + 1, 1, m - 1);
        assert i - 1 == (q + 1) * (m - 1) + 0;
        DivIs(i - 1, m - 1, q + 1, 0);
        assert Ends(i - 1, m);
      } else {
        DivIs(i - 1, m - 1, q, r + 1);
        assert !Ends(i - 1, m);
      }
    }
  }

  /** The first slice takes m accounts, every other one m - 1. */
  lemma SliceOfIsQuotient(i: nat, m: nat)
    requires m >= 2 && i > 0
    ensures SliceOf(i, m) == (i - 1) / (m - 1)
  {
    SlicesCount(i, m);
    DivIs(i - 1, m - 1, SliceOf(i, m), Rest(i, m));
  }

  lemma SliceRoom(i: nat, m: nat)
    requires m >= 2
    ensures Filled(i, m) < m
  {
    if i > 0 {
      SlicesCount(i, m);
    }
  }

  lemma {:induction false} SliceOfMonotonic(i: nat, j: nat, m: nat)
    requires m >= 2 && i <= j
    ensures SliceOf(i, m) <= SliceOf(j, m)
  {
    if i < j {
      SliceOfMonotonic(i, j - 1, m);
    }
  }

  lemma {:induction false} ConcatEmpty<A>(ss: seq<seq<A>>, k: nat)
    requires k <= |ss| && forall j :: k <= j < |ss| ==> ss[j] == []
    ensures Concat(ss) == Concat(ss[..k])
  {
    if k == |ss| {
      assert ss[..k] == ss;
    } else {
      assert ss[..|ss| - 1][..k] == ss[..k];
      ConcatEmpty(ss[..|ss| - 1], k);
    }
  }

  lemma RoomIffFits(n: nat, m: nat)
    requires m > 0
    ensures Fits(n, m) <==> n <= 1 || (m >= 2 && SliceOf(n - 1, m) < n / m + 1)
  {
    if n > 1 && m >= 2 {
      SliceOfIsQuotient(n - 1, m);
    }
  }

  method SplitAccounts<A>(accounts: seq<A>, paramsNumber: nat) returns (r: Result<A>)
    ensures r.Slices? <==> paramsNumber > 0 && Fits(|accounts|, MAX_POSTGRESQL_PARAMS / paramsNumber)
    ensures r.Slices? ==> Concat(r.slices) == accounts
    ensures r.Slices? ==> forall s :: s in r.slices ==> |s| <= MAX_POSTGRESQL_PARAMS / paramsNumber
  {
    if paramsNumber == 0 {
      return Panic;
    }
    var maxBalancesPerSlice := MAX_POSTGRESQL_PARAMS / paramsNumber;
    if maxBalancesPerSlice == 0 {
      return Panic;
    }
    RoomIffFits(|accounts|, maxBalancesPerSlice);
    r := FillSlices(accounts, maxBalancesPerSlice, |accounts| / maxBalancesPerSlice + 1);
  }

  /** The accounts put into the slices while slice k is the current one. */
  function Content<A>(ss: seq<seq<A>>, k: nat): seq<A>
    requires k <= |ss|
  {
    Concat(ss[..k]) + if k < |ss| then ss[k] else []
  }

  lemma {:induction false} AppendToSlice<A>(ss: seq<seq<A>>, k: nat, x: A)
    requires k < |ss| && forall j :: k < j < |ss| ==> ss[j] == []
    ensures var ss' := ss[k := ss[k] + [x]];
            Content(ss', k) == Content(ss, k) + [x] && Content(ss', k + 1) == Content(ss', k)
  {
    var ss' := ss[k := ss[k] + [x]];
    assert ss'[..k] == ss[..k];
    assert ss'[..k + 1][..k] == ss[..k];
  }

  lemma {:induction false} ConcatNext<A>(ss: seq<seq<A>>, k: nat)
    requires k < |ss|
    ensures Concat(ss[..k + 1]) == Concat(ss[..k]) + ss[k]
  {
    assert ss[..k + 1][..k] == ss[..k];
  }

  lemma {:induction false} ContentIsConcat<A>(ss: seq<seq<A>>, k: nat)
    requires k <= |ss| && forall j :: k < j < |ss| ==> ss[j] == []
    ensures Content(ss, k) == Concat(ss)
  {
    if k < |ss| {
      var upTo := Concat(ss[..k + 1]);
      assert Concat(ss) == upTo by {
        ConcatEmpty(ss, k + 1);
      }
      assert upTo == Concat(ss[..k]) + ss[k] by {
        ConcatNext(ss, k);
      }
    } else {
      assert ss[..k] == ss;
    }
  }

  /** The slices while slice k is the current one and i accounts have been put away. */
  ghost predicate Filling<A>(accounts: seq<A>, ss: seq<seq<A>>, k: nat, i: nat, m: nat) {
    && k <= |ss| && i <= |accounts|
    && Content(ss, k) == accounts[..i]
    && (forall j :: k < j < |ss| ==> ss[j] == [])
    && (forall j :: 0 <= j < |ss| ==> |ss[j]| <= m)
    && (k < |ss| ==> |ss[k]| == if m >= 2 then Filled(i, m) else i)
  }

  lemma FillingStart<A>(accounts: seq<A>, ss: seq<seq<A>>, m: nat)
    requires forall j :: 0 <= j < |ss| ==> ss[j] == []
    ensures Filling(accounts, ss, 0, 0, m)
  {
    assert Concat(ss[..0]) == [];
  }

  lemma {:induction false} FillingDone<A>(accounts: seq<A>, ss: seq<seq<A>>, k: nat, m: nat)
    requires Filling(accounts, ss, k, |accounts|, m)
    ensures Concat(ss) == accounts && forall s :: s in ss ==> |s| <= m
  {
    ContentIsConcat(ss, k);
    assert accounts[..|accounts|] == accounts;
  }

  lemma {:induction false} FillingStep<A>(accounts: seq<A>, ss: seq<seq<A>>, k: nat, i: nat, m: nat)
    requires m >= 1 && (m == 1 ==> i == 0)
    requires Filling(accounts, ss, k, i, m) && k < |ss| && i < |accounts|
    ensures Filling(accounts, ss[k := ss[k] + [accounts[i]]], if m >= 2 && Ends(i, m) then k + 1 else k, i + 1, m)
  {
    AppendToSlice(ss, k, accounts[i]);
    assert accounts[..i + 1] == accounts[..i] + [accounts[i]];
    if m >= 2 {
      SliceRoom(i, m);
    }
  }

  /** The loop, over a result of the given number of slices. */
  method FillSlices<A>(accounts: seq<A>, m: nat, size: nat) returns (r: Result<A>)
    requires m > 0 && size > 0
    ensures r.Slices? <==> |accounts| <= 1 || (m >= 2 && SliceOf(|accounts| - 1, m) < size)
    ensures r.Slices? ==> Concat(r.slices) == accounts
    ensures r.Slices? ==> forall s :: s in r.slices ==> |s| <= m
  {
    var slices := new seq<A>[size](_ => []);
    var sliceIndex := 0;
    ghost var ss := slices[..];
    FillingStart(accounts, ss, m);
    for index := 0 to |accounts|
      invariant slices[..] == ss && Filling(accounts, ss, sliceIndex, index, m)
      invariant m == 1 ==> index <= 1 && sliceIndex == 0
      invariant m >= 2 ==> sliceIndex == SliceOf(index, m)
      invariant m >= 2 && index > 0 ==> SliceOf(index - 1, m) < size
    {
      if sliceIndex >= size {
        SliceOfMonotonic(index, |accounts| - 1, m);
        return Panic;
      }
      if index > 0 && m == 1 {
        return Panic;
      }
      FillingStep(accounts, ss, sliceIndex, index, m);
      slices[sliceIndex] := slices[sliceIndex] + [accounts[index]];
      ss := ss[sliceIndex := ss[sliceIndex] + [accounts[index]]];
      if index > 0 && index % (m - 1) == 0 {
        sliceIndex := sliceIndex + 1;
      }
    }
    FillingDone(accounts, ss, sliceIndex, m);
    return Slices(slices[..]);
  }

  /** Every list shorter than 3M - 1 is safe, and 3M - 1 is the first that is not. */
  lemma FirstUnsafeLength(m: nat)
    requires m >= 2
    ensures forall n: nat :: n < 3 * m - 1 ==> Fits(n, m)
    ensures !Fits(3 * m - 1, m)
  {
    forall n: nat | n < 3 * m - 1 ensures Fits(n, m) {
      if 2 * m <= n {
        DivIs(n, m, 2, n - 2 * m);
        DivMonotonic(n - 2, 3 * (m - 1) - 1, m - 1);
        DivIs(3 * (m - 1) - 1, m - 1, 2, m - 2);
      } else if m <= n {
        DivIs(n, m, 1, n - m);
        DivMonotonic(n - 2, 2 * (m - 1) - 1, m - 1);
        DivIs(2 * (m - 1) - 1, m - 1, 1, m - 2);
      } else if n > 1 {
        DivIs(n - 2, m - 1, 0, n - 2);
        DivIs(n, m, 0, n);
      }
    }
    DivIs(3 * m - 1, m, 2, m - 1);
    DivIs(3 * m - 3, m - 1, 3, 0);
  }

  /** SaveAccounts sends one parameter per row: 196603 accounts are the most it can take below the limit. */
  lemma SaveAccountsLimit()
    ensures MAX_POSTGRESQL_PARAMS / 1 == 65535
    ensures forall n: nat :: n <= 196603 ==> Fits(n, MAX_POSTGRESQL_PARAMS / 1)
    ensures !Fits(196604, MAX_POSTGRESQL_PARAMS / 1)
  {
    FirstUnsafeLength(65535);
  }

  // ---- What joining slices means ------------------------------------------------------------

  lemma Regrouped<A>(a: seq<A>, b: seq<A>, c: seq<A>)
    ensures a + (b + c) == a + b + c
  {
  }

  /** The slices one after the other. */
  lemma {:induction false} ConcatLaws<A>(s: seq<A>, a: seq<seq<A>>, b: seq<seq<A>>)
    ensures Concat([s]) == s
    ensures Concat(a + b) == Concat(a) + Concat(b)
  {
    var one := [s];
    assert one[..0] == [] && Concat(one) == Concat(one[..0]) + s;
    if b == [] {
      assert a + b == a;
    } else {
      var n := |b| - 1;
      ConcatLaws(s, a, b[..n]);
      assert (a + b)[..|a + b| - 1] == a + b[..n];
      Regrouped(Concat(a), Concat(b[..n]), b[n]);
    }
  }
}
