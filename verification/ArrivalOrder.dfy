/**
 What happens when the order of calls does matter: an operator address is unique in
 validator_info, so of two consensus keys of one operator the first to arrive keeps the row;
 and a row that refers to one that is not there yet is lost.
 */
module ArrivalOrder {
  import opened GuardedTables
  import opened UniqueColumn
  import opened IndexerDb
  import opened IndexerRuns

  /** SaveValidatorData, one validator per call. */
  function OneByOne(vs: seq<Validator>): seq<Call> {
    seq(|vs|, i requires 0 <= i < |vs| => Data([vs[i]]))
  }

  /** Saved one by one, validators fill validator_info like a table with a unique operator column. */
  lemma {:induction false} OneByOneInfos(t: Tables, vs: seq<Validator>)
    requires OneToOne(t.validators, Project(OneByOne(vs), KeysOf))
    ensures Run(t, OneByOne(vs)).infos == SaveEach(t.infos, InfoWrites(vs), OperatorOf)
  {
    if vs != [] {
      var n := |vs| - 1;
      var calls := OneByOne(vs);
      assert calls[..n] == OneByOne(vs[..n]) && InfoWrites(vs)[..n] == InfoWrites(vs[..n]);
      forall r | r in Project(calls[..n], KeysOf) ensures r in Project(calls, KeysOf) {
      }
      OneByOneInfos(t, vs[..n]);
      KeysInsertedAfter(t, calls[..n], calls[n]);
      SaveOneInfo(Run(t, calls[..n]), vs[n]);
    }
  }

  lemma SaveOneInfo(t: Tables, v: Validator)
    requires v.consAddr in InsertValidators(t.validators, Keys([v]))
    ensures Step(t, Data([v])).infos == Save(t.infos, InfoWrites([v])[0], OperatorOf)
  {
    var w := InfoWrites([v])[0];
    assert InfoWrites([v]) == [w];
    OneTuple(t.infos, w, InfoCheck(InsertValidators(t.validators, Keys([v]))));
  }

  /** Every order of the tuples is that of some order of the validators. */
  lemma {:induction false} OrderOfValidators(vs: seq<Validator>, ws: seq<Write<string, InfoRow>>)
    returns (us: seq<Validator>)
    requires multiset(ws) == multiset(InfoWrites(vs))
    ensures multiset(us) == multiset(vs) && InfoWrites(us) == ws
  {
    assert |multiset(ws)| == |multiset(InfoWrites(vs))|;
    if ws == [] {
      us := [];
    } else {
      var n, all := |ws| - 1, InfoWrites(vs);
      assert ws == ws[..n] + [ws[n]];
      assert ws[n] in multiset(all);
      var i :| 0 <= i < |all| && all[i] == ws[n];
      DropMembers(all, i);
      DropMembers(vs, i);
      assert InfoWrites(Drop(vs, i)) == Drop(all, i);
      SameRest(ws[..n], Drop(all, i), ws[n]);
      var front := OrderOfValidators(Drop(vs, i), ws[..n]);
      us := front + [vs[i]];
      assert InfoWrites(us) == ws;
    }
  }

  lemma SameRest<T>(a: seq<T>, b: seq<T>, x: T)
    requires multiset(a + [x]) == multiset([x] + b)
    ensures multiset(a) == multiset(b)
  {
    assert multiset(a + [x]) == multiset(a) + multiset{x};
    assert multiset([x] + b) == multiset(b) + multiset{x};
    assert multiset(a) == multiset(a) + multiset{x} - multiset{x};
    assert multiset(b) == multiset(b) + multiset{x} - multiset{x};
  }

  lemma OneByOneKeys(t: Tables, vs: seq<Validator>, us: seq<Validator>)
    requires OneToOne(t.validators, Project(OneByOne(vs), KeysOf)) && multiset(us) == multiset(vs)
    ensures OneToOne(t.validators, Project(OneByOne(us), KeysOf))
  {
    forall r | r in Project(OneByOne(us), KeysOf) ensures r in Project(OneByOne(vs), KeysOf) {
      ProjectMembers(OneByOne(us), KeysOf, r);
      var i :| 0 <= i < |us| && r in KeysOf(OneByOne(us)[i]);
      assert us[i] in multiset(vs);
      var j :| 0 <= j < |vs| && vs[j] == us[i];
      assert r in KeysOf(OneByOne(vs)[j]);
      ProjectMembers(OneByOne(vs), KeysOf, r);
    }
  }

  /**
   Validators saved one by one leave the same validator_info in every order if and only if no
   validator's newest save has a live rival: a save of its operator under another address.
   */
  lemma OneByOneOrderIrrelevantIff(t: Tables, vs: seq<Validator>)
    requires OneToOne(t.validators, Project(OneByOne(vs), KeysOf))
    requires OneValue(InfoWrites(vs)) && StoredApart(t.infos, InfoWrites(vs), OperatorOf)
    ensures !Clash(t.infos, InfoWrites(vs), OperatorOf) <==>
            forall us :: multiset(us) == multiset(vs) ==> Run(t, OneByOne(us)).infos == Run(t, OneByOne(vs)).infos
  {
    var ws := InfoWrites(vs);
    OneByOneInfos(t, vs);
    if !Clash(t.infos, ws, OperatorOf) {
      forall us | multiset(us) == multiset(vs) ensures Run(t, OneByOne(us)).infos == Run(t, OneByOne(vs)).infos {
        OneByOneKeys(t, vs, us);
        OneByOneInfos(t, us);
        InfoTuplesOf(us, vs);
        InfoTuplesOf(vs, us);
        NoClashConverges(t.infos, ws, InfoWrites(us), OperatorOf);
      }
    } else {
      OrderIrrelevantIffNoClash(t.infos, ws, OperatorOf);
      var b :| multiset(b) == multiset(ws) && SaveEach(t.infos, b, OperatorOf) != SaveEach(t.infos, ws, OperatorOf);
      var us := OrderOfValidators(vs, b);
      OneByOneKeys(t, vs, us);
      OneByOneInfos(t, us);
    }
  }

  lemma InfoTuplesOf(us: seq<Validator>, vs: seq<Validator>)
    requires multiset(us) == multiset(vs)
    ensures forall w :: w in InfoWrites(us) ==> w in InfoWrites(vs)
  {
    forall i | 0 <= i < |us| ensures InfoWrites(us)[i] in InfoWrites(vs) {
      assert us[i] in multiset(vs);
      var j :| 0 <= j < |vs| && vs[j] == us[i];
      assert InfoWrites(vs)[j] == InfoWrites(us)[i];
    }
  }

  lemma ProjectPair<W>(c: Call, d: Call, f: Call -> seq<W>)
    ensures Project([c, d], f) == f(c) + f(d)
  {
    assert [c, d][..1] == [c] && [c][..0] == [];
    assert Project([c], f) == f(c);
  }

  lemma RunPair(t: Tables, c: Call, d: Call)
    ensures Run(t, [c, d]) == Step(Step(t, c), d)
  {
    assert [c, d][..1] == [c] && [c][..0] == [];
    assert Run(t, [c]) == Step(t, c);
  }

  const EMPTY := Tables({}, {}, {}, map[], map[], map[], map[], map[], map[], map[])

  /** An operator that comes back under a new consensus key: the first to arrive keeps the row. */
  lemma SharedOperatorDependsOnOrder()
    ensures var a := Validator("A", "pA", "op", "acc", "0.1", "0.2", 1);
            var b := Validator("B", "pB", "op", "acc", "0.1", "0.2", 2);
            Run(EMPTY, OneByOne([a, b])).infos.Keys == {"A"} && Run(EMPTY, OneByOne([b, a])).infos.Keys == {"B"}
  {
    var a := Validator("A", "pA", "op", "acc", "0.1", "0.2", 1);
    var b := Validator("B", "pB", "op", "acc", "0.1", "0.2", 2);
    FirstKeepsOperator(a, b);
    FirstKeepsOperator(b, a);
  }

  /** From an empty database, of two validators with one operator the second is refused. */
  lemma FirstKeepsOperator(a: Validator, b: Validator)
    requires a.consAddr != b.consAddr && a.pubKey != b.pubKey && a.operator == b.operator
    ensures Run(EMPTY, OneByOne([a, b])).infos.Keys == {a.consAddr}
  {
    assert OneByOne([a, b]) == [Data([a]), Data([b])];
    ProjectPair(Data([a]), Data([b]), KeysOf);
    OneByOneInfos(EMPTY, [a, b]);
    var v, w := InfoWrites([a])[0], InfoWrites([b])[0];
    assert InfoWrites([a, b]) == [v, w];
    FirstRivalStays(v, w, OperatorOf);
  }

  /** Powers that arrive before the validator they name are refused, and lost. */
  lemma PowersNeedTheirValidator(t: Tables, v: Validator, p: VotingPower)
    requires v.consAddr == p.consAddr && v.consAddr !in t.validators && v.pubKey !in t.validators.Values
    requires p.height in t.blocks && p.consAddr !in t.powers
    ensures p.consAddr in Run(t, [Data([v]), Powers([p])]).powers
    ensures p.consAddr !in Run(t, [Powers([p]), Data([v])]).powers
  {
    RunPair(t, Data([v]), Powers([p]));
    RunPair(t, Powers([p]), Data([v]));
    PowersAfter(t, v, p);
    PowersBefore(t, p);
  }

  lemma PowersAfter(t: Tables, v: Validator, p: VotingPower)
    requires v.consAddr == p.consAddr && v.consAddr !in t.validators && v.pubKey !in t.validators.Values
    requires p.height in t.blocks && p.consAddr !in t.powers
    ensures p.consAddr in Step(Step(t, Data([v])), Powers([p])).powers
  {
    var u, w := Step(t, Data([v])), Write(p.consAddr, p.height, p.power);
    assert PowerWrites([p]) == [w] && Keys([v])[..0] == [];
    StepKeys(t, Data([v]));
    StepReferences(t, Data([v]));
    OneTuple(u.powers, w, PowerCheck(u.validators, u.blocks));
  }

  lemma PowersBefore(t: Tables, p: VotingPower)
    requires p.consAddr !in t.validators && p.consAddr !in t.powers
    ensures Step(t, Powers([p])).powers == t.powers
  {
    var w := Write(p.consAddr, p.height, p.power);
    assert PowerWrites([p]) == [w];
    OneTuple(t.powers, w, PowerCheck(t.validators, t.blocks));
  }
}
