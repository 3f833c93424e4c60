/**
 Whole runs of the bulk writers, in any order of calls. The main results say when a call goes
 through, and that two runs over the same calls end in the same database if both send the
 rows first that foreign keys refer to.
 */
module IndexerRuns {
  import opened GuardedTables
  import opened UniqueColumn
  import opened IndexerDb

  // ---- Whole runs -----------------------------------------------------------------------

  function Run(t: Tables, calls: seq<Call>): Tables {
    if calls == [] then t else Step(Run(t, calls[..|calls| - 1]), calls[|calls| - 1])
  }

  /** All the tuples that the calls send to one table, in order. */
  function Project<W>(calls: seq<Call>, f: Call -> seq<W>): seq<W> {
    if calls == [] then [] else Project(calls[..|calls| - 1], f) + f(calls[|calls| - 1])
  }

  function InfosOf(c: Call): seq<Write<string, InfoRow>> { if c.Data? then InfoWrites(c.validators) else [] }
  function PowersOf(c: Call): seq<Write<string, int>> { if c.Powers? then PowerWrites(c.powers) else [] }
  function StatusesOf(c: Call): seq<Write<string, StatusRow>> { if c.Statuses? then StatusWrites(c.statuses) else [] }
  function SigningOf(c: Call): seq<Write<string, SigningRow>> { if c.Signing? then SigningWrites(c.infos) else [] }
  function TalliesOf(c: Call): seq<Write<nat, TallyRow>> { if c.Tallies? then TallyWrites(c.tallies) else [] }
  function PoolOf(c: Call): seq<Write<OneRow, PoolRow>> { if c.StakingPool? then [PoolWrite(c.pool)] else [] }
  function AccountsOf(c: Call): set<string> { if c.Data? then SelfDelegates(c.validators) else {} }
  function KeysOf(c: Call): seq<(string, string)> {
    match c
    case Data(vs) => Keys(vs)
    case Statuses(ss) => StatusKeys(ss)
    case _ => []
  }

  /** Every call of the run goes through. */
  predicate AllSucceed(t: Tables, calls: seq<Call>) {
    calls == [] || (AllSucceed(t, calls[..|calls| - 1]) && Succeeds(Run(t, calls[..|calls| - 1]), calls[|calls| - 1]))
  }

  /** Each guarded table sees its own tuples as if they had come one by one. */
  lemma {:induction false} RunByTable(t: Tables, calls: seq<Call>)
    requires AllSucceed(t, calls)
    ensures Run(t, calls).infos == UpsertAll(t.infos, Project(calls, InfosOf))
    ensures Run(t, calls).powers == UpsertAll(t.powers, Project(calls, PowersOf))
    ensures Run(t, calls).statuses == UpsertAll(t.statuses, Project(calls, StatusesOf))
    ensures Run(t, calls).signing == UpsertAll(t.signing, Project(calls, SigningOf))
    ensures Run(t, calls).tallies == UpsertAll(t.tallies, Project(calls, TalliesOf))
    ensures Run(t, calls).pool == UpsertAll(t.pool, Project(calls, PoolOf))
  {
    if calls != [] {
      var n := |calls| - 1;
      var c, before := calls[n], calls[..n];
      RunByTable(t, before);
      UpsertAllAppend(t.infos, Project(before, InfosOf), InfosOf(c));
      UpsertAllAppend(t.powers, Project(before, PowersOf), PowersOf(c));
      UpsertAllAppend(t.statuses, Project(before, StatusesOf), StatusesOf(c));
      UpsertAllAppend(t.signing, Project(before, SigningOf), SigningOf(c));
      UpsertAllAppend(t.tallies, Project(before, TalliesOf), TalliesOf(c));
      UpsertAllAppend(t.pool, Project(before, PoolOf), PoolOf(c));
      if c.StakingPool? {
        OneTuple(Run(t, before).pool, PoolWrite(c.pool), Anything);
      }
    }
  }

  ghost predicate SameCalls(a: seq<Call>, b: seq<Call>) {
    forall c :: c in a <==> c in b
  }

  lemma {:induction false} ProjectMembers<W>(calls: seq<Call>, f: Call -> seq<W>, w: W)
    ensures w in Project(calls, f) <==> exists i :: 0 <= i < |calls| && w in f(calls[i])
  {
    if calls != [] {
      ProjectMembers(calls[..|calls| - 1], f, w);
      if i :| 0 <= i < |calls| && w in f(calls[i]) {
        assert i < |calls| - 1 ==> calls[..|calls| - 1][i] == calls[i];
      }
    }
  }

  lemma ProjectSame<K, V>(a: seq<Call>, b: seq<Call>, f: Call -> seq<Write<K, V>>)
    requires SameCalls(a, b)
    ensures SameWrites(Project(a, f), Project(b, f))
  {
    ProjectSubset(a, b, f);
    ProjectSubset(b, a, f);
  }

  lemma ProjectSubset<K, V>(a: seq<Call>, b: seq<Call>, f: Call -> seq<Write<K, V>>)
    requires SameCalls(a, b)
    ensures forall i :: 0 <= i < |Project(a, f)| ==> Project(a, f)[i] in Project(b, f)
  {
    forall i | 0 <= i < |Project(a, f)|
      ensures Project(a, f)[i] in Project(b, f)
    {
      var w := Project(a, f)[i];
      ProjectMembers(a, f, w);
      var j :| 0 <= j < |a| && w in f(a[j]);
      assert a[j] in b;
      var j' :| 0 <= j' < |b| && b[j'] == a[j];
      ProjectMembers(b, f, w);
    }
  }

  /** Consensus addresses and public keys name each other one to one. */
  ghost predicate OneToOne(t: map<string, string>, rows: seq<(string, string)>) {
    && (forall k, l :: k in t && l in t && t[k] == t[l] ==> k == l)
    && (forall k, r :: k in t && r in rows ==> (k == r.0 <==> t[k] == r.1))
    && (forall r, s :: r in rows && s in rows ==> (r.0 == s.0 <==> r.1 == s.1))
  }

  ghost predicate Holds(t: map<string, string>, k: string, p: string) {
    k in t && t[k] == p
  }

  /** With one-to-one keys the table ends with exactly the pairs it had and the pairs sent. */
  lemma {:induction false} InsertedValidators(t: map<string, string>, rows: seq<(string, string)>)
    requires OneToOne(t, rows)
    ensures forall k, p :: Holds(InsertValidators(t, rows), k, p) <==> Holds(t, k, p) || (k, p) in rows
  {
    if rows != [] {
      var n := |rows| - 1;
      var before, row := InsertValidators(t, rows[..n]), rows[n];
      assert rows == rows[..n] + [row];
      InsertedValidators(t, rows[..n]);
      if row.0 in before {
        assert Holds(before, row.0, before[row.0]);
        assert Holds(before, row.0, row.1);
      } else if row.1 in before.Values {
        var l :| l in before && before[l] == row.1;
        assert Holds(before, l, row.1);
        assert false;
      } else {
        forall k, p ensures Holds(before[row.0 := row.1], k, p) <==> Holds(before, k, p) || (k, p) == row {
        }
      }
    }
  }

  lemma InsertAppend(t: map<string, string>, a: seq<(string, string)>, b: seq<(string, string)>)
    ensures InsertValidators(t, a + b) == InsertValidators(InsertValidators(t, a), b)
  {
    if b == [] {
      assert a + b == a;
    } else {
      assert (a + b)[..|a + b| - 1] == a + b[..|b| - 1];
    }
  }

  function Delegates(calls: seq<Call>): set<string> {
    if calls == [] then {} else Delegates(calls[..|calls| - 1]) + AccountsOf(calls[|calls| - 1])
  }

  lemma StepKeys(t: Tables, c: Call)
    ensures Step(t, c).validators == InsertValidators(t.validators, KeysOf(c))
    ensures Step(t, c).accounts == t.accounts + AccountsOf(c)
  {
    assert Step(t, c) == Effect(t, c) || Step(t, c) == Leftover(t, c);
    match c
    case Data(vs) =>
    case Statuses(ss) =>
    case _ =>
  }

  lemma {:induction false} RunKeys(t: Tables, calls: seq<Call>)
    ensures Run(t, calls).validators == InsertValidators(t.validators, Project(calls, KeysOf))
    ensures Run(t, calls).accounts == t.accounts + Delegates(calls)
  {
    if calls != [] {
      var n := |calls| - 1;
      RunKeys(t, calls[..n]);
      StepKeys(Run(t, calls[..n]), calls[n]);
      InsertAppend(t.validators, Project(calls[..n], KeysOf), KeysOf(calls[n]));
    }
  }

  lemma {:induction false} DelegatesMembers(calls: seq<Call>, x: string)
    ensures x in Delegates(calls) <==> exists c :: c in calls && x in AccountsOf(c)
  {
    if calls != [] {
      DelegatesMembers(calls[..|calls| - 1], x);
      assert calls == calls[..|calls| - 1] + [calls[|calls| - 1]];
    }
  }

  lemma InsertOrderIrrelevant(t: map<string, string>, a: seq<(string, string)>, b: seq<(string, string)>)
    requires OneToOne(t, a)
    requires forall r :: r in a <==> r in b
    ensures InsertValidators(t, a) == InsertValidators(t, b)
  {
    InsertedValidators(t, a);
    InsertedValidators(t, b);
    var ta, tb := InsertValidators(t, a), InsertValidators(t, b);
    forall k | k in ta.Keys + tb.Keys ensures k in ta && k in tb && ta[k] == tb[k] {
      assert k in ta ==> Holds(ta, k, ta[k]) && Holds(tb, k, ta[k]);
      assert k in tb ==> Holds(tb, k, tb[k]) && Holds(ta, k, tb[k]);
    }
    assert ta.Keys == tb.Keys;
  }

  function BlocksIn(calls: seq<Call>): set<int> {
    if calls == [] then {}
    else
      var c := calls[|calls| - 1];
      BlocksIn(calls[..|calls| - 1]) + if c.NewBlock? then {c.height} else {}
  }

  function ProposalsIn(calls: seq<Call>): set<nat> {
    if calls == [] then {}
    else
      var c := calls[|calls| - 1];
      ProposalsIn(calls[..|calls| - 1]) + if c.NewProposals? then c.ids else {}
  }

  lemma StepReferences(t: Tables, c: Call)
    ensures Step(t, c).blocks == t.blocks + if c.NewBlock? then {c.height} else {}
    ensures Step(t, c).proposals == t.proposals + if c.NewProposals? then c.ids else {}
  {
    assert Step(t, c) in {Effect(t, c), Leftover(t, c)};
  }

  lemma {:induction false} RunReferences(t: Tables, calls: seq<Call>)
    ensures Run(t, calls).blocks == t.blocks + BlocksIn(calls)
    ensures Run(t, calls).proposals == t.proposals + ProposalsIn(calls)
  {
    if calls != [] {
      var n := |calls| - 1;
      RunReferences(t, calls[..n]);
      StepReferences(Run(t, calls[..n]), calls[n]);
    }
  }

  lemma {:induction false} ReferencesMembers(calls: seq<Call>, h: int, id: nat)
    ensures h in BlocksIn(calls) <==> NewBlock(h) in calls
    ensures id in ProposalsIn(calls) <==> exists c :: c in calls && c.NewProposals? && id in c.ids
  {
    if calls != [] {
      var n := |calls| - 1;
      ReferencesMembers(calls[..n], h, id);
      assert calls == calls[..n] + [calls[n]];
    }
  }

  // ---- When a call goes through -----------------------------------------------------------

  ghost predicate KnownValidator(t: Tables, before: seq<Call>, k: string) {
    k in t.validators || exists p :: (k, p) in Project(before, KeysOf)
  }

  predicate KnownBlock(t: Tables, before: seq<Call>, h: int) {
    h in t.blocks || NewBlock(h) in before
  }

  ghost predicate KnownProposal(t: Tables, before: seq<Call>, id: nat) {
    id in t.proposals || exists c :: c in before && c.NewProposals? && id in c.ids
  }

  lemma ValidatorsKnown(t: Tables, before: seq<Call>, k: string)
    requires OneToOne(t.validators, Project(before, KeysOf))
    ensures k in Run(t, before).validators <==> KnownValidator(t, before, k)
  {
    RunKeys(t, before);
    InsertedValidators(t.validators, Project(before, KeysOf));
    var u := Run(t, before).validators;
    if k in u {
      assert Holds(u, k, u[k]);
    }
    if k in t.validators {
      assert Holds(t.validators, k, t.validators[k]);
      assert Holds(u, k, t.validators[k]);
    } else if p :| (k, p) in Project(before, KeysOf) {
      assert Holds(u, k, p);
    }
  }

  lemma BlocksKnown(t: Tables, before: seq<Call>, h: int)
    ensures h in Run(t, before).blocks <==> KnownBlock(t, before, h)
  {
    RunReferences(t, before);
    ReferencesMembers(before, h, 0);
  }

  lemma ProposalsKnown(t: Tables, before: seq<Call>, id: nat)
    ensures id in Run(t, before).proposals <==> KnownProposal(t, before, id)
  {
    RunReferences(t, before);
    ReferencesMembers(before, 0, id);
  }

  /**
   A batch of voting powers goes through exactly when each tuple that is not outdated names a
   validator and a block that came before it, in this order of calls.
   */
  lemma PowersSucceedIff(t: Tables, before: seq<Call>, es: seq<VotingPower>)
    requires OneToOne(t.validators, Project(before, KeysOf)) && DistinctKeys(PowerWrites(es))
    ensures Succeeds(Run(t, before), Powers(es)) <==>
            forall w :: w in PowerWrites(es) ==>
              || Blocked(Run(t, before).powers, w)
              || (KnownValidator(t, before, w.key) && KnownBlock(t, before, w.height))
  {
    var u, ws := Run(t, before), PowerWrites(es);
    DistinctIsAccepted(u.powers, ws);
    PermittedIffEach(u.powers, ws, PowerCheck(u.validators, u.blocks));
    forall w | w in ws
      ensures w.key in u.validators && w.height in u.blocks
              <==> KnownValidator(t, before, w.key) && KnownBlock(t, before, w.height)
    {
      ValidatorsKnown(t, before, w.key);
      BlocksKnown(t, before, w.height);
    }
  }

  /** The same for tally results, which name a proposal. */
  lemma TalliesSucceedIff(t: Tables, before: seq<Call>, ts: seq<Tally>)
    requires DistinctKeys(TallyWrites(ts))
    ensures Succeeds(Run(t, before), Tallies(ts)) <==>
            forall w :: w in TallyWrites(ts) ==> Blocked(Run(t, before).tallies, w) || KnownProposal(t, before, w.key)
  {
    var u, ws := Run(t, before), TallyWrites(ts);
    DistinctIsAccepted(u.tallies, ws);
    PermittedIffEach(u.tallies, ws, TallyCheck(u.proposals));
    forall w | w in ws ensures w.key in u.proposals <==> KnownProposal(t, before, w.key) {
      ProposalsKnown(t, before, w.key);
    }
  }

  /** With one-to-one keys the validator rows that a statement needs are there. */
  lemma KeysInserted(v: map<string, string>, rows: seq<(string, string)>)
    requires OneToOne(v, rows)
    ensures forall r :: r in rows ==> r.0 in InsertValidators(v, rows)
  {
    InsertedValidators(v, rows);
    forall r | r in rows ensures r.0 in InsertValidators(v, rows) {
      assert Holds(InsertValidators(v, rows), r.0, r.1);
    }
  }

  lemma KeysInsertedAfter(t: Tables, before: seq<Call>, c: Call)
    requires OneToOne(t.validators, Project(before, KeysOf) + KeysOf(c))
    ensures forall r :: r in KeysOf(c) ==> r.0 in InsertValidators(Run(t, before).validators, KeysOf(c))
  {
    RunKeys(t, before);
    InsertAppend(t.validators, Project(before, KeysOf), KeysOf(c));
    KeysInserted(t.validators, Project(before, KeysOf) + KeysOf(c));
  }

  lemma StatusesSucceed(t: Tables, before: seq<Call>, ss: seq<Status>)
    requires OneToOne(t.validators, Project(before, KeysOf) + StatusKeys(ss)) && DistinctKeys(StatusWrites(ss))
    ensures Succeeds(Run(t, before), Statuses(ss))
  {
    var u, ws := Run(t, before), StatusWrites(ss);
    var known := InsertValidators(u.validators, StatusKeys(ss));
    KeysInsertedAfter(t, before, Statuses(ss));
    forall i | 0 <= i < |ws| ensures ws[i].key in known {
      assert StatusKeys(ss)[i] in StatusKeys(ss);
    }
    DistinctIsAccepted(u.statuses, ws);
    PermittedIffEach(u.statuses, ws, StatusCheck(known));
  }

  /** No operator has two consensus addresses, among the stored rows and the tuples. */
  ghost predicate OperatorsApart(t: map<string, Row<InfoRow>>, ws: seq<Write<string, InfoRow>>) {
    && StoredApart(t, ws, OperatorOf)
    && forall v, w :: v in ws && w in ws ==> !Rivals(v, w, OperatorOf)
  }

  lemma NotTaken(t: map<string, Row<InfoRow>>, ws: seq<Write<string, InfoRow>>, w: Write<string, InfoRow>)
    requires OperatorsApart(t, ws + [w])
    ensures !Taken(UpsertAll(t, ws), w, OperatorOf)
  {
    var u := UpsertAll(t, ws);
    forall k | k in u && k != w.key ensures u[k].value.operator != w.value.operator {
      RowIsAWrite(t, ws, k);
      var v := Write(k, u[k].height, u[k].value);
      assert w in ws + [w];
      if v in ws {
        assert v in ws + [w] && !Rivals(v, w, OperatorOf);
      } else {
        assert !Taken(t, w, OperatorOf);
      }
    }
  }

  lemma DataSucceeds(t: Tables, before: seq<Call>, vs: seq<Validator>)
    requires AllSucceed(t, before)
    requires OneToOne(t.validators, Project(before, KeysOf) + Keys(vs)) && DistinctKeys(InfoWrites(vs))
    requires OperatorsApart(t.infos, Project(before, InfosOf) + InfoWrites(vs))
    ensures Succeeds(Run(t, before), Data(vs))
  {
    var u, ws, sent := Run(t, before), InfoWrites(vs), Project(before, InfosOf);
    var known := InsertValidators(u.validators, Keys(vs));
    KeysInsertedAfter(t, before, Data(vs));
    RunByTable(t, before);
    DistinctIsAccepted(u.infos, ws);
    forall i | 0 <= i < |ws| ensures HoldsInTurn(u.infos, ws, InfoCheck(known), i) {
      assert Keys(vs)[i] in Keys(vs);
      UpsertAllAppend(t.infos, sent, ws[..i]);
      ApartPrefix(t.infos, sent, ws, i);
      NotTaken(t.infos, sent + ws[..i], ws[i]);
    }
    PermittedInTurn(u.infos, ws, InfoCheck(known));
  }

  lemma ApartPrefix(t: map<string, Row<InfoRow>>, sent: seq<Write<string, InfoRow>>, ws: seq<Write<string, InfoRow>>,
                    i: nat)
    requires i < |ws| && OperatorsApart(t, sent + ws)
    ensures OperatorsApart(t, sent + ws[..i] + [ws[i]])
  {
    forall w | w in sent + ws[..i] + [ws[i]] ensures w in sent + ws {
    }
  }

  // ---- Convergence ------------------------------------------------------------------------

  /** No call names the same row twice. */
  ghost predicate DistinctBatches(calls: seq<Call>) {
    forall i :: 0 <= i < |calls| ==> DistinctBatch(calls[i])
  }

  ghost predicate DistinctBatch(c: Call) {
    && DistinctKeys(InfosOf(c)) && DistinctKeys(PowersOf(c)) && DistinctKeys(StatusesOf(c))
    && DistinctKeys(SigningOf(c)) && DistinctKeys(TalliesOf(c))
  }

  /** A call's foreign keys name rows of the start or of the calls before it. */
  ghost predicate Referenced(t: Tables, before: seq<Call>, c: Call) {
    && (forall w :: w in PowersOf(c) ==> KnownValidator(t, before, w.key) && KnownBlock(t, before, w.height))
    && (forall w :: w in TalliesOf(c) ==> KnownProposal(t, before, w.key))
  }

  ghost predicate ReferencesFirst(t: Tables, calls: seq<Call>) {
    forall i :: 0 <= i < |calls| ==> Referenced(t, calls[..i], calls[i])
  }

  /** What is asked of the calls, whatever their order. */
  ghost predicate Orderly(t: Tables, calls: seq<Call>) {
    && DistinctBatches(calls)
    && OneToOne(t.validators, Project(calls, KeysOf))
    && OperatorsApart(t.infos, Project(calls, InfosOf))
  }

  lemma OrderlyPrefix(t: Tables, calls: seq<Call>)
    requires Orderly(t, calls) && calls != []
    ensures Orderly(t, calls[..|calls| - 1])
  {
    var n := |calls| - 1;
    forall r | r in Project(calls[..n], KeysOf) ensures r in Project(calls, KeysOf) {
    }
    forall w | w in Project(calls[..n], InfosOf) ensures w in Project(calls, InfosOf) {
    }
  }

  lemma LastSucceeds(t: Tables, calls: seq<Call>)
    requires calls != [] && Orderly(t, calls) && AllSucceed(t, calls[..|calls| - 1])
    requires Referenced(t, calls[..|calls| - 1], calls[|calls| - 1])
    ensures Succeeds(Run(t, calls[..|calls| - 1]), calls[|calls| - 1])
  {
    var n := |calls| - 1;
    OrderlyPrefix(t, calls);
    assert DistinctBatch(calls[n]);
    match calls[n]
    case Data(vs) => DataSucceeds(t, calls[..n], vs);
    case Powers(es) => PowersSucceedIff(t, calls[..n], es);
    case Statuses(ss) => StatusesSucceed(t, calls[..n], ss);
    case Signing(infos) => DistinctIsAccepted(Run(t, calls[..n]).signing, SigningWrites(infos));
    case Tallies(ts) => TalliesSucceedIff(t, calls[..n], ts);
    case _ =>
  }

  /** Orderly calls all go through in any order that sends references first. */
  lemma {:induction false} OrderlyRunsSucceed(t: Tables, calls: seq<Call>)
    requires Orderly(t, calls) && ReferencesFirst(t, calls)
    ensures AllSucceed(t, calls)
  {
    if calls != [] {
      var n := |calls| - 1;
      OrderlyPrefix(t, calls);
      assert forall i :: 0 <= i < n ==> calls[..n][..i] == calls[..i];
      OrderlyRunsSucceed(t, calls[..n]);
      LastSucceeds(t, calls);
    }
  }

  /** One value per key and height in every guarded table: what one chain can produce. */
  ghost predicate Deterministic(calls: seq<Call>) {
    && Functional(Project(calls, InfosOf)) && Functional(Project(calls, PowersOf))
    && Functional(Project(calls, StatusesOf)) && Functional(Project(calls, SigningOf))
    && Functional(Project(calls, TalliesOf)) && Functional(Project(calls, PoolOf))
  }

  lemma TableConverges<K, V>(t: map<K, Row<V>>, a: seq<Call>, b: seq<Call>, f: Call -> seq<Write<K, V>>)
    requires SameCalls(a, b) && Functional(Project(a, f))
    ensures UpsertAll(t, Project(a, f)) == UpsertAll(t, Project(b, f))
  {
    ProjectSame(a, b, f);
    ConvergenceOfDeterministicWrites(t, Project(a, f), Project(b, f));
  }

  /** Two runs over the same calls that both go through leave the guarded tables the same. */
  lemma GuardedTablesConverge(t: Tables, a: seq<Call>, b: seq<Call>)
    requires SameCalls(a, b) && AllSucceed(t, a) && AllSucceed(t, b)
    requires Deterministic(a)
    ensures var ra, rb := Run(t, a), Run(t, b);
            && ra.infos == rb.infos && ra.powers == rb.powers && ra.statuses == rb.statuses
            && ra.signing == rb.signing && ra.tallies == rb.tallies && ra.pool == rb.pool
  {
    RunByTable(t, a);
    RunByTable(t, b);
    TableConverges(t.infos, a, b, InfosOf);
    TableConverges(t.powers, a, b, PowersOf);
    TableConverges(t.statuses, a, b, StatusesOf);
    TableConverges(t.signing, a, b, SigningOf);
    TableConverges(t.tallies, a, b, TalliesOf);
    TableConverges(t.pool, a, b, PoolOf);
  }

  lemma SameKeyRows(a: seq<Call>, b: seq<Call>, r: (string, string))
    requires SameCalls(a, b) && r in Project(a, KeysOf)
    ensures r in Project(b, KeysOf)
  {
    ProjectMembers(a, KeysOf, r);
    var i :| 0 <= i < |a| && r in KeysOf(a[i]);
    assert a[i] in b;
    var j :| 0 <= j < |b| && b[j] == a[i];
    ProjectMembers(b, KeysOf, r);
  }

  lemma ReferencesConverge(t: Tables, a: seq<Call>, b: seq<Call>)
    requires SameCalls(a, b) && OneToOne(t.validators, Project(a, KeysOf))
    ensures var ra, rb := Run(t, a), Run(t, b);
            && ra.validators == rb.validators && ra.accounts == rb.accounts
            && ra.blocks == rb.blocks && ra.proposals == rb.proposals
  {
    RunKeys(t, a);
    RunKeys(t, b);
    forall r ensures r in Project(a, KeysOf) <==> r in Project(b, KeysOf) {
      if r in Project(a, KeysOf) {
        SameKeyRows(a, b, r);
      } else if r in Project(b, KeysOf) {
        SameKeyRows(b, a, r);
      }
    }
    InsertOrderIrrelevant(t.validators, Project(a, KeysOf), Project(b, KeysOf));
    forall x ensures x in Delegates(a) <==> x in Delegates(b) {
      DelegatesMembers(a, x);
      DelegatesMembers(b, x);
    }
    assert Delegates(a) == Delegates(b);
    RunReferences(t, a);
    RunReferences(t, b);
    forall h: int ensures h in BlocksIn(a) <==> h in BlocksIn(b) {
      ReferencesMembers(a, h, 0);
      ReferencesMembers(b, h, 0);
    }
    forall id: nat ensures id in ProposalsIn(a) <==> id in ProposalsIn(b) {
      ReferencesMembers(a, 0, id);
      ReferencesMembers(b, 0, id);
    }
  }

  lemma OrderlyCarriesOver(t: Tables, a: seq<Call>, b: seq<Call>)
    requires SameCalls(a, b) && Orderly(t, a)
    ensures Orderly(t, b)
  {
    forall i | 0 <= i < |b| ensures DistinctBatch(b[i]) {
      assert b[i] in a;
    }
    forall r | r in Project(b, KeysOf) ensures r in Project(a, KeysOf) {
      SameKeyRows(b, a, r);
    }
    ProjectSubset(b, a, InfosOf);
    forall w | w in Project(b, InfosOf) ensures w in Project(a, InfosOf) {
      var i :| 0 <= i < |Project(b, InfosOf)| && Project(b, InfosOf)[i] == w;
    }
  }

  /**
   Convergence of the whole database: runs over the same calls, with any call repeated and in
   any two orders that send the referenced rows first, leave every table the same.
   */
  lemma DatabaseConverges(t: Tables, a: seq<Call>, b: seq<Call>)
    requires SameCalls(a, b)
    requires Orderly(t, a) && Deterministic(a)
    requires ReferencesFirst(t, a) && ReferencesFirst(t, b)
    ensures Run(t, a) == Run(t, b)
  {
    OrderlyCarriesOver(t, a, b);
    OrderlyRunsSucceed(t, a);
    OrderlyRunsSucceed(t, b);
    GuardedTablesConverge(t, a, b);
    ReferencesConverge(t, a, b);
  }
}
