/**
 The bulk writers of callisto/database: each turns a list of entities into one
 multi-row statement, which the schema's foreign keys and unique columns may refuse. The
 class holds the tables they write; the functions describe the same effect on a value, which
 is what the run theorems at the end are about.
 */
module IndexerDb {
  import opened GuardedTables
  import opened UniqueColumn

  // ---- Entities -------------------------------------------------------------------------

  datatype Validator = Validator(consAddr: string, pubKey: string, operator: string, selfDelegate: string,
                                 maxChangeRate: string, maxRate: string, height: int)
  datatype VotingPower = VotingPower(consAddr: string, power: int, height: int)
  datatype Status = Status(consAddr: string, pubKey: string, status: int, jailed: bool, height: int)
  datatype SigningInfo = SigningInfo(consAddr: string, startHeight: int, indexOffset: int, jailedUntil: int,
                                     tombstoned: bool, missedBlocks: int, height: int)
  datatype Tally = Tally(proposal: nat, yes: string, abstain: string, no: string, noWithVeto: string, height: int)
  datatype Pool = Pool(bonded: int, notBonded: int, unbonding: int, stakedNotBonded: int, height: int)

  // ---- Stored rows ----------------------------------------------------------------------

  datatype InfoRow = InfoRow(operator: string, selfDelegate: string, maxChangeRate: string, maxRate: string)
  datatype StatusRow = StatusRow(status: int, jailed: bool)
  datatype SigningRow = SigningRow(startHeight: int, indexOffset: int, jailedUntil: int, tombstoned: bool,
                                   missedBlocks: int)
  datatype TallyRow = TallyRow(yes: string, abstain: string, no: string, noWithVeto: string)
  datatype PoolRow = PoolRow(bonded: int, notBonded: int, unbonding: int, stakedNotBonded: int)

  /** The only key of a table whose primary key is one_row_id. */
  datatype OneRow = OneRow

  datatype Tables = Tables(
    blocks: set<int>,
    proposals: set<nat>,
    accounts: set<string>,
    validators: map<string, string>,
    infos: map<string, Row<InfoRow>>,
    powers: map<string, Row<int>>,
    statuses: map<string, Row<StatusRow>>,
    signing: map<string, Row<SigningRow>>,
    tallies: map<nat, Row<TallyRow>>,
    pool: map<OneRow, Row<PoolRow>>)

  // ---- The tuples each writer sends -----------------------------------------------------

  function InfoWrites(vs: seq<Validator>): seq<Write<string, InfoRow>> {
    seq(|vs|, i requires 0 <= i < |vs| =>
      Write(vs[i].consAddr, vs[i].height,
            InfoRow(vs[i].operator, vs[i].selfDelegate, vs[i].maxChangeRate, vs[i].maxRate)))
  }

  function PowerWrites(es: seq<VotingPower>): seq<Write<string, int>> {
    seq(|es|, i requires 0 <= i < |es| => Write(es[i].consAddr, es[i].height, es[i].power))
  }

  function StatusWrites(ss: seq<Status>): seq<Write<string, StatusRow>> {
    seq(|ss|, i requires 0 <= i < |ss| => Write(ss[i].consAddr, ss[i].height, StatusRow(ss[i].status, ss[i].jailed)))
  }

  function SigningWrites(infos: seq<SigningInfo>): seq<Write<string, SigningRow>> {
    seq(|infos|, i requires 0 <= i < |infos| =>
      var x := infos[i];
      Write(x.consAddr, x.height,
            SigningRow(x.startHeight, x.indexOffset, x.jailedUntil, x.tombstoned, x.missedBlocks)))
  }

  function TallyWrites(ts: seq<Tally>): seq<Write<nat, TallyRow>> {
    seq(|ts|, i requires 0 <= i < |ts| =>
      Write(ts[i].proposal, ts[i].height, TallyRow(ts[i].yes, ts[i].abstain, ts[i].no, ts[i].noWithVeto)))
  }

  function PoolWrite(p: Pool): Write<OneRow, PoolRow> {
    Write(OneRow, p.height, PoolRow(p.bonded, p.notBonded, p.unbonding, p.stakedNotBonded))
  }

  /** INSERT INTO validator ... ON CONFLICT DO NOTHING: both columns are unique. */
  function InsertValidators(t: map<string, string>, rows: seq<(string, string)>): map<string, string> {
    if rows == [] then t
    else
      var before := InsertValidators(t, rows[..|rows| - 1]);
      var row := rows[|rows| - 1];
      if row.0 in before || row.1 in before.Values then before else before[row.0 := row.1]
  }

  function Keys(vs: seq<Validator>): seq<(string, string)> {
    seq(|vs|, i requires 0 <= i < |vs| => (vs[i].consAddr, vs[i].pubKey))
  }

  function StatusKeys(ss: seq<Status>): seq<(string, string)> {
    seq(|ss|, i requires 0 <= i < |ss| => (ss[i].consAddr, ss[i].pubKey))
  }

  function SelfDelegates(vs: seq<Validator>): set<string> {
    set v | v in vs :: v.selfDelegate
  }

  // ---- What the schema refuses ------------------------------------------------------------

  function OperatorOf(r: InfoRow): string { r.operator }

  /**
   validator_info refers to validator, and its operator address is unique. It also refers to
   account, which holds the address by then.
   */
  function InfoCheck(validators: map<string, string>): Check<string, InfoRow> {
    (u: map<string, Row<InfoRow>>, w: Write<string, InfoRow>) => w.key in validators && !Taken(u, w, OperatorOf)
  }

  /** validator_voting_power refers to validator and to block. */
  function PowerCheck(validators: map<string, string>, blocks: set<int>): Check<string, int> {
    (u: map<string, Row<int>>, w: Write<string, int>) => w.key in validators && w.height in blocks
  }

  /** validator_status refers to validator. */
  function StatusCheck(validators: map<string, string>): Check<string, StatusRow> {
    (u: map<string, Row<StatusRow>>, w: Write<string, StatusRow>) => w.key in validators
  }

  /** proposal_tally_result refers to proposal. */
  function TallyCheck(proposals: set<nat>): Check<nat, TallyRow> {
    (u: map<nat, Row<TallyRow>>, w: Write<nat, TallyRow>) => w.key in proposals
  }

  // ---- Calls ----------------------------------------------------------------------------

  datatype Call =
    | NewBlock(height: int)
    | NewProposals(ids: set<nat>)
    | Data(validators: seq<Validator>)
    | Powers(powers: seq<VotingPower>)
    | Statuses(statuses: seq<Status>)
    | Signing(infos: seq<SigningInfo>)
    | Tallies(tallies: seq<Tally>)
    | StakingPool(pool: Pool)

  /** What a call does when its last statement is accepted. */
  function Effect(t: Tables, c: Call): Tables {
    match c
    case NewBlock(h) => t.(blocks := t.blocks + {h})
    case NewProposals(ids) => t.(proposals := t.proposals + ids)
    case Data(vs) => t.(accounts := t.accounts + SelfDelegates(vs),
                        validators := InsertValidators(t.validators, Keys(vs)),
                        infos := UpsertAll(t.infos, InfoWrites(vs)))
    case Powers(es) => t.(powers := UpsertAll(t.powers, PowerWrites(es)))
    case Statuses(ss) => t.(validators := InsertValidators(t.validators, StatusKeys(ss)),
                            statuses := UpsertAll(t.statuses, StatusWrites(ss)))
    case Signing(infos) => t.(signing := UpsertAll(t.signing, SigningWrites(infos)))
    case Tallies(ts) => t.(tallies := UpsertAll(t.tallies, TallyWrites(ts)))
    case StakingPool(p) => t.(pool := Upsert(t.pool, PoolWrite(p)))
  }

  /** What is left when the last statement is refused: the earlier ones are not undone. */
  function Leftover(t: Tables, c: Call): Tables {
    match c
    case Data(vs) => Effect(t, c).(infos := t.infos)
    case Statuses(ss) => Effect(t, c).(statuses := t.statuses)
    case _ => t
  }

  predicate Executes<K(==), V>(t: map<K, Row<V>>, ws: seq<Write<K, V>>, check: Check<K, V>) {
    Accepted(t, ws) && Permitted(t, ws, check)
  }

  predicate Succeeds(t: Tables, c: Call) {
    match c
    case NewBlock(_) => true
    case NewProposals(_) => true
    case Data(vs) => Executes(t.infos, InfoWrites(vs), InfoCheck(InsertValidators(t.validators, Keys(vs))))
    case Powers(es) => Executes(t.powers, PowerWrites(es), PowerCheck(t.validators, t.blocks))
    case Statuses(ss) =>
      Executes(t.statuses, StatusWrites(ss), StatusCheck(InsertValidators(t.validators, StatusKeys(ss))))
    case Signing(infos) => Accepted(t.signing, SigningWrites(infos))
    case Tallies(ts) => Executes(t.tallies, TallyWrites(ts), TallyCheck(t.proposals))
    case StakingPool(p) => true
  }

  function Step(t: Tables, c: Call): Tables {
    if Succeeds(t, c) then Effect(t, c) else Leftover(t, c)
  }

  class Db {
    var blocks: set<int>
    var proposals: set<nat>
    var accounts: set<string>
    var validators: map<string, string>
    var infos: map<string, Row<InfoRow>>
    var powers: map<string, Row<int>>
    var statuses: map<string, Row<StatusRow>>
    var signing: map<string, Row<SigningRow>>
    var tallies: map<nat, Row<TallyRow>>
    var pool: map<OneRow, Row<PoolRow>>

    function Contents(): Tables
      reads this
    {
      Tables(blocks, proposals, accounts, validators, infos, powers, statuses, signing, tallies, pool)
    }

    constructor ()
      ensures Contents() == Tables({}, {}, {}, map[], map[], map[], map[], map[], map[], map[])
    {
      blocks, proposals, accounts, validators, infos, powers := {}, {}, {}, map[], map[], map[];
      statuses, signing, tallies, pool := map[], map[], map[], map[];
    }

    method SaveBlock(height: int)
      modifies this
      ensures Contents() == Step(old(Contents()), NewBlock(height))
    {
      blocks := blocks + {height};
    }

    method SaveProposals(ids: set<nat>)
      modifies this
      ensures Contents() == Step(old(Contents()), NewProposals(ids))
    {
      proposals := proposals + ids;
    }

    method SaveValidatorsData(entries: seq<Validator>) returns (ok: bool)
      modifies this
      ensures ok == Succeeds(old(Contents()), Data(entries))
      ensures Contents() == Step(old(Contents()), Data(entries))
    {
      if entries == [] {
        assert Effect(Contents(), Data(entries)) == Contents();
        return true;
      }
      var selfDelegationParam, validatorParams, validatorInfoParams := ValidatorParams(entries);
      accounts := accounts + selfDelegationParam;
      validators := InsertValidators(validators, validatorParams);
      ok, infos := ExecUpsert(infos, validatorInfoParams, InfoCheck(validators));
    }

    /** The loop that fills the parameter lists of the three statements. */
    method ValidatorParams(entries: seq<Validator>)
      returns (selfDelegationParam: set<string>, validatorParams: seq<(string, string)>,
               validatorInfoParams: seq<Write<string, InfoRow>>)
      ensures selfDelegationParam == SelfDelegates(entries)
      ensures validatorParams == Keys(entries) && validatorInfoParams == InfoWrites(entries)
    {
      selfDelegationParam, validatorParams, validatorInfoParams := {}, [], [];
      for i := 0 to |entries|
        invariant selfDelegationParam == SelfDelegates(entries[..i])
        invariant validatorParams == Keys(entries[..i])
        invariant validatorInfoParams == InfoWrites(entries[..i])
      {
        var v := entries[i];
        selfDelegationParam := selfDelegationParam + {v.selfDelegate};
        validatorParams := validatorParams + [(v.consAddr, v.pubKey)];
        validatorInfoParams := validatorInfoParams
          + [Write(v.consAddr, v.height, InfoRow(v.operator, v.selfDelegate, v.maxChangeRate, v.maxRate))];
      }
      assert entries[..|entries|] == entries;
    }

    method SaveValidatorsVotingPowers(entries: seq<VotingPower>) returns (ok: bool)
      modifies this
      ensures ok == Succeeds(old(Contents()), Powers(entries))
      ensures Contents() == Step(old(Contents()), Powers(entries))
    {
      var params: seq<Write<string, int>> := [];
      for i := 0 to |entries|
        invariant params == PowerWrites(entries[..i])
      {
        params := params + [Write(entries[i].consAddr, entries[i].height, entries[i].power)];
      }
      assert entries[..|entries|] == entries;
      ok, powers := ExecUpsert(powers, params, PowerCheck(validators, blocks));
    }

    method SaveValidatorsStatuses(entries: seq<Status>) returns (ok: bool)
      modifies this
      ensures ok == Succeeds(old(Contents()), Statuses(entries))
      ensures Contents() == Step(old(Contents()), Statuses(entries))
    {
      var valParams: seq<(string, string)> := [];
      var statusParams: seq<Write<string, StatusRow>> := [];
      for i := 0 to |entries|
        invariant valParams == StatusKeys(entries[..i])
        invariant statusParams == StatusWrites(entries[..i])
      {
        var s := entries[i];
        valParams := valParams + [(s.consAddr, s.pubKey)];
        statusParams := statusParams + [Write(s.consAddr, s.height, StatusRow(s.status, s.jailed))];
      }
      assert entries[..|entries|] == entries;
      validators := InsertValidators(validators, valParams);
      ok, statuses := ExecUpsert(statuses, statusParams, StatusCheck(validators));
    }

    method SaveValidatorsSigningInfos(entries: seq<SigningInfo>) returns (ok: bool)
      modifies this
      ensures ok == Succeeds(old(Contents()), Signing(entries))
      ensures Contents() == Step(old(Contents()), Signing(entries))
    {
      var args: seq<Write<string, SigningRow>> := [];
      for i := 0 to |entries|
        invariant args == SigningWrites(entries[..i])
      {
        var x := entries[i];
        args := args + [Write(x.consAddr, x.height,
                              SigningRow(x.startHeight, x.indexOffset, x.jailedUntil, x.tombstoned, x.missedBlocks))];
      }
      assert entries[..|entries|] == entries;
      AnythingIsPermitted(signing, args);
      ok, signing := ExecUpsert(signing, args, Anything);
    }

    method SaveTallyResults(entries: seq<Tally>) returns (ok: bool)
      modifies this
      ensures ok == Succeeds(old(Contents()), Tallies(entries))
      ensures Contents() == Step(old(Contents()), Tallies(entries))
    {
      var param: seq<Write<nat, TallyRow>> := [];
      for i := 0 to |entries|
        invariant param == TallyWrites(entries[..i])
      {
        var x := entries[i];
        param := param + [Write(x.proposal, x.height, TallyRow(x.yes, x.abstain, x.no, x.noWithVeto))];
      }
      assert entries[..|entries|] == entries;
      ok, tallies := ExecUpsert(tallies, param, TallyCheck(proposals));
    }

    method SaveStakingPool(p: Pool)
      modifies this
      ensures Contents() == Step(old(Contents()), StakingPool(p))
    {
      var ok;
      OneTuple(pool, PoolWrite(p), Anything);
      ok, pool := ExecUpsert(pool, [PoolWrite(p)], Anything);
    }
  }

  // ---- What each writer stores ------------------------------------------------------------

  /** The saved entity is not older than the row of its key. */
  predicate Current<K(==), V>(t: map<K, Row<V>>, k: K, height: int) {
    k in t ==> t[k].height <= height
  }

  lemma ValidatorStored(t: Tables, vs: seq<Validator>, v: Validator)
    requires Succeeds(t, Data(vs)) && v in vs && Current(t.infos, v.consAddr, v.height)
    ensures var u := Step(t, Data(vs));
            && v.selfDelegate in u.accounts
            && v.consAddr in u.infos && u.infos[v.consAddr].height == v.height
            && u.infos[v.consAddr].value.operator == v.operator
            && u.infos[v.consAddr].value.selfDelegate == v.selfDelegate
            && u.infos[v.consAddr].value.maxChangeRate == v.maxChangeRate
            && u.infos[v.consAddr].value.maxRate == v.maxRate
  {
    var i :| 0 <= i < |vs| && vs[i] == v;
    AcceptedStores(t.infos, InfoWrites(vs), i);
  }

  lemma PowerStored(t: Tables, es: seq<VotingPower>, e: VotingPower)
    requires Succeeds(t, Powers(es)) && e in es && Current(t.powers, e.consAddr, e.height)
    ensures var u := Step(t, Powers(es)).powers;
            e.consAddr in u && u[e.consAddr].value == e.power && u[e.consAddr].height == e.height
  {
    var i :| 0 <= i < |es| && es[i] == e;
    AcceptedStores(t.powers, PowerWrites(es), i);
  }

  lemma StatusStored(t: Tables, ss: seq<Status>, s: Status)
    requires Succeeds(t, Statuses(ss)) && s in ss && Current(t.statuses, s.consAddr, s.height)
    ensures var u := Step(t, Statuses(ss)).statuses;
            && s.consAddr in u && u[s.consAddr].height == s.height
            && u[s.consAddr].value.status == s.status && u[s.consAddr].value.jailed == s.jailed
  {
    var i :| 0 <= i < |ss| && ss[i] == s;
    AcceptedStores(t.statuses, StatusWrites(ss), i);
  }

  lemma SigningInfoStored(t: Tables, infos: seq<SigningInfo>, x: SigningInfo)
    requires Succeeds(t, Signing(infos)) && x in infos && Current(t.signing, x.consAddr, x.height)
    ensures var u := Step(t, Signing(infos)).signing;
            && x.consAddr in u && u[x.consAddr].height == x.height
            && u[x.consAddr].value.startHeight == x.startHeight
            && u[x.consAddr].value.indexOffset == x.indexOffset
            && u[x.consAddr].value.jailedUntil == x.jailedUntil
            && u[x.consAddr].value.tombstoned == x.tombstoned
            && u[x.consAddr].value.missedBlocks == x.missedBlocks
  {
    var i :| 0 <= i < |infos| && infos[i] == x;
    AcceptedStores(t.signing, SigningWrites(infos), i);
  }

  lemma TallyStored(t: Tables, ts: seq<Tally>, x: Tally)
    requires Succeeds(t, Tallies(ts)) && x in ts && Current(t.tallies, x.proposal, x.height)
    ensures var u := Step(t, Tallies(ts)).tallies;
            && x.proposal in u && u[x.proposal].height == x.height
            && u[x.proposal].value.yes == x.yes && u[x.proposal].value.abstain == x.abstain
            && u[x.proposal].value.no == x.no && u[x.proposal].value.noWithVeto == x.noWithVeto
  {
    var i :| 0 <= i < |ts| && ts[i] == x;
    AcceptedStores(t.tallies, TallyWrites(ts), i);
  }

  lemma PoolStored(t: Tables, p: Pool)
    requires Current(t.pool, OneRow, p.height)
    ensures var u := Step(t, StakingPool(p)).pool;
            && OneRow in u && u[OneRow].height == p.height
            && u[OneRow].value.bonded == p.bonded && u[OneRow].value.notBonded == p.notBonded
            && u[OneRow].value.unbonding == p.unbonding && u[OneRow].value.stakedNotBonded == p.stakedNotBonded
  {
  }

  /** Validator rows: new keys are inserted as a pair; where either of the two is taken, nothing is. */
  lemma ValidatorRowStored(t: map<string, string>, consAddr: string, pubKey: string)
    ensures InsertValidators(t, [(consAddr, pubKey)])
            == if consAddr in t || (exists k :: k in t && t[k] == pubKey) then t else t[consAddr := pubKey]
  {
    var rows := [(consAddr, pubKey)];
    assert rows[..0] == [] && InsertValidators(t, rows[..0]) == t;
    assert pubKey in t.Values <==> exists k :: k in t && t[k] == pubKey;
  }

  /** Validator and status name the keys in the same order. */
  lemma KeysNamed(v: Validator, s: Status)
    ensures Keys([v]) == [(v.consAddr, v.pubKey)] && StatusKeys([s]) == [(s.consAddr, s.pubKey)]
  {
  }

  /** A new address whose public key another one holds has its validator row skipped and its status refused. */
  lemma TakenKeyRefusesStatus(t: Tables, s: Status, other: string)
    requires s.consAddr !in t.validators && other in t.validators && t.validators[other] == s.pubKey
    requires Current(t.statuses, s.consAddr, s.height)
    ensures !Succeeds(t, Statuses([s])) && Step(t, Statuses([s])).statuses == t.statuses
  {
    ValidatorRowStored(t.validators, s.consAddr, s.pubKey);
    KeysNamed(Validator("", "", "", "", "", "", 0), s);
    var w := StatusWrites([s])[0];
    assert StatusWrites([s]) == [w];
    OneTuple(t.statuses, w, StatusCheck(t.validators));
  }

  /** A validator row holds the address, or one holds the public key. */
  predicate Held(t: map<string, string>, consAddr: string, pubKey: string) {
    consAddr in t || exists k :: k in t && t[k] == pubKey
  }

  lemma {:induction false} InsertedHeld(t: map<string, string>, rows: seq<(string, string)>, k: string, p: string)
    requires Held(t, k, p) || (k, p) in rows
    ensures Held(InsertValidators(t, rows), k, p)
  {
    if rows != [] {
      var n := |rows| - 1;
      var before := InsertValidators(t, rows[..n]);
      if Held(t, k, p) || (k, p) in rows[..n] {
        InsertedHeld(t, rows[..n], k, p);
        if k !in before {
          var other :| other in before && before[other] == p;
          assert other in InsertValidators(t, rows) && InsertValidators(t, rows)[other] == p;
        }
      } else {
        assert rows[n] == (k, p);
        assert p in before.Values ==> exists other :: other in before && before[other] == p;
      }
    }
  }

  /** A call whose last statement is refused keeps what the earlier ones have inserted. */
  lemma {:induction false} RefusedDataKeeps(t: Tables, vs: seq<Validator>, v: Validator)
    requires !Succeeds(t, Data(vs)) && v in vs
    ensures var u := Step(t, Data(vs));
            u.infos == t.infos && v.selfDelegate in u.accounts && Held(u.validators, v.consAddr, v.pubKey)
  {
    var i :| 0 <= i < |vs| && vs[i] == v;
    assert Keys(vs)[i] == (v.consAddr, v.pubKey);
    InsertedHeld(t.validators, Keys(vs), v.consAddr, v.pubKey);
  }

  lemma {:induction false} RefusedStatusesKeep(t: Tables, ss: seq<Status>, s: Status)
    requires !Succeeds(t, Statuses(ss)) && s in ss
    ensures var u := Step(t, Statuses(ss));
            u.statuses == t.statuses && Held(u.validators, s.consAddr, s.pubKey)
  {
    var i :| 0 <= i < |ss| && ss[i] == s;
    assert StatusKeys(ss)[i] == (s.consAddr, s.pubKey);
    InsertedHeld(t.validators, StatusKeys(ss), s.consAddr, s.pubKey);
  }
}
