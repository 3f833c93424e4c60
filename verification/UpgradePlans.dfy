/**
 The life cycle of a software upgrade plan: a passed proposal saves or cancels it, the
 upgrade module checks every block for one that is due, refreshes the validators and deletes
 the plans that are over. The results describe the table and the refreshes after any number
 of blocks by the operations the chain has carried, and nothing else.
 */
module UpgradePlans {
  import opened Wrappers
  import opened GuardedTables

  datatype Plan = Plan(name: string, upgradeHeight: int, info: string)

  /** Proposal messages, by what handlePassedProposal does with them. */
  datatype Msg =
    | SoftwareUpgrade(plan: Plan)           // MsgSoftwareUpgrade, or the legacy content
    | CancelUpgrade                         // MsgCancelUpgrade, or the legacy content
    | ParamChange(succeeds: bool)           // a parameter update in some module
    | Other                                 // ignored
    | Unreadable                            // UnpackAny fails, or the statement for it

  datatype Proposal = Proposal(id: nat, passed: bool, messages: seq<Msg>)

  /**
   A block: the proposals it updates, in order; whether the query for a due plan works; and
   whether the validator refresh works, with the deletion that follows it.
   */
  datatype Block = Block(height: int, proposals: seq<Proposal>, checkWorks: bool, refreshWorks: bool)

  type Plans = map<nat, Row<Plan>>

  /** A change to the plan table that a block really makes. */
  datatype Change = Save(id: nat, plan: Plan) | Cancel(id: nat)

  function ApplyChange(t: Plans, c: Change, height: int): Plans {
    match c
    case Save(id, plan) => Upsert(t, Write(id, height, plan))
    case Cancel(id) => t - {id}
  }

  function ApplyChanges(t: Plans, cs: seq<Change>, height: int): Plans {
    if cs == [] then t else ApplyChange(ApplyChanges(t, cs[..|cs| - 1], height), cs[|cs| - 1], height)
  }

  /** The messages of one passed proposal up to the first error. */
  function MessageChanges(id: nat, msgs: seq<Msg>): (r: (seq<Change>, bool)) {
    if msgs == [] then ([], true)
    else
      var (cs, ok) := MessageChanges(id, msgs[..|msgs| - 1]);
      if !ok then (cs, false)
      else
        match msgs[|msgs| - 1]
        case SoftwareUpgrade(plan) => (cs + [Save(id, plan)], true)
        case CancelUpgrade => (cs + [Cancel(id)], true)
        case ParamChange(succeeds) => (cs, succeeds)
        case Other => (cs, true)
        case Unreadable => (cs, false)
  }

  /** The proposals of one block up to the first error. */
  function BlockChanges(ps: seq<Proposal>): (r: (seq<Change>, bool)) {
    if ps == [] then ([], true)
    else
      var (cs, ok) := BlockChanges(ps[..|ps| - 1]);
      var p := ps[|ps| - 1];
      if !ok || !p.passed then (cs, ok)
      else
        var (more, ok') := MessageChanges(p.id, p.messages);
        (cs + more, ok')
  }

  predicate Due(t: Plans, height: int) {
    exists id :: id in t && t[id].value.upgradeHeight == height
  }

  function Truncated(t: Plans, height: int): Plans {
    map id | id in t && t[id].value.upgradeHeight > height :: t[id]
  }

  class PlanStore {
    var plans: Plans
    ghost var refreshes: seq<int>     // heights at which the validator refresh was started

    constructor ()
      ensures plans == map[] && refreshes == []
    {
      plans, refreshes := map[], [];
    }

    method SaveSoftwareUpgradePlan(id: nat, plan: Plan, height: int)
      modifies this`plans
      ensures plans == ApplyChange(old(plans), Save(id, plan), height)
    {
      if id !in plans || plans[id].height <= height {
        plans := plans[id := Row(plan, height)];
      }
    }

    method DeleteSoftwareUpgradePlan(id: nat)
      modifies this`plans
      ensures plans == old(plans) - {id}
    {
      plans := plans - {id};
    }

    method CheckSoftwareUpgradePlan(upgradeHeight: int) returns (exist: bool)
      ensures exist == Due(plans, upgradeHeight)
    {
      exist := exists id :: id in plans && plans[id].value.upgradeHeight == upgradeHeight;
    }

    method TruncateSoftwareUpgradePlan(height: int)
      modifies this`plans
      ensures plans == Truncated(old(plans), height)
    {
      plans := map id | id in plans && plans[id].value.upgradeHeight > height :: plans[id];
    }

    method HandlePassedProposal(p: Proposal, height: int) returns (ok: bool)
      modifies this`plans
      ensures plans
              == if p.passed then ApplyChanges(old(plans), MessageChanges(p.id, p.messages).0, height) else old(plans)
      ensures ok == (p.passed ==> MessageChanges(p.id, p.messages).1)
    {
      if !p.passed {
        return true;
      }
      for i := 0 to |p.messages|
        invariant plans == ApplyChanges(old(plans), MessageChanges(p.id, p.messages[..i]).0, height)
        invariant MessageChanges(p.id, p.messages[..i]).1
      {
        assert p.messages[..i + 1][..i] == p.messages[..i];
        match p.messages[i]
        case SoftwareUpgrade(plan) =>
          SaveSoftwareUpgradePlan(p.id, plan, height);
        case CancelUpgrade =>
          DeleteSoftwareUpgradePlan(p.id);
        case ParamChange(succeeds) =>
          if !succeeds {
            MessagesAfterError(p.id, p.messages, i + 1);
            return false;
          }
        case Other =>
        case Unreadable =>
          MessagesAfterError(p.id, p.messages, i + 1);
          return false;
      }
      assert p.messages[..|p.messages|] == p.messages;
      return true;
    }

    /** The gov block handler logs its error; the block goes on. */
    method HandleGovBlock(b: Block)
      modifies this`plans
      ensures plans == ApplyChanges(old(plans), BlockChanges(b.proposals).0, b.height)
    {
      for i := 0 to |b.proposals|
        invariant plans == ApplyChanges(old(plans), BlockChanges(b.proposals[..i]).0, b.height)
        invariant BlockChanges(b.proposals[..i]).1
      {
        var p := b.proposals[i];
        assert b.proposals[..i + 1][..i] == b.proposals[..i];
        ghost var before := BlockChanges(b.proposals[..i]).0;
        if p.passed {
          ApplyChangesAppend(old(plans), before, MessageChanges(p.id, p.messages).0, b.height);
        }
        var ok := HandlePassedProposal(p, b.height);
        if !ok {
          ProposalsAfterError(b.proposals, i + 1);
          return;
        }
      }
      assert b.proposals[..|b.proposals|] == b.proposals;
    }

    /** The upgrade block handler. */
    method RefreshDataUponSoftwareUpgrade(height: int, checkWorks: bool, refreshWorks: bool) returns (ok: bool)
      modifies this
      ensures refreshes == if checkWorks && Due(old(plans), height) then old(refreshes) + [height] else old(refreshes)
      ensures plans
              == if checkWorks && Due(old(plans), height) && refreshWorks then Truncated(old(plans), height)
                 else old(plans)
      ensures ok <==> checkWorks && (!Due(old(plans), height) || refreshWorks)
    {
      if !checkWorks {
        return false;
      }
      var exist := CheckSoftwareUpgradePlan(height);
      if !exist {
        return true;
      }
      refreshes := refreshes + [height];
      if !refreshWorks {
        return false;
      }
      TruncateSoftwareUpgradePlan(height);
      return true;
    }

    /** Modules are registered with gov before upgrade. */
    method HandleBlock(b: Block)
      modifies this
      ensures Log(plans, refreshes) == Handled(Log(old(plans), old(refreshes)), b)
    {
      HandleGovBlock(b);
      var _ := RefreshDataUponSoftwareUpgrade(b.height, b.checkWorks, b.refreshWorks);
    }
  }

  lemma {:induction false} MessagesAfterError(id: nat, msgs: seq<Msg>, i: nat)
    requires i <= |msgs| && !MessageChanges(id, msgs[..i]).1
    ensures MessageChanges(id, msgs) == (MessageChanges(id, msgs[..i]).0, false)
  {
    if i == |msgs| {
      assert msgs[..i] == msgs;
    } else {
      assert msgs[..|msgs| - 1][..i] == msgs[..i];
      MessagesAfterError(id, msgs[..|msgs| - 1], i);
    }
  }

  lemma {:induction false} ProposalsAfterError(ps: seq<Proposal>, i: nat)
    requires i <= |ps| && !BlockChanges(ps[..i]).1
    ensures BlockChanges(ps) == (BlockChanges(ps[..i]).0, false)
  {
    if i == |ps| {
      assert ps[..i] == ps;
    } else {
      assert ps[..|ps| - 1][..i] == ps[..i];
      ProposalsAfterError(ps[..|ps| - 1], i);
    }
  }

  lemma {:induction false} ApplyChangesAppend(t: Plans, a: seq<Change>, b: seq<Change>, height: int)
    ensures ApplyChanges(t, a + b, height) == ApplyChanges(ApplyChanges(t, a, height), b, height)
  {
    if b == [] {
      assert a + b == a;
    } else {
      assert (a + b)[..|a + b| - 1] == a + b[..|b| - 1];
      ApplyChangesAppend(t, a, b[..|b| - 1], height);
    }
  }

  // ---- Which changes a block makes ----------------------------------------------------------

  /** The message ends its proposal with an error. */
  predicate Fails(m: Msg) {
    m.Unreadable? || (m.ParamChange? && !m.succeeds)
  }

  /** Message j of a proposal is handled: no message up to it fails. */
  ghost predicate Handles(msgs: seq<Msg>, j: nat)
    requires j < |msgs|
  {
    forall i :: 0 <= i <= j ==> !Fails(msgs[i])
  }

  ghost predicate NoneFails(msgs: seq<Msg>) {
    forall i :: 0 <= i < |msgs| ==> !Fails(msgs[i])
  }

  /** The message asks for a change of the plan table. */
  predicate Changes(m: Msg) {
    m.SoftwareUpgrade? || m.CancelUpgrade?
  }

  /** The change is what the message asks for, under the proposal's id. */
  predicate Enacts(c: Change, id: nat, m: Msg) {
    || (m.SoftwareUpgrade? && c == Save(id, m.plan))
    || (m.CancelUpgrade? && c == Cancel(id))
  }

  /** A passed proposal succeeds if and only if none of its messages fails. */
  lemma {:induction false} ProposalSucceedsIff(id: nat, msgs: seq<Msg>)
    ensures MessageChanges(id, msgs).1 <==> NoneFails(msgs)
  {
    if msgs != [] {
      ProposalSucceedsIff(id, msgs[..|msgs| - 1]);
      HandlesFront(msgs);
    }
  }

  /**
   Its changes are, in order, one per upgrade or cancel message before the first that fails.
   The positions of those messages are at.
   */
  lemma {:induction false} ProposalChanges(id: nat, msgs: seq<Msg>) returns (at: seq<nat>)
    ensures |at| == |MessageChanges(id, msgs).0|
    ensures forall k, l :: 0 <= k < l < |at| ==> at[k] < at[l]
    ensures forall k :: 0 <= k < |at| ==>
              at[k] < |msgs| && Handles(msgs, at[k]) && Enacts(MessageChanges(id, msgs).0[k], id, msgs[at[k]])
    ensures forall j :: 0 <= j < |msgs| && Handles(msgs, j) && Changes(msgs[j]) ==> j in at
  {
    at := [];
    if msgs != [] {
      var n := |msgs| - 1;
      at := ProposalChanges(id, msgs[..n]);
      ProposalSucceedsIff(id, msgs[..n]);
      assert forall j :: 0 <= j < n ==> msgs[..n][j] == msgs[j];
      HandlesFront(msgs);
      if NoneFails(msgs[..n]) && Changes(msgs[n]) {
        at := at + [n];
      }
    }
  }

  lemma HandlesFront(msgs: seq<Msg>)
    requires msgs != []
    ensures var n := |msgs| - 1;
            && (forall j :: 0 <= j < n ==> (Handles(msgs[..n], j) <==> Handles(msgs, j)))
            && (Handles(msgs, n) <==> NoneFails(msgs)) && (NoneFails(msgs) <==> NoneFails(msgs[..n]) && !Fails(msgs[n]))
  {
    var n := |msgs| - 1;
    assert forall j :: 0 <= j < n ==> msgs[..n][j] == msgs[j];
    if NoneFails(msgs[..n]) && !Fails(msgs[n]) {
      forall i | 0 <= i < |msgs| ensures !Fails(msgs[i]) {
        assert i < n ==> msgs[..n][i] == msgs[i];
      }
    }
  }

  /** Message j of proposal i is handled in a block: the proposal has passed and nothing before it fails. */
  ghost predicate HandledInBlock(ps: seq<Proposal>, i: nat, j: nat)
    requires i < |ps| && j < |ps[i].messages|
  {
    && ps[i].passed && Handles(ps[i].messages, j)
    && forall k :: 0 <= k < i && ps[k].passed ==> NoneFails(ps[k].messages)
  }

  predicate Earlier(a: (nat, nat), b: (nat, nat)) {
    a.0 < b.0 || (a.0 == b.0 && a.1 < b.1)
  }

  /** Place (i, j) of the block is a message that is handled, and the change is what it asks for. */
  ghost predicate EnactsAt(c: Change, ps: seq<Proposal>, place: (nat, nat)) {
    && place.0 < |ps| && place.1 < |ps[place.0].messages|
    && HandledInBlock(ps, place.0, place.1)
    && Enacts(c, ps[place.0].id, ps[place.0].messages[place.1])
  }

  ghost predicate MustEnact(ps: seq<Proposal>, i: nat, j: nat)
    requires i < |ps|
  {
    j < |ps[i].messages| && HandledInBlock(ps, i, j) && Changes(ps[i].messages[j])
  }

  ghost predicate AllEnacted(ps: seq<Proposal>, cs: seq<Change>, at: seq<(nat, nat)>) {
    && |at| == |cs|
    && (forall k, l :: 0 <= k < l < |at| ==> Earlier(at[k], at[l]))
    && (forall k :: 0 <= k < |at| ==> EnactsAt(cs[k], ps, at[k]))
    && (forall i: nat, j: nat :: i < |ps| && MustEnact(ps, i, j) ==> (i, j) in at)
  }

  ghost predicate AllSucceed(ps: seq<Proposal>) {
    forall i :: 0 <= i < |ps| && ps[i].passed ==> NoneFails(ps[i].messages)
  }

  lemma AllSucceedFront(ps: seq<Proposal>)
    requires ps != []
    ensures var n := |ps| - 1;
            AllSucceed(ps) <==> AllSucceed(ps[..n]) && (ps[n].passed ==> NoneFails(ps[n].messages))
  {
    var n := |ps| - 1;
    assert forall i :: 0 <= i < n ==> ps[..n][i] == ps[i];
    if AllSucceed(ps) {
      forall i | 0 <= i < n && ps[..n][i].passed ensures NoneFails(ps[..n][i].messages) {
        assert ps[i].passed;
      }
    }
  }

  /** A block goes through if and only if no message of a passed proposal fails. */
  lemma {:induction false} BlockSucceedsIff(ps: seq<Proposal>)
    ensures BlockChanges(ps).1 <==> AllSucceed(ps)
  {
    if ps != [] {
      var n := |ps| - 1;
      BlockSucceedsIff(ps[..n]);
      AllSucceedFront(ps);
      ProposalSucceedsIff(ps[n].id, ps[n].messages);
    }
  }

  /**
   Its changes are, in order, one per upgrade or cancel message of a passed proposal before the
   first that fails. The places of those messages are at.
   */
  lemma {:induction false} BlockChangesAre(ps: seq<Proposal>) returns (at: seq<(nat, nat)>)
    ensures AllEnacted(ps, BlockChanges(ps).0, at)
  {
    at := [];
    if ps != [] {
      var n := |ps| - 1;
      var front, p := ps[..n], ps[n];
      at := BlockChangesAre(front);
      BlockSucceedsIff(front);
      if AllSucceed(front) && p.passed {
        var cs, more := BlockChanges(front).0, MessageChanges(p.id, p.messages).0;
        var js := ProposalChanges(p.id, p.messages);
        var places := seq(|js|, k requires 0 <= k < |js| => (n, js[k]));
        LastProposal(ps, cs, at, more, js, places);
        at := at + places;
        assert BlockChanges(ps).0 == cs + more;
      } else {
        LastUnreached(ps, BlockChanges(front).0, at);
      }
    }
  }

  lemma LastUnreached(ps: seq<Proposal>, cs: seq<Change>, at: seq<(nat, nat)>)
    requires ps != [] && AllEnacted(ps[..|ps| - 1], cs, at)
    requires !(AllSucceed(ps[..|ps| - 1]) && ps[|ps| - 1].passed)
    ensures AllEnacted(ps, cs, at)
  {
    var n := |ps| - 1;
    BlockFront(ps, cs, at);
    if ps[n].passed {
      var i :| 0 <= i < n && ps[..n][i].passed && !NoneFails(ps[..n][i].messages);
      assert ps[i].passed && !NoneFails(ps[i].messages);
    }
    forall j ensures !MustEnact(ps, n, j) {
    }
  }

  /** Without the last proposal. */
  lemma BlockFront(ps: seq<Proposal>, cs: seq<Change>, at: seq<(nat, nat)>)
    requires ps != [] && AllEnacted(ps[..|ps| - 1], cs, at)
    ensures forall k :: 0 <= k < |at| ==> EnactsAt(cs[k], ps, at[k]) && at[k].0 < |ps| - 1
    ensures forall i: nat, j: nat :: i < |ps| - 1 && MustEnact(ps, i, j) ==> (i, j) in at
  {
    var front := ps[..|ps| - 1];
    assert forall i :: 0 <= i < |front| ==> front[i] == ps[i];
    forall i, j | 0 <= i < |front| && 0 <= j < |front[i].messages|
      ensures HandledInBlock(front, i, j) <==> HandledInBlock(ps, i, j)
    {
    }
    forall i: nat, j: nat | i < |front| && MustEnact(ps, i, j) ensures (i, j) in at {
      assert MustEnact(front, i, j);
    }
    forall k | 0 <= k < |at| ensures EnactsAt(cs[k], ps, at[k]) && at[k].0 < |ps| - 1 {
      assert EnactsAt(cs[k], front, at[k]);
    }
  }

  lemma LastProposal(ps: seq<Proposal>, cs: seq<Change>, at: seq<(nat, nat)>, more: seq<Change>, js: seq<nat>,
                     places: seq<(nat, nat)>)
    requires ps != [] && ps[|ps| - 1].passed && AllEnacted(ps[..|ps| - 1], cs, at)
    requires AllSucceed(ps[..|ps| - 1])
    requires |js| == |more| && forall k, l :: 0 <= k < l < |js| ==> js[k] < js[l]
    requires var p := ps[|ps| - 1];
             && (forall k :: 0 <= k < |js| ==>
                   js[k] < |p.messages| && Handles(p.messages, js[k]) && Enacts(more[k], p.id, p.messages[js[k]]))
             && (forall j :: 0 <= j < |p.messages| && Handles(p.messages, j) && Changes(p.messages[j]) ==> j in js)
    requires |places| == |js| && forall k :: 0 <= k < |js| ==> places[k] == (|ps| - 1, js[k])
    ensures AllEnacted(ps, cs + more, at + places)
  {
    var n, all := |ps| - 1, at + places;
    BlockFront(ps, cs, at);
    forall k | 0 <= k < n && ps[k].passed ensures NoneFails(ps[k].messages) {
      assert ps[..n][k] == ps[k];
    }
    forall k | 0 <= k < |all| ensures EnactsAt((cs + more)[k], ps, all[k]) {
      if k >= |at| {
        assert HandledInBlock(ps, n, js[k - |at|]);
      }
    }
    forall k, l | 0 <= k < l < |all| ensures Earlier(all[k], all[l]) {
      if l < |at| {
        assert Earlier(at[k], at[l]);
      } else if k >= |at| {
        assert js[k - |at|] < js[l - |at|];
      }
    }
    forall i: nat, j: nat | i < |ps| && MustEnact(ps, i, j) ensures (i, j) in all {
      if i == n {
        var k :| 0 <= k < |js| && js[k] == j;
        assert places[k] == (i, j);
      } else {
        assert (i, j) in at;
      }
    }
  }

  // ---- Runs of blocks -------------------------------------------------------------------

  datatype Log = Log(plans: Plans, refreshes: seq<int>)

  /** The table after the gov step of a block. */
  function AfterGov(t: Plans, b: Block): Plans {
    ApplyChanges(t, BlockChanges(b.proposals).0, b.height)
  }

  /** The upgrade step finds a plan that is due; and it gets as far as deleting the plans that are over. */
  predicate Starts(t: Plans, b: Block) {
    b.checkWorks && Due(t, b.height)
  }

  predicate Completes(t: Plans, b: Block) {
    Starts(t, b) && b.refreshWorks
  }

  function AfterUpgrade(t: Plans, b: Block): Plans {
    if Completes(t, b) then Truncated(t, b.height) else t
  }

  function Handled(s: Log, b: Block): Log {
    var t := AfterGov(s.plans, b);
    Log(AfterUpgrade(t, b),
        if Starts(t, b) then s.refreshes + [b.height] else s.refreshes)
  }

  function RunFrom(s: Log, bs: seq<Block>): Log {
    if bs == [] then s else Handled(RunFrom(s, bs[..|bs| - 1]), bs[|bs| - 1])
  }

  function RunBlocks(bs: seq<Block>): Log {
    RunFrom(Log(map[], []), bs)
  }

  /** The last change a list of changes makes to one plan. */
  function LastIn(cs: seq<Change>, id: nat): Option<Change> {
    if cs == [] then None
    else if cs[|cs| - 1].id == id then Some(cs[|cs| - 1])
    else LastIn(cs[..|cs| - 1], id)
  }

  /** The plan that the last operation on a proposal's plan scheduled, if it scheduled one. */
  function Scheduled(bs: seq<Block>, id: nat): Option<Plan> {
    if bs == [] then None
    else
      match LastIn(BlockChanges(bs[|bs| - 1].proposals).0, id)
      case None => Scheduled(bs[..|bs| - 1], id)
      case Some(Save(_, plan)) => Some(plan)
      case Some(Cancel(_)) => None
  }

  /** Some proposal's last operation scheduled an upgrade for this height. */
  ghost predicate ScheduledFor(bs: seq<Block>, height: int) {
    exists id :: Scheduled(bs, id).Some? && Scheduled(bs, id).value.upgradeHeight == height
  }

  /** The greatest height of a refresh that went through. */
  function LastTruncation(bs: seq<Block>): Option<int> {
    if bs == [] then None
    else
      var b := bs[|bs| - 1];
      if Completes(AfterGov(RunBlocks(bs[..|bs| - 1]).plans, b), b) then Some(b.height)
      else LastTruncation(bs[..|bs| - 1])
  }

  ghost predicate Ascending(bs: seq<Block>) {
    forall i, j :: 0 <= i < j < |bs| ==> bs[i].height < bs[j].height
  }

  /** No plan is scheduled below the height of the block that schedules it. */
  ghost predicate NotInThePast(bs: seq<Block>) {
    forall i, c :: 0 <= i < |bs| && c in BlockChanges(bs[i].proposals).0 && c.Save?
      ==> c.plan.upgradeHeight >= bs[i].height
  }

  ghost predicate Above(plan: Plan, limit: Option<int>) {
    limit.Some? ==> plan.upgradeHeight > limit.value
  }

  /** A plan is stored: the last operation scheduled it and no completed refresh has passed it. */
  ghost predicate TableIs(t: Plans, bs: seq<Block>, limit: Option<int>) {
    && (forall id :: id in t <==> Scheduled(bs, id).Some? && Above(Scheduled(bs, id).value, limit))
    && (forall id :: id in t ==> t[id].value == Scheduled(bs, id).value)
  }

  /** Saves of a block are never older than the stored rows, so the last change decides. */
  lemma {:induction false} ChangesDecide(t: Plans, cs: seq<Change>, height: int, id: nat)
    requires forall k :: k in t ==> t[k].height <= height
    ensures var u := ApplyChanges(t, cs, height);
            && (forall k :: k in u ==> u[k].height <= height)
            && match LastIn(cs, id)
               case None => (id in u <==> id in t) && (id in t ==> u[id] == t[id])
               case Some(Save(_, plan)) => id in u && u[id].value == plan
               case Some(Cancel(_)) => id !in u
  {
    if cs != [] {
      ChangesDecide(t, cs[..|cs| - 1], height, id);
      if cs[|cs| - 1].id != id {
        ChangesDecide(t, cs[..|cs| - 1], height, cs[|cs| - 1].id);
      }
    }
  }

  lemma {:induction false} LastInMembers(cs: seq<Change>, id: nat)
    ensures LastIn(cs, id).Some? ==> LastIn(cs, id).value in cs && LastIn(cs, id).value.id == id
  {
    if cs != [] {
      LastInMembers(cs[..|cs| - 1], id);
    }
  }

  /** The table after the gov step of a new block. */
  lemma GovStepTable(bs: seq<Block>, b: Block, limit: Option<int>)
    requires NotInThePast(bs + [b])
    requires TableIs(RunBlocks(bs).plans, bs, limit)
    requires forall k :: k in RunBlocks(bs).plans ==> RunBlocks(bs).plans[k].height <= b.height
    requires limit.Some? ==> limit.value < b.height
    ensures TableIs(ApplyChanges(RunBlocks(bs).plans, BlockChanges(b.proposals).0, b.height), bs + [b], limit)
  {
    var t, cs := RunBlocks(bs).plans, BlockChanges(b.proposals).0;
    var all := bs + [b];
    assert all[..|all| - 1] == bs && all[|bs|] == b;
    forall id
      ensures var u := ApplyChanges(t, cs, b.height);
              && (id in u <==> Scheduled(all, id).Some? && Above(Scheduled(all, id).value, limit))
              && (id in u ==> u[id].value == Scheduled(all, id).value)
    {
      ChangesDecide(t, cs, b.height, id);
      LastInMembers(cs, id);
    }
  }

  /** The table after the upgrade step. */
  lemma UpgradeStepTable(t: Plans, bs: seq<Block>, b: Block, limit: Option<int>)
    requires TableIs(t, bs + [b], limit) && (limit.Some? ==> limit.value < b.height)
    ensures TableIs(AfterUpgrade(t, b), bs + [b], if Completes(t, b) then Some(b.height) else limit)
  {
  }

  lemma {:induction false} HeightsBounded(bs: seq<Block>)
    requires Ascending(bs) && bs != []
    ensures forall k :: k in RunBlocks(bs).plans ==> RunBlocks(bs).plans[k].height <= bs[|bs| - 1].height
    ensures LastTruncation(bs).Some? ==> LastTruncation(bs).value <= bs[|bs| - 1].height
  {
    var n := |bs| - 1;
    var before := RunBlocks(bs[..n]).plans;
    if n > 0 {
      HeightsBounded(bs[..n]);
      assert bs[..n][n - 1] == bs[n - 1] && bs[n - 1].height < bs[n].height;
    }
    ChangesDecide(before, BlockChanges(bs[n].proposals).0, bs[n].height, 0);
  }

  /**
   After any ascending run of blocks, whatever failed in them, the table holds exactly the
   plans that were scheduled last and lie above the last completed refresh.
   */
  lemma {:induction false} TableCharacterised(bs: seq<Block>)
    requires Ascending(bs) && NotInThePast(bs)
    ensures TableIs(RunBlocks(bs).plans, bs, LastTruncation(bs))
  {
    if bs != [] {
      var n := |bs| - 1;
      var b, before := bs[n], RunBlocks(bs[..n]).plans;
      TableCharacterised(bs[..n]);
      assert bs[..n] + [b] == bs;
      if n > 0 {
        HeightsBounded(bs[..n]);
        assert bs[..n][n - 1].height < b.height;
      }
      GovStepTable(bs[..n], b, LastTruncation(bs[..n]));
      UpgradeStepTable(AfterGov(before, b), bs[..n], b, LastTruncation(bs[..n]));
    }
  }

  /** Before the upgrade step of a new block. */
  lemma TableBeforeUpgrade(bs: seq<Block>, b: Block)
    requires Ascending(bs + [b]) && NotInThePast(bs + [b])
    ensures TableIs(AfterGov(RunBlocks(bs).plans, b), bs + [b], LastTruncation(bs))
    ensures LastTruncation(bs).Some? ==> LastTruncation(bs).value < b.height
    ensures RunBlocks(bs + [b]) == Handled(RunBlocks(bs), b)
    ensures Due(AfterGov(RunBlocks(bs).plans, b), b.height) <==> ScheduledFor(bs + [b], b.height)
  {
    var all := bs + [b];
    assert all[..|all| - 1] == bs && all[|bs|] == b;
    assert forall i :: 0 <= i < |bs| ==> all[i] == bs[i];
    TableCharacterised(bs);
    if bs != [] {
      HeightsBounded(bs);
      assert all[|bs| - 1].height < all[|bs|].height;
    }
    GovStepTable(bs, b, LastTruncation(bs));
    DueIffScheduled(AfterGov(RunBlocks(bs).plans, b), all, LastTruncation(bs), b.height);
  }

  lemma DueIffScheduled(t: Plans, bs: seq<Block>, limit: Option<int>, height: int)
    requires TableIs(t, bs, limit) && (limit.Some? ==> limit.value < height)
    ensures Due(t, height) <==> ScheduledFor(bs, height)
  {
    if id :| id in t && t[id].value.upgradeHeight == height {
      assert Scheduled(bs, id).Some?;
    }
    if id :| Scheduled(bs, id).Some? && Scheduled(bs, id).value.upgradeHeight == height {
      assert id in t;
    }
  }

  /**
   If its query works, the refresh starts at a block exactly when some proposal's last
   operation, up to and including that block, scheduled an upgrade for its height.
   */
  lemma RefreshIffScheduled(bs: seq<Block>, b: Block)
    requires Ascending(bs + [b]) && NotInThePast(bs + [b])
    ensures RunBlocks(bs + [b]).refreshes
            == RunBlocks(bs).refreshes + if b.checkWorks && ScheduledFor(bs + [b], b.height) then [b.height] else []
  {
    TableBeforeUpgrade(bs, b);
  }

  /** Block i was due when it came: the operations so far schedule an upgrade for its height. */
  ghost predicate DueAt(bs: seq<Block>, i: nat, height: int)
    requires i < |bs|
  {
    bs[i].checkWorks && bs[i].height == height && ScheduledFor(bs[..i + 1], height)
  }

  lemma DueAtPrefix(bs: seq<Block>, n: nat, height: int)
    requires n <= |bs|
    ensures forall i :: 0 <= i < n ==> (DueAt(bs[..n], i, height) <==> DueAt(bs, i, height))
  {
    forall i | 0 <= i < n ensures DueAt(bs[..n], i, height) <==> DueAt(bs, i, height) {
      assert bs[..n][..i + 1] == bs[..i + 1];
    }
  }

  ghost predicate Increasing(hs: seq<int>) {
    forall i, j :: 0 <= i < j < |hs| ==> hs[i] < hs[j]
  }

  /** Heights at which the refresh started: exactly the due ones, at most once each. */
  lemma {:induction false} RefreshesOncePerHeight(bs: seq<Block>, height: int)
    requires Ascending(bs) && NotInThePast(bs)
    ensures height in RunBlocks(bs).refreshes <==> exists i :: 0 <= i < |bs| && DueAt(bs, i, height)
    ensures Increasing(RunBlocks(bs).refreshes)
  {
    RefreshesAscend(bs);
    if bs != [] {
      var n := |bs| - 1;
      assert bs[..n] + [bs[n]] == bs == bs[..n + 1];
      RefreshesOncePerHeight(bs[..n], height);
      RefreshIffScheduled(bs[..n], bs[n]);
      DueAtPrefix(bs, n, height);
      if i :| 0 <= i < |bs| && DueAt(bs, i, height) {
        assert i < n ==> DueAt(bs[..n], i, height);
      }
      assert bs[n].checkWorks && ScheduledFor(bs, bs[n].height) <==> DueAt(bs, n, bs[n].height);
    }
  }

  lemma IncreasingSnoc(hs: seq<int>, h: int)
    requires Increasing(hs) && forall x :: x in hs ==> x < h
    ensures Increasing(hs + [h])
  {
    forall i | 0 <= i < |hs| ensures hs[i] < h {
      assert hs[i] in hs;
    }
  }

  lemma {:induction false} RefreshesAscend(bs: seq<Block>)
    requires Ascending(bs)
    ensures Increasing(RunBlocks(bs).refreshes)
    ensures forall h :: h in RunBlocks(bs).refreshes ==> bs != [] && h <= bs[|bs| - 1].height
  {
    if bs != [] {
      var n := |bs| - 1;
      var before := RunBlocks(bs[..n]).refreshes;
      RefreshesAscend(bs[..n]);
      forall h | h in before ensures h < bs[n].height {
        assert n > 0 && bs[..n][n - 1].height < bs[n].height;
      }
      IncreasingSnoc(before, bs[n].height);
    }
  }

  /** Blocks follow each other without a gap. */
  ghost predicate Consecutive(bs: seq<Block>) {
    forall i :: 0 < i < |bs| ==> bs[i].height == bs[i - 1].height + 1
  }

  lemma {:induction false} ConsecutiveHeights(bs: seq<Block>, i: nat, j: nat)
    requires Consecutive(bs) && i <= j < |bs|
    ensures bs[j].height == bs[i].height + (j - i)
  {
    if i < j {
      ConsecutiveHeights(bs, i, j - 1);
    }
  }

  lemma ConsecutiveAscends(bs: seq<Block>)
    requires Consecutive(bs)
    ensures Ascending(bs)
  {
    forall i, j | 0 <= i < j < |bs| ensures bs[i].height < bs[j].height {
      ConsecutiveHeights(bs, i, j);
    }
  }

  /** Over consecutive blocks in which nothing fails, no plan outlives its upgrade height. */
  lemma {:induction false} NoOverduePlan(bs: seq<Block>)
    requires bs != [] && Consecutive(bs) && NotInThePast(bs)
    requires forall i :: 0 <= i < |bs| ==> bs[i].checkWorks && bs[i].refreshWorks
    ensures forall id :: id in RunBlocks(bs).plans ==> RunBlocks(bs).plans[id].value.upgradeHeight > bs[|bs| - 1].height
  {
    var n := |bs| - 1;
    var b, before := bs[n], RunBlocks(bs[..n]).plans;
    ConsecutiveAscends(bs);
    if n > 0 {
      NoOverduePlan(bs[..n]);
      HeightsBounded(bs[..n]);
      assert bs[..n][n - 1].height + 1 == b.height;
    }
    var cs := BlockChanges(b.proposals).0;
    forall id | id in AfterGov(before, b)
      ensures AfterGov(before, b)[id].value.upgradeHeight >= b.height
    {
      ChangesDecide(before, cs, b.height, id);
      LastInMembers(cs, id);
    }
  }

  /** A check or refresh that fails leaves its plans behind: nothing checks their height again. */
  lemma FailedRefreshLeavesPlan(bs: seq<Block>, b: Block)
    requires Ascending(bs + [b]) && NotInThePast(bs + [b])
    requires ScheduledFor(bs + [b], b.height)
    ensures Due(RunBlocks(bs + [b]).plans, b.height) <==> !(b.checkWorks && b.refreshWorks)
  {
    TableBeforeUpgrade(bs, b);
  }

  // ---- Blocks that arrive late ------------------------------------------------------------

  /** Some block of a run completes a refresh. */
  ghost predicate SomeCompletes(s: Log, bs: seq<Block>) {
    exists i :: 0 <= i < |bs| && Completes(AfterGov(RunFrom(s, bs[..i]).plans, bs[i]), bs[i])
  }

  lemma SomeCompletesLast(s: Log, bs: seq<Block>)
    requires bs != []
    ensures var n := |bs| - 1;
            SomeCompletes(s, bs) <==>
              SomeCompletes(s, bs[..n]) || Completes(AfterGov(RunFrom(s, bs[..n]).plans, bs[n]), bs[n])
  {
    var n := |bs| - 1;
    forall i | 0 <= i < n
      ensures Completes(AfterGov(RunFrom(s, bs[..n][..i]).plans, bs[..n][i]), bs[..n][i])
              <==> Completes(AfterGov(RunFrom(s, bs[..i]).plans, bs[i]), bs[i])
    {
      assert bs[..n][..i] == bs[..i];
    }
  }

  ghost predicate Untouched(bs: seq<Block>, id: nat) {
    forall i, c :: 0 <= i < |bs| && c in BlockChanges(bs[i].proposals).0 ==> c.id != id
  }

  /**
   A plan whose height the blocks have passed: no refresh starts for it, and it stays until
   some later refresh, for another plan, is completed.
   */
  lemma {:induction false} OverduePlanStays(s: Log, bs: seq<Block>, id: nat)
    requires id in s.plans && Untouched(bs, id)
    requires forall i :: 0 <= i < |bs| ==> bs[i].height > s.plans[id].value.upgradeHeight
    ensures var u := RunFrom(s, bs);
            && (id in u.plans <==> !SomeCompletes(s, bs))
            && (id in u.plans ==> u.plans[id] == s.plans[id])
            && (s.plans[id].value.upgradeHeight in u.refreshes <==> s.plans[id].value.upgradeHeight in s.refreshes)
  {
    if bs != [] {
      var n := |bs| - 1;
      OverduePlanStays(s, bs[..n], id);
      SomeCompletesLast(s, bs);
      OtherChangesKeep(RunFrom(s, bs[..n]).plans, BlockChanges(bs[n].proposals).0, bs[n].height, id);
    }
  }

  /**
   A block that is replayed late saves a plan that the newer blocks have already passed: the
   plan stays, and nothing refreshes for it, until a refresh for another plan is completed.
   */
  lemma {:induction false} LateReplayLeavesPlan(bs: seq<Block>, late: Block, id: nat, plan: Plan, post: seq<Block>)
    requires id !in RunBlocks(bs).plans
    requires late.proposals == [Proposal(id, true, [SoftwareUpgrade(plan)])] && late.height < plan.upgradeHeight
    requires Untouched(post, id) && forall i :: 0 <= i < |post| ==> post[i].height > plan.upgradeHeight
    ensures var s := Handled(RunBlocks(bs), late);
            && id in s.plans && s.plans[id].value == plan
            && (id in RunFrom(s, post).plans <==> !SomeCompletes(s, post))
            && (plan.upgradeHeight in RunFrom(s, post).refreshes <==> plan.upgradeHeight in RunBlocks(bs).refreshes)
  {
    OneSave(id, plan);
    var t := AfterGov(RunBlocks(bs).plans, late);
    var none: seq<Change> := [];
    assert [Save(id, plan)][..0] == none && ApplyChanges(RunBlocks(bs).plans, none, late.height) == RunBlocks(bs).plans;
    assert t == ApplyChange(RunBlocks(bs).plans, Save(id, plan), late.height);
    OverduePlanStays(Handled(RunBlocks(bs), late), post, id);
  }

  lemma OneMessage(id: nat, msg: Msg)
    requires msg.SoftwareUpgrade? || msg.CancelUpgrade?
    ensures BlockChanges([Proposal(id, true, [msg])])
            == ([if msg.SoftwareUpgrade? then Save(id, msg.plan) else Cancel(id)], true)
  {
    var p := Proposal(id, true, [msg]);
    var noMessages: seq<Msg>, noProposals: seq<Proposal> := [], [];
    assert [msg][..0] == noMessages && [p][..0] == noProposals;
    assert MessageChanges(id, noMessages) == ([], true) && BlockChanges(noProposals) == ([], true);
    var change := if msg.SoftwareUpgrade? then Save(id, msg.plan) else Cancel(id);
    var none: seq<Change> := [];
    assert none + [change] == [change];
    assert MessageChanges(id, [msg]) == ([change], true);
  }

  lemma OneSave(id: nat, plan: Plan)
    ensures BlockChanges([Proposal(id, true, [SoftwareUpgrade(plan)])]).0 == [Save(id, plan)]
  {
    OneMessage(id, SoftwareUpgrade(plan));
  }

  // ---- Cancelling -----------------------------------------------------------------------

  /** A passed proposal reaches only the plan stored under its own id, and there its last change decides. */
  lemma {:induction false} ProposalTouchesOwnPlan(t: Plans, p: Proposal, height: int, id: nat)
    ensures var cs := MessageChanges(p.id, p.messages).0;
            var u := ApplyChanges(t, cs, height);
            if id != p.id || cs == [] then (id in u <==> id in t) && (id in t ==> u[id] == t[id])
            else cs[|cs| - 1].Cancel? ==> id !in u
  {
    var cs := MessageChanges(p.id, p.messages).0;
    MessagesCarryId(p.id, p.messages);
    if id != p.id {
      OtherChangesKeep(t, cs, height, id);
    }
  }

  lemma {:induction false} MessagesCarryId(id: nat, msgs: seq<Msg>)
    ensures forall c :: c in MessageChanges(id, msgs).0 ==> c.id == id
  {
    if msgs != [] {
      MessagesCarryId(id, msgs[..|msgs| - 1]);
    }
  }

  lemma {:induction false} OtherChangesKeep(t: Plans, cs: seq<Change>, height: int, id: nat)
    requires forall c :: c in cs ==> c.id != id
    ensures var u := ApplyChanges(t, cs, height);
            (id in u <==> id in t) && (id in t ==> u[id] == t[id])
  {
    if cs != [] {
      OtherChangesKeep(t, cs[..|cs| - 1], height, id);
    }
  }

  // ---- The chain's own plan ---------------------------------------------------------------

  /** The chain has at most one pending plan: scheduling replaces it, cancelling clears it. */
  function PendingAfter(pending: Option<Plan>, cs: seq<Change>): Option<Plan> {
    if cs == [] then pending
    else
      match cs[|cs| - 1]
      case Save(_, plan) => Some(plan)
      case Cancel(_) => None
  }

  function Pending(bs: seq<Block>): Option<Plan> {
    if bs == [] then None
    else PendingAfter(Pending(bs[..|bs| - 1]), BlockChanges(bs[|bs| - 1].proposals).0)
  }

  predicate PendingFor(bs: seq<Block>, height: int) {
    Pending(bs).Some? && Pending(bs).value.upgradeHeight == height
  }

  /** All changes of a run of blocks, in order. */
  function ChangesOf(bs: seq<Block>): seq<Change> {
    if bs == [] then [] else ChangesOf(bs[..|bs| - 1]) + BlockChanges(bs[|bs| - 1].proposals).0
  }

  lemma {:induction false} PendingIsLast(bs: seq<Block>)
    ensures Pending(bs) == PendingAfter(None, ChangesOf(bs))
  {
    if bs != [] {
      PendingIsLast(bs[..|bs| - 1]);
    }
  }

  lemma {:induction false} LastInAppend(a: seq<Change>, b: seq<Change>, id: nat)
    ensures LastIn(a + b, id) == if LastIn(b, id).Some? then LastIn(b, id) else LastIn(a, id)
  {
    if b == [] {
      assert a + b == a;
    } else {
      assert (a + b)[..|a + b| - 1] == a + b[..|b| - 1];
      LastInAppend(a, b[..|b| - 1], id);
    }
  }

  lemma {:induction false} ScheduledIsLast(bs: seq<Block>, id: nat)
    ensures Scheduled(bs, id)
            == match LastIn(ChangesOf(bs), id)
               case Some(Save(_, plan)) => Some(plan)
               case _ => None
  {
    if bs != [] {
      ScheduledIsLast(bs[..|bs| - 1], id);
      LastInAppend(ChangesOf(bs[..|bs| - 1]), BlockChanges(bs[|bs| - 1].proposals).0, id);
    }
  }

  predicate SavesFor(c: Change, height: int) {
    c.Save? && c.plan.upgradeHeight == height
  }

  /** Change i schedules the height, and no later change is to the same proposal's plan. */
  ghost predicate OwnLastFor(cs: seq<Change>, i: nat, height: int)
    requires i < |cs|
  {
    SavesFor(cs[i], height) && forall j :: i < j < |cs| ==> cs[j].id != cs[i].id
  }

  lemma {:induction false} LastInAt(cs: seq<Change>, id: nat, i: nat)
    requires i < |cs| && cs[i].id == id && forall j :: i < j < |cs| ==> cs[j].id != id
    ensures LastIn(cs, id) == Some(cs[i])
  {
    if i < |cs| - 1 {
      LastInAt(cs[..|cs| - 1], id, i);
    }
  }

  lemma {:induction false} LastInIndex(cs: seq<Change>, id: nat) returns (i: nat)
    requires LastIn(cs, id).Some?
    ensures i < |cs| && LastIn(cs, id) == Some(cs[i]) && cs[i].id == id && forall j :: i < j < |cs| ==> cs[j].id != id
  {
    var n := |cs| - 1;
    if cs[n].id == id {
      i := n;
    } else {
      i := LastInIndex(cs[..n], id);
      assert forall j :: i < j < n ==> cs[..n][j] == cs[j];
    }
  }

  lemma ScheduledForIff(bs: seq<Block>, height: int)
    ensures ScheduledFor(bs, height) <==> exists i :: 0 <= i < |ChangesOf(bs)| && OwnLastFor(ChangesOf(bs), i, height)
  {
    var cs := ChangesOf(bs);
    if id :| Scheduled(bs, id).Some? && Scheduled(bs, id).value.upgradeHeight == height {
      ScheduledIsLast(bs, id);
      var i := LastInIndex(cs, id);
      assert OwnLastFor(cs, i, height);
    }
    if i :| 0 <= i < |cs| && OwnLastFor(cs, i, height) {
      LastInAt(cs, cs[i].id, i);
      ScheduledIsLast(bs, cs[i].id);
    }
  }

  /**
   A proposal's own last operation scheduled the height, but it was not the last of all: that
   was another proposal's, and cancelled, or scheduled another height.
   */
  ghost predicate Superseded(cs: seq<Change>, height: int) {
    exists i :: 0 <= i < |cs| - 1 && OwnLastFor(cs, i, height) && !SavesFor(cs[|cs| - 1], height)
  }

  /**
   The refresh at a block whose query works agrees with the chain, which upgrades if its one
   pending plan is for that height, if and only if no plan for it has been superseded by
   another proposal.
   */
  lemma RefreshAgreesIff(bs: seq<Block>, b: Block)
    requires Ascending(bs + [b]) && NotInThePast(bs + [b]) && b.checkWorks
    ensures (|RunBlocks(bs + [b]).refreshes| > |RunBlocks(bs).refreshes| <==> PendingFor(bs + [b], b.height))
            <==> !Superseded(ChangesOf(bs + [b]), b.height)
  {
    var all := bs + [b];
    var cs := ChangesOf(all);
    RefreshIffScheduled(bs, b);
    ScheduledForIff(all, b.height);
    PendingIsLast(all);
    if cs != [] && SavesFor(cs[|cs| - 1], b.height) {
      assert OwnLastFor(cs, |cs| - 1, b.height);
    }
  }

  /** Some other proposal's own last operation schedules the height. */
  ghost predicate OtherScheduledFor(bs: seq<Block>, id: nat, height: int) {
    exists other :: other != id && Scheduled(bs, other).Some? && Scheduled(bs, other).value.upgradeHeight == height
  }

  /**
   A cancel that is the last operation of all stops the refresh exactly when no other proposal
   schedules the height.
   */
  lemma {:induction false} CancelStopsRefreshIff(bs: seq<Block>, b: Block, id: nat)
    requires Ascending(bs + [b]) && NotInThePast(bs + [b]) && b.checkWorks
    requires ChangesOf(bs + [b]) != [] && ChangesOf(bs + [b])[|ChangesOf(bs + [b])| - 1] == Cancel(id)
    ensures RunBlocks(bs + [b]).refreshes
            == RunBlocks(bs).refreshes + if OtherScheduledFor(bs + [b], id, b.height) then [b.height] else []
  {
    var all := bs + [b];
    RefreshIffScheduled(bs, b);
    ScheduledIsLast(all, id);
    assert Scheduled(all, id) == None;
    if other :| Scheduled(all, other).Some? && Scheduled(all, other).value.upgradeHeight == b.height {
      assert other != id && OtherScheduledFor(all, id, b.height);
    }
  }

  /** Two blocks of one message each, and one without proposals. */
  lemma ChangesOfThree(b1: Block, b2: Block, b: Block, first: nat, m1: Msg, second: nat, m2: Msg)
    requires b1.proposals == [Proposal(first, true, [m1])] && b2.proposals == [Proposal(second, true, [m2])]
             && b.proposals == []
    requires m1.SoftwareUpgrade? && m2.CancelUpgrade?
    ensures ChangesOf([b1, b2] + [b]) == [Save(first, m1.plan), Cancel(second)]
  {
    OneMessage(first, m1);
    OneMessage(second, m2);
    var none: seq<Block> := [];
    assert [b1][..0] == none && ChangesOf(none) == [];
    assert ChangesOf([b1]) == [Save(first, m1.plan)];
    assert [b1, b2][..1] == [b1];
    assert ([b1, b2] + [b])[..2] == [b1, b2];
  }

  /**
   A proposal schedules a height and another one cancels: the chain has no plan, and the block at
   that height still refreshes.
   */
  lemma CancelByAnotherStillRefreshes(plan: Plan, b1: Block, b2: Block, b: Block, first: nat, second: nat)
    requires first != second && b1.height < b2.height < b.height == plan.upgradeHeight && b.checkWorks
    requires b1.proposals == [Proposal(first, true, [SoftwareUpgrade(plan)])]
    requires b2.proposals == [Proposal(second, true, [CancelUpgrade])] && b.proposals == []
    ensures Pending([b1, b2] + [b]) == None && b.height in RunBlocks([b1, b2] + [b]).refreshes
  {
    var all := [b1, b2] + [b];
    ChangesOfThree(b1, b2, b, first, SoftwareUpgrade(plan), second, CancelUpgrade);
    OneMessage(first, SoftwareUpgrade(plan));
    OneMessage(second, CancelUpgrade);
    PendingIsLast(all);
    assert OwnLastFor(ChangesOf(all), 0, b.height);
    ScheduledForIff(all, b.height);
    RefreshIffScheduled([b1, b2], b);
  }
}
