/** Ephemeral agreements of agent collaborations: landed on accept, closed on completion or cancellation. */
module AcBridge {
  import opened Options
  import opened OrderedMaps
  import opened MeteredService

  datatype Proposal = Proposal(initiator: Option<string>, required: seq<string>, eventType: Option<string>,
                               zone: Option<string>, parent: Option<string>)

  type Proposals = seq<Entry<string, Proposal>>

  datatype Agent = Agent(envId: string, ownerId: string)

  /** What the stores answer while one event is handled. */
  datatype World = World(agents: map<string, Agent>, offers: map<string, seq<Offer>>,
                         matches: (string, string) -> bool)

  datatype Status = Proposed | Countered | Active | Held | Rejected | Suspended | Terminated

  datatype Reason = NoReason | AcCompleted | AcCancelled

  /** `terms.trigger` (the parameter is the list that the source joins with commas) and the cross-zone note. */
  datatype Terms = Terms(eventType: Option<string>, parameter: seq<string>, zone: Option<string>, crossZone: bool)

  /** A row's id is its position in the ledger. */
  datatype Agreement = Agreement(envId: string, serviceId: string, consumer: string, consumerOwner: string,
                                 provider: string, providerOwner: string, terms: Terms,
                                 status: Status, reason: Reason, collaboration: string)

  datatype Outcome = Success | Partial | Failure

  datatype Usage = Usage(agreement: nat, consumer: string, provider: string, outcome: Outcome)

  datatype LandOutcome = Landed | Unmetered | Duplicate | Aborted

  datatype State = State(proposals: Proposals, ledger: seq<Agreement>, usage: seq<Usage>) {
    function Close(collaboration: string, outcome: Outcome): State {
      State(proposals, EndAll(ledger, collaboration, AcCompleted), usage + Metered(ledger, collaboration, outcome))
    }

    function CloseUnmetered(collaboration: string): State {
      State(proposals, EndAll(ledger, collaboration, AcCancelled), usage)
    }

    function Forget(collaboration: string): State {
      this.(proposals := Drop(proposals, collaboration))
    }
  }

  predicate Open(row: Agreement, collaboration: string) {
    row.collaboration == collaboration && row.status == Active
  }

  class AcAgreementBridge {
    const envId: string
    var proposals: Proposals
    var ledger: seq<Agreement>
    var usage: seq<Usage>

    constructor (envId: string)
      ensures this.envId == envId && Current() == State([], [], [])
    {
      this.envId := envId;
      proposals, ledger, usage := [], [], [];
    }

    ghost function Current(): State
      reads this
    {
      State(proposals, ledger, usage)
    }

    method OnProposal(collaboration: string, proposal: Proposal)
      modifies this
      ensures Current() == Step(envId, old(Current()), Propose(collaboration, proposal))
    {
      proposals := Put(proposals, collaboration, proposal);
    }

    method OnAccept(world: World, collaboration: string, responder: string) returns (outcome: LandOutcome)
      modifies this
      ensures Current() == Step(envId, old(Current()), Accept(world, collaboration, responder))
      ensures outcome == Landing(envId, old(Current()), world, collaboration, responder).0
    {
      for i := 0 to |ledger|
        invariant unchanged(this)
        invariant forall k :: 0 <= k < i ==> !(Open(ledger[k], collaboration) && ledger[k].provider == responder)
      {
        if Open(ledger[i], collaboration) && ledger[i].provider == responder {
          return Duplicate;
        }
      }
      var proposal := Get(proposals, collaboration);
      if responder !in world.agents || world.agents[responder].envId != envId {
        return Aborted;
      }
      if proposal.None? || proposal.value.initiator.None?
         || proposal.value.initiator.value !in world.agents
         || world.agents[proposal.value.initiator.value].envId != envId {
        return Aborted;
      }
      var consumer := proposal.value.initiator.value;
      var services := if responder in world.offers then world.offers[responder] else [];
      var chosen := SelectMeteredService(services, Request(proposal.value.required, world.matches, proposal.value.zone));
      if chosen.None? {
        return Unmetered;
      }
      var zone := proposal.value.zone;
      var crossZone := zone.Some? && chosen.value.row.zones != {} && zone.value !in chosen.value.row.zones;
      ledger := ledger + [Agreement(
        envId, chosen.value.row.id, consumer, world.agents[consumer].ownerId,
        responder, world.agents[responder].ownerId,
        Terms(proposal.value.eventType, proposal.value.required, zone, crossZone),
        Active, NoReason, collaboration)];
      return Landed;
    }

    method OnCompleted(collaboration: string, outcome: Outcome)
      modifies this
      ensures Current() == Step(envId, old(Current()), Complete(collaboration, outcome))
    {
      CloseCollaboration(collaboration, outcome);
      var children := ChildIds(proposals, collaboration);
      CompleteEach(children, outcome);
      proposals := Drop(proposals, collaboration);
    }

    /** The cascade of a completion: close each child, then forget it. */
    method CompleteEach(children: seq<string>, outcome: Outcome)
      modifies this
      ensures Current() == CloseChildren(old(Current()), children, outcome)
    {
      ghost var first := Current();
      for i := 0 to |children|
        invariant Current() == CloseChildren(first, children[..i], outcome)
      {
        assert children[..i + 1][..i] == children[..i];
        CloseCollaboration(children[i], outcome);
        proposals := Drop(proposals, children[i]);
      }
      assert children[..|children|] == children;
    }

    method OnCancelled(collaboration: string)
      modifies this
      ensures Current() == Step(envId, old(Current()), Cancel(collaboration))
    {
      TerminateWithoutUsage(collaboration);
      var children := ChildIds(proposals, collaboration);
      CancelEach(children);
      proposals := Drop(proposals, collaboration);
    }

    /** The cascade of a cancellation. */
    method CancelEach(children: seq<string>)
      modifies this
      ensures Current() == CancelChildren(old(Current()), children)
    {
      ghost var first := Current();
      for i := 0 to |children|
        invariant Current() == CancelChildren(first, children[..i])
      {
        assert children[..i + 1][..i] == children[..i];
        TerminateWithoutUsage(children[i]);
        proposals := Drop(proposals, children[i]);
      }
      assert children[..|children|] == children;
    }

    /** Terminate the collaboration's active rows and meter one usage row each. */
    method CloseCollaboration(collaboration: string, outcome: Outcome)
      modifies this
      ensures Current() == old(Current()).Close(collaboration, outcome)
    {
      for i := 0 to |ledger|
        invariant proposals == old(proposals) && |ledger| == |old(ledger)|
        invariant forall k :: 0 <= k < |ledger| ==>
          ledger[k] == if k < i then Ended(old(ledger)[k], collaboration, AcCompleted) else old(ledger)[k]
        invariant usage == old(usage) + Metered(old(ledger)[..i], collaboration, outcome)
      {
        assert old(ledger)[..i + 1][..i] == old(ledger)[..i];
        if Open(ledger[i], collaboration) {
          usage := usage + [Usage(i, ledger[i].consumer, ledger[i].provider, outcome)];
          ledger := ledger[i := ledger[i].(status := Terminated, reason := AcCompleted)];
        }
      }
      assert old(ledger)[..|ledger|] == old(ledger);
      assert ledger == EndAll(old(ledger), collaboration, AcCompleted);
    }

    /** Terminate the collaboration's active rows, metering nothing. */
    method TerminateWithoutUsage(collaboration: string)
      modifies this
      ensures Current() == old(Current()).CloseUnmetered(collaboration)
    {
      for i := 0 to |ledger|
        invariant proposals == old(proposals) && usage == old(usage) && |ledger| == |old(ledger)|
        invariant forall k :: 0 <= k < |ledger| ==>
          ledger[k] == if k < i then Ended(old(ledger)[k], collaboration, AcCancelled) else old(ledger)[k]
      {
        if Open(ledger[i], collaboration) {
          ledger := ledger[i := ledger[i].(status := Terminated, reason := AcCancelled)];
        }
      }
      assert ledger == EndAll(old(ledger), collaboration, AcCancelled);
    }
  }

  /** The collaborations whose remembered proposal names `parent`, in the order they were remembered. */
  method ChildIds(proposals: Proposals, parent: string) returns (children: seq<string>)
    ensures children == ChildrenOf(proposals, parent)
  {
    children := [];
    for i := 0 to |proposals|
      invariant children == ChildrenOf(proposals[..i], parent)
    {
      assert proposals[..i + 1][..i] == proposals[..i];
      if proposals[i].value.parent == Some(parent) {
        children := children + [proposals[i].key];
      }
    }
    assert proposals[..|proposals|] == proposals;
  }

  // ---- One event ------------------------------------------------------------

  datatype Event =
    | Propose(collaboration: string, proposal: Proposal)
    | Accept(world: World, collaboration: string, responder: string)
    | Complete(collaboration: string, outcome: Outcome)
    | Cancel(collaboration: string)

  function ChildrenOf(proposals: Proposals, parent: string): seq<string> {
    if proposals == [] then []
    else
      var last := proposals[|proposals| - 1];
      ChildrenOf(proposals[..|proposals| - 1], parent)
      + (if last.value.parent == Some(parent) then [last.key] else [])
  }

  function Ended(row: Agreement, collaboration: string, reason: Reason): Agreement {
    if Open(row, collaboration) then row.(status := Terminated, reason := reason) else row
  }

  function EndAll(ledger: seq<Agreement>, collaboration: string, reason: Reason): (after: seq<Agreement>)
    ensures |after| == |ledger|
    ensures forall k :: 0 <= k < |ledger| ==> after[k] == Ended(ledger[k], collaboration, reason)
  {
    seq(|ledger|, k requires 0 <= k < |ledger| => Ended(ledger[k], collaboration, reason))
  }

  /** One usage row per open row of the collaboration, in ledger order. */
  function Metered(ledger: seq<Agreement>, collaboration: string, outcome: Outcome): seq<Usage> {
    if ledger == [] then []
    else
      var last := |ledger| - 1;
      Metered(ledger[..last], collaboration, outcome)
      + (if Open(ledger[last], collaboration)
         then [Usage(last, ledger[last].consumer, ledger[last].provider, outcome)] else [])
  }

  function Landing(envId: string, s: State, world: World, collaboration: string, responder: string)
    : (LandOutcome, seq<Agreement>)
  {
    if exists k :: 0 <= k < |s.ledger| && Open(s.ledger[k], collaboration) && s.ledger[k].provider == responder then
      (Duplicate, [])
    else if responder !in world.agents || world.agents[responder].envId != envId then (Aborted, [])
    else
      match Get(s.proposals, collaboration)
      case None => (Aborted, [])
      case Some(p) =>
        if p.initiator.None? || p.initiator.value !in world.agents
           || world.agents[p.initiator.value].envId != envId then (Aborted, [])
        else
          var services := if responder in world.offers then world.offers[responder] else [];
          match Best(services, Request(p.required, world.matches, p.zone))
          case None => (Unmetered, [])
          case Some(best) =>
            var crossZone := p.zone.Some? && best.row.zones != {} && p.zone.value !in best.row.zones;
            (Landed, [Agreement(envId, best.row.id, p.initiator.value, world.agents[p.initiator.value].ownerId,
                                responder, world.agents[responder].ownerId,
                                Terms(p.eventType, p.required, p.zone, crossZone),
                                Active, NoReason, collaboration)])
  }

  function CloseChildren(s: State, children: seq<string>, outcome: Outcome): State {
    if children == [] then s
    else
      var last := children[|children| - 1];
      CloseChildren(s, children[..|children| - 1], outcome).Close(last, outcome).Forget(last)
  }

  function CancelChildren(s: State, children: seq<string>): State {
    if children == [] then s
    else
      var last := children[|children| - 1];
      CancelChildren(s, children[..|children| - 1]).CloseUnmetered(last).Forget(last)
  }

  function Step(envId: string, s: State, event: Event): State {
    match event
    case Propose(c, proposal) => s.(proposals := Put(s.proposals, c, proposal))
    case Accept(world, c, responder) => s.(ledger := s.ledger + Landing(envId, s, world, c, responder).1)
    case Complete(c, outcome) =>
      CloseChildren(s.Close(c, outcome), ChildrenOf(s.proposals, c), outcome).Forget(c)
    case Cancel(c) =>
      CancelChildren(s.CloseUnmetered(c), ChildrenOf(s.proposals, c)).Forget(c)
  }

  function Run(envId: string, events: seq<Event>): State {
    if events == [] then State([], [], [])
    else Step(envId, Run(envId, events[..|events| - 1]), events[|events| - 1])
  }

  // ---- Every reachable state --------------------------------------------------

  predicate Settled(row: Agreement, reason: Reason) {
    row.status == Terminated && row.reason == reason
  }

  predicate Twins(a: Agreement, b: Agreement) {
    a.status == Active && b.status == Active && a.collaboration == b.collaboration
  }

  ghost predicate LedgerOk(ledger: seq<Agreement>) {
    && (forall i :: 0 <= i < |ledger| ==>
          || (ledger[i].status == Active && ledger[i].reason == NoReason)
          || Settled(ledger[i], AcCompleted) || Settled(ledger[i], AcCancelled))
    && (forall i, j :: 0 <= i < j < |ledger| && Twins(ledger[i], ledger[j]) ==>
                         ledger[i].provider != ledger[j].provider)
  }

  ghost predicate Remembered(s: State) {
    forall i :: 0 <= i < |s.ledger| && s.ledger[i].status == Active ==> Has(s.proposals, s.ledger[i].collaboration)
  }

  /** `row` is the usage row of a completed agreement, parties included. */
  ghost predicate MetersCompleted(ledger: seq<Agreement>, row: Usage) {
    && row.agreement < |ledger| && Settled(ledger[row.agreement], AcCompleted)
    && row.consumer == ledger[row.agreement].consumer && row.provider == ledger[row.agreement].provider
  }

  ghost predicate MeteredOnce(usage: seq<Usage>, i: nat) {
    exists u :: 0 <= u < |usage| && usage[u].agreement == i
  }

  ghost predicate NoneMeteredTwice(usage: seq<Usage>) {
    forall u, v :: 0 <= u < v < |usage| ==> usage[u].agreement != usage[v].agreement
  }

  ghost predicate CompletedAreMetered(ledger: seq<Agreement>, usage: seq<Usage>) {
    forall i :: 0 <= i < |ledger| && Settled(ledger[i], AcCompleted) ==> MeteredOnce(usage, i)
  }

  /** Usage rows and completed agreements correspond one to one. */
  ghost predicate Accounted(ledger: seq<Agreement>, usage: seq<Usage>) {
    && (forall u :: 0 <= u < |usage| ==> MetersCompleted(ledger, usage[u]))
    && NoneMeteredTwice(usage)
    && CompletedAreMetered(ledger, usage)
  }

  ghost predicate Inv(s: State) {
    DistinctKeys(s.proposals) && LedgerOk(s.ledger) && Remembered(s) && Accounted(s.ledger, s.usage)
  }

  ghost predicate MetersOpen(ledger: seq<Agreement>, c: string, outcome: Outcome, row: Usage) {
    && row.agreement < |ledger| && Open(ledger[row.agreement], c)
    && row == Usage(row.agreement, ledger[row.agreement].consumer, ledger[row.agreement].provider, outcome)
  }

  lemma {:induction false} MeteredRows(ledger: seq<Agreement>, c: string, outcome: Outcome)
    ensures var rows := Metered(ledger, c, outcome);
      (forall u :: 0 <= u < |rows| ==> MetersOpen(ledger, c, outcome, rows[u])) && NoneMeteredTwice(rows)
  {
    if ledger != [] {
      var last := |ledger| - 1;
      var before, rows := Metered(ledger[..last], c, outcome), Metered(ledger, c, outcome);
      MeteredRows(ledger[..last], c, outcome);
      forall u | 0 <= u < |rows|
        ensures MetersOpen(ledger, c, outcome, rows[u])
        ensures u < |before| ==> rows[u] == before[u] && rows[u].agreement < last
      {
        if u < |before| {
          assert MetersOpen(ledger[..last], c, outcome, before[u]);
        }
      }
    }
  }

  lemma {:induction false} OpenRowsAreMetered(ledger: seq<Agreement>, c: string, outcome: Outcome, i: nat)
    requires i < |ledger| && Open(ledger[i], c)
    ensures MeteredOnce(Metered(ledger, c, outcome), i)
  {
    var last := |ledger| - 1;
    var before, rows := Metered(ledger[..last], c, outcome), Metered(ledger, c, outcome);
    if i < last {
      OpenRowsAreMetered(ledger[..last], c, outcome, i);
      var u :| 0 <= u < |before| && before[u].agreement == i;
      assert rows[u] == before[u];
    } else {
      assert rows[|before|].agreement == i;
    }
  }

  lemma OldUsageStays(ledger: seq<Agreement>, usage: seq<Usage>, c: string, reason: Reason)
    requires forall u :: 0 <= u < |usage| ==> MetersCompleted(ledger, usage[u])
    ensures forall u :: 0 <= u < |usage| ==> MetersCompleted(EndAll(ledger, c, reason), usage[u])
  {
  }

  lemma NewUsageIsNew(ledger: seq<Agreement>, usage: seq<Usage>, rows: seq<Usage>, c: string, outcome: Outcome)
    requires forall u :: 0 <= u < |usage| ==> MetersCompleted(ledger, usage[u])
    requires forall u :: 0 <= u < |rows| ==> MetersOpen(ledger, c, outcome, rows[u])
    requires NoneMeteredTwice(usage) && NoneMeteredTwice(rows)
    ensures NoneMeteredTwice(usage + rows)
  {
    forall u, v | 0 <= u < v < |usage + rows|
      ensures (usage + rows)[u].agreement != (usage + rows)[v].agreement
    {
      if u < |usage| <= v {
        assert MetersCompleted(ledger, usage[u]) && MetersOpen(ledger, c, outcome, rows[v - |usage|]);
      }
    }
  }

  lemma AllUsageThere(ledger: seq<Agreement>, usage: seq<Usage>, rows: seq<Usage>, c: string)
    requires CompletedAreMetered(ledger, usage)
    requires forall i :: 0 <= i < |ledger| && Open(ledger[i], c) ==> MeteredOnce(rows, i)
    ensures CompletedAreMetered(EndAll(ledger, c, AcCompleted), usage + rows)
  {
    forall i | 0 <= i < |ledger| && Settled(EndAll(ledger, c, AcCompleted)[i], AcCompleted)
      ensures MeteredOnce(usage + rows, i)
    {
      if Open(ledger[i], c) {
        var u :| 0 <= u < |rows| && rows[u].agreement == i;
        assert (usage + rows)[|usage| + u].agreement == i;
      } else {
        assert Settled(ledger[i], AcCompleted) && MeteredOnce(usage, i);
        var u :| 0 <= u < |usage| && usage[u].agreement == i;
        assert (usage + rows)[u].agreement == i;
      }
    }
  }

  lemma CloseKeepsAccounts(ledger: seq<Agreement>, usage: seq<Usage>, c: string, outcome: Outcome)
    requires Accounted(ledger, usage)
    ensures Accounted(EndAll(ledger, c, AcCompleted), usage + Metered(ledger, c, outcome))
  {
    var rows := Metered(ledger, c, outcome);
    MeteredRows(ledger, c, outcome);
    OldUsageStays(ledger, usage, c, AcCompleted);
    NewUsageIsNew(ledger, usage, rows, c, outcome);
    forall i | 0 <= i < |ledger| && Open(ledger[i], c) ensures MeteredOnce(rows, i) {
      OpenRowsAreMetered(ledger, c, outcome, i);
    }
    AllUsageThere(ledger, usage, rows, c);
    forall u | 0 <= u < |rows|
      ensures MetersCompleted(EndAll(ledger, c, AcCompleted), rows[u])
    {
      assert MetersOpen(ledger, c, outcome, rows[u]);
    }
  }

  lemma CancelKeepsAccounts(ledger: seq<Agreement>, usage: seq<Usage>, c: string)
    requires Accounted(ledger, usage)
    ensures Accounted(EndAll(ledger, c, AcCancelled), usage)
  {
    OldUsageStays(ledger, usage, c, AcCancelled);
    forall i | 0 <= i < |ledger| && Settled(EndAll(ledger, c, AcCancelled)[i], AcCompleted)
      ensures MeteredOnce(usage, i)
    {
      assert Settled(ledger[i], AcCompleted);
    }
  }

  lemma EndingKeepsLedgerOk(ledger: seq<Agreement>, c: string, reason: Reason)
    requires LedgerOk(ledger) && reason != NoReason
    ensures LedgerOk(EndAll(ledger, c, reason))
  {
    var after := EndAll(ledger, c, reason);
    forall i, j | 0 <= i < j < |after| && Twins(after[i], after[j])
      ensures after[i].provider != after[j].provider
    {
      assert Twins(ledger[i], ledger[j]);
    }
  }

  ghost predicate NoneOpen(s: State, c: string) {
    forall i :: 0 <= i < |s.ledger| ==> !Open(s.ledger[i], c)
  }

  lemma ClosingKeeps(s: State, c: string, outcome: Outcome)
    requires Inv(s)
    ensures Inv(s.Close(c, outcome)) && Inv(s.CloseUnmetered(c))
    ensures NoneOpen(s.Close(c, outcome), c) && NoneOpen(s.CloseUnmetered(c), c)
  {
    CloseKeepsAccounts(s.ledger, s.usage, c, outcome);
    CancelKeepsAccounts(s.ledger, s.usage, c);
    EndingKeepsLedgerOk(s.ledger, c, AcCompleted);
    EndingKeepsLedgerOk(s.ledger, c, AcCancelled);
  }

  lemma ForgettingKeeps(s: State, c: string)
    requires Inv(s) && NoneOpen(s, c)
    ensures Inv(s.Forget(c)) && !Has(s.Forget(c).proposals, c)
  {
    DropKeepsDistinct(s.proposals, c);
    forall d
      ensures Has(Drop(s.proposals, c), d) <==> d != c && Has(s.proposals, d)
    {
      GetDrop(s.proposals, c, d);
    }
  }

  /** Exactly the active rows of the collaborations in `ended` have been terminated. */
  ghost predicate EndedExactly(ledger: seq<Agreement>, after: seq<Agreement>, ended: set<string>, reason: Reason) {
    |after| == |ledger| && forall i :: 0 <= i < |ledger| ==>
      after[i] == if ledger[i].collaboration in ended then Ended(ledger[i], ledger[i].collaboration, reason) else ledger[i]
  }

  ghost predicate ForgottenExactly(proposals: Proposals, after: Proposals, forgotten: set<string>) {
    forall d :: Get(after, d) == if d in forgotten then None else Get(proposals, d)
  }

  lemma EndOneMore(ledger: seq<Agreement>, after: seq<Agreement>, ended: set<string>, reason: Reason, c: string)
    requires EndedExactly(ledger, after, ended, reason)
    ensures EndedExactly(ledger, EndAll(after, c, reason), ended + {c}, reason)
  {
  }

  lemma ForgetOneMore(proposals: Proposals, after: Proposals, forgotten: set<string>, c: string)
    requires ForgottenExactly(proposals, after, forgotten)
    ensures ForgottenExactly(proposals, Drop(after, c), forgotten + {c})
  {
    forall d ensures Get(Drop(after, c), d) == if d in forgotten + {c} then None else Get(proposals, d) {
      GetDrop(after, c, d);
    }
  }

  function Ids(children: seq<string>): set<string> {
    set c | c in children
  }

  /** `after` extends `usage`, and every added row carries `outcome`. */
  ghost predicate AppendedWith(usage: seq<Usage>, after: seq<Usage>, outcome: Outcome) {
    && |usage| <= |after| && after[..|usage|] == usage
    && forall u :: |usage| <= u < |after| ==> after[u].outcome == outcome
  }

  lemma AppendOneMore(ledger: seq<Agreement>, usage: seq<Usage>, mid: seq<Usage>, c: string, outcome: Outcome)
    requires AppendedWith(usage, mid, outcome)
    ensures AppendedWith(usage, mid + Metered(ledger, c, outcome), outcome)
  {
    var rows := Metered(ledger, c, outcome);
    MeteredRows(ledger, c, outcome);
    assert (mid + rows)[..|usage|] == mid[..|usage|];
    forall u | |usage| <= u < |mid + rows|
      ensures (mid + rows)[u].outcome == outcome
    {
      if u >= |mid| {
        assert MetersOpen(ledger, c, outcome, rows[u - |mid|]);
      }
    }
  }

  lemma CloseFirst(s: State, c: string, outcome: Outcome)
    requires Inv(s)
    ensures var after := s.Close(c, outcome);
            && Inv(after) && NoneOpen(after, c) && EndedExactly(s.ledger, after.ledger, {c}, AcCompleted)
            && ForgottenExactly(s.proposals, after.proposals, {}) && AppendedWith(s.usage, after.usage, outcome)
  {
    ClosingKeeps(s, c, outcome);
    AppendOneMore(s.ledger, s.usage, s.usage, c, outcome);
  }

  lemma CloseOneMore(s: State, before: State, ended: set<string>, forgotten: set<string>, c: string, outcome: Outcome)
    requires Inv(before)
    requires EndedExactly(s.ledger, before.ledger, ended, AcCompleted)
    requires ForgottenExactly(s.proposals, before.proposals, forgotten) && AppendedWith(s.usage, before.usage, outcome)
    ensures var after := before.Close(c, outcome).Forget(c);
            && Inv(after) && (forall d :: NoneOpen(before, d) ==> NoneOpen(after, d))
            && EndedExactly(s.ledger, after.ledger, ended + {c}, AcCompleted)
            && ForgottenExactly(s.proposals, after.proposals, forgotten + {c}) && AppendedWith(s.usage, after.usage, outcome)
  {
    ClosingKeeps(before, c, outcome);
    ForgettingKeeps(before.Close(c, outcome), c);
    AppendOneMore(before.ledger, s.usage, before.usage, c, outcome);
    EndOneMore(s.ledger, before.ledger, ended, AcCompleted, c);
    ForgetOneMore(s.proposals, before.proposals, forgotten, c);
  }

  lemma CancelOneMore(s: State, before: State, ended: set<string>, forgotten: set<string>, c: string)
    requires Inv(before)
    requires EndedExactly(s.ledger, before.ledger, ended, AcCancelled)
    requires ForgottenExactly(s.proposals, before.proposals, forgotten)
    ensures var after := before.CloseUnmetered(c).Forget(c);
            && Inv(after) && (forall d :: NoneOpen(before, d) ==> NoneOpen(after, d))
            && EndedExactly(s.ledger, after.ledger, ended + {c}, AcCancelled)
            && ForgottenExactly(s.proposals, after.proposals, forgotten + {c})
  {
    ClosingKeeps(before, c, Success);
    ForgettingKeeps(before.CloseUnmetered(c), c);
    EndOneMore(s.ledger, before.ledger, ended, AcCancelled, c);
    ForgetOneMore(s.proposals, before.proposals, forgotten, c);
  }

  lemma {:induction false} ClosingChildren(s: State, c: string, children: seq<string>, outcome: Outcome)
    requires Inv(s)
    ensures var after := CloseChildren(s.Close(c, outcome), children, outcome);
            && Inv(after) && NoneOpen(after, c)
            && EndedExactly(s.ledger, after.ledger, {c} + Ids(children), AcCompleted)
            && ForgottenExactly(s.proposals, after.proposals, Ids(children))
            && AppendedWith(s.usage, after.usage, outcome)
  {
    if children == [] {
      CloseFirst(s, c, outcome);
      assert Ids(children) == {} && {c} + Ids(children) == {c};
    } else {
      var last, front := children[|children| - 1], children[..|children| - 1];
      assert Ids(children) == Ids(front) + {last} && {c} + Ids(children) == {c} + Ids(front) + {last};
      ClosingChildren(s, c, front, outcome);
      var before := CloseChildren(s.Close(c, outcome), front, outcome);
      assert CloseChildren(s.Close(c, outcome), children, outcome) == before.Close(last, outcome).Forget(last);
      CloseOneMore(s, before, {c} + Ids(front), Ids(front), last, outcome);
    }
  }

  lemma {:induction false} CancellingChildren(s: State, c: string, children: seq<string>)
    requires Inv(s)
    ensures var after := CancelChildren(s.CloseUnmetered(c), children);
            && Inv(after) && NoneOpen(after, c) && after.usage == s.usage
            && EndedExactly(s.ledger, after.ledger, {c} + Ids(children), AcCancelled)
            && ForgottenExactly(s.proposals, after.proposals, Ids(children))
  {
    if children == [] {
      ClosingKeeps(s, c, Success);
    } else {
      var last, front := children[|children| - 1], children[..|children| - 1];
      CancellingChildren(s, c, front);
      var before := CancelChildren(s.CloseUnmetered(c), front);
      CancelOneMore(s, before, {c} + Ids(front), Ids(front), last);
      assert Ids(children) == Ids(front) + {last} && {c} + Ids(children) == {c} + Ids(front) + {last};
    }
  }

  lemma {:induction false} ChildrenAreThoseNaming(proposals: Proposals, c: string, d: string)
    requires DistinctKeys(proposals)
    ensures d in ChildrenOf(proposals, c) <==> IsChild(proposals, c, d)
  {
    if proposals != [] {
      var front, last := proposals[..|proposals| - 1], proposals[|proposals| - 1];
      ChildrenAreThoseNaming(front, c, d);
      GetOfFront(proposals, d);
      GetFinds(front, last.key);
      assert forall i :: 0 <= i < |front| ==> front[i] == proposals[i];
    }
  }

  lemma {:induction false} GetOfFront(proposals: Proposals, d: string)
    requires DistinctKeys(proposals) && proposals != []
    ensures var last := proposals[|proposals| - 1];
            Get(proposals, d) == if d == last.key then Some(last.value) else Get(proposals[..|proposals| - 1], d)
  {
    if |proposals| > 1 {
      GetOfFront(proposals[1..], d);
      assert proposals[..|proposals| - 1][1..] == proposals[1..][..|proposals| - 2];
    }
  }

  predicate IsChild(proposals: Proposals, c: string, d: string) {
    Has(proposals, d) && Get(proposals, d).value.parent == Some(c)
  }

  // ---- Main results -------------------------------------------------------------

  /** The collaborations that closing `c` reaches: itself and the remembered proposals naming it as parent. */
  function Reached(s: State, c: string): set<string> {
    Ids(ChildrenOf(s.proposals, c)) + {c}
  }

  lemma ReachedIsOneHop(s: State, c: string, d: string)
    requires Inv(s)
    ensures d in Reached(s, c) <==> d == c || IsChild(s.proposals, c, d)
  {
    ChildrenAreThoseNaming(s.proposals, c, d);
  }

  /**
   * Completing `c` ends exactly the active agreements of `c` and of its remembered direct children,
   * forgets exactly these collaborations, and every usage row it appends carries the closing outcome.
   */
  lemma CompletionIsOneHop(envId: string, s: State, c: string, outcome: Outcome)
    requires Inv(s)
    ensures var after := Step(envId, s, Complete(c, outcome));
            && Inv(after)
            && EndedExactly(s.ledger, after.ledger, Reached(s, c), AcCompleted)
            && ForgottenExactly(s.proposals, after.proposals, Reached(s, c))
            && AppendedWith(s.usage, after.usage, outcome)
  {
    var children := ChildrenOf(s.proposals, c);
    assert Reached(s, c) == {c} + Ids(children);
    ClosingChildren(s, c, children, outcome);
    var closed := CloseChildren(s.Close(c, outcome), children, outcome);
    ForgettingKeeps(closed, c);
    ForgetOneMore(s.proposals, closed.proposals, Ids(children), c);
  }

  /** Cancelling `c` reaches the same agreements and meters none of them. */
  lemma CancellationIsOneHop(envId: string, s: State, c: string)
    requires Inv(s)
    ensures var after := Step(envId, s, Cancel(c));
            && Inv(after)
            && EndedExactly(s.ledger, after.ledger, Reached(s, c), AcCancelled)
            && ForgottenExactly(s.proposals, after.proposals, Reached(s, c))
            && after.usage == s.usage
  {
    var children := ChildrenOf(s.proposals, c);
    assert Reached(s, c) == {c} + Ids(children);
    CancellingChildren(s, c, children);
    var closed := CancelChildren(s.CloseUnmetered(c), children);
    ForgettingKeeps(closed, c);
    ForgetOneMore(s.proposals, closed.proposals, Ids(children), c);
  }

  lemma LandingKeeps(envId: string, s: State, world: World, c: string, responder: string)
    requires Inv(s)
    ensures Inv(Step(envId, s, Accept(world, c, responder)))
  {
    var after := Step(envId, s, Accept(world, c, responder));
    forall i | 0 <= i < |s.ledger| && Settled(s.ledger[i], AcCompleted)
      ensures MeteredOnce(s.usage, i)
    {
    }
    assert forall i :: 0 <= i < |s.ledger| ==> after.ledger[i] == s.ledger[i];
  }

  /**
   * In every state the bridge can reach: an active ephemeral agreement's collaboration is still
   * remembered, no responder holds two active agreements of one collaboration, and usage rows are in
   * one-to-one correspondence with the agreements terminated as 'ac-completed'.
   */
  lemma {:induction false} EveryReachableState(envId: string, events: seq<Event>)
    ensures Inv(Run(envId, events))
  {
    if events != [] {
      var before, event := Run(envId, events[..|events| - 1]), events[|events| - 1];
      EveryReachableState(envId, events[..|events| - 1]);
      match event
      case Propose(c, proposal) =>
        PutKeepsDistinct(before.proposals, c, proposal);
        forall d ensures Has(before.proposals, d) ==> Has(Put(before.proposals, c, proposal), d) {
          GetPut(before.proposals, c, proposal, d);
        }
      case Accept(world, c, responder) => LandingKeeps(envId, before, world, c, responder);
      case Complete(c, outcome) => CompletionIsOneHop(envId, before, c, outcome);
      case Cancel(c) => CancellationIsOneHop(envId, before, c);
    }
  }

  ghost predicate HasMatch(services: seq<Offer>, request: Request) {
    exists offer :: offer in services && FuzzyHits(offer, request.required, request.matches) != {}
  }

  predicate AgentIn(world: World, envId: string, agent: string) {
    agent in world.agents && world.agents[agent].envId == envId
  }

  /** What was required of the responder, nothing being known of a collaboration that is not remembered. */
  function RequestOf(world: World, p: Option<Proposal>): Request {
    if p.None? then Request([], world.matches, None) else Request(p.value.required, world.matches, p.value.zone)
  }

  /**
   * An accept lands exactly when the responder holds no active agreement of the collaboration, its proposal
   * is remembered, both parties are agents of the environment, and some offer of the responder matches; the
   * agreement then joins initiator and responder on the winning offer, flagged when its backing is out of
   * the event's zone.
   */
  lemma WhatLands(envId: string, s: State, world: World, c: string, responder: string)
    ensures var services := if responder in world.offers then world.offers[responder] else [];
            var p := Get(s.proposals, c);
            var (outcome, rows) := Landing(envId, s, world, c, responder);
            && (outcome == Landed <==>
                  && (forall k :: 0 <= k < |s.ledger| && Open(s.ledger[k], c) ==> s.ledger[k].provider != responder)
                  && AgentIn(world, envId, responder)
                  && p.Some? && p.value.initiator.Some? && AgentIn(world, envId, p.value.initiator.value)
                  && HasMatch(services, RequestOf(world, p)))
            && (outcome != Landed ==> rows == [])
            && (outcome == Landed ==>
                  exists best :: IsWinner(services, RequestOf(world, p), Some(best)) && |rows| == 1
                    && IsPreferred(services, RequestOf(world, p), Some(best.row))
                    && Open(rows[0], c) && rows[0].provider == responder && Some(rows[0].consumer) == p.value.initiator
                    && rows[0].serviceId == best.row.id
                    && (rows[0].terms.crossZone <==>
                          p.value.zone.Some? && best.row.zones != {} && p.value.zone.value !in best.row.zones))
  {
    var services := if responder in world.offers then world.offers[responder] else [];
    var request := RequestOf(world, Get(s.proposals, c));
    BestIsWinner(services, request);
    ChosenIsPreferred(services, request);
    var best := Best(services, request);
    assert best.Some? ==> best.value.row in services && Score(best.value.row, request).fuzzy > 0;
  }

  // ---- Where each usage row comes from --------------------------------------------

  /** Event `k` completed the row's agreement, which was active then, with the row's outcome. */
  ghost predicate MeteredBy(envId: string, events: seq<Event>, k: int, row: Usage) {
    && 0 <= k < |events| && events[k].Complete? && events[k].outcome == row.outcome
    && var s := Run(envId, events[..k]);
       && row.agreement < |s.ledger| && s.ledger[row.agreement].status == Active
       && s.ledger[row.agreement].collaboration in Reached(s, events[k].collaboration)
  }

  lemma NewRowIsMeteredNow(envId: string, s: State, c: string, outcome: Outcome, u: nat)
    requires Inv(s) && u < |Step(envId, s, Complete(c, outcome)).usage|
    ensures var row := Step(envId, s, Complete(c, outcome)).usage[u];
            if u < |s.usage| then row == s.usage[u]
            else
              && row.outcome == outcome && row.agreement < |s.ledger|
              && s.ledger[row.agreement].status == Active && s.ledger[row.agreement].collaboration in Reached(s, c)
  {
    var after := Step(envId, s, Complete(c, outcome));
    CompletionIsOneHop(envId, s, c, outcome);
    assert forall v :: 0 <= v < |s.usage| ==> after.usage[v] == after.usage[..|s.usage|][v] == s.usage[v];
    if u >= |s.usage| {
      var i := after.usage[u].agreement;
      assert MetersCompleted(after.ledger, after.usage[u]);
      assert !MeteredOnce(s.usage, i);
    }
  }

  /** Whatever the event: a usage row was there before, or a completion metered it just now. */
  lemma RowIsOldOrMetered(envId: string, s: State, event: Event, u: nat)
    requires Inv(s) && u < |Step(envId, s, event).usage|
    ensures var row := Step(envId, s, event).usage[u];
            if u < |s.usage| then row == s.usage[u]
            else
              && event.Complete? && row.outcome == event.outcome && row.agreement < |s.ledger|
              && s.ledger[row.agreement].status == Active
              && s.ledger[row.agreement].collaboration in Reached(s, event.collaboration)
  {
    match event
    case Propose(_, _) =>
    case Accept(_, _, _) =>
    case Complete(c, outcome) => NewRowIsMeteredNow(envId, s, c, outcome, u);
    case Cancel(c) => CancellationIsOneHop(envId, s, c);
  }

  lemma MeteredInLonger(envId: string, front: seq<Event>, events: seq<Event>, k: int, row: Usage)
    requires |front| <= |events| && front == events[..|front|] && MeteredBy(envId, front, k, row)
    ensures MeteredBy(envId, events, k, row)
  {
    assert front[..k] == events[..k];
  }

  /**
   * Over every run, each usage row carries the outcome of a completion in that run: the one that ended its
   * agreement, directly or as a child of the completed collaboration.
   */
  lemma {:induction false} UsageCarriesItsClosing(envId: string, events: seq<Event>, u: nat)
    requires u < |Run(envId, events).usage|
    ensures exists k :: MeteredBy(envId, events, k, Run(envId, events).usage[u])
  {
    if events != [] {
      var front, last := events[..|events| - 1], |events| - 1;
      var before := Run(envId, front);
      EveryReachableState(envId, front);
      RowIsOldOrMetered(envId, before, events[last], u);
      if u < |before.usage| {
        UsageCarriesItsClosing(envId, front, u);
        var k :| MeteredBy(envId, front, k, before.usage[u]);
        MeteredInLonger(envId, front, events, k, before.usage[u]);
      } else {
        assert MeteredBy(envId, events, last, Run(envId, events).usage[u]);
      }
    }
  }

  // ---- Across restarts ---------------------------------------------------------------

  /** What the stored rows keep even though every attachment starts without remembered proposals. */
  ghost predicate Stored(s: State) {
    LedgerOk(s.ledger) && Accounted(s.ledger, s.usage)
  }

  function RunFrom(envId: string, s: State, events: seq<Event>): State {
    if events == [] then s else Step(envId, RunFrom(envId, s, events[..|events| - 1]), events[|events| - 1])
  }

  /** The first attachment starts from nothing. */
  lemma {:induction false} RunStartsEmpty(envId: string, events: seq<Event>)
    ensures Run(envId, events) == RunFrom(envId, State([], [], []), events)
  {
    if events != [] {
      RunStartsEmpty(envId, events[..|events| - 1]);
    }
  }

  /** A fresh attachment over the rows left by the previous one. */
  function Restarted(s: State): State {
    s.(proposals := [])
  }

  lemma {:induction false} ClosingKeepsStored(s: State, children: seq<string>, outcome: Outcome)
    requires Stored(s)
    ensures Stored(CloseChildren(s, children, outcome)) && Stored(CancelChildren(s, children))
  {
    if children != [] {
      var front, last := children[..|children| - 1], children[|children| - 1];
      ClosingKeepsStored(s, front, outcome);
      OneClosingKeepsStored(CloseChildren(s, front, outcome), last, outcome);
      OneClosingKeepsStored(CancelChildren(s, front), last, outcome);
    }
  }

  lemma OneClosingKeepsStored(s: State, c: string, outcome: Outcome)
    requires Stored(s)
    ensures Stored(s.Close(c, outcome).Forget(c)) && Stored(s.CloseUnmetered(c).Forget(c))
    ensures Stored(s.Close(c, outcome)) && Stored(s.CloseUnmetered(c))
  {
    CloseKeepsAccounts(s.ledger, s.usage, c, outcome);
    CancelKeepsAccounts(s.ledger, s.usage, c);
    EndingKeepsLedgerOk(s.ledger, c, AcCompleted);
    EndingKeepsLedgerOk(s.ledger, c, AcCancelled);
  }

  lemma StepKeepsStored(envId: string, s: State, event: Event)
    requires Stored(s)
    ensures Stored(Step(envId, s, event))
  {
    match event
    case Propose(_, _) =>
    case Accept(world, c, responder) => LandingKeepsStored(envId, s, world, c, responder);
    case Complete(c, outcome) =>
      OneClosingKeepsStored(s, c, outcome);
      ClosingKeepsStored(s.Close(c, outcome), ChildrenOf(s.proposals, c), outcome);
    case Cancel(c) =>
      OneClosingKeepsStored(s, c, Success);
      ClosingKeepsStored(s.CloseUnmetered(c), ChildrenOf(s.proposals, c), Success);
  }

  lemma LandingKeepsStored(envId: string, s: State, world: World, c: string, responder: string)
    requires Stored(s)
    ensures Stored(Step(envId, s, Accept(world, c, responder)))
  {
    var after := Step(envId, s, Accept(world, c, responder));
    forall i | 0 <= i < |after.ledger| && Settled(after.ledger[i], AcCompleted)
      ensures MeteredOnce(after.usage, i)
    {
      assert i < |s.ledger| && MeteredOnce(s.usage, i);
    }
    assert forall i :: 0 <= i < |s.ledger| ==> after.ledger[i] == s.ledger[i];
  }

  /**
   * Over any number of restarts, each followed by any events: still at most one active agreement per
   * collaboration and responder, and usage rows still correspond one to one to the completed agreements.
   */
  lemma {:induction false} RestartsKeepTheAccounts(envId: string, attachments: seq<seq<Event>>)
    ensures Stored(AfterAttachments(envId, attachments))
  {
    if attachments != [] {
      var front, last := attachments[..|attachments| - 1], attachments[|attachments| - 1];
      RestartsKeepTheAccounts(envId, front);
      RunKeepsStored(envId, Restarted(AfterAttachments(envId, front)), last);
    }
  }

  function AfterAttachments(envId: string, attachments: seq<seq<Event>>): State {
    if attachments == [] then State([], [], [])
    else RunFrom(envId, Restarted(AfterAttachments(envId, attachments[..|attachments| - 1])), attachments[|attachments| - 1])
  }

  lemma {:induction false} RunKeepsStored(envId: string, s: State, events: seq<Event>)
    requires Stored(s)
    ensures Stored(RunFrom(envId, s, events))
  {
    if events != [] {
      RunKeepsStored(envId, s, events[..|events| - 1]);
      StepKeepsStored(envId, RunFrom(envId, s, events[..|events| - 1]), events[|events| - 1]);
    }
  }

  /**
   * What does not survive a restart: no collaboration is remembered, so a closing reaches no children, and
   * all active agreements are still of remembered collaborations only if there are none.
   */
  lemma RestartForgets(s: State, c: string)
    ensures Reached(Restarted(s), c) == {c}
    ensures Remembered(Restarted(s)) <==> forall i :: 0 <= i < |s.ledger| ==> s.ledger[i].status != Active
  {
  }

  // ---- Until it is proposed again -------------------------------------------------

  predicate Closes(event: Event, c: string) {
    (event.Complete? || event.Cancel?) && event.collaboration == c
  }

  /**
   * Once `c` has been completed or cancelled, neither `c` nor a child remembered at that moment holds
   * an active agreement, and none can land there until the collaboration is proposed again.
   */
  lemma {:induction false} NothingLandsUntilReproposed(envId: string, events: seq<Event>, k: nat, c: string, d: string)
    requires k < |events| && Closes(events[k], c)
    requires d == c || IsChild(Run(envId, events[..k]).proposals, c, d)
    requires forall j :: k < j < |events| && events[j].Propose? ==> events[j].collaboration != d
    ensures NoneOpen(Run(envId, events), d) && !Has(Run(envId, events).proposals, d)
  {
    var front := events[..|events| - 1];
    EveryReachableState(envId, front);
    if k == |events| - 1 {
      ClosedNow(envId, Run(envId, front), events[k], c, d);
    } else {
      assert front[..k] == events[..k];
      NothingLandsUntilReproposed(envId, front, k, c, d);
      StaysClosed(envId, Run(envId, front), events[|events| - 1], d);
    }
  }

  lemma ClosedNow(envId: string, s: State, close: Event, c: string, d: string)
    requires Inv(s) && Closes(close, c) && (d == c || IsChild(s.proposals, c, d))
    ensures NoneOpen(Step(envId, s, close), d) && !Has(Step(envId, s, close).proposals, d)
  {
    ReachedIsOneHop(s, c, d);
    if close.Complete? {
      CompletionIsOneHop(envId, s, c, close.outcome);
    } else {
      CancellationIsOneHop(envId, s, c);
    }
  }

  lemma StaysClosed(envId: string, s: State, event: Event, d: string)
    requires Inv(s) && NoneOpen(s, d) && !Has(s.proposals, d)
    requires event.Propose? ==> event.collaboration != d
    ensures NoneOpen(Step(envId, s, event), d) && !Has(Step(envId, s, event).proposals, d)
  {
    match event
    case Propose(c, proposal) => GetPut(s.proposals, c, proposal, d);
    case Accept(world, c, responder) =>
    case Complete(c, outcome) => CompletionIsOneHop(envId, s, c, outcome);
    case Cancel(c) => CancellationIsOneHop(envId, s, c);
  }

  // ---- Conservation ---------------------------------------------------------------

  function CountActive(ledger: seq<Agreement>): nat {
    if ledger == [] then 0
    else CountActive(ledger[..|ledger| - 1]) + (if ledger[|ledger| - 1].status == Active then 1 else 0)
  }

  function CountSettled(ledger: seq<Agreement>, reason: Reason): nat {
    if ledger == [] then 0
    else CountSettled(ledger[..|ledger| - 1], reason) + (if Settled(ledger[|ledger| - 1], reason) then 1 else 0)
  }

  ghost predicate Lands(envId: string, s: State, accept: Event)
    requires accept.Accept?
  {
    Landing(envId, s, accept.world, accept.collaboration, accept.responder).0 == Landed
  }

  /** How many accepts of the run reported `landed`. */
  ghost function CountLanded(envId: string, events: seq<Event>): nat {
    if events == [] then 0
    else
      var before, event := events[..|events| - 1], events[|events| - 1];
      CountLanded(envId, before)
      + if event.Accept? && Lands(envId, Run(envId, before), event) then 1 else 0
  }

  lemma {:induction false} CountsPartition(ledger: seq<Agreement>)
    requires LedgerOk(ledger)
    ensures |ledger| == CountActive(ledger) + CountSettled(ledger, AcCompleted) + CountSettled(ledger, AcCancelled)
  {
    if ledger != [] {
      assert LedgerOk(ledger[..|ledger| - 1]);
      CountsPartition(ledger[..|ledger| - 1]);
    }
  }

  lemma {:induction false} EndingCounts(ledger: seq<Agreement>, c: string, outcome: Outcome)
    ensures CountSettled(EndAll(ledger, c, AcCompleted), AcCompleted)
         == CountSettled(ledger, AcCompleted) + |Metered(ledger, c, outcome)|
    ensures CountSettled(EndAll(ledger, c, AcCancelled), AcCompleted) == CountSettled(ledger, AcCompleted)
  {
    if ledger != [] {
      var front := ledger[..|ledger| - 1];
      EndingCounts(front, c, outcome);
      assert EndAll(ledger, c, AcCompleted)[..|front|] == EndAll(front, c, AcCompleted);
      assert EndAll(ledger, c, AcCancelled)[..|front|] == EndAll(front, c, AcCancelled);
    }
  }

  ghost predicate UsageCounted(s: State) {
    |s.usage| == CountSettled(s.ledger, AcCompleted)
  }

  lemma {:induction false} ClosingChildrenCounts(s: State, children: seq<string>, outcome: Outcome)
    requires UsageCounted(s)
    ensures UsageCounted(CloseChildren(s, children, outcome)) && UsageCounted(CancelChildren(s, children))
    ensures |CloseChildren(s, children, outcome).ledger| == |CancelChildren(s, children).ledger| == |s.ledger|
  {
    if children != [] {
      var front, last := children[..|children| - 1], children[|children| - 1];
      ClosingChildrenCounts(s, front, outcome);
      EndingCounts(CloseChildren(s, front, outcome).ledger, last, outcome);
      EndingCounts(CancelChildren(s, front).ledger, last, outcome);
    }
  }

  lemma StepCounts(envId: string, s: State, event: Event)
    requires UsageCounted(s)
    ensures var after := Step(envId, s, event);
            && UsageCounted(after)
            && |after.ledger| == |s.ledger| + if event.Accept? && Lands(envId, s, event) then 1 else 0
  {
    match event
    case Propose(c, proposal) =>
    case Accept(world, c, responder) =>
      var after := Step(envId, s, event).ledger;
      if after != s.ledger {
        assert after[..|after| - 1] == s.ledger;
      }
    case Complete(c, outcome) =>
      EndingCounts(s.ledger, c, outcome);
      ClosingChildrenCounts(s.Close(c, outcome), ChildrenOf(s.proposals, c), outcome);
    case Cancel(c) =>
      EndingCounts(s.ledger, c, Success);
      ClosingChildrenCounts(s.CloseUnmetered(c), ChildrenOf(s.proposals, c), Success);
  }

  lemma {:induction false} RunsCount(envId: string, events: seq<Event>)
    ensures UsageCounted(Run(envId, events)) && |Run(envId, events).ledger| == CountLanded(envId, events)
  {
    if events != [] {
      var before, event := events[..|events| - 1], events[|events| - 1];
      RunsCount(envId, before);
      StepCounts(envId, Run(envId, before), event);
    }
  }

  /** Agreements landed = active + completed + cancelled, and usage rows = completed, over every run. */
  lemma LandedIsConserved(envId: string, events: seq<Event>)
    ensures var s := Run(envId, events);
            && CountLanded(envId, events)
               == CountActive(s.ledger) + CountSettled(s.ledger, AcCompleted) + CountSettled(s.ledger, AcCancelled)
            && |s.usage| == CountSettled(s.ledger, AcCompleted)
  {
    EveryReachableState(envId, events);
    CountsPartition(Run(envId, events).ledger);
    RunsCount(envId, events);
  }

  // ---- Longer delegation chains -----------------------------------------------------

  /** `d` is reached from `c` by following `hops` remembered parent links. */
  ghost predicate Descends(proposals: Proposals, c: string, d: string, hops: nat)
    decreases hops
  {
    if hops == 0 then d == c
    else exists m :: Descends(proposals, c, m, hops - 1) && IsChild(proposals, m, d)
  }

  /**
   * Closing `c`, by completion or cancellation, leaves no active agreement anywhere in the delegation chain below
   * it exactly when no descendant beyond the direct children held one.
   */
  lemma WholeChainEndsIff(envId: string, s: State, c: string, close: Event)
    requires Inv(s) && Closes(close, c)
    ensures (forall d, hops :: Descends(s.proposals, c, d, hops) ==> NoneOpen(Step(envId, s, close), d))
       <==> (forall d, hops :: Descends(s.proposals, c, d, hops) && d != c && !IsChild(s.proposals, c, d) ==> NoneOpen(s, d))
  {
    forall d ensures NoneOpen(Step(envId, s, close), d) <==> d == c || IsChild(s.proposals, c, d) || NoneOpen(s, d) {
      ClosingSilences(envId, s, c, close, d);
    }
  }

  lemma ClosingSilences(envId: string, s: State, c: string, close: Event, d: string)
    requires Inv(s) && Closes(close, c)
    ensures NoneOpen(Step(envId, s, close), d) <==> d == c || IsChild(s.proposals, c, d) || NoneOpen(s, d)
  {
    var after, reason := Step(envId, s, close), if close.Complete? then AcCompleted else AcCancelled;
    if close.Complete? {
      CompletionIsOneHop(envId, s, c, close.outcome);
    } else {
      CancellationIsOneHop(envId, s, c);
    }
    ReachedIsOneHop(s, c, d);
    if i :| 0 <= i < |s.ledger| && Open(s.ledger[i], d) {
      assert after.ledger[i] == if d in Reached(s, c) then Ended(s.ledger[i], d, reason) else s.ledger[i];
    }
  }

  const CHAIN: seq<Entry<string, Proposal>> :=
    [Entry("root", Ask(None)), Entry("hop-2", Ask(Some("root"))), Entry("hop-3", Ask(Some("hop-2")))]

  const CHAIN_PROPOSED: seq<Event> :=
    [Propose("root", Ask(None)), Propose("hop-2", Ask(Some("root"))), Propose("hop-3", Ask(Some("hop-2")))]

  function Ask(parent: Option<string>): Proposal {
    Proposal(Some("a"), ["cool"], None, None, parent)
  }

  lemma ChainIsRemembered(envId: string)
    ensures Run(envId, CHAIN_PROPOSED) == State(CHAIN, [], [])
  {
    var e, r := CHAIN_PROPOSED, CHAIN;
    assert e[..2] == [e[0], e[1]] && [e[0], e[1]][..1] == [e[0]] && [e[0]][..0] == [];
    assert Run(envId, []) == State([], [], []);
    assert Run(envId, [e[0]]).proposals == [r[0]];
    assert Put([r[0]], "hop-2", r[1].value) == [r[0]] + Put([], "hop-2", r[1].value) == [r[0], r[1]];
    assert Run(envId, [e[0], e[1]]).proposals == [r[0], r[1]];
    assert [r[0], r[1]][1..] == [r[1]];
    assert Put([r[1]], "hop-3", r[2].value) == [r[1]] + Put([], "hop-3", r[2].value) == [r[1], r[2]];
    assert Put([r[0], r[1]], "hop-3", r[2].value) == [r[0]] + [r[1], r[2]] == r;
  }

  /** A reachable chain of three whose last agreement stays active after its root is cancelled. */
  lemma GrandchildSurvives() returns (envId: string, accept: Event)
    ensures accept.Accept? && accept.collaboration == "hop-3"
    ensures var before := Run(envId, CHAIN_PROPOSED + [accept]);
            var after := Step(envId, before, Cancel("root"));
            && before.proposals == CHAIN && IsChild(CHAIN, "root", "hop-2") && IsChild(CHAIN, "hop-2", "hop-3")
            && !Has(after.proposals, "hop-2") && !NoneOpen(after, "hop-3")
  {
    envId := "env";
    var offer := Offer("svc", "cool", [], {});
    var world := World(map["a" := Agent("env", "alice"), "b" := Agent("env", "bob")], map["b" := [offer]], (x, y) => x == y);
    accept := Accept(world, "hop-3", "b");
    var run := CHAIN_PROPOSED + [accept];
    assert run[..|run| - 1] == CHAIN_PROPOSED;
    ChainIsRemembered(envId);
    ChainLinks();
    OneOfferIsChosen(offer, world.matches);
    assert Landing(envId, State(CHAIN, [], []), world, "hop-3", "b").0 == Landed;
    EveryReachableState(envId, run);
    GrandchildIsNotReached(envId, Run(envId, run));
  }

  lemma ChainLinks()
    ensures IsChild(CHAIN, "root", "hop-2") && IsChild(CHAIN, "hop-2", "hop-3") && !IsChild(CHAIN, "root", "hop-3")
  {
    GetAt(CHAIN, 1);
    GetAt(CHAIN, 2);
  }

  lemma GrandchildIsNotReached(envId: string, s: State)
    requires Inv(s) && s.proposals == CHAIN && |s.ledger| == 1 && Open(s.ledger[0], "hop-3")
    ensures !Has(Step(envId, s, Cancel("root")).proposals, "hop-2")
    ensures !NoneOpen(Step(envId, s, Cancel("root")), "hop-3")
  {
    ChainLinks();
    CancellationIsOneHop(envId, s, "root");
    ReachedIsOneHop(s, "root", "hop-2");
    ReachedIsOneHop(s, "root", "hop-3");
    assert Open(Step(envId, s, Cancel("root")).ledger[0], "hop-3");
  }

  lemma OneOfferIsChosen(offer: Offer, matches: (string, string) -> bool)
    requires offer.semanticType == "cool" && matches("cool", "cool")
    ensures Best([offer], Request(["cool"], matches, None)).Some?
  {
    var request := Request(["cool"], matches, None);
    assert [offer][..0] == [] && ["cool"][..0] == [];
    assert Best([offer][..0], request) == None;
    assert "cool" in Surface(offer);
    assert Reaches(offer, "cool", matches);
    assert CountFuzzy(offer, ["cool"], matches) == 1;
  }
}
