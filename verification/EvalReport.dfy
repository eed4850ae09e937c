/** Sums of a function over a list of event ids. */
module EventSums {
  function Positive(n: int): nat {
    if n < 0 then 0 else n
  }

  function Sum(f: string -> int, es: seq<string>): int {
    if es == [] then 0 else f(es[0]) + Sum(f, es[1..])
  }

  ghost predicate Distinct(es: seq<string>) {
    forall i, j :: 0 <= i < j < |es| ==> es[i] != es[j]
  }

  function Without(es: seq<string>, e: string): seq<string> {
    if es == [] then [] else if es[0] == e then es[1..] else [es[0]] + Without(es[1..], e)
  }

  lemma {:induction false} WithoutDrops(es: seq<string>, e: string)
    requires Distinct(es)
    ensures Distinct(Without(es, e))
    ensures forall x :: x in Without(es, e) <==> x in es && x != e
  {
    if es != [] {
      assert es == [es[0]] + es[1..];
      assert forall x :: x in es[1..] ==> x != es[0];
      WithoutDrops(es[1..], e);
      var rest := Without(es[1..], e);
      assert forall j :: 0 <= j < |rest| ==> rest[j] in rest;
    }
  }

  lemma {:induction false} SumSnoc(f: string -> int, es: seq<string>, e: string)
    ensures Sum(f, es + [e]) == Sum(f, es) + f(e)
  {
    if es == [] {
      assert es + [e] == [e];
    } else {
      assert (es + [e])[1..] == es[1..] + [e];
      SumSnoc(f, es[1..], e);
    }
  }

  lemma {:induction false} SumExtract(f: string -> int, es: seq<string>, e: string)
    requires e in es
    ensures Sum(f, es) == f(e) + Sum(f, Without(es, e))
  {
    if es[0] != e {
      SumExtract(f, es[1..], e);
    }
  }

  lemma {:induction false} SumZero(f: string -> int, es: seq<string>)
    requires forall e :: e in es ==> f(e) == 0
    ensures Sum(f, es) == 0
  {
    if es != [] {
      SumZero(f, es[1..]);
    }
  }

  /** Elements on which `f` is zero do not matter. */
  lemma {:induction false} SumSupport(f: string -> int, few: seq<string>, all: seq<string>)
    requires Distinct(few) && Distinct(all)
    requires forall e :: e in few ==> e in all
    requires forall e :: e in all && e !in few ==> f(e) == 0
    ensures Sum(f, few) == Sum(f, all)
  {
    if few == [] {
      SumZero(f, all);
    } else {
      SumExtract(f, all, few[0]);
      WithoutDrops(all, few[0]);
      SumSupport(f, few[1..], Without(all, few[0]));
    }
  }

  lemma {:induction false} SumAdds(f: string -> int, g: string -> int, h: string -> int, es: seq<string>)
    requires forall e :: e in es ==> f(e) == g(e) + h(e)
    ensures Sum(f, es) == Sum(g, es) + Sum(h, es)
  {
    if es != [] {
      SumAdds(f, g, h, es[1..]);
    }
  }

  lemma SumsBalance(f: string -> int, g: string -> int, h: string -> int, k: string -> int, es: seq<string>)
    requires forall e :: e in es ==> f(e) + g(e) == h(e) + k(e)
    ensures Sum(f, es) + Sum(g, es) == Sum(h, es) + Sum(k, es)
  {
    if es != [] {
      SumsBalance(f, g, h, k, es[1..]);
    }
  }

  lemma {:induction false} SumNonNegative(f: string -> int, es: seq<string>)
    requires forall e :: e in es ==> f(e) >= 0
    ensures Sum(f, es) >= 0
    ensures Sum(f, es) == 0 <==> forall e :: e in es ==> f(e) == 0
  {
    if es != [] {
      SumNonNegative(f, es[1..]);
    }
  }

  lemma {:induction false} SumOrdered(f: string -> int, g: string -> int, es: seq<string>)
    requires forall e :: e in es ==> f(e) <= g(e)
    ensures Sum(f, es) <= Sum(g, es)
  {
    if es != [] {
      SumOrdered(f, g, es[1..]);
    }
  }

  function In(s: set<string>): string -> int {
    (e: string) => if e in s then 1 else 0
  }

  /** A set is counted by its members among any duplicate-free list that contains it. */
  lemma {:induction false} SumIn(s: set<string>, es: seq<string>)
    requires Distinct(es) && forall e :: e in s ==> e in es
    ensures Sum(In(s), es) == |s|
  {
    if es == [] {
      assert s == {};
    } else {
      var rest := s - {es[0]};
      SumIn(rest, es[1..]);
      SameSum(In(s), In(rest), es[1..]);
      assert s == if es[0] in s then rest + {es[0]} else rest;
    }
  }

  lemma {:induction false} SameSum(f: string -> int, g: string -> int, es: seq<string>)
    requires forall e :: e in es ==> f(e) == g(e)
    ensures Sum(f, es) == Sum(g, es)
  {
    if es != [] {
      SameSum(f, g, es[1..]);
    }
  }
}

/** Handshake accounting over trajectory records: groups, initiations and failure causes. */
module EvalReport {
  import opened Options
  import opened OrderedMaps
  import opened EventSums

  const HANDSHAKE_WINDOW_MS := 120000

  /** `Aside` is an nl-interaction or a device-execution record. */
  datatype Kind = Assessment | Response | Aside

  datatype Decision = InitiateAc | Accept | Reject | Cancelled | OtherDecision

  datatype Source = FromTimeout | FromAbort | OtherSource

  /** `emptyShortlist`: the record names no partner service. `recordedMs` is None for an unreadable date. */
  datatype Record = Record(kind: Kind, decision: Decision, source: Source, eventId: string,
                           collaborationId: Option<string>, emptyShortlist: bool, recordedMs: Option<int>)

  datatype Group = Group(accepted: bool, cancelled: bool, events: set<string>, rejects: nat,
                         timedOut: bool, aborted: bool, firstSeen: Option<int>)

  type Groups = seq<Entry<string, Group>>

  datatype Cause = NoPartner | Abandoned | AllRejected | TimedOut | Superseded | Aborted | PendingAtSampling

  datatype Report = Report(initiated: nat, succeeded: nat, failed: nat, cancelled: nat, cancelledByCoordinator: nat,
                           failures: multiset<Cause>)

  // ---- Grouping the responses -------------------------------------------------------------

  function Key(r: Record): string {
    if r.collaborationId.Some? then r.collaborationId.value else r.eventId
  }

  function Earlier(a: Option<int>, b: Option<int>): Option<int> {
    if a.None? then b else if b.None? || a.value <= b.value then a else b
  }

  function Joined(g: Group, r: Record): Group {
    Group(g.accepted || r.decision == Accept,
          g.cancelled || r.decision == Cancelled,
          g.events + {r.eventId},
          g.rejects + if r.decision == Reject then 1 else 0,
          g.timedOut || (r.decision == Cancelled && r.source == FromTimeout),
          g.aborted || (r.decision == Cancelled && r.source == FromAbort),
          Earlier(g.firstSeen, r.recordedMs))
  }

  const NEW_GROUP := Group(false, false, {}, 0, false, false, None)

  function GroupAt(groups: Groups, key: string): Group {
    var g := Get(groups, key);
    if g.Some? then g.value else NEW_GROUP
  }

  function GroupFold(records: seq<Record>): Groups {
    if records == [] then []
    else
      var before, r := GroupFold(records[..|records| - 1]), records[|records| - 1];
      if r.kind == Response then Put(before, Key(r), Joined(GroupAt(before, Key(r)), r)) else before
  }

  method GroupResponses(records: seq<Record>) returns (groups: Groups)
    ensures groups == GroupFold(records)
  {
    groups := [];
    for i := 0 to |records|
      invariant groups == GroupFold(records[..i])
    {
      assert records[..i + 1][..i] == records[..i];
      var r := records[i];
      if r.kind == Response {
        var found := Get(groups, Key(r));
        var g := Join(if found.Some? then found.value else NEW_GROUP, r);
        groups := Put(groups, Key(r), g);
      }
    }
    assert records[..|records|] == records;
  }

  method Join(group: Group, r: Record) returns (g: Group)
    ensures g == Joined(group, r)
  {
    g := group.(events := group.events + {r.eventId});
    if r.recordedMs.Some? && (g.firstSeen.None? || r.recordedMs.value < g.firstSeen.value) {
      g := g.(firstSeen := r.recordedMs);
    }
    if r.decision == Accept {
      g := g.(accepted := true);
    }
    if r.decision == Reject {
      g := g.(rejects := g.rejects + 1);
    }
    if r.decision == Cancelled {
      g := g.(cancelled := true);
      if r.source == FromTimeout {
        g := g.(timedOut := true);
      }
      if r.source == FromAbort {
        g := g.(aborted := true);
      }
    }
  }

  /** The response records of one handshake, in order. */
  function Mine(records: seq<Record>, key: string): (mine: seq<Record>)
    ensures forall r :: r in mine <==> r in records && r.kind == Response && Key(r) == key
  {
    if records == [] then []
    else
      var before, r := Mine(records[..|records| - 1], key), records[|records| - 1];
      assert records == records[..|records| - 1] + [r];
      if r.kind == Response && Key(r) == key then before + [r] else before
  }

  predicate IsReject(r: Record) {
    r.decision == Reject
  }

  function Rejects(records: seq<Record>): nat {
    if records == [] then 0
    else Rejects(records[..|records| - 1]) + if IsReject(records[|records| - 1]) then 1 else 0
  }

  ghost predicate IsEarliest(first: Option<int>, records: seq<Record>) {
    && (first.Some? ==> exists r :: r in records && r.recordedMs == first)
    && forall r :: r in records && r.recordedMs.Some? ==> first.Some? && first.value <= r.recordedMs.value
  }

  /** What a group must say about the response records of its handshake. */
  ghost predicate Summarizes(g: Group, mine: seq<Record>) {
    && (g.accepted <==> exists r :: r in mine && r.decision == Accept)
    && (g.cancelled <==> exists r :: r in mine && r.decision == Cancelled)
    && (g.timedOut <==> exists r :: r in mine && r.decision == Cancelled && r.source == FromTimeout)
    && (g.aborted <==> exists r :: r in mine && r.decision == Cancelled && r.source == FromAbort)
    && (forall e :: e in g.events <==> exists r :: r in mine && r.eventId == e)
    && g.rejects == Rejects(mine)
    && IsEarliest(g.firstSeen, mine)
  }

  lemma JoinSummarizes(g: Group, mine: seq<Record>, r: Record)
    requires Summarizes(g, mine)
    ensures Summarizes(Joined(g, r), mine + [r])
  {
    var next, all := Joined(g, r), mine + [r];
    assert all[..|mine|] == mine && all[|mine|] == r && r in all;
    assert forall x :: x in all <==> x in mine || x == r;
  }

  /** Each handshake with a response has exactly one group, and the group summarizes exactly its responses. */
  lemma {:induction false} GroupsSummarizeTheResponses(records: seq<Record>)
    ensures DistinctKeys(GroupFold(records))
    ensures forall key :: Has(GroupFold(records), key) <==> Mine(records, key) != []
    ensures forall key :: Summarizes(GroupAt(GroupFold(records), key), Mine(records, key))
  {
    if records != [] {
      var front, r := records[..|records| - 1], records[|records| - 1];
      GroupsSummarizeTheResponses(front);
      var before, groups := GroupFold(front), GroupFold(records);
      if r.kind == Response {
        PutKeepsDistinct(before, Key(r), Joined(GroupAt(before, Key(r)), r));
        forall key
          ensures Has(groups, key) <==> Mine(records, key) != []
          ensures Summarizes(GroupAt(groups, key), Mine(records, key))
        {
          GetPut(before, Key(r), Joined(GroupAt(before, Key(r)), r), key);
          assert Summarizes(GroupAt(before, key), Mine(front, key));
          if key == Key(r) {
            JoinSummarizes(GroupAt(before, key), Mine(front, key), r);
          }
        }
      } else {
        forall key ensures Mine(records, key) == Mine(front, key) {
        }
      }
    }
  }

  // ---- Initiations --------------------------------------------------------------------------

  predicate IsInitiation(r: Record) {
    r.kind == Assessment && r.decision == InitiateAc
  }

  function Initiations(records: seq<Record>): (inits: seq<Record>)
    ensures forall r :: r in inits ==> IsInitiation(r)
  {
    if records == [] then []
    else
      var before, r := Initiations(records[..|records| - 1]), records[|records| - 1];
      if IsInitiation(r) then before + [r] else before
  }

  /** How many of `inits` are for event `e`. */
  function InitiationsOf(inits: seq<Record>, e: string): nat {
    if inits == [] then 0
    else InitiationsOf(inits[..|inits| - 1], e) + if inits[|inits| - 1].eventId == e then 1 else 0
  }

  function ByEventFold(inits: seq<Record>): seq<Entry<string, nat>> {
    if inits == [] then []
    else
      var before, e := ByEventFold(inits[..|inits| - 1]), inits[|inits| - 1].eventId;
      Put<string, nat>(before, e, CountAt(before, e) + 1)
  }

  function CountAt(counts: seq<Entry<string, nat>>, e: string): nat {
    if Has(counts, e) then Get(counts, e).value else 0
  }

  lemma {:induction false} CountsAreInitiations(inits: seq<Record>)
    ensures DistinctKeys(ByEventFold(inits))
    ensures forall e :: CountAt(ByEventFold(inits), e) == InitiationsOf(inits, e)
  {
    if inits != [] {
      var front, e := inits[..|inits| - 1], inits[|inits| - 1].eventId;
      CountsAreInitiations(front);
      var before := ByEventFold(front);
      PutKeepsDistinct<string, nat>(before, e, CountAt(before, e) + 1);
      forall x ensures CountAt(ByEventFold(inits), x) == InitiationsOf(inits, x) {
        GetPut<string, nat>(before, e, CountAt(before, e) + 1, x);
        assert CountAt(before, x) == InitiationsOf(front, x);
      }
    }
  }

  /** The first recorded initiation of a handshake. */
  function StartOf(inits: seq<Record>, key: string): Option<int> {
    if inits == [] then None
    else
      var before, r := StartOf(inits[..|inits| - 1], key), inits[|inits| - 1];
      if Key(r) == key then Earlier(before, r.recordedMs) else before
  }

  function SamplingMs(records: seq<Record>): int {
    if records == [] then 0
    else
      var before, ms := SamplingMs(records[..|records| - 1]), records[|records| - 1].recordedMs;
      if ms.Some? && ms.value > before then ms.value else before
  }

  // ---- Causes ----------------------------------------------------------------------------------

  /** What the attribution reads besides the groups. */
  datatype Facts = Facts(inits: seq<Record>, samplingMs: int)

  predicate WindowOpen(samplingMs: int, start: Option<int>) {
    start.Some? && samplingMs > 0 && samplingMs - start.value < HANDSHAKE_WINDOW_MS
  }

  predicate EmptyInitiation(inits: seq<Record>, key: string) {
    exists i :: 0 <= i < |inits| && Key(inits[i]) == key && inits[i].emptyShortlist
  }

  function CauseOfGroup(facts: Facts, key: string, g: Group): (c: Cause)
    ensures c != Superseded
  {
    var start := StartOf(facts.inits, key);
    if EmptyInitiation(facts.inits, key) then NoPartner
    else if g.rejects > 0 then AllRejected
    else if g.timedOut then TimedOut
    else if g.aborted then Aborted
    else if g.cancelled then Abandoned
    else if WindowOpen(facts.samplingMs, if start.Some? then start else g.firstSeen) then PendingAtSampling
    else Abandoned
  }

  function CauseAlone(facts: Facts, r: Record): (c: Cause)
    ensures c != Superseded
  {
    if r.emptyShortlist then NoPartner
    else if WindowOpen(facts.samplingMs, r.recordedMs) then PendingAtSampling
    else Abandoned
  }

  /** Every handshake that nobody accepted, under its own cause. */
  function GroupCauses(facts: Facts, groups: Groups): multiset<Cause> {
    if groups == [] then multiset{}
    else
      var last := groups[|groups| - 1];
      GroupCauses(facts, groups[..|groups| - 1])
      + if last.value.accepted then multiset{} else multiset{CauseOfGroup(facts, last.key, last.value)}
  }

  /** The initiations of one event that has no handshake, each under its own cause. */
  function LoneCauses(facts: Facts, inits: seq<Record>, e: string): multiset<Cause> {
    if inits == [] then multiset{}
    else
      var r := inits[|inits| - 1];
      LoneCauses(facts, inits[..|inits| - 1], e)
      + if r.eventId == e then multiset{CauseAlone(facts, r)} else multiset{}
  }

  function AcceptedEvents(groups: Groups): set<string> {
    if groups == [] then {}
    else
      var g := groups[|groups| - 1].value;
      AcceptedEvents(groups[..|groups| - 1]) + if g.accepted then g.events else {}
  }

  /** The handshakes of an event, in order. */
  function KeysOf(groups: Groups, e: string): seq<string> {
    if groups == [] then []
    else
      var last := groups[|groups| - 1];
      KeysOf(groups[..|groups| - 1], e) + if e in last.value.events then [last.key] else []
  }

  function FirstFailed(groups: Groups, keys: seq<string>): Option<string> {
    if keys == [] then None
    else if !GroupAt(groups, keys[0]).accepted then Some(keys[0])
    else FirstFailed(groups, keys[1..])
  }

  function Copies(c: Cause, n: nat): multiset<Cause> {
    multiset{}[c := n]
  }

  /** The causes of an event's initiations beyond one for each of its handshakes. */
  function ExtraCauses(facts: Facts, groups: Groups, e: string, count: nat): multiset<Cause> {
    var keys := KeysOf(groups, e);
    if count <= |keys| then multiset{}
    else if e in AcceptedEvents(groups) then Copies(Superseded, count - |keys|)
    else
      var failed := FirstFailed(groups, keys);
      if failed.Some? then Copies(CauseOfGroup(facts, failed.value, GroupAt(groups, failed.value)), count - |keys|)
      else LoneCauses(facts, facts.inits, e)
  }

  function AllExtraCauses(facts: Facts, groups: Groups, counts: seq<Entry<string, nat>>): multiset<Cause> {
    if counts == [] then multiset{}
    else
      var last := counts[|counts| - 1];
      AllExtraCauses(facts, groups, counts[..|counts| - 1]) + ExtraCauses(facts, groups, last.key, last.value)
  }

  function FactsOf(records: seq<Record>): Facts {
    Facts(Initiations(records), SamplingMs(records))
  }

  function Failures(records: seq<Record>): multiset<Cause> {
    var facts, groups := FactsOf(records), GroupFold(records);
    GroupCauses(facts, groups) + AllExtraCauses(facts, groups, ByEventFold(facts.inits))
  }

  // ---- Counters ------------------------------------------------------------------------------------

  function Succeeded(groups: Groups): (n: nat)
    ensures n <= |groups|
  {
    if groups == [] then 0
    else Succeeded(groups[..|groups| - 1]) + if groups[|groups| - 1].value.accepted then 1 else 0
  }

  function CancelledGroups(groups: Groups): nat {
    if groups == [] then 0
    else
      var g := groups[|groups| - 1].value;
      CancelledGroups(groups[..|groups| - 1]) + if !g.accepted && g.cancelled then 1 else 0
  }

  /** Cancelled handshakes of events that another handshake settled. */
  function CoordinatedGroups(groups: Groups, accepted: set<string>): nat {
    if groups == [] then 0
    else
      var g := groups[|groups| - 1].value;
      CoordinatedGroups(groups[..|groups| - 1], accepted)
      + if !g.accepted && g.cancelled && g.events * accepted != {} then 1 else 0
  }

  /** Initiations that the coordinator merged into another one of the same event. */
  function Deduplicated(groups: Groups, counts: seq<Entry<string, nat>>): nat {
    if counts == [] then 0
    else
      var last := counts[|counts| - 1];
      var kept := |KeysOf(groups, last.key)|;
      Deduplicated(groups, counts[..|counts| - 1]) + if 0 < kept < last.value then last.value - kept else 0
  }

  function Max(a: nat, b: nat): nat {
    if a < b then b else a
  }

  function HandshakeReport(records: seq<Record>): Report {
    var groups, inits := GroupFold(records), Initiations(records);
    var initiated := Max(|inits|, |groups|);
    Report(initiated, Succeeded(groups), initiated - Succeeded(groups), CancelledGroups(groups),
           CoordinatedGroups(groups, AcceptedEvents(groups)) + Deduplicated(groups, ByEventFold(inits)),
           Failures(records))
  }

  // ---- The aggregation itself --------------------------------------------------------------------------

  method CollectInitiations(records: seq<Record>) returns (inits: seq<Record>, samplingMs: int)
    ensures inits == Initiations(records) && samplingMs == SamplingMs(records)
  {
    inits, samplingMs := [], 0;
    for i := 0 to |records|
      invariant inits == Initiations(records[..i]) && samplingMs == SamplingMs(records[..i])
    {
      assert records[..i + 1][..i] == records[..i];
      var r := records[i];
      if r.recordedMs.Some? && r.recordedMs.value > samplingMs {
        samplingMs := r.recordedMs.value;
      }
      if IsInitiation(r) {
        inits := inits + [r];
      }
    }
    assert records[..|records|] == records;
  }

  /** `starts` is the looked-up form of StartOf. */
  ghost predicate AreStarts(starts: map<string, int>, inits: seq<Record>) {
    forall key :: StartOf(inits, key) == if key in starts then Some(starts[key]) else None
  }

  method IndexInitiations(inits: seq<Record>) returns (counts: seq<Entry<string, nat>>, starts: map<string, int>)
    ensures counts == ByEventFold(inits) && AreStarts(starts, inits)
  {
    counts, starts := [], map[];
    for i := 0 to |inits|
      invariant counts == ByEventFold(inits[..i]) && AreStarts(starts, inits[..i])
    {
      assert inits[..i + 1][..i] == inits[..i];
      var r := inits[i];
      var n := Get(counts, r.eventId);
      counts := Put<string, nat>(counts, r.eventId, (if n.Some? then n.value else 0) + 1);
      if r.recordedMs.Some? {
        var key, ms := Key(r), r.recordedMs.value;
        starts := starts[key := if key in starts && starts[key] <= ms then starts[key] else ms];
      }
    }
    assert inits[..|inits|] == inits;
  }

  method CountGroups(groups: Groups) returns (succeeded: nat, cancelled: nat, coordinated: nat, accepted: set<string>)
    ensures succeeded == Succeeded(groups) && cancelled == CancelledGroups(groups)
    ensures accepted == AcceptedEvents(groups) && coordinated == CoordinatedGroups(groups, accepted)
  {
    succeeded, cancelled, coordinated, accepted := 0, 0, 0, {};
    for i := 0 to |groups|
      invariant succeeded == Succeeded(groups[..i]) && cancelled == CancelledGroups(groups[..i])
      invariant accepted == AcceptedEvents(groups[..i])
    {
      assert groups[..i + 1][..i] == groups[..i];
      var g := groups[i].value;
      if g.accepted {
        succeeded := succeeded + 1;
        accepted := accepted + g.events;
      } else if g.cancelled {
        cancelled := cancelled + 1;
      }
    }
    for i := 0 to |groups|
      invariant coordinated == CoordinatedGroups(groups[..i], accepted)
    {
      assert groups[..i + 1][..i] == groups[..i];
      var g := groups[i].value;
      if !g.accepted && g.cancelled && g.events * accepted != {} {
        coordinated := coordinated + 1;
      }
    }
    assert groups[..|groups|] == groups;
  }

  method FindCause(facts: Facts, starts: map<string, int>, key: string, g: Group) returns (c: Cause)
    requires AreStarts(starts, facts.inits)
    ensures c == CauseOfGroup(facts, key, g)
  {
    if EmptyInitiation(facts.inits, key) {
      return NoPartner;
    }
    if g.rejects > 0 {
      return AllRejected;
    }
    if g.timedOut {
      return TimedOut;
    }
    if g.aborted {
      return Aborted;
    }
    if g.cancelled {
      return Abandoned;
    }
    var start := if key in starts then Some(starts[key]) else g.firstSeen;
    c := if WindowOpen(facts.samplingMs, start) then PendingAtSampling else Abandoned;
  }

  method AttributeAlone(facts: Facts, e: string) returns (causes: multiset<Cause>)
    ensures causes == LoneCauses(facts, facts.inits, e)
  {
    causes := multiset{};
    for i := 0 to |facts.inits|
      invariant causes == LoneCauses(facts, facts.inits[..i], e)
    {
      assert facts.inits[..i + 1][..i] == facts.inits[..i];
      var r := facts.inits[i];
      if r.eventId == e {
        var open := WindowOpen(facts.samplingMs, r.recordedMs);
        causes := causes + multiset{if r.emptyShortlist then NoPartner else if open then PendingAtSampling else Abandoned};
      }
    }
    assert facts.inits[..|facts.inits|] == facts.inits;
  }

  method KeysOfEvent(groups: Groups, e: string) returns (keys: seq<string>)
    ensures keys == KeysOf(groups, e)
  {
    keys := [];
    for i := 0 to |groups|
      invariant keys == KeysOf(groups[..i], e)
    {
      assert groups[..i + 1][..i] == groups[..i];
      if e in groups[i].value.events {
        keys := keys + [groups[i].key];
      }
    }
    assert groups[..|groups|] == groups;
  }

  method AttributeGroups(facts: Facts, starts: map<string, int>, groups: Groups) returns (failures: multiset<Cause>)
    requires AreStarts(starts, facts.inits)
    ensures failures == GroupCauses(facts, groups)
  {
    failures := multiset{};
    for i := 0 to |groups|
      invariant failures == GroupCauses(facts, groups[..i])
    {
      assert groups[..i + 1][..i] == groups[..i];
      if !groups[i].value.accepted {
        var c := FindCause(facts, starts, groups[i].key, groups[i].value);
        failures := failures + multiset{c};
      }
    }
    assert groups[..|groups|] == groups;
  }

  method AttributeExtras(facts: Facts, starts: map<string, int>, groups: Groups, accepted: set<string>,
                         counts: seq<Entry<string, nat>>)
    returns (deduplicated: nat, failures: multiset<Cause>)
    requires AreStarts(starts, facts.inits)
    requires accepted == AcceptedEvents(groups)
    ensures deduplicated == Deduplicated(groups, counts)
    ensures failures == AllExtraCauses(facts, groups, counts)
  {
    deduplicated, failures := 0, multiset{};
    for i := 0 to |counts|
      invariant deduplicated == Deduplicated(groups, counts[..i])
      invariant failures == AllExtraCauses(facts, groups, counts[..i])
    {
      assert counts[..i + 1][..i] == counts[..i];
      var e, count := counts[i].key, counts[i].value;
      var keys := KeysOfEvent(groups, e);
      var extra: multiset<Cause> := multiset{};
      if count > |keys| {
        if |keys| > 0 {
          deduplicated := deduplicated + count - |keys|;
        }
        if e in accepted {
          extra := extra[Superseded := count - |keys|];
        } else {
          var failed := FirstFailed(groups, keys);
          if failed.Some? {
            var c := FindCause(facts, starts, failed.value, GroupAt(groups, failed.value));
            extra := extra[c := count - |keys|];
          } else {
            extra := AttributeAlone(facts, e);
          }
        }
      }
      failures := failures + extra;
    }
    assert counts[..|counts|] == counts;
  }

  method AggregateHandshakes(records: seq<Record>) returns (report: Report)
    ensures report == HandshakeReport(records)
  {
    var groups := GroupResponses(records);
    var inits, samplingMs := CollectInitiations(records);
    var counts, starts := IndexInitiations(inits);
    var succeeded, cancelled, coordinated, accepted := CountGroups(groups);
    var facts := Facts(inits, samplingMs);
    var own := AttributeGroups(facts, starts, groups);
    var deduplicated, extra := AttributeExtras(facts, starts, groups, accepted, counts);
    var initiated := Max(|inits|, |groups|);
    report := Report(initiated, succeeded, initiated - succeeded, cancelled, coordinated + deduplicated, own + extra);
  }

  // ---- Every failure lands in one bucket, every handshake and initiation in one sum ----------------------

  function InitiationsPer(inits: seq<Record>): string -> int {
    (e: string) => InitiationsOf(inits, e)
  }

  function GroupsPer(groups: Groups): string -> int {
    (e: string) => |KeysOf(groups, e)|
  }

  function InitiatedOn(records: seq<Record>, e: string): nat {
    InitiationsOf(Initiations(records), e)
  }

  function HandshakesOn(records: seq<Record>, e: string): nat {
    |KeysOf(GroupFold(records), e)|
  }

  /** Initiations of an event beyond its handshakes. */
  function Surplus(records: seq<Record>): string -> int {
    (e: string) => Positive(InitiatedOn(records, e) - HandshakesOn(records, e))
  }

  /** Handshakes of an event beyond its initiations. */
  function Shortfall(records: seq<Record>): string -> int {
    (e: string) => Positive(HandshakesOn(records, e) - InitiatedOn(records, e))
  }

  /** `es` lists the events of all records, each once. */
  ghost predicate ListsEvents(es: seq<string>, records: seq<Record>) {
    Distinct(es) && forall r :: r in records ==> r.eventId in es
  }

  /** Every record list has such a list of events. */
  function EventsOf(records: seq<Record>): (es: seq<string>)
    ensures ListsEvents(es, records)
  {
    if records == [] then []
    else
      var before, r := EventsOf(records[..|records| - 1]), records[|records| - 1];
      assert records == records[..|records| - 1] + [r];
      if r.eventId in before then before else before + [r.eventId]
  }

  lemma {:induction false} OwnCausesAreCounted(facts: Facts, groups: Groups)
    ensures |GroupCauses(facts, groups)| == |groups| - Succeeded(groups)
  {
    if groups != [] {
      OwnCausesAreCounted(facts, groups[..|groups| - 1]);
    }
  }

  lemma {:induction false} LoneCausesAreCounted(facts: Facts, inits: seq<Record>, e: string)
    ensures |LoneCauses(facts, inits, e)| == InitiationsOf(inits, e)
  {
    if inits != [] {
      LoneCausesAreCounted(facts, inits[..|inits| - 1], e);
    }
  }

  ghost predicate IsHandshakeOf(groups: Groups, i: int, e: string) {
    0 <= i < |groups| && e in groups[i].value.events
  }

  lemma {:induction false} KeysAreHandshakes(groups: Groups, e: string, key: string)
    requires key in KeysOf(groups, e)
    ensures exists i :: IsHandshakeOf(groups, i, e) && groups[i].key == key
  {
    var last := |groups| - 1;
    if key in KeysOf(groups[..last], e) {
      KeysAreHandshakes(groups[..last], e, key);
      var i :| IsHandshakeOf(groups[..last], i, e) && groups[..last][i].key == key;
      assert IsHandshakeOf(groups, i, e);
    } else {
      assert IsHandshakeOf(groups, last, e);
    }
  }

  lemma {:induction false} AcceptedEventsAreThose(groups: Groups, e: string)
    ensures e in AcceptedEvents(groups) <==> exists i :: IsHandshakeOf(groups, i, e) && groups[i].value.accepted
  {
    if groups != [] {
      var last := |groups| - 1;
      AcceptedEventsAreThose(groups[..last], e);
      if i :| IsHandshakeOf(groups, i, e) && groups[i].value.accepted {
        assert i < last ==> IsHandshakeOf(groups[..last], i, e) && groups[..last][i].value.accepted;
      }
      if e in AcceptedEvents(groups) {
        if e in AcceptedEvents(groups[..last]) {
          var i :| IsHandshakeOf(groups[..last], i, e) && groups[..last][i].value.accepted;
          assert IsHandshakeOf(groups, i, e);
        } else {
          assert IsHandshakeOf(groups, last, e);
        }
      }
    }
  }

  /** An event with handshakes, none of them accepted, has a failed handshake to blame: the lookup never misses. */
  lemma FailedHandshakeExists(groups: Groups, e: string)
    requires DistinctKeys(groups) && e !in AcceptedEvents(groups) && KeysOf(groups, e) != []
    ensures FirstFailed(groups, KeysOf(groups, e)) == Some(KeysOf(groups, e)[0])
  {
    var key := KeysOf(groups, e)[0];
    KeysAreHandshakes(groups, e, key);
    var i :| IsHandshakeOf(groups, i, e) && groups[i].key == key;
    GetAt(groups, i);
    AcceptedEventsAreThose(groups, e);
  }

  lemma ExtraCausesAreCounted(facts: Facts, groups: Groups, e: string)
    requires DistinctKeys(groups)
    ensures |ExtraCauses(facts, groups, e, InitiationsOf(facts.inits, e))|
            == Positive(InitiationsOf(facts.inits, e) - |KeysOf(groups, e)|)
  {
    if e !in AcceptedEvents(groups) && KeysOf(groups, e) != [] {
      FailedHandshakeExists(groups, e);
    }
    LoneCausesAreCounted(facts, facts.inits, e);
  }

  function Keys(counts: seq<Entry<string, nat>>): (keys: seq<string>)
    ensures |keys| == |counts|
    ensures forall i :: 0 <= i < |counts| ==> keys[i] == counts[i].key
  {
    if counts == [] then [] else Keys(counts[..|counts| - 1]) + [counts[|counts| - 1].key]
  }

  ghost predicate CountsInitiations(counts: seq<Entry<string, nat>>, inits: seq<Record>) {
    forall i :: 0 <= i < |counts| ==> counts[i].value == InitiationsOf(inits, counts[i].key)
  }

  lemma {:induction false} AllExtrasAreCounted(records: seq<Record>, counts: seq<Entry<string, nat>>)
    requires DistinctKeys(GroupFold(records)) && CountsInitiations(counts, Initiations(records))
    ensures |AllExtraCauses(FactsOf(records), GroupFold(records), counts)| == Sum(Surplus(records), Keys(counts))
  {
    if counts != [] {
      var front, e := counts[..|counts| - 1], counts[|counts| - 1].key;
      AllExtrasAreCounted(records, front);
      ExtraCausesAreCounted(FactsOf(records), GroupFold(records), e);
      SumSnoc(Surplus(records), Keys(front), e);
    }
  }

  /** The index lists every initiated event once, with its number of initiations. */
  lemma IndexIsComplete(inits: seq<Record>)
    ensures var counts := ByEventFold(inits);
            && CountsInitiations(counts, inits) && Distinct(Keys(counts))
            && forall e :: e in Keys(counts) || InitiationsOf(inits, e) == 0
  {
    var counts := ByEventFold(inits);
    CountsAreInitiations(inits);
    forall i | 0 <= i < |counts| ensures counts[i].value == InitiationsOf(inits, counts[i].key) {
      GetAt(counts, i);
      assert CountAt(counts, counts[i].key) == InitiationsOf(inits, counts[i].key);
    }
    forall e ensures e in Keys(counts) || InitiationsOf(inits, e) == 0 {
      assert CountAt(counts, e) == InitiationsOf(inits, e);
      if Has(counts, e) {
        GetFinds(counts, e);
        var i :| 0 <= i < |counts| && counts[i].key == e;
        assert Keys(counts)[i] == e;
      }
    }
  }

  lemma {:induction false} InitiationsAreRecords(records: seq<Record>)
    ensures forall r :: r in Initiations(records) <==> r in records && IsInitiation(r)
  {
    if records != [] {
      InitiationsAreRecords(records[..|records| - 1]);
      assert records == records[..|records| - 1] + [records[|records| - 1]];
    }
  }

  lemma {:induction false} NoInitiationElsewhere(inits: seq<Record>, e: string)
    requires forall r :: r in inits ==> r.eventId != e
    ensures InitiationsOf(inits, e) == 0
  {
    if inits != [] {
      NoInitiationElsewhere(inits[..|inits| - 1], e);
    }
  }

  lemma {:induction false} CountedAtLeastOnce(inits: seq<Record>, e: string)
    requires e in Keys(ByEventFold(inits))
    ensures InitiationsOf(inits, e) > 0
  {
    CountsAreInitiations(inits);
    var counts := ByEventFold(inits);
    var i :| 0 <= i < |Keys(counts)| && Keys(counts)[i] == e;
    GetAt(counts, i);
    AllCountsPositive(inits);
    assert CountAt(counts, e) == InitiationsOf(inits, e);
  }

  lemma {:induction false} AllCountsPositive(inits: seq<Record>)
    ensures forall entry :: entry in ByEventFold(inits) ==> entry.value > 0
  {
    if inits != [] {
      var front, e := inits[..|inits| - 1], inits[|inits| - 1].eventId;
      AllCountsPositive(front);
      CountsAreInitiations(front);
      var before := ByEventFold(front);
      forall entry | entry in ByEventFold(inits) ensures entry.value > 0 {
        PutMembers<string, nat>(before, e, CountAt(before, e) + 1, entry);
      }
    }
  }

  lemma SurplusIsIndexed(records: seq<Record>, es: seq<string>)
    requires ListsEvents(es, records)
    ensures Sum(Surplus(records), Keys(ByEventFold(Initiations(records)))) == Sum(Surplus(records), es)
  {
    var inits := Initiations(records);
    var keys := Keys(ByEventFold(inits));
    IndexIsComplete(inits);
    InitiationsAreRecords(records);
    forall e | e in keys ensures e in es {
      CountedAtLeastOnce(inits, e);
      if e !in es {
        NoInitiationElsewhere(inits, e);
      }
    }
    SumSupport(Surplus(records), keys, es);
  }

  /**
   * The failure buckets of any record list add up to the handshakes that nobody accepted plus, event by
   * event, the initiations beyond the event's handshakes.
   */
  lemma BucketsAddUp(records: seq<Record>, es: seq<string>)
    requires ListsEvents(es, records)
    ensures var groups := GroupFold(records);
            |Failures(records)| == |groups| - Succeeded(groups) + Sum(Surplus(records), es)
  {
    var facts, groups := FactsOf(records), GroupFold(records);
    GroupsSummarizeTheResponses(records);
    IndexIsComplete(facts.inits);
    OwnCausesAreCounted(facts, groups);
    AllExtrasAreCounted(records, ByEventFold(facts.inits));
    SurplusIsIndexed(records, es);
  }

  // ---- Do the buckets add up to `failed`? -------------------------------------------------------------------

  function Memberships(groups: Groups): nat {
    if groups == [] then 0 else Memberships(groups[..|groups| - 1]) + |groups[|groups| - 1].value.events|
  }

  lemma {:induction false} InitiationsSum(inits: seq<Record>, es: seq<string>)
    requires Distinct(es) && forall r :: r in inits ==> r.eventId in es
    ensures Sum(InitiationsPer(inits), es) == |inits|
  {
    if inits == [] {
      SumZero(InitiationsPer(inits), es);
    } else {
      var front, e := inits[..|inits| - 1], inits[|inits| - 1].eventId;
      InitiationsSum(front, es);
      SumIn({e}, es);
      SumAdds(InitiationsPer(inits), InitiationsPer(front), In({e}), es);
    }
  }

  lemma {:induction false} MembershipsSum(groups: Groups, es: seq<string>)
    requires Distinct(es)
    requires forall i, e :: IsHandshakeOf(groups, i, e) ==> e in es
    ensures Sum(GroupsPer(groups), es) == Memberships(groups)
  {
    if groups == [] {
      SumZero(GroupsPer(groups), es);
    } else {
      var front, events := groups[..|groups| - 1], groups[|groups| - 1].value.events;
      forall i, e | IsHandshakeOf(front, i, e) ensures e in es {
        assert IsHandshakeOf(groups, i, e);
      }
      forall e | e in events ensures e in es {
        assert IsHandshakeOf(groups, |groups| - 1, e);
      }
      MembershipsSum(front, es);
      SumIn(events, es);
      SumAdds(GroupsPer(groups), GroupsPer(front), In(events), es);
    }
  }

  lemma HandshakeEventsAreListed(records: seq<Record>, es: seq<string>)
    requires ListsEvents(es, records)
    ensures forall i, e :: IsHandshakeOf(GroupFold(records), i, e) ==> e in es
  {
    var groups := GroupFold(records);
    GroupsSummarizeTheResponses(records);
    forall i, e | IsHandshakeOf(groups, i, e) ensures e in es {
      GetAt(groups, i);
      assert Summarizes(GroupAt(groups, groups[i].key), Mine(records, groups[i].key));
    }
  }

  lemma SurplusAt(records: seq<Record>, e: string)
    ensures Surplus(records)(e) == Positive(InitiatedOn(records, e) - HandshakesOn(records, e))
  {
  }

  lemma ShortfallAt(records: seq<Record>, e: string)
    ensures Shortfall(records)(e) == Positive(HandshakesOn(records, e) - InitiatedOn(records, e))
  {
  }

  /** Surplus and shortfall balance initiations against handshake memberships. */
  lemma SurplusBalancesShortfall(records: seq<Record>, es: seq<string>)
    requires ListsEvents(es, records)
    ensures Sum(Surplus(records), es) + Memberships(GroupFold(records))
            == Sum(Shortfall(records), es) + |Initiations(records)|
  {
    var groups, inits := GroupFold(records), Initiations(records);
    InitiationsAreRecords(records);
    InitiationsSum(inits, es);
    HandshakeEventsAreListed(records, es);
    MembershipsSum(groups, es);
    forall e ensures Surplus(records)(e) + GroupsPer(groups)(e) == Shortfall(records)(e) + InitiationsPer(inits)(e) {
      SurplusAt(records, e);
      ShortfallAt(records, e);
    }
    SumsBalance(Surplus(records), GroupsPer(groups), Shortfall(records), InitiationsPer(inits), es);
  }

  /** Handshake memberships beyond one event per handshake. */
  function Spread(groups: Groups): int {
    Memberships(groups) - |groups|
  }

  /** The documented identity: the buckets of the report add up to its `failed`. */
  ghost predicate BucketsSumToFailed(records: seq<Record>) {
    |HandshakeReport(records).failures| == HandshakeReport(records).failed
  }

  ghost predicate NoEventHasMoreInitiations(records: seq<Record>, es: seq<string>) {
    forall e :: e in es ==> InitiatedOn(records, e) <= HandshakesOn(records, e)
  }

  ghost predicate NoEventHasFewerInitiations(records: seq<Record>, es: seq<string>) {
    forall e :: e in es ==> InitiatedOn(records, e) >= HandshakesOn(records, e)
  }

  lemma SurplusIsZeroIff(records: seq<Record>, es: seq<string>)
    ensures Sum(Surplus(records), es) >= 0
    ensures Sum(Surplus(records), es) == 0 <==> NoEventHasMoreInitiations(records, es)
  {
    SumNonNegative(Surplus(records), es);
    assert forall e :: Surplus(records)(e) == 0 <==> InitiatedOn(records, e) <= HandshakesOn(records, e);
  }

  lemma ShortfallIsZeroIff(records: seq<Record>, es: seq<string>)
    ensures Sum(Shortfall(records), es) >= 0
    ensures Sum(Shortfall(records), es) == 0 <==> NoEventHasFewerInitiations(records, es)
  {
    SumNonNegative(Shortfall(records), es);
    assert forall e :: Shortfall(records)(e) == 0 <==> InitiatedOn(records, e) >= HandshakesOn(records, e);
  }

  /** Exactly when the identity holds, for all record lists. */
  lemma IdentityHoldsIff(records: seq<Record>, es: seq<string>)
    requires ListsEvents(es, records)
    ensures var surplus, shortfall := Sum(Surplus(records), es), Sum(Shortfall(records), es);
            var spread := Spread(GroupFold(records));
            BucketsSumToFailed(records) <==> shortfall == spread || (surplus == 0 && spread <= shortfall)
  {
    BucketsAddUp(records, es);
    SurplusBalancesShortfall(records, es);
    SurplusIsZeroIff(records, es);
    ShortfallIsZeroIff(records, es);
  }

  /** All responses of a handshake are about one event. */
  ghost predicate OneEventPerHandshake(records: seq<Record>) {
    forall r, s :: r in records && s in records && r.kind == Response && s.kind == Response && Key(r) == Key(s)
                   ==> r.eventId == s.eventId
  }

  lemma {:induction false} SingleEventGroups(groups: Groups)
    requires forall entry :: entry in groups ==> |entry.value.events| == 1
    ensures Spread(groups) == 0
  {
    if groups != [] {
      SingleEventGroups(groups[..|groups| - 1]);
      assert groups[|groups| - 1] in groups;
    }
  }

  lemma OneEventMeansNoSpread(records: seq<Record>)
    requires OneEventPerHandshake(records)
    ensures Spread(GroupFold(records)) == 0
  {
    var groups := GroupFold(records);
    GroupsSummarizeTheResponses(records);
    forall entry | entry in groups ensures |entry.value.events| == 1 {
      var i :| 0 <= i < |groups| && groups[i] == entry;
      GetAt(groups, i);
      var mine := Mine(records, entry.key);
      assert Has(groups, entry.key) && Summarizes(GroupAt(groups, entry.key), mine);
      var r := mine[0];
      assert r in mine;
      assert entry.value.events == {r.eventId};
    }
    SingleEventGroups(groups);
  }

  /**
   * With one event per handshake, the identity holds if and only if no event has more handshakes than
   * initiations, or no event has fewer.
   */
  lemma IdentityForSingleEvents(records: seq<Record>, es: seq<string>)
    requires ListsEvents(es, records) && OneEventPerHandshake(records)
    ensures BucketsSumToFailed(records) <==>
              (NoEventHasFewerInitiations(records, es) || NoEventHasMoreInitiations(records, es))
  {
    IdentityHoldsIff(records, es);
    OneEventMeansNoSpread(records);
    SurplusIsZeroIff(records, es);
    ShortfallIsZeroIff(records, es);
  }

  // ---- Successes and mechanical cancellations within the initiations ------------------------------------------

  lemma {:induction false} CoordinatedAreFailed(groups: Groups, accepted: set<string>)
    ensures CoordinatedGroups(groups, accepted) <= CancelledGroups(groups) <= |groups| - Succeeded(groups)
  {
    if groups != [] {
      CoordinatedAreFailed(groups[..|groups| - 1], accepted);
    }
  }

  lemma {:induction false} DeduplicatedAreExtra(records: seq<Record>, counts: seq<Entry<string, nat>>)
    requires CountsInitiations(counts, Initiations(records))
    ensures Deduplicated(GroupFold(records), counts) <= Sum(Surplus(records), Keys(counts))
  {
    if counts != [] {
      var front, e := counts[..|counts| - 1], counts[|counts| - 1].key;
      DeduplicatedAreExtra(records, front);
      SumSnoc(Surplus(records), Keys(front), e);
    }
  }

  /**
   * Successes and coordinator cancellations never exceed what the buckets and successes account for; so
   * they fit within `initiated` whenever the identity holds, and the negotiation rate is at most 1.
   */
  lemma SuccessesFitInitiations(records: seq<Record>)
    ensures var r := HandshakeReport(records);
            && r.succeeded + r.cancelledByCoordinator <= r.succeeded + |r.failures|
            && (BucketsSumToFailed(records) ==> r.succeeded + r.cancelledByCoordinator <= r.initiated)
  {
    var groups, inits := GroupFold(records), Initiations(records);
    var facts, counts := FactsOf(records), ByEventFold(inits);
    GroupsSummarizeTheResponses(records);
    IndexIsComplete(inits);
    OwnCausesAreCounted(facts, groups);
    AllExtrasAreCounted(records, counts);
    CoordinatedAreFailed(groups, AcceptedEvents(groups));
    DeduplicatedAreExtra(records, counts);
  }

  lemma {:induction false} SupersededOnlyExtra(facts: Facts, groups: Groups)
    ensures GroupCauses(facts, groups)[Superseded] == 0
  {
    if groups != [] {
      SupersededOnlyExtra(facts, groups[..|groups| - 1]);
    }
  }

  lemma {:induction false} LoneAreNotSuperseded(facts: Facts, inits: seq<Record>, e: string)
    ensures LoneCauses(facts, inits, e)[Superseded] == 0
  {
    if inits != [] {
      LoneAreNotSuperseded(facts, inits[..|inits| - 1], e);
    }
  }

  ghost predicate MergedWithoutWinner(groups: Groups, count: nat, e: string) {
    0 < |KeysOf(groups, e)| < count && e !in AcceptedEvents(groups)
  }

  lemma {:induction false} SupersededWithinDeduplicated(facts: Facts, groups: Groups, counts: seq<Entry<string, nat>>)
    ensures AllExtraCauses(facts, groups, counts)[Superseded] <= Deduplicated(groups, counts)
    ensures AllExtraCauses(facts, groups, counts)[Superseded] == Deduplicated(groups, counts) <==>
              forall entry :: entry in counts ==> !MergedWithoutWinner(groups, entry.value, entry.key)
  {
    if counts != [] {
      var front, last := counts[..|counts| - 1], counts[|counts| - 1];
      assert counts == front + [last];
      SupersededWithinDeduplicated(facts, groups, front);
      LoneAreNotSuperseded(facts, facts.inits, last.key);
      ExtraSuperseded(facts, groups, last.key, last.value);
    }
  }

  lemma ExtraSuperseded(facts: Facts, groups: Groups, e: string, count: nat)
    ensures var kept := |KeysOf(groups, e)|;
            ExtraCauses(facts, groups, e, count)[Superseded]
            == if 0 < kept < count && !MergedWithoutWinner(groups, count, e) then count - kept else 0
  {
    LoneAreNotSuperseded(facts, facts.inits, e);
    if e in AcceptedEvents(groups) {
      AcceptedEventsHaveHandshakes(groups, e);
    }
  }

  lemma {:induction false} AcceptedEventsHaveHandshakes(groups: Groups, e: string)
    requires e in AcceptedEvents(groups)
    ensures KeysOf(groups, e) != []
  {
    if e in AcceptedEvents(groups[..|groups| - 1]) {
      AcceptedEventsHaveHandshakes(groups[..|groups| - 1], e);
    }
  }

  /**
   * The `superseded` bucket is part of `cancelledByCoordinator`; it is all of its deduplicated initiations
   * unless some event merged initiations into handshakes that all failed.
   */
  lemma SupersededIsPartOfCancelled(records: seq<Record>)
    ensures var r, groups := HandshakeReport(records), GroupFold(records);
            var coordinated := CoordinatedGroups(groups, AcceptedEvents(groups));
            && r.failures[Superseded] + coordinated <= r.cancelledByCoordinator
            && (r.failures[Superseded] + coordinated == r.cancelledByCoordinator <==>
                  forall e :: !MergedWithoutWinner(groups, InitiatedOn(records, e), e))
  {
    var facts, groups := FactsOf(records), GroupFold(records);
    var counts := ByEventFold(facts.inits);
    IndexIsComplete(facts.inits);
    SupersededOnlyExtra(facts, groups);
    SupersededWithinDeduplicated(facts, groups, counts);
    if forall entry :: entry in counts ==> !MergedWithoutWinner(groups, entry.value, entry.key) {
      forall e ensures !MergedWithoutWinner(groups, InitiatedOn(records, e), e) {
        if e in Keys(counts) {
          var i :| 0 <= i < |counts| && Keys(counts)[i] == e;
          assert counts[i] in counts;
        }
      }
    } else {
      var entry :| entry in counts && MergedWithoutWinner(groups, entry.value, entry.key);
      assert InitiatedOn(records, entry.key) == entry.value;
    }
  }

  /** A rejected handshake of an event that was initiated twice. */
  function RejectedTwice(e: string): seq<Record> {
    [Record(Response, Reject, OtherSource, e, Some("a"), false, None), Initiating(e), Initiating(e)]
  }

  lemma RejectedTwiceFolds(e: string, g: Group)
    requires g == Group(false, false, {e}, 1, false, false, None)
    ensures GroupFold(RejectedTwice(e)) == [Entry("a", g)]
    ensures Initiations(RejectedTwice(e)) == [Initiating(e), Initiating(e)]
  {
    var reject, i := RejectedTwice(e)[0], Initiating(e);
    FoldsSnoc([], reject);
    assert [] + [reject] == [reject] && Joined(NEW_GROUP, reject) == g;
    assert Put([], "a", Joined(GroupAt([], "a"), reject)) == [Entry("a", g)];
    FoldsSnoc([reject], i);
    FoldsSnoc([reject] + [i], i);
    assert [reject] + [i] + [i] == RejectedTwice(e);
    assert Initiations([reject]) == [] + [] == [] && [] + [i] == [i] && [i] + [i] == [i, i];
  }

  lemma TwoInitiations(e: string)
    ensures InitiationsOf([Initiating(e), Initiating(e)], e) == 2
  {
    var i := Initiating(e);
    assert [i, i][..1] == [i] && [i][..0] == [];
    assert InitiationsOf([i], e) == 1;
  }

  /** The second initiation is merged into a failed handshake: cancelled by the coordinator, but not superseded. */
  lemma MergedIntoAFailure(e: string)
    ensures var r := HandshakeReport(RejectedTwice(e)); r.cancelledByCoordinator >= 1 && r.failures[Superseded] == 0
  {
    var records, g := RejectedTwice(e), Group(false, false, {e}, 1, false, false, None);
    var groups := [Entry("a", g)];
    RejectedTwiceFolds(e, g);
    TwoInitiations(e);
    assert groups[..0] == [];
    assert KeysOf(groups, e) == ["a"] && AcceptedEvents(groups) == {};
    assert MergedWithoutWinner(groups, InitiatedOn(records, e), e);
    SupersededIsPartOfCancelled(records);
    NothingSuperseded(records);
  }

  lemma {:induction false} NoneSuperseded(facts: Facts, groups: Groups, counts: seq<Entry<string, nat>>)
    requires AcceptedEvents(groups) == {}
    ensures AllExtraCauses(facts, groups, counts)[Superseded] == 0
  {
    if counts != [] {
      var last := counts[|counts| - 1];
      NoneSuperseded(facts, groups, counts[..|counts| - 1]);
      ExtraSuperseded(facts, groups, last.key, last.value);
    }
  }

  /** Without an accepted handshake nothing is superseded. */
  lemma NothingSuperseded(records: seq<Record>)
    requires AcceptedEvents(GroupFold(records)) == {}
    ensures Failures(records)[Superseded] == 0
  {
    var facts, groups := FactsOf(records), GroupFold(records);
    SupersededOnlyExtra(facts, groups);
    NoneSuperseded(facts, groups, ByEventFold(facts.inits));
  }

  // ---- The identity fails ------------------------------------------------------------------------------------------

  function Accepting(collaboration: string, e: string): Record {
    Record(Response, Accept, OtherSource, e, Some(collaboration), false, None)
  }

  function Initiating(e: string): Record {
    Record(Assessment, InitiateAc, OtherSource, e, None, false, None)
  }

  /** Two accepted handshakes nobody initiated on one event, and one accepted handshake initiated twice on another. */
  function Uneven(): seq<Record> {
    [Accepting("a", "e1"), Accepting("b", "e1"), Accepting("c", "e2"), Initiating("e2"), Initiating("e2")]
  }

  lemma FoldsSnoc(records: seq<Record>, r: Record)
    ensures GroupFold(records + [r])
            == if r.kind == Response then Put(GroupFold(records), Key(r), Joined(GroupAt(GroupFold(records), Key(r)), r))
               else GroupFold(records)
    ensures Initiations(records + [r]) == Initiations(records) + if IsInitiation(r) then [r] else []
  {
    assert (records + [r])[..|records|] == records;
  }

  lemma KeysSnoc(groups: Groups, entry: Entry<string, Group>, e: string)
    ensures KeysOf(groups + [entry], e) == KeysOf(groups, e) + if e in entry.value.events then [entry.key] else []
    ensures Succeeded(groups + [entry]) == Succeeded(groups) + if entry.value.accepted then 1 else 0
  {
    assert (groups + [entry])[..|groups|] == groups;
  }

  function AcceptedGroup(e: string): Group {
    Group(true, false, {e}, 0, false, false, None)
  }

  lemma FirstAccept(groups: Groups, collaboration: string, e: string)
    requires forall i :: 0 <= i < |groups| ==> groups[i].key != collaboration
    ensures Put(groups, collaboration, Joined(GroupAt(groups, collaboration), Accepting(collaboration, e)))
            == groups + [Entry(collaboration, AcceptedGroup(e))]
  {
    assert {} + {e} == {e};
    GetFinds(groups, collaboration);
    PutNew(groups, collaboration, AcceptedGroup(e));
  }

  lemma {:induction false} PutNew(groups: Groups, key: string, g: Group)
    requires !Has(groups, key)
    ensures Put(groups, key, g) == groups + [Entry(key, g)]
  {
    if groups != [] {
      PutNew(groups[1..], key, g);
      assert groups == [groups[0]] + groups[1..];
    }
  }

  lemma AcceptStep(records: seq<Record>, collaboration: string, e: string)
    requires forall i :: 0 <= i < |GroupFold(records)| ==> GroupFold(records)[i].key != collaboration
    ensures GroupFold(records + [Accepting(collaboration, e)])
            == GroupFold(records) + [Entry(collaboration, AcceptedGroup(e))]
    ensures Initiations(records + [Accepting(collaboration, e)]) == Initiations(records)
  {
    FoldsSnoc(records, Accepting(collaboration, e));
    FirstAccept(GroupFold(records), collaboration, e);
  }

  lemma ThreeAccepts(a: string, b: string, c: string, first: string, second: string)
    requires a != b && a != c && b != c
    ensures var records := [Accepting(a, first), Accepting(b, first), Accepting(c, second)];
            && GroupFold(records)
               == [Entry(a, AcceptedGroup(first)), Entry(b, AcceptedGroup(first)), Entry(c, AcceptedGroup(second))]
            && Initiations(records) == []
  {
    var x, y, z := Accepting(a, first), Accepting(b, first), Accepting(c, second);
    AcceptStep([], a, first);
    assert [] + [x] == [x];
    AcceptStep([x], b, first);
    assert [x] + [y] == [x, y];
    AcceptStep([x, y], c, second);
    assert [x, y] + [z] == [x, y, z];
  }

  lemma UnevenAccepts()
    ensures GroupFold(Uneven()[..3])
            == [Entry("a", AcceptedGroup("e1")), Entry("b", AcceptedGroup("e1")), Entry("c", AcceptedGroup("e2"))]
    ensures Initiations(Uneven()[..3]) == []
  {
    assert "a"[0] != "b"[0] && "a"[0] != "c"[0] && "b"[0] != "c"[0];
    ThreeAccepts("a", "b", "c", "e1", "e2");
    assert Uneven()[..3] == [Accepting("a", "e1"), Accepting("b", "e1"), Accepting("c", "e2")];
  }

  lemma UnevenFolds()
    ensures GroupFold(Uneven())
            == [Entry("a", AcceptedGroup("e1")), Entry("b", AcceptedGroup("e1")), Entry("c", AcceptedGroup("e2"))]
    ensures Initiations(Uneven()) == [Initiating("e2"), Initiating("e2")]
  {
    var r := Uneven();
    UnevenAccepts();
    FoldsSnoc(r[..3], r[3]);
    assert r[..3] + [r[3]] == r[..4];
    FoldsSnoc(r[..4], r[4]);
    assert r[..4] + [r[4]] == r;
  }

  lemma ThreeGroups(a: string, b: string, c: string, first: string, second: string)
    requires first != second
    ensures var groups := [Entry(a, AcceptedGroup(first)), Entry(b, AcceptedGroup(first)), Entry(c, AcceptedGroup(second))];
            Succeeded(groups) == 3 && |KeysOf(groups, second)| == 1
  {
    var x, y, z := Entry(a, AcceptedGroup(first)), Entry(b, AcceptedGroup(first)), Entry(c, AcceptedGroup(second));
    KeysSnoc([], x, second);
    assert [] + [x] == [x];
    KeysSnoc([x], y, second);
    assert [x] + [y] == [x, y];
    KeysSnoc([x, y], z, second);
    assert [x, y] + [z] == [x, y, z];
  }

  lemma UnevenGroups()
    ensures |GroupFold(Uneven())| == 3 && Succeeded(GroupFold(Uneven())) == 3
    ensures |KeysOf(GroupFold(Uneven()), "e2")| == 1
  {
    assert "e1"[1] != "e2"[1];
    UnevenFolds();
    ThreeGroups("a", "b", "c", "e1", "e2");
  }

  lemma UnevenInitiations()
    ensures |Initiations(Uneven())| == 2
    ensures ByEventFold(Initiations(Uneven())) == [Entry("e2", 2)]
  {
    var i := Initiating("e2");
    UnevenFolds();
    assert [i, i][..1] == [i] && [i][..0] == [];
    assert ByEventFold([i]) == [Entry("e2", 1)];
  }

  lemma IdentityCounterexample()
    ensures !BucketsSumToFailed(Uneven())
    ensures var r := HandshakeReport(Uneven()); r.succeeded + r.cancelledByCoordinator > r.initiated
  {
    var groups, counts := GroupFold(Uneven()), ByEventFold(Initiations(Uneven()));
    UnevenGroups();
    UnevenInitiations();
    assert counts[..0] == [];
    assert Deduplicated(groups, counts[..0]) == 0;
    assert Deduplicated(groups, counts) == 1;
    SuccessesFitInitiations(Uneven());
  }

  // ---- What the causes say about the records -----------------------------------------------------------------------

  /** `time` is the least recorded time of the given records. */
  ghost predicate IsLeastTime(time: int, records: set<Record>) {
    && (exists r :: r in records && r.recordedMs == Some(time))
    && forall r :: r in records && r.recordedMs.Some? ==> time <= r.recordedMs.value
  }

  ghost function InitiationsFor(records: seq<Record>, key: string): set<Record> {
    set r | r in records && IsInitiation(r) && Key(r) == key
  }

  ghost function ResponsesFor(records: seq<Record>, key: string): set<Record> {
    set r | r in records && r.kind == Response && Key(r) == key
  }

  /** The handshake's start: its earliest recorded initiation, or its earliest response when none has a time. */
  ghost predicate StartsAt(records: seq<Record>, key: string, start: int) {
    if IsTimed(InitiationsFor(records, key)) then IsLeastTime(start, InitiationsFor(records, key))
    else IsLeastTime(start, ResponsesFor(records, key))
  }

  /** The records have a positive time, and all of their times are less than two minutes after the start. */
  ghost predicate OpenSince(records: seq<Record>, start: int) {
    && (exists r :: r in records && r.recordedMs.Some? && r.recordedMs.value > 0)
    && forall r :: r in records && r.recordedMs.Some? ==> r.recordedMs.value < start + 120000
  }

  ghost predicate StillOpen(records: seq<Record>, key: string) {
    exists start :: StartsAt(records, key, start) && OpenSince(records, start)
  }

  lemma {:induction false} SamplingIsNewest(records: seq<Record>)
    ensures var ms := SamplingMs(records);
            && ms >= 0 && (forall r :: r in records && r.recordedMs.Some? ==> r.recordedMs.value <= ms)
            && (ms > 0 ==> exists r :: r in records && r.recordedMs == Some(ms))
  {
    if records != [] {
      SamplingIsNewest(records[..|records| - 1]);
      assert records == records[..|records| - 1] + [records[|records| - 1]];
    }
  }

  lemma WindowIsOpenSince(records: seq<Record>, start: int)
    ensures WindowOpen(SamplingMs(records), Some(start)) <==> OpenSince(records, start)
  {
    SamplingIsNewest(records);
  }

  lemma {:induction false} StartIsEarliest(inits: seq<Record>, key: string)
    ensures var start := StartOf(inits, key);
            && (start.Some? ==> exists r :: r in inits && Key(r) == key && r.recordedMs == start)
            && (forall r :: r in inits && Key(r) == key && r.recordedMs.Some? ==>
                  start.Some? && start.value <= r.recordedMs.value)
  {
    if inits != [] {
      StartIsEarliest(inits[..|inits| - 1], key);
      assert inits == inits[..|inits| - 1] + [inits[|inits| - 1]];
    }
  }

  ghost predicate IsTimed(records: set<Record>) {
    exists r :: r in records && r.recordedMs.Some?
  }

  /** `found` is the least recorded time, if there is any. */
  ghost predicate FindsLeast(found: Option<int>, records: set<Record>) {
    if IsTimed(records) then found.Some? && IsLeastTime(found.value, records) else found.None?
  }

  lemma StartIsLeast(records: seq<Record>, key: string)
    ensures FindsLeast(StartOf(Initiations(records), key), InitiationsFor(records, key))
  {
    var inits, begun := InitiationsFor(records, key), StartOf(Initiations(records), key);
    StartIsEarliest(Initiations(records), key);
    InitiationsAreRecords(records);
    if begun.Some? {
      var r :| r in Initiations(records) && Key(r) == key && r.recordedMs == begun;
      assert r in inits;
    }
  }

  lemma FirstSeenIsLeast(records: seq<Record>, key: string)
    ensures FindsLeast(GroupAt(GroupFold(records), key).firstSeen, ResponsesFor(records, key))
  {
    var seen := GroupAt(GroupFold(records), key).firstSeen;
    GroupsSummarizeTheResponses(records);
    assert Summarizes(GroupAt(GroupFold(records), key), Mine(records, key));
    if seen.Some? {
      var r :| r in Mine(records, key) && r.recordedMs == seen;
      assert r in ResponsesFor(records, key);
    }
  }

  lemma LeastIsUnique(a: int, b: int, records: set<Record>)
    requires IsLeastTime(a, records) && IsLeastTime(b, records)
    ensures a == b
  {
  }

  lemma LeastIsFound(found: Option<int>, records: set<Record>, start: int)
    requires FindsLeast(found, records)
    ensures found == Some(start) <==> IsLeastTime(start, records)
  {
    if IsLeastTime(start, records) {
      assert IsTimed(records);
      LeastIsUnique(found.value, start, records);
    }
  }

  /** The looked-up start of a handshake is its start. */
  lemma StartIsFound(records: seq<Record>, key: string, start: int)
    ensures var begun := StartOf(Initiations(records), key);
            var found := if begun.Some? then begun else GroupAt(GroupFold(records), key).firstSeen;
            StartsAt(records, key, start) <==> found == Some(start)
  {
    StartIsLeast(records, key);
    FirstSeenIsLeast(records, key);
    LeastIsFound(StartOf(Initiations(records), key), InitiationsFor(records, key), start);
    LeastIsFound(GroupAt(GroupFold(records), key).firstSeen, ResponsesFor(records, key), start);
  }

  lemma OpenIsStillOpen(records: seq<Record>, key: string)
    ensures var begun := StartOf(Initiations(records), key);
            var found := if begun.Some? then begun else GroupAt(GroupFold(records), key).firstSeen;
            WindowOpen(SamplingMs(records), found) <==> StillOpen(records, key)
  {
    var begun := StartOf(Initiations(records), key);
    var found := if begun.Some? then begun else GroupAt(GroupFold(records), key).firstSeen;
    forall start ensures StartsAt(records, key, start) <==> found == Some(start) {
      StartIsFound(records, key, start);
    }
    if found.Some? {
      WindowIsOpenSince(records, found.value);
    }
  }

  /** A response of the handshake with this decision, and with this source when one is given. */
  ghost predicate Answered(records: seq<Record>, key: string, decision: Decision, source: Option<Source>) {
    exists r :: r in ResponsesFor(records, key) && r.decision == decision && (source.Some? ==> r.source == source.value)
  }

  /**
   * The cause of a handshake read off its records: the first of five facts that applies, and without any of them
   * pending exactly as long as its window is open, else abandoned.
   */
  lemma CausesFollowTheRecords(records: seq<Record>, key: string)
    ensures var c := CauseOfGroup(FactsOf(records), key, GroupAt(GroupFold(records), key));
            var noPartner := exists r :: r in InitiationsFor(records, key) && r.emptyShortlist;
            var rejected, cancelled := Answered(records, key, Reject, None), Answered(records, key, Cancelled, None);
            var timedOut := Answered(records, key, Cancelled, Some(FromTimeout));
            var aborted := Answered(records, key, Cancelled, Some(FromAbort));
            && (c == NoPartner <==> noPartner)
            && (c == AllRejected <==> !noPartner && rejected)
            && (c == TimedOut <==> !noPartner && !rejected && timedOut)
            && (c == Aborted <==> !noPartner && !rejected && !timedOut && aborted)
            && (c == PendingAtSampling <==> !noPartner && !rejected && !cancelled && StillOpen(records, key))
            && (c == Abandoned <==> && !noPartner && !rejected && !timedOut && !aborted
                                    && (cancelled || !StillOpen(records, key)))
  {
    var facts, mine := FactsOf(records), Mine(records, key);
    GroupsSummarizeTheResponses(records);
    InitiationsAreRecords(records);
    RejectsAreCounted(mine);
    OpenIsStillOpen(records, key);
    EmptyOnesAreFound(records, key);
    assert Summarizes(GroupAt(GroupFold(records), key), mine);
    assert forall r :: r in mine <==> r in ResponsesFor(records, key);
  }

  lemma EmptyOnesAreFound(records: seq<Record>, key: string)
    ensures EmptyInitiation(Initiations(records), key) <==> exists r :: r in InitiationsFor(records, key) && r.emptyShortlist
  {
    var inits := Initiations(records);
    InitiationsAreRecords(records);
    if r :| r in InitiationsFor(records, key) && r.emptyShortlist {
      var i :| 0 <= i < |inits| && inits[i] == r;
    }
  }

  /** The cause of an initiation that no handshake came of: its own shortlist, then its own window. */
  lemma LoneCausesFollowTheRecords(records: seq<Record>, r: Record)
    ensures var c, open := CauseAlone(FactsOf(records), r), r.recordedMs.Some? && OpenSince(records, r.recordedMs.value);
            && (c == NoPartner <==> r.emptyShortlist)
            && (c == PendingAtSampling <==> !r.emptyShortlist && open)
            && (c == Abandoned <==> !r.emptyShortlist && !open)
  {
    if r.recordedMs.Some? {
      WindowIsOpenSince(records, r.recordedMs.value);
    }
  }

  lemma {:induction false} RejectsAreCounted(records: seq<Record>)
    ensures Rejects(records) > 0 <==> exists r :: r in records && r.decision == Reject
  {
    if records != [] {
      RejectsAreCounted(records[..|records| - 1]);
      assert records == records[..|records| - 1] + [records[|records| - 1]];
    }
  }
}

/** Reputation rows as integer event buckets. */
module ReputationBuckets {
  import opened Options
  import opened EventSums

  datatype Events = Events(successes: real, partials: real, failures: real)

  /** `events` is None for a legacy row, which has only weight sums. */
  datatype Row = Row(attempts: real, successes: real, events: Option<Events>)

  datatype Buckets = Buckets(attempts: nat, ok: nat, partial: nat, failed: nat)

  /** `Math.round`: halves go up. */
  function Round(x: real): int {
    (x + 0.5).Floor
  }

  function EventBuckets(row: Row): Buckets {
    var attempts := Positive(Round(row.attempts));
    match row.events
    case Some(e) =>
      var ok, partial, raw := Positive(Round(e.successes)), Positive(Round(e.partials)), Positive(Round(e.failures));
      Buckets(attempts, ok, partial, Positive(raw + (attempts - (ok + partial + raw))))
    case None =>
      var fraction := row.successes - row.successes.Floor as real;
      var partial := Positive(if Round(fraction * 2.0) < 1 then Round(fraction * 2.0) else 1);
      var ok := Positive(Round(row.successes - 0.5 * partial as real));
      Buckets(attempts, ok, partial, Positive(attempts - ok - partial))
  }

  predicate AddsUp(row: Row) {
    var b := EventBuckets(row);
    b.ok + b.partial + b.failed == b.attempts
  }

  function Rounded(x: real): nat {
    Positive(Round(x))
  }

  /** A row with event columns meets the documented identity if and only if its successes and partials fit its attempts. */
  lemma EventRowAddsUpIff(row: Row)
    requires row.events.Some?
    ensures AddsUp(row) <==> Rounded(row.events.value.successes) + Rounded(row.events.value.partials) <= Rounded(row.attempts)
  {
  }

  /**
   * A legacy row meets it if and only if its whole successes fit its attempts, with room for one partial
   * success when the fraction of the weight sum is a quarter or more.
   */
  lemma LegacyRowAddsUpIff(row: Row)
    requires row.events.None?
    ensures AddsUp(row) <==> Positive(row.successes.Floor) + LegacyPartial(row.successes) <= Rounded(row.attempts)
  {
    LegacyColumns(row);
  }

  function LegacyPartial(successes: real): nat {
    if successes - successes.Floor as real >= 0.25 then 1 else 0
  }

  lemma LegacyColumns(row: Row)
    requires row.events.None?
    ensures EventBuckets(row).partial == LegacyPartial(row.successes)
    ensures EventBuckets(row).ok == Positive(row.successes.Floor)
  {
    var whole := row.successes.Floor;
    var fraction := row.successes - whole as real;
    assert 0.0 <= fraction < 1.0;
    RoundNear(fraction * 2.0);
    if fraction >= 0.25 {
      assert Round(row.successes - 0.5) == whole;
    } else {
      RoundsDown(row.successes, whole);
    }
  }

  lemma RoundNear(x: real)
    requires 0.0 <= x < 2.0
    ensures Round(x) == if x < 0.5 then 0 else if x < 1.5 then 1 else 2
  {
  }

  lemma RoundsDown(x: real, whole: int)
    requires whole as real <= x < whole as real + 0.25
    ensures Round(x) == whole
  {
  }

  function Greater(x: real, y: real): real {
    if x < y then y else x
  }

  /** A stored row with what the usage records show taken in: the greater of each column, missing events as zeros. */
  function Backfilled(stored: Row, shown: Row, events: Events): Row {
    var known := if stored.events.Some? then stored.events.value else Events(0.0, 0.0, 0.0);
    Row(Greater(stored.attempts, shown.attempts), Greater(stored.successes, shown.successes),
        Some(Events(Greater(known.successes, events.successes), Greater(known.partials, events.partials),
                    Greater(known.failures, events.failures))))
  }

  /** As the tracker writes it: a whole number of attempts, and successes within them. */
  predicate Tracked(row: Row) {
    row.attempts == row.attempts.Floor as real && 0.0 <= row.successes <= row.attempts
  }

  /** What the usage records show: whole counts, and no more successes and partial ones than attempts. */
  function UsageRow(attempts: nat, ok: nat, partial: nat, failed: nat): Row {
    Row(attempts as real, ok as real, Some(Events(ok as real, partial as real, failed as real)))
  }

  /** A backfill can break the identity: ten successes tracked, ten partial ones shown; each row adds up on its own. */
  lemma MergedColumnsExceedAttempts()
    ensures var tracked, shown := Row(10.0, 10.0, Some(Events(10.0, 0.0, 0.0))), UsageRow(10, 0, 10, 0);
            && Tracked(tracked) && AddsUp(tracked) && AddsUp(shown)
            && !AddsUp(Backfilled(tracked, shown, shown.events.value))
  {
    EventRowAddsUpIff(Row(10.0, 10.0, Some(Events(10.0, 10.0, 0.0))));
  }

  /** A legacy row of the tracker always adds up, and so does what a backfill makes of it. */
  lemma TrackedLegacyRowsAddUp(row: Row, attempts: nat, ok: nat, partial: nat, failed: nat)
    requires Tracked(row) && row.events.None? && ok + partial <= attempts
    ensures var shown := UsageRow(attempts, ok, partial, failed);
            AddsUp(row) && AddsUp(Backfilled(row, shown, shown.events.value))
  {
    LegacyRowAddsUpIff(row);
    WholeAttempts(row);
    var shown := UsageRow(attempts, ok, partial, failed);
    var merged := Backfilled(row, shown, shown.events.value);
    assert merged.events == Some(Events(ok as real, partial as real, failed as real));
    assert Rounded(merged.attempts) >= attempts;
    EventRowAddsUpIff(merged);
  }

  lemma WholeAttempts(row: Row)
    requires Tracked(row)
    ensures Rounded(row.attempts) == row.attempts.Floor
    ensures Positive(row.successes.Floor) + LegacyPartial(row.successes) <= Rounded(row.attempts)
  {
    var n := row.attempts.Floor;
    assert Round(row.attempts) == n;
    assert row.successes.Floor <= n;
    if row.successes.Floor == n {
      assert row.successes == n as real;
    }
  }

  /** The weights of a legacy row: a success counts 1, a partial success half. */
  function LegacyRow(ok: nat, partial: nat, failed: nat): Row {
    Row((ok + partial + failed) as real, ok as real + 0.5 * partial as real, None)
  }

  /** Integerizing a legacy row pairs up its partial successes; it is exact if and only if there is at most one. */
  lemma LegacyRowsPairPartials(ok: nat, partial: nat, failed: nat)
    ensures EventBuckets(LegacyRow(ok, partial, failed))
            == Buckets(ok + partial + failed, ok + partial / 2, partial % 2, failed + partial / 2)
    ensures EventBuckets(LegacyRow(ok, partial, failed)) == Buckets(ok + partial + failed, ok, partial, failed)
            <==> partial <= 1
  {
    var row := LegacyRow(ok, partial, failed);
    var half := partial / 2;
    assert partial == 2 * half + partial % 2;
    assert row.successes == (ok + half) as real + 0.5 * (partial % 2) as real;
    assert row.successes.Floor == ok + half;
    assert Round(row.attempts) == ok + partial + failed;
  }
}
