/** The handshake report read off the records alone: every counter and every failure bucket. */
module HandshakeAudit {
  import opened Options
  import opened OrderedMaps
  import opened EventSums
  import opened EvalReport

  // ---- What the records say -------------------------------------------------------------

  /** The handshakes that have a response. */
  ghost function Handshakes(records: seq<Record>): set<string> {
    set r | r in records && r.kind == Response :: Key(r)
  }

  ghost predicate IsAccepted(records: seq<Record>, key: string) {
    Answered(records, key, Decision.Accept, None)
  }

  ghost predicate IsCancelled(records: seq<Record>, key: string) {
    !IsAccepted(records, key) && Answered(records, key, Decision.Cancelled, None)
  }

  ghost predicate Touches(records: seq<Record>, key: string, e: string) {
    exists r :: r in ResponsesFor(records, key) && r.eventId == e
  }

  /** The handshakes of an event. */
  ghost function On(records: seq<Record>, e: string): set<string> {
    set key | key in Handshakes(records) && Touches(records, key, e)
  }

  /** The initiations of an event, by position. */
  ghost function InitiatedAt(records: seq<Record>, e: string): set<nat> {
    set i: nat | i < |records| && records[i].kind == Assessment && records[i].decision == InitiateAc && records[i].eventId == e
  }

  ghost function AllInitiated(records: seq<Record>): set<nat> {
    set i: nat | i < |records| && records[i].kind == Assessment && records[i].decision == InitiateAc
  }

  /** An accepted handshake settled the event. */
  ghost predicate IsSettled(records: seq<Record>, e: string) {
    exists key :: key in On(records, e) && IsAccepted(records, key)
  }

  /** The cause of a failed handshake. */
  ghost function CauseFor(records: seq<Record>, key: string): Cause {
    if exists r :: r in InitiationsFor(records, key) && r.emptyShortlist then NoPartner
    else if Answered(records, key, Reject, None) then AllRejected
    else if Answered(records, key, Decision.Cancelled, Some(FromTimeout)) then TimedOut
    else if Answered(records, key, Decision.Cancelled, Some(FromAbort)) then Aborted
    else if !Answered(records, key, Decision.Cancelled, None) && StillOpen(records, key) then PendingAtSampling
    else Abandoned
  }

  /** The cause of an initiation whose event has no handshake. */
  ghost function CauseOfInitiation(records: seq<Record>, r: Record): Cause {
    if r.emptyShortlist then NoPartner
    else if r.recordedMs.Some? && OpenSince(records, r.recordedMs.value) then PendingAtSampling
    else Abandoned
  }

  /** The failed handshakes with a given cause. */
  ghost function FailedBy(records: seq<Record>, c: Cause): set<string> {
    set key | key in Handshakes(records) && !IsAccepted(records, key) && CauseFor(records, key) == c
  }

  /** The first response of `a` comes before the first one of `b`. */
  ghost predicate SeenBefore(records: seq<Record>, a: string, b: string) {
    exists n :: 0 <= n <= |records| && SeenAlone(records[..n], a, b)
  }

  ghost predicate SeenAlone(records: seq<Record>, a: string, b: string) {
    a in Handshakes(records) && b !in Handshakes(records)
  }

  ghost predicate IsFirstOn(records: seq<Record>, e: string, key: string) {
    key in On(records, e) && forall other :: other in On(records, e) && other != key ==> SeenBefore(records, key, other)
  }

  ghost function LoneAt(records: seq<Record>, n: nat, e: string, c: Cause): set<nat>
    requires n <= |records|
  {
    set i: nat | i < n && i in InitiatedAt(records, e) && CauseOfInitiation(records, records[i]) == c
  }

  /**
   * What an event's initiations beyond its handshakes add to a bucket: all of them are superseded when the event is
   * settled, else they share the cause of its first handshake, else each has its own.
   */
  ghost function Extra(records: seq<Record>, e: string, c: Cause): int {
    var surplus := |InitiatedAt(records, e)| - |On(records, e)|;
    if surplus <= 0 then 0
    else if IsSettled(records, e) then (if c == Superseded then surplus else 0)
    else if On(records, e) != {} then
      (if exists key :: IsFirstOn(records, e, key) && CauseFor(records, key) == c then surplus else 0)
    else |LoneAt(records, |records|, e, c)|
  }

  ghost function Extras(records: seq<Record>, c: Cause): string -> int {
    (e: string) => Extra(records, e, c)
  }

  /** An event's initiations that were merged into its handshakes. */
  ghost function Merged(records: seq<Record>): string -> int {
    (e: string) => if On(records, e) != {} then Positive(|InitiatedAt(records, e)| - |On(records, e)|) else 0
  }

  // ---- Groups are handshakes -----------------------------------------------------------------

  type Chosen = Entry<string, Group> -> bool

  ghost function KeysWith(groups: Groups, chosen: Chosen): set<string> {
    set g | g in groups && chosen(g) :: g.key
  }

  lemma KeysWithGrow(groups: Groups, chosen: Chosen)
    requires groups != [] && DistinctKeys(groups)
    ensures var front, last := groups[..|groups| - 1], groups[|groups| - 1];
            DistinctKeys(front)
            && |KeysWith(groups, chosen)| == |KeysWith(front, chosen)| + if chosen(last) then 1 else 0
  {
    var front, last := groups[..|groups| - 1], groups[|groups| - 1];
    assert groups == front + [last];
    assert KeysWith(groups, chosen) == KeysWith(front, chosen) + if chosen(last) then {last.key} else {};
    assert last.key !in KeysWith(front, chosen);
  }

  lemma {:induction false} GroupsAreKeys(groups: Groups)
    requires DistinctKeys(groups)
    ensures |groups| == |KeysWith(groups, (g: Entry<string, Group>) => true)|
  {
    if groups != [] {
      KeysWithGrow(groups, (g: Entry<string, Group>) => true);
      GroupsAreKeys(groups[..|groups| - 1]);
    }
  }

  lemma {:induction false} SucceededAreKeys(groups: Groups)
    requires DistinctKeys(groups)
    ensures Succeeded(groups) == |KeysWith(groups, (g: Entry<string, Group>) => g.value.accepted)|
  {
    if groups != [] {
      KeysWithGrow(groups, (g: Entry<string, Group>) => g.value.accepted);
      SucceededAreKeys(groups[..|groups| - 1]);
    }
  }

  lemma {:induction false} CancelledAreKeys(groups: Groups)
    requires DistinctKeys(groups)
    ensures CancelledGroups(groups)
         == |KeysWith(groups, (g: Entry<string, Group>) => !g.value.accepted && g.value.cancelled)|
  {
    if groups != [] {
      KeysWithGrow(groups, (g: Entry<string, Group>) => !g.value.accepted && g.value.cancelled);
      CancelledAreKeys(groups[..|groups| - 1]);
    }
  }

  lemma {:induction false} CoordinatedAreKeys(groups: Groups, accepted: set<string>)
    requires DistinctKeys(groups)
    ensures CoordinatedGroups(groups, accepted)
         == |KeysWith(groups, (g: Entry<string, Group>) =>
                                !g.value.accepted && g.value.cancelled && g.value.events * accepted != {})|
  {
    if groups != [] {
      KeysWithGrow(groups, (g: Entry<string, Group>) =>
                             !g.value.accepted && g.value.cancelled && g.value.events * accepted != {});
      CoordinatedAreKeys(groups[..|groups| - 1], accepted);
    }
  }

  lemma {:induction false} KeysOfAreKeys(groups: Groups, e: string)
    requires DistinctKeys(groups)
    ensures |KeysOf(groups, e)| == |KeysWith(groups, (g: Entry<string, Group>) => e in g.value.events)|
  {
    if groups != [] {
      KeysWithGrow(groups, (g: Entry<string, Group>) => e in g.value.events);
      KeysOfAreKeys(groups[..|groups| - 1], e);
    }
  }

  lemma {:induction false} OwnCausesAreKeys(facts: Facts, groups: Groups, c: Cause)
    requires DistinctKeys(groups)
    ensures GroupCauses(facts, groups)[c]
         == |KeysWith(groups, (g: Entry<string, Group>) => !g.value.accepted && CauseOfGroup(facts, g.key, g.value) == c)|
  {
    if groups != [] {
      KeysWithGrow(groups, (g: Entry<string, Group>) => !g.value.accepted && CauseOfGroup(facts, g.key, g.value) == c);
      OwnCausesAreKeys(facts, groups[..|groups| - 1], c);
    }
  }

  /** What a group says about its handshake. */
  ghost predicate Describes(records: seq<Record>, g: Entry<string, Group>) {
    && g.key in Handshakes(records)
    && (g.value.accepted <==> IsAccepted(records, g.key))
    && (g.value.cancelled <==> Answered(records, g.key, Decision.Cancelled, None))
    && (forall e :: e in g.value.events <==> Touches(records, g.key, e))
    && CauseOfGroup(FactsOf(records), g.key, g.value) == CauseFor(records, g.key)
  }

  lemma CauseIsFor(records: seq<Record>, key: string)
    ensures CauseOfGroup(FactsOf(records), key, GroupAt(GroupFold(records), key)) == CauseFor(records, key)
  {
    CausesFollowTheRecords(records, key);
  }

  lemma GroupDescribes(records: seq<Record>, key: string)
    requires key in Handshakes(records)
    ensures Has(GroupFold(records), key) && Describes(records, Entry(key, GroupAt(GroupFold(records), key)))
  {
    GroupsSummarizeTheResponses(records);
    var mine := Mine(records, key);
    var r :| r in records && r.kind == Response && Key(r) == key;
    assert r in mine;
    assert Summarizes(GroupAt(GroupFold(records), key), mine);
    assert forall x :: x in mine <==> x in ResponsesFor(records, key);
    CauseIsFor(records, key);
  }

  lemma GroupsAreHandshakes(records: seq<Record>)
    ensures DistinctKeys(GroupFold(records))
    ensures forall g :: g in GroupFold(records) ==> Describes(records, g)
    ensures forall key :: key in Handshakes(records) <==> HasKey(GroupFold(records), key)
  {
    var groups := GroupFold(records);
    GroupsSummarizeTheResponses(records);
    forall key ensures key in Handshakes(records) <==> HasKey(groups, key) {
      GetFinds(groups, key);
      if key in Handshakes(records) {
        GroupDescribes(records, key);
      }
      if Has(groups, key) {
        var i :| 0 <= i < |groups| && groups[i].key == key;
        assert groups[i] in groups && Mine(records, key)[0] in Mine(records, key);
      }
    }
    forall g | g in groups ensures Describes(records, g) {
      var i :| 0 <= i < |groups| && groups[i] == g;
      GetAt(groups, i);
      assert HasKey(groups, g.key);
      GroupDescribes(records, g.key);
    }
  }

  ghost predicate HasKey(groups: Groups, key: string) {
    exists g :: g in groups && g.key == key
  }

  /** Choosing groups is choosing handshakes. */
  lemma ChosenHandshakes(records: seq<Record>, chosen: Chosen, keys: set<string>)
    requires forall key :: key in keys ==> key in Handshakes(records)
    requires forall g :: g in GroupFold(records) ==> (chosen(g) <==> g.key in keys)
    ensures KeysWith(GroupFold(records), chosen) == keys
  {
    GroupsAreHandshakes(records);
    forall key | key in keys ensures key in KeysWith(GroupFold(records), chosen) {
      assert HasKey(GroupFold(records), key);
    }
  }

  // ---- Initiations ---------------------------------------------------------------------------

  lemma {:induction false} InitiationsAreCounted(records: seq<Record>, n: nat)
    requires n <= |records|
    ensures |Initiations(records[..n])| == |AllInitiated(records[..n])|
  {
    if n > 0 {
      InitiationsAreCounted(records, n - 1);
      assert records[..n][..n - 1] == records[..n - 1];
      assert AllInitiated(records[..n]) == AllInitiated(records[..n - 1])
                                           + if IsInitiation(records[n - 1]) then {n - 1} else {};
    }
  }

  lemma InitiationsSnoc(records: seq<Record>, n: nat)
    requires 0 < n <= |records|
    ensures var r, before := records[n - 1], Initiations(records[..n - 1]);
            Initiations(records[..n]) == if IsInitiation(r) then before + [r] else before
  {
    assert records[..n][..n - 1] == records[..n - 1];
  }

  lemma InitiatedAtGrows(records: seq<Record>, n: nat, e: string)
    requires 0 < n <= |records|
    ensures var r := records[n - 1];
            && InitiatedAt(records[..n], e)
               == InitiatedAt(records[..n - 1], e) + (if IsInitiation(r) && r.eventId == e then {n - 1} else {})
            && n - 1 !in InitiatedAt(records[..n - 1], e)
  {
  }

  lemma OneMoreInitiation(before: seq<Record>, r: Record, e: string)
    ensures InitiationsOf(before + [r], e) == InitiationsOf(before, e) + if r.eventId == e then 1 else 0
  {
    assert (before + [r])[..|before|] == before;
  }

  lemma {:induction false} InitiationsOfAreCounted(records: seq<Record>, n: nat, e: string)
    requires n <= |records|
    ensures InitiationsOf(Initiations(records[..n]), e) == |InitiatedAt(records[..n], e)|
  {
    if n > 0 {
      InitiationsOfAreCounted(records, n - 1, e);
      InitiationsSnoc(records, n);
      InitiatedAtGrows(records, n, e);
      OneMoreInitiation(Initiations(records[..n - 1]), records[n - 1], e);
    } else {
      assert InitiatedAt(records[..0], e) == {};
    }
  }

  lemma CauseAloneIsItsOwn(records: seq<Record>, r: Record)
    ensures CauseAlone(FactsOf(records), r) == CauseOfInitiation(records, r)
  {
    LoneCausesFollowTheRecords(records, r);
  }

  lemma LoneAtGrows(records: seq<Record>, n: nat, e: string, c: Cause)
    requires 0 < n <= |records|
    ensures var r := records[n - 1];
            |LoneAt(records, n, e, c)|
            == |LoneAt(records, n - 1, e, c)|
               + if IsInitiation(r) && r.eventId == e && CauseOfInitiation(records, r) == c then 1 else 0
  {
    var r, before := records[n - 1], LoneAt(records, n - 1, e, c);
    assert LoneAt(records, n, e, c)
        == before + if IsInitiation(r) && r.eventId == e && CauseOfInitiation(records, r) == c then {n - 1} else {};
    assert n - 1 !in before;
  }

  lemma OneMoreLone(facts: Facts, before: seq<Record>, r: Record, e: string, c: Cause)
    ensures LoneCauses(facts, before + [r], e)[c]
         == LoneCauses(facts, before, e)[c] + if r.eventId == e && CauseAlone(facts, r) == c then 1 else 0
  {
    assert (before + [r])[..|before|] == before;
  }

  lemma {:induction false} LoneAreCounted(records: seq<Record>, n: nat, e: string, c: Cause)
    requires n <= |records|
    ensures LoneCauses(FactsOf(records), Initiations(records[..n]), e)[c] == |LoneAt(records, n, e, c)|
  {
    if n > 0 {
      LoneAreCounted(records, n - 1, e, c);
      InitiationsSnoc(records, n);
      LoneAtGrows(records, n, e, c);
      CauseAloneIsItsOwn(records, records[n - 1]);
      OneMoreLone(FactsOf(records), Initiations(records[..n - 1]), records[n - 1], e, c);
    } else {
      assert LoneAt(records, 0, e, c) == {};
    }
  }

  // ---- The order of handshakes -----------------------------------------------------------------

  lemma {:induction false} PutKeepsKeys(groups: Groups, key: string, g: Group)
    requires Has(groups, key)
    ensures |Put(groups, key, g)| == |groups|
    ensures forall i :: 0 <= i < |groups| ==> Put(groups, key, g)[i].key == groups[i].key
  {
    if groups[0].key != key {
      PutKeepsKeys(groups[1..], key, g);
    }
  }

  lemma SeenStaysSeen(records: seq<Record>, a: string, b: string)
    requires records != [] && SeenBefore(records[..|records| - 1], a, b)
    ensures SeenBefore(records, a, b)
  {
    var front := records[..|records| - 1];
    var n :| 0 <= n <= |front| && SeenAlone(front[..n], a, b);
    assert front[..n] == records[..n];
  }

  /** Groups come in the order of their first responses. */
  lemma {:induction false} GroupsInOrder(records: seq<Record>, i: nat, j: nat)
    requires i < j < |GroupFold(records)|
    ensures SeenBefore(records, GroupFold(records)[i].key, GroupFold(records)[j].key)
  {
    var front, r := records[..|records| - 1], records[|records| - 1];
    var before, groups := GroupFold(front), GroupFold(records);
    if r.kind == Response {
      var g := Joined(GroupAt(before, Key(r)), r);
      if Has(before, Key(r)) {
        PutKeepsKeys(before, Key(r), g);
      } else {
        PutNew(before, Key(r), g);
      }
    }
    if j < |before| {
      GroupsInOrder(front, i, j);
      SeenStaysSeen(records, groups[i].key, groups[j].key);
    } else {
      GroupsAreHandshakes(front);
      assert HasKey(before, before[i].key);
      GetFinds(before, Key(r));
      assert SeenAlone(records[..|front|], groups[i].key, groups[j].key);
    }
  }

  lemma HandshakesGrow(records: seq<Record>, n: nat, m: nat)
    requires n <= m <= |records|
    ensures Handshakes(records[..n]) <= Handshakes(records[..m])
  {
    forall r | r in records[..n] ensures r in records[..m] {
      var i :| 0 <= i < n && records[..n][i] == r;
      assert records[..m][i] == r;
    }
  }

  lemma OnlyOneIsBefore(records: seq<Record>, a: string, b: string)
    requires SeenBefore(records, a, b)
    ensures !SeenBefore(records, b, a)
  {
    var n :| 0 <= n <= |records| && SeenAlone(records[..n], a, b);
    forall m | 0 <= m <= |records| ensures !SeenAlone(records[..m], b, a) {
      HandshakesGrow(records, if m < n then m else n, if m < n then n else m);
    }
  }

  lemma {:induction false} FirstKey(groups: Groups, e: string) returns (i: nat)
    requires KeysOf(groups, e) != []
    ensures IsHandshakeOf(groups, i, e) && groups[i].key == KeysOf(groups, e)[0]
    ensures forall j :: 0 <= j < i ==> !IsHandshakeOf(groups, j, e)
  {
    var last := |groups| - 1;
    if KeysOf(groups[..last], e) != [] {
      i := FirstKey(groups[..last], e);
      forall j | 0 <= j < i ensures !IsHandshakeOf(groups, j, e) {
        assert !IsHandshakeOf(groups[..last], j, e);
      }
    } else {
      i := last;
      forall j | 0 <= j < last ensures !IsHandshakeOf(groups, j, e) {
        NoKeys(groups[..last], e, j);
      }
    }
  }

  lemma {:induction false} NoKeys(groups: Groups, e: string, j: nat)
    requires KeysOf(groups, e) == [] && j < |groups|
    ensures !IsHandshakeOf(groups, j, e)
  {
    if j < |groups| - 1 {
      NoKeys(groups[..|groups| - 1], e, j);
    }
  }

  lemma FirstKeyIsFirst(records: seq<Record>, e: string)
    requires KeysOf(GroupFold(records), e) != []
    ensures forall key :: IsFirstOn(records, e, key) <==> key == KeysOf(GroupFold(records), e)[0]
  {
    var groups := GroupFold(records);
    var i := FirstKey(groups, e);
    var first := groups[i].key;
    GroupsAreHandshakes(records);
    assert Describes(records, groups[i]);
    forall other | other in On(records, e) && other != first ensures SeenBefore(records, first, other) {
      assert HasKey(groups, other);
      var g :| g in groups && g.key == other;
      var j :| 0 <= j < |groups| && groups[j] == g;
      assert Describes(records, g) && IsHandshakeOf(groups, j, e);
      GroupsInOrder(records, i, j);
    }
    forall key | IsFirstOn(records, e, key) ensures key == first {
      if key != first {
        OnlyOneIsBefore(records, key, first);
      }
    }
  }

  // ---- Buckets and counters ------------------------------------------------------------------------

  lemma OnIsKeysOf(records: seq<Record>, e: string)
    ensures |KeysOf(GroupFold(records), e)| == |On(records, e)|
  {
    GroupsAreHandshakes(records);
    KeysOfAreKeys(GroupFold(records), e);
    ChosenHandshakes(records, (g: Entry<string, Group>) => e in g.value.events, On(records, e));
  }

  lemma SettledAreAccepted(records: seq<Record>, e: string)
    ensures e in AcceptedEvents(GroupFold(records)) <==> IsSettled(records, e)
  {
    var groups := GroupFold(records);
    GroupsAreHandshakes(records);
    AcceptedEventsAreThose(groups, e);
    if i :| IsHandshakeOf(groups, i, e) && groups[i].value.accepted {
      assert Describes(records, groups[i]) && groups[i].key in On(records, e);
    }
    if key :| key in On(records, e) && IsAccepted(records, key) {
      assert HasKey(groups, key);
      var g :| g in groups && g.key == key;
      var i :| 0 <= i < |groups| && groups[i] == g;
      assert Describes(records, g) && IsHandshakeOf(groups, i, e);
    }
  }

  lemma ExtraIsExact(records: seq<Record>, e: string, c: Cause)
    ensures ExtraCauses(FactsOf(records), GroupFold(records), e, InitiatedOn(records, e))[c] == Extra(records, e, c)
  {
    InitiatedAreCounted(records, e);
    OnIsKeysOf(records, e);
    SettledAreAccepted(records, e);
    LoneIsExact(records, e, c);
    if e !in AcceptedEvents(GroupFold(records)) && KeysOf(GroupFold(records), e) != [] {
      BlameIsExact(records, e, c);
    }
  }

  lemma InitiatedAreCounted(records: seq<Record>, e: string)
    ensures InitiatedOn(records, e) == |InitiatedAt(records, e)|
  {
    assert records[..|records|] == records;
    InitiationsOfAreCounted(records, |records|, e);
  }

  lemma LoneIsExact(records: seq<Record>, e: string, c: Cause)
    ensures LoneCauses(FactsOf(records), FactsOf(records).inits, e)[c] == |LoneAt(records, |records|, e, c)|
  {
    assert records[..|records|] == records;
    LoneAreCounted(records, |records|, e, c);
  }

  /** The handshake to blame is the event's first one. */
  lemma BlameIsExact(records: seq<Record>, e: string, c: Cause)
    requires e !in AcceptedEvents(GroupFold(records)) && KeysOf(GroupFold(records), e) != []
    ensures var failed := FirstFailed(GroupFold(records), KeysOf(GroupFold(records), e));
            && failed.Some?
            && (CauseOfGroup(FactsOf(records), failed.value, GroupAt(GroupFold(records), failed.value)) == c
                <==> exists key :: IsFirstOn(records, e, key) && CauseFor(records, key) == c)
  {
    var groups := GroupFold(records);
    GroupsAreHandshakes(records);
    FailedHandshakeExists(groups, e);
    FirstKeyIsFirst(records, e);
    CauseIsFor(records, KeysOf(groups, e)[0]);
    assert IsFirstOn(records, e, KeysOf(groups, e)[0]);
  }

  lemma {:induction false} ExtrasAreExact(records: seq<Record>, counts: seq<Entry<string, nat>>, c: Cause)
    requires CountsInitiations(counts, Initiations(records))
    ensures AllExtraCauses(FactsOf(records), GroupFold(records), counts)[c] == Sum(Extras(records, c), Keys(counts))
  {
    if counts != [] {
      var front, e := counts[..|counts| - 1], counts[|counts| - 1].key;
      ExtrasAreExact(records, front, c);
      ExtraIsExact(records, e, c);
      SumSnoc(Extras(records, c), Keys(front), e);
    }
  }

  lemma {:induction false} DeduplicatedIsExact(records: seq<Record>, counts: seq<Entry<string, nat>>)
    requires CountsInitiations(counts, Initiations(records))
    ensures Deduplicated(GroupFold(records), counts) == Sum(Merged(records), Keys(counts))
  {
    if counts != [] {
      var front, e := counts[..|counts| - 1], counts[|counts| - 1].key;
      DeduplicatedIsExact(records, front);
      OnIsKeysOf(records, e);
      InitiatedAreCounted(records, e);
      SumSnoc(Merged(records), Keys(front), e);
    }
  }

  /** Sums over the index are sums over all events, for what is zero without initiations. */
  lemma IndexSum(records: seq<Record>, es: seq<string>, f: string -> int)
    requires ListsEvents(es, records) && forall e :: InitiatedOn(records, e) == 0 ==> f(e) == 0
    ensures Sum(f, Keys(ByEventFold(Initiations(records)))) == Sum(f, es)
  {
    var inits := Initiations(records);
    var keys := Keys(ByEventFold(inits));
    IndexIsComplete(inits);
    InitiationsAreRecords(records);
    forall e | e in keys ensures e in es {
      CountedAtLeastOnce(inits, e);
      if e !in es {
        NoInitiationElsewhere(inits, e);
      }
    }
    SumSupport(f, keys, es);
  }

  lemma NothingWithoutInitiations(records: seq<Record>, e: string)
    requires InitiatedOn(records, e) == 0
    ensures Merged(records)(e) == 0 && forall c :: Extra(records, e, c) == 0
  {
    InitiatedAreCounted(records, e);
  }

  /**
   * Every failure bucket of every record list, exactly: the handshakes that nobody accepted, by their cause, and
   * event by event what the initiations beyond its handshakes add.
   */
  lemma BucketsAreExact(records: seq<Record>, es: seq<string>, c: Cause)
    requires ListsEvents(es, records)
    ensures HandshakeReport(records).failures[c] == |FailedBy(records, c)| + Sum(Extras(records, c), es)
  {
    var facts, groups := FactsOf(records), GroupFold(records);
    GroupsAreHandshakes(records);
    OwnCausesAreKeys(facts, groups, c);
    ChosenHandshakes(records, (g: Entry<string, Group>) => !g.value.accepted && CauseOfGroup(facts, g.key, g.value) == c,
                     FailedBy(records, c));
    IndexIsComplete(facts.inits);
    ExtrasAreExact(records, ByEventFold(facts.inits), c);
    forall e | InitiatedOn(records, e) == 0 ensures Extras(records, c)(e) == 0 {
      NothingWithoutInitiations(records, e);
    }
    IndexSum(records, es, Extras(records, c));
  }

  ghost function AcceptedOnes(records: seq<Record>): set<string> {
    set key | key in Handshakes(records) && IsAccepted(records, key)
  }

  ghost function CancelledOnes(records: seq<Record>): set<string> {
    set key | key in Handshakes(records) && IsCancelled(records, key)
  }

  /** Cancelled handshakes about an event that another handshake settled. */
  ghost function CoordinatedOnes(records: seq<Record>): set<string> {
    set key | key in CancelledOnes(records) && exists e :: Touches(records, key, e) && IsSettled(records, e)
  }

  lemma CoordinatedIsExact(records: seq<Record>)
    ensures var groups := GroupFold(records);
            CoordinatedGroups(groups, AcceptedEvents(groups)) == |CoordinatedOnes(records)|
  {
    var groups := GroupFold(records);
    var accepted := AcceptedEvents(groups);
    GroupsAreHandshakes(records);
    CoordinatedAreKeys(groups, accepted);
    forall g | g in groups
      ensures !g.value.accepted && g.value.cancelled && g.value.events * accepted != {} <==> g.key in CoordinatedOnes(records)
    {
      assert Describes(records, g);
      forall e ensures e in g.value.events * accepted <==> Touches(records, g.key, e) && IsSettled(records, e) {
        SettledAreAccepted(records, e);
      }
    }
    ChosenHandshakes(records, (g: Entry<string, Group>) =>
                                !g.value.accepted && g.value.cancelled && g.value.events * accepted != {},
                     CoordinatedOnes(records));
  }

  /** Every counter of the report, for every record list. */
  lemma CountersAreExact(records: seq<Record>, es: seq<string>)
    requires ListsEvents(es, records)
    ensures var r, initiated, handshakes := HandshakeReport(records), |AllInitiated(records)|, |Handshakes(records)|;
            && r.initiated == (if initiated < handshakes then handshakes else initiated)
            && r.succeeded == |AcceptedOnes(records)|
            && r.failed == r.initiated - r.succeeded
            && r.cancelled == |CancelledOnes(records)|
            && r.cancelledByCoordinator == |CoordinatedOnes(records)| + Sum(Merged(records), es)
  {
    var groups, inits := GroupFold(records), Initiations(records);
    GroupsAreHandshakes(records);
    assert records[..|records|] == records;
    InitiationsAreCounted(records, |records|);
    GroupsAreKeys(groups);
    ChosenHandshakes(records, (g: Entry<string, Group>) => true, Handshakes(records));
    SucceededAreKeys(groups);
    ChosenHandshakes(records, (g: Entry<string, Group>) => g.value.accepted, AcceptedOnes(records));
    CancelledAreKeys(groups);
    ChosenHandshakes(records, (g: Entry<string, Group>) => !g.value.accepted && g.value.cancelled, CancelledOnes(records));
    CoordinatedIsExact(records);
    IndexIsComplete(inits);
    DeduplicatedIsExact(records, ByEventFold(inits));
    forall e | InitiatedOn(records, e) == 0 ensures Merged(records)(e) == 0 {
      NothingWithoutInitiations(records, e);
    }
    IndexSum(records, es, Merged(records));
  }
}
