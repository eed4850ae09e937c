/** The unreachable-provider watchdog: park on silence, terminate and re-sign on recovery. */
module Failover {
  import opened Options
  import opened Listings

  datatype Source = Explicit | Ac

  datatype Status = Proposed | Countered | Active | Held | Rejected | Suspended | Terminated

  datatype Reason = NoReason | ProviderUnreachable | ProviderUnavailable | ProviderRecovered | OtherReason

  /** The columns that a successor inherits. */
  datatype Contract = Contract(envId: string, service: Option<string>, consumer: string, consumerOwner: string,
                               provider: Option<string>, providerOwner: string, terms: string,
                               source: Source, collaboration: Option<string>)

  /** A row's id is its position in the store. */
  datatype Row = Row(contract: Contract, status: Status, reason: Reason)

  /** Freshest heartbeat (ms) per environment and agent; an absent key is "unknown". */
  type Heartbeats = map<(string, string), int>

  datatype Tally = Tally(watched: nat, suspended: nat, recovered: nat)

  /** Rows the watchdog evaluates: explicit, linked, active or parked by the watchdog itself. */
  predicate Watched(row: Row) {
    && row.contract.source == Explicit && row.contract.provider.Some? && row.contract.service.Some?
    && (row.status == Active || (row.status == Suspended && row.reason == ProviderUnreachable))
  }

  function Silence(row: Row, beats: Heartbeats, now: int): Option<int>
    requires row.contract.provider.Some?
  {
    var key := (row.contract.envId, row.contract.provider.value);
    if key in beats then Some(now - beats[key]) else None
  }

  datatype Verdict = Leave | Park | Recover

  function ByLiveness(row: Row, silence: Option<int>, limit: int): Verdict {
    if silence.None? then Leave
    else if row.status == Active && silence.value > limit then Park
    else if row.status == Suspended && row.reason == ProviderUnreachable && silence.value <= limit then Recover
    else Leave
  }

  function Judge(row: Row, beats: Heartbeats, now: int, limit: int): Verdict {
    if Watched(row) then ByLiveness(row, Silence(row, beats, now), limit) else Leave
  }

  function Judged(row: Row, verdict: Verdict): Row {
    match verdict
    case Leave => row
    case Park => row.(status := Suspended, reason := ProviderUnreachable)
    case Recover => row.(status := Terminated, reason := ProviderRecovered)
  }

  /** The successor that a recovered row gets. */
  function Born(row: Row, verdict: Verdict): seq<Row> {
    if verdict == Recover then [Row(row.contract, Active, NoReason)] else []
  }

  function CountVerdict(rows: seq<Row>, beats: Heartbeats, now: int, limit: int, verdict: Verdict): nat {
    if rows == [] then 0
    else CountVerdict(rows[..|rows| - 1], beats, now, limit, verdict)
         + (if Judge(rows[|rows| - 1], beats, now, limit) == verdict then 1 else 0)
  }

  function CountWatched(rows: seq<Row>): nat {
    if rows == [] then 0 else CountWatched(rows[..|rows| - 1]) + (if Watched(rows[|rows| - 1]) then 1 else 0)
  }

  function JudgedRows(rows: seq<Row>, beats: Heartbeats, now: int, limit: int): (after: seq<Row>)
    ensures |after| == |rows|
    ensures forall k :: 0 <= k < |rows| ==> after[k] == Judged(rows[k], Judge(rows[k], beats, now, limit))
  {
    seq(|rows|, k requires 0 <= k < |rows| => Judged(rows[k], Judge(rows[k], beats, now, limit)))
  }

  /** The successors signed while sweeping `rows`, in sweep order. */
  function Successors(rows: seq<Row>, beats: Heartbeats, now: int, limit: int): seq<Row> {
    if rows == [] then []
    else
      var last := rows[|rows| - 1];
      Successors(rows[..|rows| - 1], beats, now, limit) + Born(last, Judge(last, beats, now, limit))
  }

  /** The store after one sweep: old rows judged in place, successors appended. */
  function Swept(rows: seq<Row>, beats: Heartbeats, now: int, limit: int): seq<Row> {
    JudgedRows(rows, beats, now, limit) + Successors(rows, beats, now, limit)
  }

  /** The source's cache key, which joins the two ids directly. */
  function ProbeKey(envId: string, agent: string): string {
    envId + agent
  }

  /** The second environment id extends the first by `s`, which starts the first provider id. */
  predicate Shifts(s: string, envId: string, agent: string, envId': string, agent': string) {
    envId' == envId + s && agent == s + agent'
  }

  /** Keys of different pairs collide exactly when one environment id extends the other by what the provider ids absorb. */
  lemma ProbeKeysCollideIff(envId: string, agent: string, envId': string, agent': string)
    ensures (envId, agent) != (envId', agent') && ProbeKey(envId, agent) == ProbeKey(envId', agent')
       <==> exists s :: s != "" && (Shifts(s, envId, agent, envId', agent') || Shifts(s, envId', agent', envId, agent))
    ensures |envId| == |envId'| && ProbeKey(envId, agent) == ProbeKey(envId', agent') ==> (envId, agent) == (envId', agent')
  {
    if ProbeKey(envId, agent) == ProbeKey(envId', agent') {
      if |envId| <= |envId'| {
        EqualKeysShift(envId, agent, envId', agent');
      } else {
        EqualKeysShift(envId', agent', envId, agent);
      }
    }
    if s :| s != "" && Shifts(s, envId, agent, envId', agent') {
      ShiftedKeysAreEqual(s, envId, agent, envId', agent');
    } else if s :| s != "" && Shifts(s, envId', agent', envId, agent) {
      ShiftedKeysAreEqual(s, envId', agent', envId, agent);
    }
  }

  lemma ShiftedKeysAreEqual(s: string, envId: string, agent: string, envId': string, agent': string)
    requires Shifts(s, envId, agent, envId', agent') && s != ""
    ensures ProbeKey(envId, agent) == ProbeKey(envId', agent') && envId != envId'
  {
    assert envId + (s + agent') == (envId + s) + agent';
    assert |envId'| > |envId|;
  }

  lemma EqualKeysShift(envId: string, agent: string, envId': string, agent': string)
    requires |envId| <= |envId'| && ProbeKey(envId, agent) == ProbeKey(envId', agent')
    ensures var s := envId'[|envId|..]; Shifts(s, envId, agent, envId', agent') && (s == "" ==> envId == envId' && agent == agent')
  {
    var key := ProbeKey(envId, agent);
    assert envId == key[..|envId|] && envId' == key[..|envId'|];
    assert agent == key[|envId|..] && agent' == key[|envId'|..];
  }

  class AgreementStore {
    var rows: seq<Row>

    constructor (rows: seq<Row>)
      ensures this.rows == rows
    {
      this.rows := rows;
    }

    method SetStatus(i: nat, status: Status, reason: Reason)
      requires i < |rows|
      modifies this
      ensures rows == old(rows)[i := old(rows)[i].(status := status, reason := reason)]
    {
      rows := rows[i := rows[i].(status := status, reason := reason)];
    }

    /** Terminate the parked row and sign its successor on identical terms. */
    method ResignRecoveredAgreement(i: nat)
      requires i < |rows|
      modifies this
      ensures rows == old(rows)[i := old(rows)[i].(status := Terminated, reason := ProviderRecovered)]
                      + [Row(old(rows)[i].contract, Active, NoReason)]
    {
      SetStatus(i, Terminated, ProviderRecovered);
      rows := rows + [Row(rows[i].contract, Active, NoReason)];
    }

    /** Park or recover row `i` according to its provider's silence. */
    method Transition(i: nat, silence: int, limit: int) returns (verdict: Verdict)
      requires i < |rows|
      modifies this
      ensures verdict == ByLiveness(old(rows)[i], Some(silence), limit)
      ensures rows == Moved(old(rows), i, verdict)
    {
      var row := rows[i];
      if row.status == Active && silence > limit {
        SetStatus(i, Suspended, ProviderUnreachable);
        verdict := Park;
      } else if row.status == Suspended && row.reason == ProviderUnreachable && silence <= limit {
        ResignRecoveredAgreement(i);
        verdict := Recover;
      } else {
        verdict := Leave;
        assert rows[i := rows[i]] == rows;
      }
    }

    /** Judge one row, asking for a provider's heartbeat at most once per sweep. */
    method Consider(i: nat, cache: ProbeCache, beats: Heartbeats, now: int, limit: int)
      returns (verdict: Verdict, cached: ProbeCache)
      requires i < |rows| && Faithful(cache, beats)
      modifies this
      ensures verdict == Judge(old(rows)[i], beats, now, limit)
      ensures rows == Moved(old(rows), i, verdict)
      ensures Faithful(cached, beats)
    {
      var row := rows[i];
      verdict, cached := Leave, cache;
      assert rows[i := rows[i]] == rows;
      if Watched(row) {
        var key := (row.contract.envId, row.contract.provider.value);
        if key !in cached {
          cached := cached[key := Beat(beats, key)];
        }
        if cached[key].Some? {
          verdict := Transition(i, now - cached[key].value, limit);
        }
      }
    }

    method SweepProviderFailover(beats: Heartbeats, now: int, limit: int) returns (tally: Tally)
      modifies this
      ensures rows == Swept(old(rows), beats, now, limit)
      ensures tally == TallyOf(old(rows), beats, now, limit)
    {
      ghost var snapshot := rows;
      var count, cache := |rows|, map[];
      tally := Tally(0, 0, 0);
      for i := 0 to count
        invariant Faithful(cache, beats)
        invariant rows == PartlySwept(snapshot, i, beats, now, limit)
        invariant tally == TallyOf(snapshot[..i], beats, now, limit)
      {
        assert snapshot[..i + 1][..i] == snapshot[..i];
        var watched := Watched(rows[i]);
        var verdict;
        verdict, cache := Consider(i, cache, beats, now, limit);
        tally := Tally(tally.watched + (if watched then 1 else 0), tally.suspended + (if verdict == Park then 1 else 0),
                       tally.recovered + (if verdict == Recover then 1 else 0));
      }
      assert snapshot[..|snapshot|] == snapshot;
      SweepingAllIsSwept(snapshot, beats, now, limit);
    }
  }

  type ProbeCache = map<(string, string), Option<int>>

  ghost predicate Faithful(cache: ProbeCache, beats: Heartbeats) {
    forall key :: key in cache ==> cache[key] == Beat(beats, key)
  }

  function TallyOf(rows: seq<Row>, beats: Heartbeats, now: int, limit: int): Tally {
    Tally(CountWatched(rows), CountVerdict(rows, beats, now, limit, Park), CountVerdict(rows, beats, now, limit, Recover))
  }

  function Moved(rows: seq<Row>, i: nat, verdict: Verdict): seq<Row>
    requires i < |rows|
  {
    rows[i := Judged(rows[i], verdict)] + Born(rows[i], verdict)
  }

  function Beat(beats: Heartbeats, key: (string, string)): Option<int> {
    if key in beats then Some(beats[key]) else None
  }

  /** The store when the sweep has judged the first `i` rows. */
  ghost function PartlySwept(rows: seq<Row>, i: nat, beats: Heartbeats, now: int, limit: int): (after: seq<Row>)
    requires i <= |rows|
    ensures |after| >= |rows| && forall k :: i <= k < |rows| ==> after[k] == rows[k]
  {
    if i == 0 then rows
    else Moved(PartlySwept(rows, i - 1, beats, now, limit), i - 1, Judge(rows[i - 1], beats, now, limit))
  }

  lemma PrefixGrows(rows: seq<Row>, i: nat, beats: Heartbeats, now: int, limit: int)
    requires 0 < i <= |rows|
    ensures var last := rows[i - 1];
            && JudgedRows(rows[..i], beats, now, limit)
               == JudgedRows(rows[..i - 1], beats, now, limit) + [Judged(last, Judge(last, beats, now, limit))]
            && Successors(rows[..i], beats, now, limit)
               == Successors(rows[..i - 1], beats, now, limit) + Born(last, Judge(last, beats, now, limit))
            && rows[i - 1..] == [last] + rows[i..]
  {
    assert rows[..i][..i - 1] == rows[..i - 1];
    JudgedOneMore(rows[..i], beats, now, limit);
  }

  /** Judging the row behind `front`. */
  lemma MovedNext(front: seq<Row>, row: Row, rest: seq<Row>, born: seq<Row>, verdict: Verdict)
    ensures var before := (front + ([row] + rest)) + born;
            Moved(before, |front|, verdict) == ((front + [Judged(row, verdict)]) + rest) + (born + Born(row, verdict))
  {
  }

  /** After `i` rows: the judged ones, the untouched ones, then the successors signed so far. */
  lemma {:induction false} SweptSoFar(rows: seq<Row>, i: nat, beats: Heartbeats, now: int, limit: int)
    requires i <= |rows|
    ensures PartlySwept(rows, i, beats, now, limit)
         == (JudgedRows(rows[..i], beats, now, limit) + rows[i..]) + Successors(rows[..i], beats, now, limit)
  {
    if i == 0 {
      assert rows == (JudgedRows(rows[..0], beats, now, limit) + rows[0..]) + Successors(rows[..0], beats, now, limit);
    } else {
      SweptSoFar(rows, i - 1, beats, now, limit);
      PrefixGrows(rows, i, beats, now, limit);
      MovedNext(JudgedRows(rows[..i - 1], beats, now, limit), rows[i - 1], rows[i..],
                Successors(rows[..i - 1], beats, now, limit), Judge(rows[i - 1], beats, now, limit));
    }
  }

  lemma SweepingAllIsSwept(rows: seq<Row>, beats: Heartbeats, now: int, limit: int)
    ensures PartlySwept(rows, |rows|, beats, now, limit) == Swept(rows, beats, now, limit)
  {
    SweptSoFar(rows, |rows|, beats, now, limit);
    assert rows[..|rows|] == rows && JudgedRows(rows, beats, now, limit) + [] == JudgedRows(rows, beats, now, limit);
  }

  // ---- The visiting order ------------------------------------------------------

  /** The rows that a sweep makes of one row. */
  ghost function Yield(row: Row, beats: Heartbeats, now: int, limit: int): multiset<Row> {
    var verdict := Judge(row, beats, now, limit);
    multiset{Judged(row, verdict)} + multiset(Born(row, verdict))
  }

  ghost function Yields(rows: seq<Row>, beats: Heartbeats, now: int, limit: int): multiset<Row> {
    if rows == [] then multiset{}
    else Yields(rows[..|rows| - 1], beats, now, limit) + Yield(rows[|rows| - 1], beats, now, limit)
  }

  lemma JudgedOneMore(rows: seq<Row>, beats: Heartbeats, now: int, limit: int)
    requires rows != []
    ensures var front, last := rows[..|rows| - 1], rows[|rows| - 1];
            JudgedRows(rows, beats, now, limit)
            == JudgedRows(front, beats, now, limit) + [Judged(last, Judge(last, beats, now, limit))]
  {
  }

  lemma Regroup(judged: seq<Row>, born: seq<Row>, row: Row, more: seq<Row>)
    ensures multiset(judged + [row]) + multiset(born + more)
         == multiset(judged) + multiset(born) + (multiset{row} + multiset(more))
  {
  }

  ghost function SweptBag(rows: seq<Row>, beats: Heartbeats, now: int, limit: int): multiset<Row> {
    multiset(JudgedRows(rows, beats, now, limit)) + multiset(Successors(rows, beats, now, limit))
  }

  lemma SweptBagGrows(rows: seq<Row>, front: seq<Row>, last: Row, beats: Heartbeats, now: int, limit: int)
    requires rows != [] && front == rows[..|rows| - 1] && last == rows[|rows| - 1]
    ensures SweptBag(rows, beats, now, limit) == SweptBag(front, beats, now, limit) + Yield(last, beats, now, limit)
  {
    var verdict := Judge(last, beats, now, limit);
    JudgedOneMore(rows, beats, now, limit);
    Regroup(JudgedRows(front, beats, now, limit), Successors(front, beats, now, limit),
            Judged(last, verdict), Born(last, verdict));
  }

  lemma {:induction false} SweptAreYields(rows: seq<Row>, beats: Heartbeats, now: int, limit: int)
    ensures SweptBag(rows, beats, now, limit) == Yields(rows, beats, now, limit)
  {
    if rows != [] {
      var front, last := rows[..|rows| - 1], rows[|rows| - 1];
      SweptAreYields(front, beats, now, limit);
      SweptBagGrows(rows, front, last, beats, now, limit);
    }
  }

  function Without(rows: seq<Row>, i: nat): seq<Row>
    requires i < |rows|
  {
    rows[..i] + rows[i + 1..]
  }

  lemma RemoveOne(b: seq<Row>, i: nat)
    requires i < |b|
    ensures multiset(Without(b, i)) == multiset(b) - multiset{b[i]}
  {
    assert b == b[..i] + ([b[i]] + b[i + 1..]);
  }

  lemma WithoutFromFront(rows: seq<Row>, i: nat, last: nat)
    requires i < last == |rows| - 1
    ensures var rest := Without(rows, i);
            |rest| == last && rest[..last - 1] == Without(rows[..last], i) && rest[last - 1] == rows[last]
  {
  }

  lemma MatchesLast(a: seq<Row>, b: seq<Row>) returns (i: nat)
    requires a != [] && multiset(a) == multiset(b)
    ensures i < |b| && b[i] == a[|a| - 1] && multiset(a[..|a| - 1]) == multiset(Without(b, i))
  {
    var last := |a| - 1;
    assert a[last] in multiset(a) && a[last] in multiset(b);
    i :| 0 <= i < |b| && b[i] == a[last];
    RemoveOne(b, i);
    RemoveOne(a, last);
    assert Without(a, last) == a[..last];
  }

  lemma {:induction false} YieldsIgnoreOrder(a: seq<Row>, b: seq<Row>, beats: Heartbeats, now: int, limit: int)
    requires multiset(a) == multiset(b)
    ensures Yields(a, beats, now, limit) == Yields(b, beats, now, limit)
  {
    if a == [] {
      assert |multiset(b)| == 0;
    } else {
      var i := MatchesLast(a, b);
      YieldsIgnoreOrder(a[..|a| - 1], Without(b, i), beats, now, limit);
      TakenOut(b, i, beats, now, limit);
    }
  }

  lemma {:induction false} TakenOut(b: seq<Row>, i: nat, beats: Heartbeats, now: int, limit: int)
    requires i < |b|
    ensures Yields(b, beats, now, limit) == Yields(Without(b, i), beats, now, limit) + Yield(b[i], beats, now, limit)
  {
    var last := |b| - 1;
    if i == last {
      assert Without(b, i) == b[..last];
    } else {
      var front := b[..last];
      TakenOut(front, i, beats, now, limit);
      WithoutFromFront(b, i, last);
      YieldsGrow(b, front, b[last], beats, now, limit);
      YieldsGrow(Without(b, i), Without(front, i), b[last], beats, now, limit);
      SumsRegroup(Yields(Without(front, i), beats, now, limit), Yield(b[i], beats, now, limit), Yield(b[last], beats, now, limit));
    }
  }

  lemma YieldsGrow(rows: seq<Row>, front: seq<Row>, last: Row, beats: Heartbeats, now: int, limit: int)
    requires rows != [] && rows[..|rows| - 1] == front && rows[|rows| - 1] == last
    ensures Yields(rows, beats, now, limit) == Yields(front, beats, now, limit) + Yield(last, beats, now, limit)
  {
  }

  lemma SumsRegroup(x: multiset<Row>, y: multiset<Row>, z: multiset<Row>)
    ensures (x + y) + z == (x + z) + y
  {
  }

  /** In whatever order the rows are visited, a sweep leaves the same rows: only the order of the successors differs. */
  lemma VisitingOrderIsIrrelevant(a: seq<Row>, b: seq<Row>, beats: Heartbeats, now: int, limit: int)
    requires multiset(a) == multiset(b)
    ensures multiset(Swept(a, beats, now, limit)) == multiset(Swept(b, beats, now, limit))
  {
    SweptAreYields(a, beats, now, limit);
    SweptAreYields(b, beats, now, limit);
    YieldsIgnoreOrder(a, b, beats, now, limit);
  }

  // ---- One sweep --------------------------------------------------------------

  predicate Known(row: Row, beats: Heartbeats) {
    && row.contract.source == Explicit && row.contract.provider.Some? && row.contract.service.Some?
    && (row.contract.envId, row.contract.provider.value) in beats
  }

  /**
   * Who is touched: only explicit, linked rows with a known heartbeat, and of these exactly the active
   * ones silent beyond the limit (parked) and the watchdog-parked ones heard within it (closed).
   */
  lemma WhoIsTouched(rows: seq<Row>, beats: Heartbeats, now: int, limit: int, k: nat)
    requires k < |rows|
    ensures var row, after := rows[k], Swept(rows, beats, now, limit)[k];
            after.contract == row.contract
            && if !Known(row, beats) then after == row
               else
                 var silence := now - beats[(row.contract.envId, row.contract.provider.value)];
                 if row.status == Active && silence > limit then
                   after.status == Suspended && after.reason == ProviderUnreachable
                 else if row.status == Suspended && row.reason == ProviderUnreachable && silence <= limit then
                   after.status == Terminated && after.reason == ProviderRecovered
                 else after == row
  {
  }

  /** Heard of, and silent beyond the limit while active. */
  predicate FallsSilent(row: Row, beats: Heartbeats, now: int, limit: int) {
    Known(row, beats) && row.status == Active && limit < now - beats[(row.contract.envId, row.contract.provider.value)]
  }

  /** Parked by the watchdog, and heard within the limit. */
  predicate ComesBack(row: Row, beats: Heartbeats, now: int, limit: int) {
    && Known(row, beats) && row.status == Suspended && row.reason == ProviderUnreachable
    && now - beats[(row.contract.envId, row.contract.provider.value)] <= limit
  }

  predicate IsWatched(row: Row) {
    && row.contract.source == Explicit && row.contract.provider.Some? && row.contract.service.Some?
    && (row.status == Active || (row.status == Suspended && row.reason == ProviderUnreachable))
  }

  lemma VerdictsFollowTheRow(row: Row, beats: Heartbeats, now: int, limit: int)
    ensures Judge(row, beats, now, limit) == Park <==> FallsSilent(row, beats, now, limit)
    ensures Judge(row, beats, now, limit) == Recover <==> ComesBack(row, beats, now, limit)
    ensures Watched(row) <==> IsWatched(row)
  {
  }

  function Returning(beats: Heartbeats, now: int, limit: int): Row -> bool {
    (row: Row) => ComesBack(row, beats, now, limit)
  }

  /** The successors: one for each row whose provider comes back, in order, active on the same contract. */
  lemma {:induction false} SuccessorsAreOfReturning(rows: seq<Row>, beats: Heartbeats, now: int, limit: int)
    ensures var back, signed := Kept(rows, Returning(beats, now, limit)), Successors(rows, beats, now, limit);
            && |signed| == |back|
            && forall k :: 0 <= k < |back| ==> signed[k] == Row(back[k].contract, Active, NoReason)
  {
    if rows != [] {
      SuccessorsAreOfReturning(rows[..|rows| - 1], beats, now, limit);
      VerdictsFollowTheRow(rows[|rows| - 1], beats, now, limit);
    }
  }

  /** What a sweep reports: the rows it watches, those that fall silent, and those whose provider comes back. */
  lemma {:induction false} TallyIsExact(rows: seq<Row>, beats: Heartbeats, now: int, limit: int)
    ensures TallyOf(rows, beats, now, limit)
         == Tally(|Kept(rows, (row: Row) => IsWatched(row))|,
                  |Kept(rows, (row: Row) => FallsSilent(row, beats, now, limit))|,
                  |Kept(rows, (row: Row) => ComesBack(row, beats, now, limit))|)
  {
    if rows != [] {
      TallyIsExact(rows[..|rows| - 1], beats, now, limit);
      VerdictsFollowTheRow(rows[|rows| - 1], beats, now, limit);
    }
  }

  lemma {:induction false} SuccessorsAreHeard(rows: seq<Row>, beats: Heartbeats, now: int, limit: int)
    ensures |Successors(rows, beats, now, limit)| == CountVerdict(rows, beats, now, limit, Recover)
    ensures forall j :: 0 <= j < |Successors(rows, beats, now, limit)| ==>
              Judge(Successors(rows, beats, now, limit)[j], beats, now, limit) == Leave
  {
    if rows != [] {
      SuccessorsAreHeard(rows[..|rows| - 1], beats, now, limit);
    }
  }

  lemma {:induction false} NothingLeftToDo(rows: seq<Row>, beats: Heartbeats, now: int, limit: int)
    requires forall k :: 0 <= k < |rows| ==> Judge(rows[k], beats, now, limit) == Leave
    ensures Swept(rows, beats, now, limit) == rows
    ensures CountVerdict(rows, beats, now, limit, Park) == CountVerdict(rows, beats, now, limit, Recover) == 0
  {
    if rows != [] {
      NothingLeftToDo(rows[..|rows| - 1], beats, now, limit);
    }
  }

  /** Repeating a sweep with the same clock and heartbeats makes no transition. */
  lemma SweepIsIdempotent(rows: seq<Row>, beats: Heartbeats, now: int, limit: int)
    ensures var once := Swept(rows, beats, now, limit);
            && Swept(once, beats, now, limit) == once
            && CountVerdict(once, beats, now, limit, Park) == CountVerdict(once, beats, now, limit, Recover) == 0
  {
    var once := Swept(rows, beats, now, limit);
    SuccessorsAreHeard(rows, beats, now, limit);
    forall k | 0 <= k < |once|
      ensures Judge(once[k], beats, now, limit) == Leave
    {
      if k >= |rows| {
        assert once[k] == Successors(rows, beats, now, limit)[k - |rows|];
      }
    }
    NothingLeftToDo(once, beats, now, limit);
  }

  // ---- Runs of sweeps -----------------------------------------------------------

  datatype Sweep = Sweep(beats: Heartbeats, now: int, limit: int)

  function AfterSweeps(rows: seq<Row>, sweeps: seq<Sweep>): seq<Row> {
    if sweeps == [] then rows
    else
      var w := sweeps[|sweeps| - 1];
      Swept(AfterSweeps(rows, sweeps[..|sweeps| - 1]), w.beats, w.now, w.limit)
  }

  /** No row ever becomes active again: re-activation is always a new row. */
  lemma {:induction false} NeverBackToActive(rows: seq<Row>, sweeps: seq<Sweep>, k: nat)
    requires k < |rows|
    ensures var after := AfterSweeps(rows, sweeps);
            && k < |after| && after[k].contract == rows[k].contract
            && (after[k].status == Active ==> rows[k].status == Active)
            && (rows[k].status == Terminated ==> after[k] == rows[k])
  {
    if sweeps != [] {
      NeverBackToActive(rows, sweeps[..|sweeps| - 1], k);
    }
  }

  /** A row with the first ancestor of its lineage; an original row is its own root. */
  datatype Traced = Traced(row: Row, root: nat)

  ghost function Untraced(traced: seq<Traced>): (rows: seq<Row>)
    ensures |rows| == |traced| && forall k :: 0 <= k < |rows| ==> rows[k] == traced[k].row
  {
    seq(|traced|, k requires 0 <= k < |traced| => traced[k].row)
  }

  ghost function Original(rows: seq<Row>): (traced: seq<Traced>)
    ensures |traced| == |rows| && forall k :: 0 <= k < |rows| ==> traced[k] == Traced(rows[k], k)
  {
    seq(|rows|, k requires 0 <= k < |rows| => Traced(rows[k], k))
  }

  ghost function TracedJudged(traced: seq<Traced>, w: Sweep): (after: seq<Traced>)
    ensures |after| == |traced|
    ensures forall k :: 0 <= k < |traced| ==>
      after[k] == Traced(Judged(traced[k].row, Judge(traced[k].row, w.beats, w.now, w.limit)), traced[k].root)
  {
    seq(|traced|, k requires 0 <= k < |traced| =>
      Traced(Judged(traced[k].row, Judge(traced[k].row, w.beats, w.now, w.limit)), traced[k].root))
  }

  /** Each successor joins the lineage of the row that its recovery closes. */
  ghost function TracedSuccessors(traced: seq<Traced>, w: Sweep): seq<Traced> {
    if traced == [] then []
    else
      var last := traced[|traced| - 1];
      TracedSuccessors(traced[..|traced| - 1], w)
      + (if Judge(last.row, w.beats, w.now, w.limit) == Recover
         then [Traced(Row(last.row.contract, Active, NoReason), last.root)] else [])
  }

  ghost function TracedRun(rows: seq<Row>, sweeps: seq<Sweep>): seq<Traced> {
    if sweeps == [] then Original(rows)
    else
      var before, w := TracedRun(rows, sweeps[..|sweeps| - 1]), sweeps[|sweeps| - 1];
      TracedJudged(before, w) + TracedSuccessors(before, w)
  }

  lemma {:induction false} TracedSuccessorsAreSuccessors(traced: seq<Traced>, w: Sweep)
    ensures Untraced(TracedSuccessors(traced, w)) == Successors(Untraced(traced), w.beats, w.now, w.limit)
  {
    if traced != [] {
      TracedSuccessorsAreSuccessors(traced[..|traced| - 1], w);
      assert Untraced(traced)[..|traced| - 1] == Untraced(traced[..|traced| - 1]);
    }
  }

  /** Tracing lineages changes nothing about the rows themselves. */
  lemma {:induction false} TracedRunIsTheRun(rows: seq<Row>, sweeps: seq<Sweep>)
    ensures Untraced(TracedRun(rows, sweeps)) == AfterSweeps(rows, sweeps)
  {
    if sweeps == [] {
      assert Untraced(Original(rows)) == rows;
    } else {
      var before, w := TracedRun(rows, sweeps[..|sweeps| - 1]), sweeps[|sweeps| - 1];
      TracedRunIsTheRun(rows, sweeps[..|sweeps| - 1]);
      TracedSuccessorsAreSuccessors(before, w);
      assert Untraced(TracedJudged(before, w)) == JudgedRows(Untraced(before), w.beats, w.now, w.limit);
      UntracedJoin(TracedJudged(before, w), TracedSuccessors(before, w));
    }
  }

  lemma UntracedJoin(a: seq<Traced>, b: seq<Traced>)
    ensures Untraced(a + b) == Untraced(a) + Untraced(b)
  {
  }

  /** Non-terminated rows of the lineage rooted at `root`. */
  ghost function CountLive(traced: seq<Traced>, root: nat): nat {
    if traced == [] then 0
    else
      var last := traced[|traced| - 1];
      CountLive(traced[..|traced| - 1], root) + (if last.root == root && last.row.status != Terminated then 1 else 0)
  }

  lemma {:induction false} LiveOfJoin(a: seq<Traced>, b: seq<Traced>, root: nat)
    ensures CountLive(a + b, root) == CountLive(a, root) + CountLive(b, root)
  {
    if b == [] {
      assert a + b == a;
    } else {
      LiveOfJoin(a, b[..|b| - 1], root);
      assert (a + b)[..|a + b| - 1] == a + b[..|b| - 1];
    }
  }

  lemma {:induction false} LiveIsConserved(traced: seq<Traced>, w: Sweep, root: nat)
    ensures CountLive(TracedJudged(traced, w), root) + CountLive(TracedSuccessors(traced, w), root) == CountLive(traced, root)
  {
    if traced != [] {
      var front, last := traced[..|traced| - 1], traced[|traced| - 1];
      LiveIsConserved(front, w, root);
      assert TracedJudged(traced, w)[..|front|] == TracedJudged(front, w);
      if Judge(last.row, w.beats, w.now, w.limit) == Recover {
        var twin := Traced(Row(last.row.contract, Active, NoReason), last.root);
        assert (TracedSuccessors(front, w) + [twin])[..|TracedSuccessors(front, w)|] == TracedSuccessors(front, w);
      } else {
        assert TracedSuccessors(traced, w) == TracedSuccessors(front, w);
      }
    }
  }

  lemma {:induction false} FirstLives(rows: seq<Row>, root: nat)
    ensures CountLive(Original(rows), root) == if root < |rows| && rows[root].status != Terminated then 1 else 0
  {
    if rows != [] {
      FirstLives(rows[..|rows| - 1], root);
      assert Original(rows)[..|rows| - 1] == Original(rows[..|rows| - 1]);
    }
  }

  /**
   * Over any run of sweeps each lineage keeps exactly one non-terminated row
   * (none if it started terminated).
   */
  lemma {:induction false} OneLiveRowPerLineage(rows: seq<Row>, sweeps: seq<Sweep>, root: nat)
    requires root < |rows|
    ensures CountLive(TracedRun(rows, sweeps), root) == if rows[root].status == Terminated then 0 else 1
  {
    if sweeps == [] {
      FirstLives(rows, root);
    } else {
      var before, w := TracedRun(rows, sweeps[..|sweeps| - 1]), sweeps[|sweeps| - 1];
      OneLiveRowPerLineage(rows, sweeps[..|sweeps| - 1], root);
      LiveIsConserved(before, w, root);
      LiveOfJoin(TracedJudged(before, w), TracedSuccessors(before, w), root);
    }
  }

  /** Every row of a lineage carries the original's contract unchanged. */
  ghost predicate SameContracts(rows: seq<Row>, traced: seq<Traced>) {
    forall k :: 0 <= k < |traced| ==> traced[k].root < |rows| && traced[k].row.contract == rows[traced[k].root].contract
  }

  lemma {:induction false} SuccessorsKeepContracts(rows: seq<Row>, traced: seq<Traced>, w: Sweep)
    requires SameContracts(rows, traced)
    ensures SameContracts(rows, TracedSuccessors(traced, w))
  {
    if traced != [] {
      SuccessorsKeepContracts(rows, traced[..|traced| - 1], w);
    }
  }

  lemma {:induction false} TermsNeverChange(rows: seq<Row>, sweeps: seq<Sweep>)
    ensures SameContracts(rows, TracedRun(rows, sweeps))
  {
    if sweeps != [] {
      TermsNeverChange(rows, sweeps[..|sweeps| - 1]);
      SuccessorsKeepContracts(rows, TracedRun(rows, sweeps[..|sweeps| - 1]), sweeps[|sweeps| - 1]);
    }
  }

  lemma {:induction false} WatchedOfJoin(a: seq<Row>, b: seq<Row>)
    ensures CountWatched(a + b) == CountWatched(a) + CountWatched(b)
  {
    if b == [] {
      assert a + b == a;
    } else {
      WatchedOfJoin(a, b[..|b| - 1]);
      assert (a + b)[..|a + b| - 1] == a + b[..|b| - 1];
    }
  }

  lemma WatchedGrows(rows: seq<Row>, last: Row)
    ensures CountWatched(rows + [last]) == CountWatched(rows) + (if Watched(last) then 1 else 0)
  {
    assert (rows + [last])[..|rows|] == rows;
  }

  /** Judging a row and signing its successor keeps the count. */
  lemma OneIsConserved(judged: seq<Row>, born: seq<Row>, row: Row, beats: Heartbeats, now: int, limit: int)
    ensures var verdict := Judge(row, beats, now, limit);
            CountWatched(judged + [Judged(row, verdict)]) + CountWatched(born + Born(row, verdict))
            == CountWatched(judged) + CountWatched(born) + (if Watched(row) then 1 else 0)
  {
    var verdict := Judge(row, beats, now, limit);
    WatchedGrows(judged, Judged(row, verdict));
    if verdict == Recover {
      WatchedGrows(born, Row(row.contract, Active, NoReason));
    } else {
      assert born + [] == born;
    }
  }

  lemma {:induction false} WatchedIsConserved(rows: seq<Row>, beats: Heartbeats, now: int, limit: int)
    ensures CountWatched(JudgedRows(rows, beats, now, limit)) + CountWatched(Successors(rows, beats, now, limit))
         == CountWatched(rows)
  {
    if rows != [] {
      var front, last := rows[..|rows| - 1], rows[|rows| - 1];
      WatchedIsConserved(front, beats, now, limit);
      JudgedOneMore(rows, beats, now, limit);
      OneIsConserved(JudgedRows(front, beats, now, limit), Successors(front, beats, now, limit), last, beats, now, limit);
    }
  }

  /** Active plus watchdog-parked explicit rows are conserved over every run of sweeps. */
  lemma {:induction false} ActivePlusParkedIsConserved(rows: seq<Row>, sweeps: seq<Sweep>)
    ensures CountWatched(AfterSweeps(rows, sweeps)) == CountWatched(rows)
  {
    if sweeps != [] {
      var before, w := AfterSweeps(rows, sweeps[..|sweeps| - 1]), sweeps[|sweeps| - 1];
      ActivePlusParkedIsConserved(rows, sweeps[..|sweeps| - 1]);
      WatchedOfJoin(JudgedRows(before, w.beats, w.now, w.limit), Successors(before, w.beats, w.now, w.limit));
      WatchedIsConserved(before, w.beats, w.now, w.limit);
    }
  }
}
