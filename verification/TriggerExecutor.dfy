/** Trigger clauses of active agreements executed on injected events, with their auto-reset ledger. */
module TriggerExecutor {
  import opened Options
  import opened OrderedMaps

  datatype Clause = Clause(eventType: Option<string>, zone: Option<string>, parameter: Option<string>, threshold: Option<real>)

  /** `value` is present when the injected value is a finite number. */
  datatype Injection = Injection(eventType: string, zone: Option<string>, parameter: Option<string>, value: Option<real>)

  datatype AutoReset = AutoReset(afterSec: Option<real>, onEvent: Option<Clause>, action: string)

  datatype Terms = Terms(trigger: Option<Clause>, action: Option<string>, autoReset: Option<AutoReset>)

  datatype Status = Proposed | Countered | Active | Held | Rejected | Suspended | Terminated

  datatype Row = Row(envId: string, status: Status, holdUntil: Option<int>, terms: Terms)

  /** A simulation: its clock, and whether it has been stopped. */
  datatype Sim = Sim(time: real, stopped: bool)

  datatype Result = Success | Failed | Refused

  /** How the shared quota and invocation cores answer during one event, per agreement. */
  datatype Answers = Answers(quotaSpent: nat -> bool, run: nat -> Result, reset: nat -> Result)

  datatype Cause = ByDeadline(at: real) | ByEvent(record: Injection)

  /** What reaches the shared invocation core or the usage ledger. */
  datatype LedgerEntry =
    | Skipped(agreement: nat)
    | Ran(agreement: nat, sim: nat, action: string, record: Injection, result: Result, at: real, arms: Option<AutoReset>)
    | Reset(arm: Arm, action: string, result: Result, cause: Cause)

  /** One pending reset; `origin` is the ledger position of the invocation that armed it. */
  datatype Arm = Arm(agreement: nat, sim: nat, due: Option<real>, onEvent: Option<Clause>, armedBy: Injection, origin: nat)

  type Ledger = seq<LedgerEntry>
  type Pending = seq<Entry<nat, Arm>>

  /** An agreement id is a position in `rows`; a removed agreement leaves `None`. */
  datatype State = State(rows: seq<Option<Row>>, sims: map<nat, Sim>, pending: Pending, timerOn: bool, log: Ledger)

  predicate Agrees<T(==)>(wanted: Option<T>, actual: Option<T>) {
    wanted.None? || wanted == actual
  }

  /** All given fields must match; a threshold asks for a number at or past it. */
  predicate TriggerMatches(clause: Clause, record: Injection) {
    && Agrees(clause.eventType, Some(record.eventType))
    && Agrees(clause.zone, record.zone)
    && Agrees(clause.parameter, record.parameter)
    && (clause.threshold.Some? ==> record.value.Some? && record.value.value >= clause.threshold.value)
  }

  function SimOf(sims: map<nat, Sim>, id: nat): Sim {
    if id in sims then sims[id] else Sim(0.0, true)
  }

  function Settled(row: Option<Row>, envId: string, now: int): Option<Row> {
    if row.Some? && row.value.envId == envId && row.value.status == Held
       && row.value.holdUntil.Some? && row.value.holdUntil.value <= now
    then Some(row.value.(status := Active, holdUntil := None)) else row
  }

  function SettleAll(rows: seq<Option<Row>>, envId: string, now: int): (after: seq<Option<Row>>)
    ensures |after| == |rows| && forall k :: 0 <= k < |rows| ==> after[k] == Settled(rows[k], envId, now)
  {
    seq(|rows|, k requires 0 <= k < |rows| => Settled(rows[k], envId, now))
  }

  predicate IsActive(rows: seq<Option<Row>>, id: nat) {
    id < |rows| && rows[id].Some? && rows[id].value.status == Active
  }

  predicate IsCandidate(rows: seq<Option<Row>>, envId: string, id: nat) {
    && IsActive(rows, id) && rows[id].value.envId == envId
    && rows[id].value.terms.trigger.Some? && rows[id].value.terms.action.Some?
  }

  // ---- Elementary steps ---------------------------------------------------------

  /** The arm that a ledger entry creates. */
  function ArmOf(entry: LedgerEntry, origin: nat): Arm
    requires entry.Ran? && entry.arms.Some?
  {
    var clause := entry.arms.value;
    Arm(entry.agreement, entry.sim, if clause.afterSec.Some? then Some(entry.at + clause.afterSec.value) else None,
        clause.onEvent, entry.record, origin)
  }

  /** Take the arm off the ledger; run the live reset clause if the agreement is active and the simulation lives. */
  function FireReset(s: State, key: nat, arm: Arm, cause: Cause, answers: Answers): State {
    var dropped := s.(pending := Drop(s.pending, key));
    if !IsActive(s.rows, arm.agreement) || s.rows[arm.agreement].value.terms.autoReset.None?
       || SimOf(s.sims, arm.sim).stopped then dropped
    else
      var action := s.rows[arm.agreement].value.terms.autoReset.value.action;
      dropped.(log := s.log + [Reset(arm, action, answers.reset(arm.agreement), cause)])
  }

  function Fire(s: State, id: nat, sim: nat, record: Injection, answers: Answers): State
    requires id < |s.rows| && s.rows[id].Some? && s.rows[id].value.terms.action.Some?
  {
    var terms := s.rows[id].value.terms;
    if answers.quotaSpent(id) then s.(log := s.log + [Skipped(id)])
    else
      var arms := if answers.run(id) == Success then terms.autoReset else None;
      var entry := Ran(id, sim, terms.action.value, record, answers.run(id), SimOf(s.sims, sim).time, arms);
      var logged := s.(log := s.log + [entry]);
      if arms.None? then logged
      else logged.(pending := Put(s.pending, id, ArmOf(entry, |s.log|)), timerOn := true)
  }

  // ---- One injected event ---------------------------------------------------------

  predicate EventResets(arm: Arm, sim: nat, record: Injection) {
    arm.sim == sim && arm.onEvent.Some? && TriggerMatches(arm.onEvent.value, record)
  }

  /** The event-armed resets among `entries`, oldest arm first. */
  function EventLane(s: State, entries: Pending, sim: nat, record: Injection, answers: Answers): (after: State)
    ensures after.rows == s.rows && after.sims == s.sims && after.timerOn == s.timerOn
  {
    if entries == [] then s
    else
      var last := entries[|entries| - 1];
      var before := EventLane(s, entries[..|entries| - 1], sim, record, answers);
      if EventResets(last.value, sim, record) then FireReset(before, last.key, last.value, ByEvent(record), answers)
      else before
  }

  /** The first `n` agreements considered for their trigger clause. */
  function TriggerLane(s: State, n: nat, envId: string, sim: nat, record: Injection, answers: Answers): (after: State)
    requires n <= |s.rows|
    ensures after.rows == s.rows && after.sims == s.sims
  {
    if n == 0 then s
    else
      var before := TriggerLane(s, n - 1, envId, sim, record, answers);
      if IsCandidate(s.rows, envId, n - 1) && TriggerMatches(s.rows[n - 1].value.terms.trigger.value, record)
      then Fire(before, n - 1, sim, record, answers) else before
  }

  function Evaluated(s: State, envId: string, sim: nat, record: Injection, now: int, answers: Answers): State {
    var settled := s.(rows := SettleAll(s.rows, envId, now));
    TriggerLane(EventLane(settled, s.pending, sim, record, answers), |s.rows|, envId, sim, record, answers)
  }

  // ---- One tick of the recheck timer -------------------------------------------------

  predicate Overdue(arm: Arm, sims: map<nat, Sim>) {
    arm.due.Some? && !SimOf(sims, arm.sim).stopped && SimOf(sims, arm.sim).time >= arm.due.value
  }

  predicate Orphaned(arm: Arm, sims: map<nat, Sim>) {
    arm.due.Some? && SimOf(sims, arm.sim).stopped
  }

  function DropOrphans(s: State, entries: Pending): (after: State)
    ensures after == s.(pending := after.pending)
  {
    if entries == [] then s
    else
      var last := entries[|entries| - 1];
      var before := DropOrphans(s, entries[..|entries| - 1]);
      if Orphaned(last.value, s.sims) then before.(pending := Drop(before.pending, last.key)) else before
  }

  function DeadlineLane(s: State, entries: Pending, answers: Answers): (after: State)
    ensures after.rows == s.rows && after.sims == s.sims && after.timerOn == s.timerOn
  {
    if entries == [] then s
    else
      var last := entries[|entries| - 1];
      var before := DeadlineLane(s, entries[..|entries| - 1], answers);
      if Overdue(last.value, s.sims)
      then FireReset(before, last.key, last.value, ByDeadline(SimOf(s.sims, last.value.sim).time), answers)
      else before
  }

  function Ticked(s: State, answers: Answers): State {
    if !s.timerOn then s
    else if s.pending == [] then s.(timerOn := false)
    else
      var fired := DeadlineLane(DropOrphans(s.(timerOn := false), s.pending), s.pending, answers);
      fired.(timerOn := fired.pending != [])
  }

  class AgreementTriggerExecutor {
    var rows: seq<Option<Row>>
    var sims: map<nat, Sim>
    var pending: Pending
    var timerOn: bool
    var log: Ledger

    constructor (rows: seq<Option<Row>>, sims: map<nat, Sim>)
      ensures Current() == State(rows, sims, [], false, [])
    {
      this.rows, this.sims, pending, timerOn, log := rows, sims, [], false, [];
    }

    ghost function Current(): State
      reads this
    {
      State(rows, sims, pending, timerOn, log)
    }

    method Evaluate(envId: string, sim: nat, record: Injection, now: int, answers: Answers)
      modifies this
      ensures Current() == Evaluated(old(Current()), envId, sim, record, now, answers)
    {
      SettleExpiredHolds(envId, now);
      RunEventResets(sim, record, answers);
      RunTriggers(envId, sim, record, answers);
    }

    method SettleExpiredHolds(envId: string, now: int)
      modifies this`rows
      ensures rows == SettleAll(old(rows), envId, now)
    {
      for i := 0 to |rows|
        invariant |rows| == |old(rows)|
        invariant forall k :: 0 <= k < |rows| ==> rows[k] == if k < i then Settled(old(rows)[k], envId, now) else old(rows)[k]
      {
        if rows[i].Some? && rows[i].value.envId == envId && rows[i].value.status == Held
           && rows[i].value.holdUntil.Some? && rows[i].value.holdUntil.value <= now {
          rows := rows[i := Some(rows[i].value.(status := Active, holdUntil := None))];
        }
      }
      assert rows == SettleAll(old(rows), envId, now);
    }

    method RunEventResets(sim: nat, record: Injection, answers: Answers)
      modifies this
      ensures Current() == EventLane(old(Current()), old(pending), sim, record, answers)
    {
      ghost var first := Current();
      var entries := pending;
      for i := 0 to |entries|
        invariant Current() == EventLane(first, entries[..i], sim, record, answers)
      {
        assert entries[..i + 1][..i] == entries[..i];
        var arm := entries[i].value;
        if arm.sim == sim && arm.onEvent.Some? && TriggerMatches(arm.onEvent.value, record) {
          ResetArm(entries[i].key, arm, ByEvent(record), answers);
        }
      }
      assert entries[..|entries|] == entries;
    }

    method ResetArm(key: nat, arm: Arm, cause: Cause, answers: Answers)
      modifies this
      ensures Current() == FireReset(old(Current()), key, arm, cause, answers)
    {
      pending := Drop(pending, key);
      var id := arm.agreement;
      if id < |rows| && rows[id].Some? && rows[id].value.status == Active {
        var reset := rows[id].value.terms.autoReset;
        if reset.Some? && !SimOf(sims, arm.sim).stopped {
          log := log + [Reset(arm, reset.value.action, answers.reset(id), cause)];
        }
      }
    }

    method RunTriggers(envId: string, sim: nat, record: Injection, answers: Answers)
      modifies this
      ensures Current() == TriggerLane(old(Current()), |old(rows)|, envId, sim, record, answers)
    {
      ghost var first := Current();
      for i := 0 to |rows|
        invariant Current() == TriggerLane(first, i, envId, sim, record, answers)
      {
        if IsCandidate(rows, envId, i) && TriggerMatches(rows[i].value.terms.trigger.value, record) {
          FireTrigger(i, sim, record, answers);
        }
      }
    }

    method FireTrigger(id: nat, sim: nat, record: Injection, answers: Answers)
      requires id < |rows| && rows[id].Some? && rows[id].value.terms.action.Some?
      modifies this
      ensures Current() == Fire(old(Current()), id, sim, record, answers)
    {
      var terms := rows[id].value.terms;
      if answers.quotaSpent(id) {
        log := log + [Skipped(id)];
        return;
      }
      var result := answers.run(id);
      var arms := if result == Success then terms.autoReset else None;
      var entry := Ran(id, sim, terms.action.value, record, result, SimOf(sims, sim).time, arms);
      log := log + [entry];
      if arms.Some? {
        pending := Put(pending, id, ArmOf(entry, |log| - 1));
        timerOn := true;
      }
    }

    method Tick(answers: Answers)
      requires timerOn
      modifies this
      ensures Current() == Ticked(old(Current()), answers)
    {
      timerOn := false;
      if pending == [] {
        return;
      }
      var entries := pending;
      DropOrphanedArms();
      RunDeadlineResets(entries, answers);
      if pending != [] {
        timerOn := true;
      }
    }

    method DropOrphanedArms()
      modifies this`pending
      ensures Current() == DropOrphans(old(Current()), old(pending))
    {
      ghost var first := Current();
      var entries := pending;
      for i := 0 to |entries|
        invariant Current() == DropOrphans(first, entries[..i])
      {
        assert entries[..i + 1][..i] == entries[..i];
        if entries[i].value.due.Some? && SimOf(sims, entries[i].value.sim).stopped {
          pending := Drop(pending, entries[i].key);
        }
      }
      assert entries[..|entries|] == entries;
    }

    method RunDeadlineResets(entries: Pending, answers: Answers)
      modifies this
      ensures Current() == DeadlineLane(old(Current()), entries, answers)
    {
      ghost var first := Current();
      for i := 0 to |entries|
        invariant Current() == DeadlineLane(first, entries[..i], answers)
      {
        assert entries[..i + 1][..i] == entries[..i];
        var arm := entries[i].value;
        if Overdue(arm, sims) {
          ResetArm(entries[i].key, arm, ByDeadline(SimOf(sims, arm.sim).time), answers);
        }
      }
      assert entries[..|entries|] == entries;
    }
  }

  // ---- What the ledger says about arms ------------------------------------------------

  predicate ArmsAgain(entry: LedgerEntry, id: nat) {
    entry.Ran? && entry.arms.Some? && entry.agreement == id
  }

  /** What the invocation's reset clause asks for: its event, and a deadline counted from the invocation's clock. */
  predicate Follows(arm: Arm, entry: LedgerEntry) {
    && entry.Ran? && entry.arms.Some?
    && arm.agreement == entry.agreement && arm.sim == entry.sim && arm.armedBy == entry.record
    && arm.onEvent == entry.arms.value.onEvent
    && match entry.arms.value.afterSec
       case None => arm.due == None
       case Some(seconds) => arm.due == Some(entry.at + seconds)
  }

  /**
   * `arm` was created by the successful invocation at its origin, as its clause asks, and no later invocation
   * before `until` re-armed the agreement.
   */
  ghost predicate ArmedBy(log: Ledger, arm: Arm, until: nat) {
    && arm.origin < until <= |log|
    && log[arm.origin].Ran? && log[arm.origin].arms.Some? && log[arm.origin].result == Success
    && Follows(arm, log[arm.origin])
    && forall k :: arm.origin < k < until ==> !ArmsAgain(log[k], arm.agreement)
  }

  /** A deadline fires at or past its sim time, an event only if it matches the armed clause. */
  predicate RightCause(arm: Arm, cause: Cause) {
    match cause
    case ByDeadline(at) => arm.due.Some? && at >= arm.due.value
    case ByEvent(record) => arm.onEvent.Some? && TriggerMatches(arm.onEvent.value, record)
  }

  ghost predicate LedgerOk(log: Ledger) {
    && (forall j :: 0 <= j < |log| && log[j].Reset? ==> ArmedBy(log, log[j].arm, j) && RightCause(log[j].arm, log[j].cause))
    && (forall j, k :: 0 <= j < k < |log| && log[j].Reset? && log[k].Reset? ==> log[j].arm.origin != log[k].arm.origin)
  }

  ghost predicate PendingOk(pending: Pending, log: Ledger) {
    && DistinctKeys(pending)
    && (forall e :: e in pending ==> e.key == e.value.agreement && ArmedBy(log, e.value, |log|) && NotFired(log, e.value))
  }

  ghost predicate NotFired(log: Ledger, arm: Arm) {
    forall j :: 0 <= j < |log| && log[j].Reset? ==> log[j].arm.origin != arm.origin
  }

  ghost predicate Inv(s: State) {
    LedgerOk(s.log) && PendingOk(s.pending, s.log)
  }

  lemma AppendKeepsArm(log: Ledger, arm: Arm, entry: LedgerEntry, until: nat)
    requires ArmedBy(log, arm, until)
    ensures ArmedBy(log + [entry], arm, until)
    ensures until == |log| && !ArmsAgain(entry, arm.agreement) ==> ArmedBy(log + [entry], arm, |log| + 1)
  {
  }

  lemma AppendKeepsLedger(log: Ledger, entry: LedgerEntry)
    requires LedgerOk(log)
    requires entry.Reset? ==> ArmedBy(log, entry.arm, |log|) && RightCause(entry.arm, entry.cause) && NotFired(log, entry.arm)
    ensures LedgerOk(log + [entry])
  {
    var after := log + [entry];
    forall j | 0 <= j < |after| && after[j].Reset?
      ensures ArmedBy(after, after[j].arm, j) && RightCause(after[j].arm, after[j].cause)
    {
      if j < |log| {
        assert after[j] == log[j];
      }
      AppendKeepsArm(log, after[j].arm, entry, j);
    }
    forall j, k | 0 <= j < k < |after| && after[j].Reset? && after[k].Reset?
      ensures after[j].arm.origin != after[k].arm.origin
    {
      assert after[j] == log[j];
    }
  }

  /** Firing or dropping a pending arm keeps the ledger; the arm is gone, the others stay. */
  lemma FireResetKeeps(s: State, e: Entry<nat, Arm>, cause: Cause, answers: Answers)
    requires Inv(s) && e in s.pending && RightCause(e.value, cause)
    ensures Inv(FireReset(s, e.key, e.value, cause, answers))
    ensures forall d :: d in FireReset(s, e.key, e.value, cause, answers).pending <==> d in s.pending && d != e
  {
    var after := FireReset(s, e.key, e.value, cause, answers);
    RemovesOne(s.pending, e);
    DropKeepsDistinct(s.pending, e.key);
    if after.log != s.log {
      var entry := after.log[|s.log|];
      AppendKeepsLedger(s.log, entry);
      forall d | d in after.pending
        ensures ArmedBy(after.log, d.value, |after.log|) && NotFired(after.log, d.value)
      {
        AppendKeepsArm(s.log, d.value, entry, |s.log|);
        assert d.key != e.key && d.value.origin != e.value.origin;
      }
    }
  }

  lemma RemovesOne(pending: Pending, e: Entry<nat, Arm>)
    requires DistinctKeys(pending) && e in pending
    ensures forall d :: d in Drop(pending, e.key) <==> d in pending && d != e
    ensures forall d :: d in Drop(pending, e.key) ==> d.key != e.key
  {
    forall d
      ensures d in Drop(pending, e.key) <==> d in pending && d != e
      ensures d in Drop(pending, e.key) ==> d.key != e.key
    {
      DropMembers(pending, e.key, d);
      if d in pending && d.key == e.key {
        SameKeySameEntry(pending, d, e);
      }
    }
  }

  lemma FireKeeps(s: State, id: nat, sim: nat, record: Injection, answers: Answers)
    requires Inv(s) && id < |s.rows| && s.rows[id].Some? && s.rows[id].value.terms.action.Some?
    ensures Inv(Fire(s, id, sim, record, answers))
  {
    var after := Fire(s, id, sim, record, answers);
    var entry := after.log[|s.log|];
    assert after.log == s.log + [entry];
    AppendKeepsLedger(s.log, entry);
    var armed := entry.Ran? && entry.arms.Some?;
    if armed {
      PutKeepsDistinct(s.pending, id, ArmOf(entry, |s.log|));
    }
    forall e | e in after.pending
      ensures e.key == e.value.agreement && ArmedBy(after.log, e.value, |after.log|) && NotFired(after.log, e.value)
    {
      if armed {
        PutMembers(s.pending, id, ArmOf(entry, |s.log|), e);
      }
      if e in s.pending && !(armed && e.key == id) {
        AppendKeepsArm(s.log, e.value, entry, |s.log|);
      } else {
        assert e.value == ArmOf(entry, |s.log|);
        assert forall j :: 0 <= j < |s.log| && s.log[j].Reset? ==> ArmedBy(s.log, s.log[j].arm, j);
      }
    }
  }

  /** Of `all`, the arms among `seen` that the event resets are gone, the others left. */
  ghost predicate LeftByEvent(all: Pending, seen: Pending, left: Pending, sim: nat, record: Injection) {
    forall e :: e in left <==> e in all && !(e in seen && EventResets(e.value, sim, record))
  }

  lemma LeftOneMore(all: Pending, i: nat, before: Pending, after: Pending, sim: nat, record: Injection)
    requires DistinctKeys(all) && i < |all| && LeftByEvent(all, all[..i], before, sim, record)
    requires if EventResets(all[i].value, sim, record) then forall d :: d in after <==> d in before && d != all[i]
             else after == before
    ensures LeftByEvent(all, all[..i + 1], after, sim, record)
  {
    assert all[..i + 1] == all[..i] + [all[i]];
  }

  lemma {:induction false} EventLaneKeeps(s: State, i: nat, sim: nat, record: Injection, answers: Answers)
    requires Inv(s) && i <= |s.pending|
    ensures var after := EventLane(s, s.pending[..i], sim, record, answers);
            Inv(after) && LeftByEvent(s.pending, s.pending[..i], after.pending, sim, record)
  {
    if i > 0 {
      var e := s.pending[i - 1];
      EventLaneKeeps(s, i - 1, sim, record, answers);
      var before := EventLane(s, s.pending[..i - 1], sim, record, answers);
      var after := EventLane(s, s.pending[..i], sim, record, answers);
      assert s.pending[..i][..i - 1] == s.pending[..i - 1];
      if EventResets(e.value, sim, record) {
        NotBefore(s.pending, i - 1);
        FireResetKeeps(before, e, ByEvent(record), answers);
      }
      LeftOneMore(s.pending, i - 1, before.pending, after.pending, sim, record);
    }
  }

  lemma NotBefore(pending: Pending, i: nat)
    requires DistinctKeys(pending) && i < |pending|
    ensures pending[i] in pending && pending[i] !in pending[..i]
  {
  }

  predicate Scheduled(s: State) {
    s.pending == [] || s.timerOn
  }

  lemma FireSchedules(s: State, id: nat, sim: nat, record: Injection, answers: Answers)
    requires id < |s.rows| && s.rows[id].Some? && s.rows[id].value.terms.action.Some? && Scheduled(s)
    ensures Scheduled(Fire(s, id, sim, record, answers))
  {
  }

  lemma {:induction false} TriggerLaneSchedules(s: State, n: nat, envId: string, sim: nat, record: Injection, answers: Answers)
    requires Scheduled(s) && n <= |s.rows|
    ensures Scheduled(TriggerLane(s, n, envId, sim, record, answers))
  {
    if n > 0 {
      TriggerLaneSchedules(s, n - 1, envId, sim, record, answers);
      if IsCandidate(s.rows, envId, n - 1) && TriggerMatches(s.rows[n - 1].value.terms.trigger.value, record) {
        FireSchedules(TriggerLane(s, n - 1, envId, sim, record, answers), n - 1, sim, record, answers);
      }
    }
  }

  /** The lane's state after one more agreement, whether that one was fired or not. */
  lemma LaneStepKeeps(before: State, after: State, id: nat, sim: nat, record: Injection, answers: Answers, fired: bool)
    requires Inv(before) && id < |before.rows|
    requires fired ==> before.rows[id].Some? && before.rows[id].value.terms.action.Some?
    requires after == if fired then Fire(before, id, sim, record, answers) else before
    ensures Inv(after)
  {
    if fired {
      FireKeeps(before, id, sim, record, answers);
    }
  }

  lemma TriggerLaneGrows(s: State, n: nat, envId: string, sim: nat, record: Injection, answers: Answers, before: State)
    returns (fired: bool)
    requires 0 < n <= |s.rows| && before == TriggerLane(s, n - 1, envId, sim, record, answers)
    ensures fired ==> before.rows[n - 1].Some? && before.rows[n - 1].value.terms.action.Some?
    ensures TriggerLane(s, n, envId, sim, record, answers)
         == if fired then Fire(before, n - 1, sim, record, answers) else before
  {
    fired := IsCandidate(s.rows, envId, n - 1) && TriggerMatches(s.rows[n - 1].value.terms.trigger.value, record);
  }

  lemma {:induction false} TriggerLaneKeeps(s: State, n: nat, envId: string, sim: nat, record: Injection, answers: Answers)
    requires Inv(s) && n <= |s.rows|
    ensures Inv(TriggerLane(s, n, envId, sim, record, answers))
  {
    if n > 0 {
      TriggerLaneKeeps(s, n - 1, envId, sim, record, answers);
      var before, after := TriggerLane(s, n - 1, envId, sim, record, answers), TriggerLane(s, n, envId, sim, record, answers);
      var fired := TriggerLaneGrows(s, n, envId, sim, record, answers, before);
      LaneStepKeeps(before, after, n - 1, sim, record, answers, fired);
    }
  }

  lemma {:induction false} DropOrphansKeeps(s: State, i: nat)
    requires Inv(s) && i <= |s.pending|
    ensures var after := DropOrphans(s, s.pending[..i]);
            && Inv(after)
            && forall e :: e in after.pending <==> e in s.pending && !(e in s.pending[..i] && Orphaned(e.value, s.sims))
  {
    if i > 0 {
      var e := s.pending[i - 1];
      DropOrphansKeeps(s, i - 1);
      var before := DropOrphans(s, s.pending[..i - 1]);
      assert s.pending[..i][..i - 1] == s.pending[..i - 1] && s.pending[..i] == s.pending[..i - 1] + [e];
      if Orphaned(e.value, s.sims) {
        NotBefore(s.pending, i - 1);
        RemovesOne(before.pending, e);
        DropKeepsDistinct(before.pending, e.key);
      }
    }
  }

  lemma {:induction false} DeadlineLaneKeeps(s: State, entries: Pending, i: nat, answers: Answers)
    requires Inv(s) && DistinctKeys(entries) && i <= |entries|
    requires forall e :: e in entries && Overdue(e.value, s.sims) ==> e in s.pending
    ensures var after := DeadlineLane(s, entries[..i], answers);
            && Inv(after)
            && forall e :: e in after.pending <==> e in s.pending && !(e in entries[..i] && Overdue(e.value, s.sims))
  {
    if i > 0 {
      var e := entries[i - 1];
      DeadlineLaneKeeps(s, entries, i - 1, answers);
      var before := DeadlineLane(s, entries[..i - 1], answers);
      assert entries[..i][..i - 1] == entries[..i - 1] && entries[..i] == entries[..i - 1] + [e];
      if Overdue(e.value, s.sims) {
        NotBefore(entries, i - 1);
        FireResetKeeps(before, e, ByDeadline(SimOf(s.sims, e.value.sim).time), answers);
      }
    }
  }

  // ---- Main results ---------------------------------------------------------------------

  datatype Event =
    | Inject(envId: string, sim: nat, record: Injection, now: int, answers: Answers)
    | Timer(answers: Answers)
    | ChangeRow(id: nat, row: Option<Row>)
    | ChangeSim(sim: nat, state: Sim)

  /** Injections and timer ticks interleaved with arbitrary changes of agreements and simulations. */
  function Step(s: State, event: Event): State {
    match event
    case Inject(envId, sim, record, now, answers) => Evaluated(s, envId, sim, record, now, answers)
    case Timer(answers) => Ticked(s, answers)
    case ChangeRow(id, row) => if id < |s.rows| then s.(rows := s.rows[id := row]) else s.(rows := s.rows + [row])
    case ChangeSim(sim, state) => s.(sims := s.sims[sim := state])
  }

  function Run(rows: seq<Option<Row>>, sims: map<nat, Sim>, events: seq<Event>): State {
    if events == [] then State(rows, sims, [], false, [])
    else Step(Run(rows, sims, events[..|events| - 1]), events[|events| - 1])
  }

  lemma EvaluationKeeps(s: State, envId: string, sim: nat, record: Injection, now: int, answers: Answers)
    requires Inv(s) && Scheduled(s)
    ensures var after := Evaluated(s, envId, sim, record, now, answers);
            Inv(after) && Scheduled(after)
  {
    var settled := s.(rows := SettleAll(s.rows, envId, now));
    EventLaneKeeps(settled, |s.pending|, sim, record, answers);
    assert s.pending[..|s.pending|] == s.pending;
    var reset := EventLane(settled, s.pending, sim, record, answers);
    assert reset.pending != [] ==> reset.pending[0] in s.pending;
    TriggerLaneKeeps(reset, |s.rows|, envId, sim, record, answers);
    TriggerLaneSchedules(reset, |s.rows|, envId, sim, record, answers);
  }

  /** A tick removes exactly the arms whose deadline has passed and the deadline arms of stopped simulations. */
  lemma TickRemovesExactly(s: State, answers: Answers)
    requires Inv(s) && s.timerOn
    ensures var after := Ticked(s, answers);
            && Inv(after) && (after.timerOn <==> after.pending != [])
            && forall e :: e in after.pending <==>
                 e in s.pending && !Orphaned(e.value, s.sims) && !Overdue(e.value, s.sims)
  {
    var entries := s.pending;
    var idle := s.(timerOn := false);
    assert entries[..|entries|] == entries;
    DropOrphansKeeps(idle, |entries|);
    DeadlineLaneKeeps(DropOrphans(idle, entries), entries, |entries|, answers);
  }

  /**
   * Over every run: at most one arm is pending per agreement; every pending or fired arm was created by
   * a successful trigger invocation and was the agreement's latest arm; no arm fires twice; a deadline
   * fires only at or after its sim time; and a nonempty ledger always has its recheck scheduled.
   */
  lemma {:induction false} EveryReachableState(rows: seq<Option<Row>>, sims: map<nat, Sim>, events: seq<Event>)
    ensures var s := Run(rows, sims, events); Inv(s) && Scheduled(s)
  {
    if events != [] {
      var before, event := Run(rows, sims, events[..|events| - 1]), events[|events| - 1];
      EveryReachableState(rows, sims, events[..|events| - 1]);
      match event
      case Inject(envId, sim, record, now, answers) => EvaluationKeeps(before, envId, sim, record, now, answers);
      case Timer(answers) =>
        if before.timerOn {
          TickRemovesExactly(before, answers);
        }
      case ChangeRow(id, row) =>
      case ChangeSim(sim, state) =>
    }
  }

  /** The deadline of an arm, in terms of the invocation at ledger position `origin`. */
  ghost predicate DueAfter(log: Ledger, origin: nat, due: Option<real>) {
    && origin < |log| && log[origin].Ran? && log[origin].result == Success && log[origin].arms.Some?
    && match log[origin].arms.value.afterSec
       case None => due == None
       case Some(seconds) => due == Some(log[origin].at + seconds)
  }

  /**
   * Over every run: the deadline of every pending or fired arm is the clock of the invocation that armed it plus
   * the seconds of its clause, none without such a clause; so no reset that fired by deadline came earlier.
   */
  lemma DeadlinesCountFromTheInvocation(rows: seq<Option<Row>>, sims: map<nat, Sim>, events: seq<Event>)
    ensures var s := Run(rows, sims, events);
            && (forall e :: e in s.pending ==> DueAfter(s.log, e.value.origin, e.value.due))
            && (forall j :: 0 <= j < |s.log| && s.log[j].Reset? ==>
                  var arm, cause := s.log[j].arm, s.log[j].cause;
                  && arm.origin < j && DueAfter(s.log, arm.origin, arm.due)
                  && (cause.ByDeadline? ==>
                        var clause := s.log[arm.origin].arms.value.afterSec;
                        clause.Some? && cause.at >= s.log[arm.origin].at + clause.value))
  {
    EveryReachableState(rows, sims, events);
  }

  /**
   * A stopped simulation keeps an arm after a tick exactly when that arm waits for an event alone; such
   * arms are never dropped by ticks, so the recheck timer then stays scheduled.
   */
  lemma StoppedSimsKeepEventArms(s: State, answers: Answers)
    requires Inv(s) && s.timerOn
    ensures var after := Ticked(s, answers);
            && ((forall e :: e in after.pending ==> !SimOf(s.sims, e.value.sim).stopped)
                <==> (forall e :: e in s.pending && SimOf(s.sims, e.value.sim).stopped ==> e.value.due.Some?))
            && ((exists e :: e in s.pending && e.value.due.None?) ==> after.timerOn)
  {
    TickRemovesExactly(s, answers);
    var after := Ticked(s, answers);
    if e :| e in s.pending && e.value.due.None? {
      assert e in after.pending;
    }
    if forall e :: e in after.pending ==> !SimOf(s.sims, e.value.sim).stopped {
      forall e | e in s.pending && SimOf(s.sims, e.value.sim).stopped
        ensures e.value.due.Some?
      {
        assert e !in after.pending;
      }
    }
  }

  /** Any event triggers "on" and, `reset` matching, "off" again; there is no deadline. */
  function EventOnlyRow(reset: Clause): Row {
    Row("env", Active, None,
        Terms(Some(Clause(None, None, None, None)), Some("on"), Some(AutoReset(None, Some(reset), "off"))))
  }

  function Willing(): Answers {
    Answers((id: nat) => false, (id: nat) => Success, (id: nat) => Success)
  }

  /** One injection arms the reset, its simulation stops, and the timer ticks `ticks` times. */
  function StopAfterArming(record: Injection, ticks: nat): seq<Event> {
    if ticks == 0 then [Inject("env", 0, record, 0, Willing()), ChangeSim(0, Sim(0.0, true))]
    else StopAfterArming(record, ticks - 1) + [Timer(Willing())]
  }

  lemma ArmsTheReset(reset: Clause, record: Injection, s: State)
    requires s == State([Some(EventOnlyRow(reset))], map[0 := Sim(0.0, false)], [], false, [])
    ensures var arm := Arm(0, 0, None, Some(reset), record, 0);
            var after := Evaluated(s, "env", 0, record, 0, Willing());
            && after.rows == s.rows && after.sims == s.sims && after.pending == [Entry(0, arm)] && after.timerOn
  {
    var settled := s.(rows := SettleAll(s.rows, "env", 0));
    assert settled.rows == s.rows;
    assert EventLane(settled, [], 0, record, Willing()) == settled;
    assert TriggerLane(settled, 0, "env", 0, record, Willing()) == settled;
    assert TriggerLane(settled, 1, "env", 0, record, Willing()) == Fire(settled, 0, 0, record, Willing());
  }

  lemma TickKeepsEventArm(s: State, e: Entry<nat, Arm>, answers: Answers)
    requires s.pending == [e] && e.value.due.None? && s.timerOn
    ensures Ticked(s, answers) == s
  {
    var idle := s.(timerOn := false);
    assert [e][..0] == [];
    assert DropOrphans(idle, [e]) == DropOrphans(idle, []) == idle;
    assert DeadlineLane(idle, [e], answers) == DeadlineLane(idle, [], answers) == idle;
  }

  /** A reachable state in which the arm of a stopped simulation and its timer outlive every number of ticks. */
  lemma {:induction false} EventArmOutlivesItsSim(reset: Clause, record: Injection, ticks: nat)
    ensures var s := Run([Some(EventOnlyRow(reset))], map[0 := Sim(0.0, false)], StopAfterArming(record, ticks));
            && SimOf(s.sims, 0).stopped && s.timerOn
            && s.pending == [Entry(0, Arm(0, 0, None, Some(reset), record, 0))]
  {
    var rows, sims := [Some(EventOnlyRow(reset))], map[0 := Sim(0.0, false)];
    var events := StopAfterArming(record, ticks);
    if ticks == 0 {
      var inject := events[0];
      assert events[..1] == [inject] && [inject][..0] == [];
      var start := Run(rows, sims, []);
      assert Run(rows, sims, [inject]) == Step(start, inject);
      ArmsTheReset(reset, record, start);
    } else {
      var front := StopAfterArming(record, ticks - 1);
      assert events[..|events| - 1] == front;
      EventArmOutlivesItsSim(reset, record, ticks - 1);
      TickKeepsEventArm(Run(rows, sims, front), Entry(0, Arm(0, 0, None, Some(reset), record, 0)), Willing());
    }
  }

  // ---- Who is executed -------------------------------------------------------------------

  /** A ledger entry written while `rows` and `sims` held was justified by them. */
  predicate Justified(rows: seq<Option<Row>>, sims: map<nat, Sim>, entry: LedgerEntry) {
    match entry
    case Skipped(id) => IsActive(rows, id)
    case Ran(id, sim, action, record, result, at, arms) =>
      && IsActive(rows, id)
      && var terms := rows[id].value.terms;
         terms.trigger.Some? && TriggerMatches(terms.trigger.value, record) && terms.action == Some(action)
         && at == SimOf(sims, sim).time && arms == (if result == Success then terms.autoReset else None)
    case Reset(arm, action, result, cause) =>
      && IsActive(rows, arm.agreement) && !SimOf(sims, arm.sim).stopped
      && var reset := rows[arm.agreement].value.terms.autoReset;
         reset.Some? && reset.value.action == action
  }

  /** `after` extends `before` by entries that the state justifies. */
  ghost predicate ExtendsJustly(before: Ledger, after: Ledger, rows: seq<Option<Row>>, sims: map<nat, Sim>) {
    && |before| <= |after| && after[..|before|] == before
    && forall j :: |before| <= j < |after| ==> Justified(rows, sims, after[j])
  }

  lemma {:induction false} EventLaneIsJust(s: State, entries: Pending, sim: nat, record: Injection, answers: Answers)
    ensures ExtendsJustly(s.log, EventLane(s, entries, sim, record, answers).log, s.rows, s.sims)
  {
    if entries != [] {
      EventLaneIsJust(s, entries[..|entries| - 1], sim, record, answers);
    }
  }

  lemma {:induction false} DeadlineLaneIsJust(s: State, entries: Pending, answers: Answers)
    ensures ExtendsJustly(s.log, DeadlineLane(s, entries, answers).log, s.rows, s.sims)
  {
    if entries != [] {
      DeadlineLaneIsJust(s, entries[..|entries| - 1], answers);
    }
  }

  lemma {:induction false} TriggerLaneIsJust(s: State, n: nat, envId: string, sim: nat, record: Injection, answers: Answers)
    requires n <= |s.rows|
    ensures ExtendsJustly(s.log, TriggerLane(s, n, envId, sim, record, answers).log, s.rows, s.sims)
  {
    if n > 0 {
      var before := TriggerLane(s, n - 1, envId, sim, record, answers);
      TriggerLaneIsJust(s, n - 1, envId, sim, record, answers);
      if IsCandidate(s.rows, envId, n - 1) && TriggerMatches(s.rows[n - 1].value.terms.trigger.value, record) {
        FireIsJust(s.log, before, n - 1, sim, record, answers);
      }
    }
  }

  lemma FireIsJust(first: Ledger, s: State, id: nat, sim: nat, record: Injection, answers: Answers)
    requires ExtendsJustly(first, s.log, s.rows, s.sims)
    requires IsActive(s.rows, id) && s.rows[id].value.terms.action.Some? && s.rows[id].value.terms.trigger.Some?
    requires TriggerMatches(s.rows[id].value.terms.trigger.value, record)
    ensures ExtendsJustly(first, Fire(s, id, sim, record, answers).log, s.rows, s.sims)
  {
    var after := Fire(s, id, sim, record, answers);
    assert after.log == s.log + [after.log[|s.log|]];
    JustOneMore(first, s.log, after.log[|s.log|], s.rows, s.sims);
  }

  lemma JustOneMore(first: Ledger, before: Ledger, entry: LedgerEntry, rows: seq<Option<Row>>, sims: map<nat, Sim>)
    requires ExtendsJustly(first, before, rows, sims) && Justified(rows, sims, entry)
    ensures ExtendsJustly(first, before + [entry], rows, sims)
  {
    assert (before + [entry])[..|first|] == before[..|first|];
  }

  /**
   * Whatever happened before, an injection or a tick only executes for agreements that are active at that
   * moment (expired holds settled): triggers that match their clause, resets by the live terms on a live
   * simulation. Earlier ledger entries stay.
   */
  lemma OnlyActiveAgreementsExecute(s: State, event: Event)
    ensures var after := Step(s, event);
            var rows := if event.Inject? then SettleAll(s.rows, event.envId, event.now) else s.rows;
            ExtendsJustly(s.log, after.log, rows, s.sims)
  {
    match event
    case Inject(envId, sim, record, now, answers) =>
      var settled := s.(rows := SettleAll(s.rows, envId, now));
      EventLaneIsJust(settled, s.pending, sim, record, answers);
      var reset := EventLane(settled, s.pending, sim, record, answers);
      TriggerLaneIsJust(reset, |s.rows|, envId, sim, record, answers);
    case Timer(answers) =>
      if s.timerOn && s.pending != [] {
        var dropped := DropOrphans(s.(timerOn := false), s.pending);
        DeadlineLaneIsJust(dropped, s.pending, answers);
      }
    case ChangeRow(id, row) =>
    case ChangeSim(sim, state) =>
  }

  // ---- What exactly is executed -------------------------------------------------------------

  /** Every given field of a clause is one condition of its own, and a clause without fields matches anything. */
  lemma ClausesAreConjunctions(clause: Clause, record: Injection)
    ensures TriggerMatches(Clause(None, None, None, None), record)
    ensures TriggerMatches(clause, record)
       <==> && TriggerMatches(Clause(clause.eventType, None, None, None), record)
            && TriggerMatches(Clause(None, clause.zone, None, None), record)
            && TriggerMatches(Clause(None, None, clause.parameter, None), record)
            && TriggerMatches(Clause(None, None, None, clause.threshold), record)
    ensures forall t: string :: TriggerMatches(Clause(Some(t), None, None, None), record) <==> record.eventType == t
    ensures forall z: string :: TriggerMatches(Clause(None, Some(z), None, None), record) <==> Some(z) == record.zone
    ensures forall p: string :: TriggerMatches(Clause(None, None, Some(p), None), record) <==> Some(p) == record.parameter
    ensures forall x: real :: TriggerMatches(Clause(None, None, None, Some(x)), record)
                              <==> record.value.Some? && x <= record.value.value
  {
  }

  /** What a reset needs at the moment it would execute. */
  predicate CanReset(rows: seq<Option<Row>>, sims: map<nat, Sim>, arm: Arm) {
    && arm.agreement < |rows| && rows[arm.agreement].Some? && rows[arm.agreement].value.status == Active
    && rows[arm.agreement].value.terms.autoReset.Some?
    && arm.sim in sims && !sims[arm.sim].stopped
  }

  function ResetEntry(rows: seq<Option<Row>>, arm: Arm, cause: Cause, answers: Answers): LedgerEntry
    requires arm.agreement < |rows| && rows[arm.agreement].Some? && rows[arm.agreement].value.terms.autoReset.Some?
  {
    Reset(arm, rows[arm.agreement].value.terms.autoReset.value.action, answers.reset(arm.agreement), cause)
  }

  /** `log` continues `first` by the resets of exactly those arms of `entries` that are due and can be reset. */
  ghost predicate ResetsOf(first: Ledger, log: Ledger, rows: seq<Option<Row>>, sims: map<nat, Sim>, entries: Pending,
                           due: Arm -> bool, cause: Arm -> Cause, answers: Answers)
  {
    && |first| <= |log| && log[..|first|] == first
    && (forall j :: |first| <= j < |log| ==>
          log[j].Reset? && due(log[j].arm) && CanReset(rows, sims, log[j].arm)
          && log[j] == ResetEntry(rows, log[j].arm, cause(log[j].arm), answers))
    && (forall e :: e in entries && due(e.value) && CanReset(rows, sims, e.value) ==> IsLogged(first, log, e.value))
  }

  ghost predicate IsLogged(first: Ledger, log: Ledger, arm: Arm) {
    exists j :: |first| <= j < |log| && log[j].Reset? && log[j].arm == arm
  }

  lemma ResetsOneMore(first: Ledger, before: State, after: State, entries: Pending, e: Entry<nat, Arm>,
                      due: Arm -> bool, cause: Arm -> Cause, answers: Answers)
    requires ResetsOf(first, before.log, before.rows, before.sims, entries, due, cause, answers)
    requires after == if due(e.value) then FireReset(before, e.key, e.value, cause(e.value), answers) else before
    ensures ResetsOf(first, after.log, after.rows, after.sims, entries + [e], due, cause, answers)
  {
    var log, log' := before.log, after.log;
    if log' != log {
      assert log'[..|first|] == log[..|first|] && log'[|log|] == ResetEntry(before.rows, e.value, cause(e.value), answers);
    }
    forall d | d in entries + [e] && due(d.value) && CanReset(before.rows, before.sims, d.value)
      ensures IsLogged(first, log', d.value)
    {
      if d in entries {
        var j :| |first| <= j < |log| && log[j].Reset? && log[j].arm == d.value;
        assert log'[j] == log[j];
      } else {
        assert log'[|log|].Reset? && log'[|log|].arm == d.value;
      }
    }
  }

  lemma {:induction false} EventLaneLogs(s: State, entries: Pending, sim: nat, record: Injection, answers: Answers)
    ensures ResetsOf(s.log, EventLane(s, entries, sim, record, answers).log, s.rows, s.sims, entries,
                     (arm: Arm) => EventResets(arm, sim, record), (arm: Arm) => ByEvent(record), answers)
  {
    if entries != [] {
      var front, e := entries[..|entries| - 1], entries[|entries| - 1];
      EventLaneLogs(s, front, sim, record, answers);
      assert entries == front + [e];
      ResetsOneMore(s.log, EventLane(s, front, sim, record, answers), EventLane(s, entries, sim, record, answers), front, e,
                    (arm: Arm) => EventResets(arm, sim, record), (arm: Arm) => ByEvent(record), answers);
    }
  }

  lemma {:induction false} DeadlineLaneLogs(s: State, entries: Pending, answers: Answers)
    ensures ResetsOf(s.log, DeadlineLane(s, entries, answers).log, s.rows, s.sims, entries,
                     (arm: Arm) => Overdue(arm, s.sims), (arm: Arm) => ByDeadline(SimOf(s.sims, arm.sim).time), answers)
  {
    if entries != [] {
      var front, e := entries[..|entries| - 1], entries[|entries| - 1];
      DeadlineLaneLogs(s, front, answers);
      assert entries == front + [e];
      ResetsOneMore(s.log, DeadlineLane(s, front, answers), DeadlineLane(s, entries, answers), front, e,
                    (arm: Arm) => Overdue(arm, s.sims), (arm: Arm) => ByDeadline(SimOf(s.sims, arm.sim).time), answers);
    }
  }

  /**
   * A tick executes a reset for exactly the pending arms whose deadline has come on the clock of their running
   * simulation and whose agreement is active with a reset clause: the clause's action, caused by that deadline.
   */
  lemma TickExecutesExactly(s: State, answers: Answers, e: Entry<nat, Arm>)
    requires Inv(s) && s.timerOn && e in s.pending
    ensures var arm, after := e.value, Ticked(s, answers);
            && |s.log| <= |after.log| && after.log[..|s.log|] == s.log
            && (IsLogged(s.log, after.log, arm)
                <==> CanReset(s.rows, s.sims, arm) && arm.due.Some? && arm.due.value <= s.sims[arm.sim].time)
            && forall j :: |s.log| <= j < |after.log| ==>
                 && after.log[j].Reset? && CanReset(s.rows, s.sims, after.log[j].arm)
                 && after.log[j] == ResetEntry(s.rows, after.log[j].arm, ByDeadline(s.sims[after.log[j].arm.sim].time), answers)
  {
    var idle := s.(timerOn := false);
    DeadlineLaneLogs(DropOrphans(idle, s.pending), s.pending, answers);
  }

  /** The agreement is due for its trigger: active in this environment, with a trigger that matches and an action. */
  predicate TriggerIsDue(rows: seq<Option<Row>>, id: nat, envId: string, record: Injection) {
    && id < |rows| && rows[id].Some? && rows[id].value.envId == envId && rows[id].value.status == Active
    && rows[id].value.terms.action.Some? && rows[id].value.terms.trigger.Some?
    && TriggerMatches(rows[id].value.terms.trigger.value, record)
  }

  /** A skip when the quota is spent, else the invocation of the agreed action with its arm. */
  function TriggerEntry(rows: seq<Option<Row>>, sims: map<nat, Sim>, id: nat, sim: nat, record: Injection, answers: Answers): LedgerEntry
    requires id < |rows| && rows[id].Some? && rows[id].value.terms.action.Some?
  {
    if answers.quotaSpent(id) then Skipped(id)
    else
      var terms, result := rows[id].value.terms, answers.run(id);
      Ran(id, sim, terms.action.value, record, result, SimOf(sims, sim).time,
          if result == Success then terms.autoReset else None)
  }

  function AgreementOf(entry: LedgerEntry): nat {
    match entry
    case Skipped(id) => id
    case Ran(id, _, _, _, _, _, _) => id
    case Reset(arm, _, _, _) => arm.agreement
  }

  /** `log` continues `first` by one entry for each due agreement below `n`, in order. */
  ghost predicate TriggersOf(first: Ledger, log: Ledger, rows: seq<Option<Row>>, sims: map<nat, Sim>, n: nat, envId: string,
                             sim: nat, record: Injection, answers: Answers)
  {
    && |first| <= |log| && log[..|first|] == first
    && (forall j :: |first| <= j < |log| ==>
          var id := AgreementOf(log[j]);
          id < n && TriggerIsDue(rows, id, envId, record) && log[j] == TriggerEntry(rows, sims, id, sim, record, answers))
    && (forall i, j :: |first| <= i < j < |log| ==> AgreementOf(log[i]) < AgreementOf(log[j]))
    && (forall id :: 0 <= id < n && TriggerIsDue(rows, id, envId, record) ==> IsServed(first, log, id))
  }

  ghost predicate IsServed(first: Ledger, log: Ledger, id: nat) {
    exists j :: |first| <= j < |log| && !log[j].Reset? && AgreementOf(log[j]) == id
  }

  lemma TriggersOneMore(first: Ledger, before: State, after: State, id: nat, envId: string, sim: nat, record: Injection,
                        answers: Answers)
    requires TriggersOf(first, before.log, before.rows, before.sims, id, envId, sim, record, answers) && id < |before.rows|
    requires after == if TriggerIsDue(before.rows, id, envId, record) then Fire(before, id, sim, record, answers) else before
    ensures TriggersOf(first, after.log, before.rows, before.sims, id + 1, envId, sim, record, answers)
  {
    var log, log' := before.log, after.log;
    if TriggerIsDue(before.rows, id, envId, record) {
      assert log' == log + [TriggerEntry(before.rows, before.sims, id, sim, record, answers)];
      assert log'[..|first|] == log[..|first|];
      assert AgreementOf(log'[|log|]) == id && !log'[|log|].Reset?;
    }
    forall i | 0 <= i < id + 1 && TriggerIsDue(before.rows, i, envId, record) ensures IsServed(first, log', i) {
      if i < id {
        var j :| |first| <= j < |log| && !log[j].Reset? && AgreementOf(log[j]) == i;
        assert log'[j] == log[j];
      }
    }
  }

  lemma {:induction false} TriggerLaneLogs(s: State, n: nat, envId: string, sim: nat, record: Injection, answers: Answers)
    requires n <= |s.rows|
    ensures TriggersOf(s.log, TriggerLane(s, n, envId, sim, record, answers).log, s.rows, s.sims, n, envId, sim, record, answers)
  {
    if n > 0 {
      TriggerLaneLogs(s, n - 1, envId, sim, record, answers);
      TriggersOneMore(s.log, TriggerLane(s, n - 1, envId, sim, record, answers), TriggerLane(s, n, envId, sim, record, answers),
                      n - 1, envId, sim, record, answers);
    }
  }

  /** An expired hold of the environment ends in force; no other row changes. */
  ghost predicate HoldsExpired(before: seq<Option<Row>>, after: seq<Option<Row>>, envId: string, now: int) {
    && |after| == |before|
    && forall k :: 0 <= k < |before| ==>
         if before[k].Some? && before[k].value.status == Held && before[k].value.envId == envId
            && before[k].value.holdUntil.Some? && !(now < before[k].value.holdUntil.value)
         then after[k].Some? && after[k].value == Row(envId, Active, None, before[k].value.terms)
         else after[k] == before[k]
  }

  /**
   * What one injected event executes, exactly: first the resets of the pending arms of its simulation whose clause
   * it matches and whose agreement is active with a reset clause, then, in order, one entry for each active agreement
   * of the environment whose trigger matches: a skip when its quota is spent, else the agreed action.
   */
  lemma EventExecutesExactly(s: State, envId: string, sim: nat, record: Injection, now: int, answers: Answers)
    returns (rows: seq<Option<Row>>, reset: Ledger)
    ensures HoldsExpired(s.rows, rows, envId, now)
    ensures ResetsOf(s.log, reset, rows, s.sims, s.pending,
                     (arm: Arm) => arm.sim == sim && arm.onEvent.Some? && TriggerMatches(arm.onEvent.value, record),
                     (arm: Arm) => ByEvent(record), answers)
    ensures TriggersOf(reset, Evaluated(s, envId, sim, record, now, answers).log, rows, s.sims, |rows|, envId, sim, record, answers)
  {
    rows := SettleAll(s.rows, envId, now);
    var settled := s.(rows := rows);
    var lane := EventLane(settled, s.pending, sim, record, answers);
    reset := lane.log;
    EventLaneLogs(settled, s.pending, sim, record, answers);
    TriggerLaneLogs(lane, |s.rows|, envId, sim, record, answers);
  }
}
