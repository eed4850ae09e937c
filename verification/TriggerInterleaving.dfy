/** Evaluations of injected events that give way at every `await`, so that anything may happen between their steps. */
module TriggerInterleaving {
  import opened Options
  import opened OrderedMaps
  import opened TriggerExecutor

  /** An agreement as it was read when the event arrived. */
  datatype Candidate = Candidate(id: nat, row: Row)

  /** One evaluation under way; `running` is the invocation that it awaits. */
  datatype Task = Task(sim: nat, record: Injection, resetting: bool, waiting: seq<Candidate>, running: Option<Candidate>)

  datatype World = World(core: State, tasks: seq<Task>)

  datatype Move =
    | Arrive(envId: string, sim: nat, record: Injection, now: int)
    | ResetNext(task: nat, entry: Entry<nat, Arm>, answers: Answers)
    | Begin(task: nat, quotaSpent: bool)
    | Finish(task: nat, result: Result)
    | Elsewhere(event: Event)

  /** The candidates among the first `n` agreements whose trigger matches. */
  function Candidates(rows: seq<Option<Row>>, n: nat, envId: string, record: Injection): seq<Candidate>
    requires n <= |rows|
  {
    if n == 0 then []
    else
      Candidates(rows, n - 1, envId, record)
      + (if IsCandidate(rows, envId, n - 1) && TriggerMatches(rows[n - 1].value.terms.trigger.value, record)
         then [Candidate(n - 1, rows[n - 1].value)] else [])
  }

  /** The end of an awaited invocation: the terms are those read on arrival, the clock is that of now. */
  function Ended(s: State, c: Candidate, sim: nat, record: Injection, result: Result): State
    requires c.row.terms.action.Some?
  {
    var arms := if result == Success then c.row.terms.autoReset else None;
    var entry := Ran(c.id, sim, c.row.terms.action.value, record, result, SimOf(s.sims, sim).time, arms);
    var logged := s.(log := s.log + [entry]);
    if arms.None? then logged
    else logged.(pending := Put(s.pending, c.id, ArmOf(entry, |s.log|)), timerOn := true)
  }

  predicate CanBegin(w: World, t: nat) {
    t < |w.tasks| && w.tasks[t].running.None? && w.tasks[t].waiting != []
  }

  predicate CanFinish(w: World, t: nat) {
    t < |w.tasks| && w.tasks[t].running.Some? && w.tasks[t].running.value.row.terms.action.Some?
  }

  /** A move that is not possible changes nothing. */
  function Moved(w: World, move: Move): World {
    match move
    case Arrive(envId, sim, record, now) =>
      var rows := SettleAll(w.core.rows, envId, now);
      World(w.core.(rows := rows), w.tasks + [Task(sim, record, true, Candidates(rows, |rows|, envId, record), None)])
    case ResetNext(t, e, answers) =>
      if t < |w.tasks| && w.tasks[t].resetting && e in w.core.pending && EventResets(e.value, w.tasks[t].sim, w.tasks[t].record)
      then w.(core := FireReset(w.core, e.key, e.value, ByEvent(w.tasks[t].record), answers))
      else w
    case Begin(t, quotaSpent) =>
      if !CanBegin(w, t) then w
      else
        var task := w.tasks[t].(resetting := false, waiting := w.tasks[t].waiting[1..]);
        var c := w.tasks[t].waiting[0];
        if quotaSpent then World(w.core.(log := w.core.log + [Skipped(c.id)]), w.tasks[t := task])
        else w.(tasks := w.tasks[t := task.(running := Some(c))])
    case Finish(t, result) =>
      if !CanFinish(w, t) then w
      else
        var task := w.tasks[t];
        World(Ended(w.core, task.running.value, task.sim, task.record, result), w.tasks[t := task.(running := None)])
    case Elsewhere(event) => if event.Inject? then w else w.(core := Step(w.core, event))
  }

  function After(w: World, moves: seq<Move>): World
    decreases |moves|
  {
    if moves == [] then w else After(Moved(w, moves[0]), moves[1..])
  }

  // ---- The ledger under every interleaving -----------------------------------------------

  /** As read, the agreement was active and its trigger matched. */
  predicate WasDue(c: Candidate, record: Injection) {
    && c.row.status == Active && c.row.terms.action.Some? && c.row.terms.trigger.Some?
    && TriggerMatches(c.row.terms.trigger.value, record)
  }

  predicate TaskOk(task: Task) {
    && (forall j :: 0 <= j < |task.waiting| ==> WasDue(task.waiting[j], task.record))
    && (task.running.Some? ==> WasDue(task.running.value, task.record))
  }

  ghost predicate WorldOk(w: World) {
    Inv(w.core) && Scheduled(w.core) && forall t :: 0 <= t < |w.tasks| ==> TaskOk(w.tasks[t])
  }

  lemma {:induction false} CandidatesAreDue(rows: seq<Option<Row>>, n: nat, envId: string, record: Injection)
    requires n <= |rows|
    ensures AllDue(rows, Candidates(rows, n, envId, record), record)
  {
    if n > 0 {
      CandidatesAreDue(rows, n - 1, envId, record);
    }
  }

  ghost predicate AllDue(rows: seq<Option<Row>>, cs: seq<Candidate>, record: Injection) {
    forall j :: 0 <= j < |cs| ==> IsDue(rows, cs[j], record)
  }

  predicate IsDue(rows: seq<Option<Row>>, c: Candidate, record: Injection) {
    WasDue(c, record) && c.id < |rows| && rows[c.id] == Some(c.row)
  }

  /** Ending an invocation is firing it on rows that still hold what was read. */
  lemma EndedIsFired(s: State, c: Candidate, sim: nat, record: Injection, result: Result, answers: Answers)
    requires c.row.terms.action.Some? && c.id < |s.rows| && s.rows[c.id] == Some(c.row)
    requires !answers.quotaSpent(c.id) && answers.run(c.id) == result
    ensures Fire(s, c.id, sim, record, answers) == Ended(s, c, sim, record, result)
  {
  }

  lemma EndedKeeps(s: State, c: Candidate, sim: nat, record: Injection, result: Result)
    requires c.row.terms.action.Some? && Inv(s) && Scheduled(s)
    ensures Inv(Ended(s, c, sim, record, result)) && Scheduled(Ended(s, c, sim, record, result))
  {
    var answers := Answers(_ => false, _ => result, _ => Success);
    var read := s.(rows := seq(c.id + 1, _ => Some(c.row)));
    EndedIsFired(read, c, sim, record, result, answers);
    FireKeeps(read, c.id, sim, record, answers);
    SameLedger(Ended(read, c, sim, record, result), Ended(s, c, sim, record, result));
  }

  lemma SameLedger(a: State, b: State)
    requires Inv(a) && a.log == b.log && a.pending == b.pending
    ensures Inv(b)
  {
  }

  lemma SkipKeeps(s: State, id: nat)
    requires Inv(s)
    ensures Inv(s.(log := s.log + [Skipped(id)]))
  {
    AppendKeepsLedger(s.log, Skipped(id));
    forall e | e in s.pending
      ensures ArmedBy(s.log + [Skipped(id)], e.value, |s.log| + 1) && NotFired(s.log + [Skipped(id)], e.value)
    {
      AppendKeepsArm(s.log, e.value, Skipped(id), |s.log|);
    }
  }

  lemma ElsewhereKeeps(s: State, event: Event)
    requires Inv(s) && Scheduled(s) && !event.Inject?
    ensures Inv(Step(s, event)) && Scheduled(Step(s, event))
  {
    if event.Timer? && s.timerOn {
      TickRemovesExactly(s, event.answers);
    }
  }

  lemma ResetKeeps(s: State, e: Entry<nat, Arm>, cause: Cause, answers: Answers)
    requires Inv(s) && Scheduled(s) && e in s.pending && RightCause(e.value, cause)
    ensures var after := FireReset(s, e.key, e.value, cause, answers); Inv(after) && Scheduled(after)
  {
    FireResetKeeps(s, e, cause, answers);
    var after := FireReset(s, e.key, e.value, cause, answers);
    assert after.pending != [] ==> after.pending[0] in s.pending;
  }

  lemma BeginKeepsTask(task: Task)
    requires TaskOk(task) && task.waiting != []
    ensures var next := task.(resetting := false, waiting := task.waiting[1..]);
            TaskOk(next) && TaskOk(next.(running := Some(task.waiting[0])))
  {
  }

  lemma MoveKeeps(w: World, move: Move)
    requires WorldOk(w)
    ensures WorldOk(Moved(w, move))
  {
    match move
    case Arrive(envId, sim, record, now) =>
      var rows := SettleAll(w.core.rows, envId, now);
      SameLedger(w.core, w.core.(rows := rows));
      CandidatesAreDue(rows, |rows|, envId, record);
    case ResetNext(t, e, answers) =>
      if Moved(w, move) != w {
        ResetKeeps(w.core, e, ByEvent(w.tasks[t].record), answers);
      }
    case Begin(t, quotaSpent) =>
      if CanBegin(w, t) {
        SkipKeeps(w.core, w.tasks[t].waiting[0].id);
        BeginKeepsTask(w.tasks[t]);
      }
    case Finish(t, result) =>
      if CanFinish(w, t) {
        EndedKeeps(w.core, w.tasks[t].running.value, w.tasks[t].sim, w.tasks[t].record, result);
        assert TaskOk(w.tasks[t]);
      }
    case Elsewhere(event) =>
      if !event.Inject? {
        ElsewhereKeeps(w.core, event);
      }
  }

  /** The ledger invariants hold however evaluations, ticks and changes interleave. */
  lemma {:induction false} EveryInterleavingKeeps(w: World, moves: seq<Move>)
    requires WorldOk(w)
    ensures WorldOk(After(w, moves))
    decreases |moves|
  {
    if moves != [] {
      MoveKeeps(w, moves[0]);
      EveryInterleavingKeeps(Moved(w, moves[0]), moves[1..]);
    }
  }

  // ---- Executing agreements that are no longer active ---------------------------------------

  /** An invocation that the move begins is of an agreement active at that moment. */
  predicate BeginsActive(w: World, move: Move) {
    move.Begin? && !move.quotaSpent && CanBegin(w, move.task) ==> IsActive(w.core.rows, w.tasks[move.task].waiting[0].id)
  }

  predicate OnlyActiveBegin(w: World, moves: seq<Move>)
    decreases |moves|
  {
    moves == [] || (BeginsActive(w, moves[0]) && OnlyActiveBegin(Moved(w, moves[0]), moves[1..]))
  }

  predicate ChangesRow(move: Move) {
    move.Elsewhere? && move.event.ChangeRow?
  }

  predicate IsWaiting(task: Task, id: nat) {
    exists j :: 0 <= j < |task.waiting| && task.waiting[j].id == id
  }

  /** Everything that evaluations still mean to execute is active. */
  ghost predicate WaitingActive(w: World) {
    forall t, id :: 0 <= t < |w.tasks| && IsWaiting(w.tasks[t], id) ==> IsActive(w.core.rows, id)
  }

  /** The move takes an agreement out of force that an evaluation still waits to execute. */
  ghost predicate Withdraws(w: World, move: Move) {
    && ChangesRow(move) && (move.event.row.Some? ==> move.event.row.value.status != Active)
    && exists t :: 0 <= t < |w.tasks| && IsWaiting(w.tasks[t], move.event.id)
  }

  lemma OthersChangeNoStatus(w: World, move: Move)
    requires !ChangesRow(move)
    ensures forall id :: IsActive(w.core.rows, id) ==> IsActive(Moved(w, move).core.rows, id)
  {
  }

  lemma FewerWait(w: World, move: Move, t: nat, id: nat)
    requires !move.Arrive? && t < |Moved(w, move).tasks| && IsWaiting(Moved(w, move).tasks[t], id)
    ensures t < |w.tasks| && IsWaiting(w.tasks[t], id)
  {
    var after := Moved(w, move).tasks[t].waiting;
    var j :| 0 <= j < |after| && after[j].id == id;
    if after != w.tasks[t].waiting {
      assert after == w.tasks[t].waiting[1..] && after[j] == w.tasks[t].waiting[j + 1];
    }
  }

  /** One move keeps what waits active exactly when it withdraws none of it. */
  lemma MoveKeepsWaitingIff(w: World, move: Move)
    requires WaitingActive(w)
    ensures WaitingActive(Moved(w, move)) <==> !Withdraws(w, move)
  {
    if ChangesRow(move) {
      ChangeKeepsWaitingIff(w, move);
    } else {
      forall t: nat, id | t < |Moved(w, move).tasks| && IsWaiting(Moved(w, move).tasks[t], id)
        ensures IsActive(Moved(w, move).core.rows, id)
      {
        OthersKeepWaiting(w, move, t, id);
      }
    }
  }

  lemma ChangeKeepsWaitingIff(w: World, move: Move)
    requires WaitingActive(w) && ChangesRow(move)
    ensures WaitingActive(Moved(w, move)) <==> !Withdraws(w, move)
  {
    var after, id := Moved(w, move), move.event.id;
    assert after.tasks == w.tasks;
    forall i: nat | i < |w.core.rows|
      ensures IsActive(after.core.rows, i) <==>
                if i == id then move.event.row.Some? && move.event.row.value.status == Active else IsActive(w.core.rows, i)
    {
    }
    if t: nat :| t < |w.tasks| && IsWaiting(w.tasks[t], id) {
      assert IsActive(w.core.rows, id) && IsWaiting(after.tasks[t], id);
    }
    if !Withdraws(w, move) {
      forall t: nat, i | t < |w.tasks| && IsWaiting(w.tasks[t], i) ensures IsActive(after.core.rows, i) {
        assert IsActive(w.core.rows, i);
      }
    }
  }

  lemma OthersKeepWaiting(w: World, move: Move, t: nat, id: nat)
    requires WaitingActive(w) && !ChangesRow(move)
    requires t < |Moved(w, move).tasks| && IsWaiting(Moved(w, move).tasks[t], id)
    ensures IsActive(Moved(w, move).core.rows, id)
  {
    var after := Moved(w, move);
    OthersChangeNoStatus(w, move);
    if move.Arrive? && t == |w.tasks| {
      var rows := after.core.rows;
      CandidatesAreDue(rows, |rows|, move.envId, move.record);
      var j :| 0 <= j < |after.tasks[t].waiting| && after.tasks[t].waiting[j].id == id;
      assert IsDue(rows, after.tasks[t].waiting[j], move.record);
    } else if move.Arrive? {
      assert after.tasks[t] == w.tasks[t];
    } else {
      FewerWait(w, move, t, id);
    }
  }

  /** As long as nothing is withdrawn, only active agreements are executed. */
  lemma {:induction false} NothingWithdrawnIsSafe(w: World, moves: seq<Move>)
    requires WaitingActive(w) && NoneWithdraws(w, moves)
    ensures OnlyActiveBegin(w, moves) && WaitingActive(After(w, moves))
    decreases |moves|
  {
    if moves != [] {
      MoveKeepsWaitingIff(w, moves[0]);
      HeadIsWaiting(w, moves[0]);
      NothingWithdrawnIsSafe(Moved(w, moves[0]), moves[1..]);
    }
  }

  ghost predicate NoneWithdraws(w: World, moves: seq<Move>)
    decreases |moves|
  {
    moves == [] || (!Withdraws(w, moves[0]) && NoneWithdraws(Moved(w, moves[0]), moves[1..]))
  }

  lemma HeadIsWaiting(w: World, move: Move)
    requires WaitingActive(w)
    ensures BeginsActive(w, move)
  {
    if move.Begin? && CanBegin(w, move.task) {
      assert IsWaiting(w.tasks[move.task], w.tasks[move.task].waiting[0].id);
    }
  }

  /** An evaluation that goes on reaches the inactive agreement it waits to execute. */
  lemma {:induction false} InactiveIsReached(w: World, t: nat, j: nat) returns (moves: seq<Move>)
    requires WorldOk(w) && t < |w.tasks| && j < |w.tasks[t].waiting| && !IsActive(w.core.rows, w.tasks[t].waiting[j].id)
    ensures (forall k :: 0 <= k < |moves| ==> !ChangesRow(moves[k])) && !OnlyActiveBegin(w, moves)
    decreases j, w.tasks[t].running.Some?
  {
    var task := w.tasks[t];
    assert TaskOk(task);
    if task.running.Some? {
      MoveKeeps(w, Finish(t, Failed));
      var more := InactiveIsReached(Moved(w, Finish(t, Failed)), t, j);
      moves := [Finish(t, Failed)] + more;
    } else if j == 0 {
      moves := [Begin(t, false)];
    } else {
      MoveKeeps(w, Begin(t, false));
      var more := InactiveIsReached(Moved(w, Begin(t, false)), t, j - 1);
      moves := [Begin(t, false)] + more;
    }
  }

  ghost predicate SafeFromHere(w: World) {
    forall moves :: Unchanging(moves) ==> OnlyActiveBegin(w, moves)
  }

  predicate Unchanging(moves: seq<Move>) {
    forall k :: 0 <= k < |moves| ==> !ChangesRow(moves[k])
  }

  lemma {:induction false} UnchangingWithdrawsNothing(w: World, moves: seq<Move>)
    requires Unchanging(moves)
    ensures NoneWithdraws(w, moves)
    decreases |moves|
  {
    if moves != [] {
      UnchangingWithdrawsNothing(Moved(w, moves[0]), moves[1..]);
    }
  }

  lemma SafeIffWaitingActive(w: World)
    requires WorldOk(w)
    ensures SafeFromHere(w) <==> WaitingActive(w)
  {
    if WaitingActive(w) {
      forall moves | Unchanging(moves) ensures OnlyActiveBegin(w, moves) {
        UnchangingWithdrawsNothing(w, moves);
        NothingWithdrawnIsSafe(w, moves);
      }
    } else {
      var t: nat, id: nat :| t < |w.tasks| && IsWaiting(w.tasks[t], id) && !IsActive(w.core.rows, id);
      var j :| 0 <= j < |w.tasks[t].waiting| && w.tasks[t].waiting[j].id == id;
      var moves := InactiveIsReached(w, t, j);
      assert Unchanging(moves);
    }
  }

  /**
   * While everything awaiting execution is active, a move lets an agreement be executed that is not, by whatever
   * evaluations do next, if and only if it takes one out of force that some evaluation still waits to execute.
   */
  lemma InactiveExecutesIffWithdrawn(w: World, move: Move)
    requires WorldOk(w) && WaitingActive(w)
    ensures !SafeFromHere(Moved(w, move)) <==> Withdraws(w, move)
  {
    MoveKeeps(w, move);
    MoveKeepsWaitingIff(w, move);
    SafeIffWaitingActive(Moved(w, move));
  }

  /** And such a change can come: whenever two triggers match, during the first invocation. */
  lemma SecondCandidateIsWithdrawn(w: World, envId: string, sim: nat, record: Injection, now: int, row: Option<Row>)
    requires var rows := SettleAll(w.core.rows, envId, now); |Candidates(rows, |rows|, envId, record)| >= 2
    requires row.Some? ==> row.value.status != Active
    ensures var rows := SettleAll(w.core.rows, envId, now);
            var second := Candidates(rows, |rows|, envId, record)[1].id;
            var t := |w.tasks|;
            !OnlyActiveBegin(w, [Arrive(envId, sim, record, now), Begin(t, false), Elsewhere(ChangeRow(second, row)),
                                 Finish(t, Failed), Begin(t, false)])
  {
    var rows := SettleAll(w.core.rows, envId, now);
    var cs, t := Candidates(rows, |rows|, envId, record), |w.tasks|;
    CandidatesAreDue(rows, |rows|, envId, record);
    var arrived := Moved(w, Arrive(envId, sim, record, now));
    assert arrived.tasks[t].waiting == cs && IsDue(rows, cs[0], record);
    SecondAfterFirst(arrived, t, cs, row);
    FirstMove(w, Arrive(envId, sim, record, now),
              [Begin(t, false), Elsewhere(ChangeRow(cs[1].id, row)), Finish(t, Failed), Begin(t, false)]);
  }

  lemma SecondAfterFirst(w: World, t: nat, cs: seq<Candidate>, row: Option<Row>)
    requires t < |w.tasks| && w.tasks[t].waiting == cs && w.tasks[t].running.None? && |cs| >= 2
    requires cs[0].row.terms.action.Some? && cs[1].id < |w.core.rows| && (row.Some? ==> row.value.status != Active)
    ensures !OnlyActiveBegin(w, [Begin(t, false), Elsewhere(ChangeRow(cs[1].id, row)), Finish(t, Failed), Begin(t, false)])
  {
    var begun, change := Moved(w, Begin(t, false)), Elsewhere(ChangeRow(cs[1].id, row));
    BegunFirst(w, t, cs);
    var changed := Moved(begun, change);
    FinishedFirst(changed, t, cs);
    FirstMove(changed, Finish(t, Failed), [Begin(t, false)]);
    assert [Finish(t, Failed)] + [Begin(t, false)] == [Finish(t, Failed), Begin(t, false)];
    FirstMove(begun, change, [Finish(t, Failed), Begin(t, false)]);
    assert [change] + [Finish(t, Failed), Begin(t, false)] == [change, Finish(t, Failed), Begin(t, false)];
    FirstMove(w, Begin(t, false), [change, Finish(t, Failed), Begin(t, false)]);
    assert [Begin(t, false)] + [change, Finish(t, Failed), Begin(t, false)]
        == [Begin(t, false), change, Finish(t, Failed), Begin(t, false)];
  }

  lemma BegunFirst(w: World, t: nat, cs: seq<Candidate>)
    requires t < |w.tasks| && w.tasks[t].waiting == cs && w.tasks[t].running.None? && |cs| >= 2
    ensures var tasks := Moved(w, Begin(t, false)).tasks;
            |tasks| == |w.tasks| && tasks[t].waiting == cs[1..] && tasks[t].running == Some(cs[0])
    ensures Moved(w, Begin(t, false)).core == w.core
  {
  }

  lemma FinishedFirst(w: World, t: nat, cs: seq<Candidate>)
    requires |cs| >= 2 && cs[0].row.terms.action.Some? && !IsActive(w.core.rows, cs[1].id)
    requires t < |w.tasks| && w.tasks[t].waiting == cs[1..] && w.tasks[t].running == Some(cs[0])
    ensures !OnlyActiveBegin(Moved(w, Finish(t, Failed)), [Begin(t, false)])
  {
    var ended := Moved(w, Finish(t, Failed));
    assert ended.tasks[t].waiting == cs[1..] && ended.core.rows == w.core.rows && cs[1..][0] == cs[1];
    assert !BeginsActive(ended, Begin(t, false));
  }

  lemma FirstMove(w: World, move: Move, rest: seq<Move>)
    requires !OnlyActiveBegin(Moved(w, move), rest)
    ensures !OnlyActiveBegin(w, [move] + rest)
  {
  }

  // ---- Without interleaving ------------------------------------------------------------------

  predicate AllHaveActions(cs: seq<Candidate>) {
    forall j :: 0 <= j < |cs| ==> cs[j].row.terms.action.Some?
  }

  function ServedOne(s: State, c: Candidate, sim: nat, record: Injection, answers: Answers): (after: State)
    requires c.row.terms.action.Some?
    ensures after.rows == s.rows
  {
    if answers.quotaSpent(c.id) then s.(log := s.log + [Skipped(c.id)]) else Ended(s, c, sim, record, answers.run(c.id))
  }

  /** One candidate after the other, from quota to outcome. */
  function Served(s: State, cs: seq<Candidate>, sim: nat, record: Injection, answers: Answers): (after: State)
    requires AllHaveActions(cs)
    ensures after.rows == s.rows
  {
    if cs == [] then s
    else ServedOne(Served(s, cs[..|cs| - 1], sim, record, answers), cs[|cs| - 1], sim, record, answers)
  }

  function Turn(t: nat, c: Candidate, answers: Answers): seq<Move> {
    if answers.quotaSpent(c.id) then [Begin(t, true)] else [Begin(t, false), Finish(t, answers.run(c.id))]
  }

  function Turns(t: nat, cs: seq<Candidate>, answers: Answers): seq<Move> {
    if cs == [] then [] else Turns(t, cs[..|cs| - 1], answers) + Turn(t, cs[|cs| - 1], answers)
  }

  function ResetTurns(t: nat, entries: Pending, sim: nat, record: Injection, answers: Answers): seq<Move> {
    if entries == [] then []
    else
      var last := entries[|entries| - 1];
      ResetTurns(t, entries[..|entries| - 1], sim, record, answers)
      + (if EventResets(last.value, sim, record) then [ResetNext(t, last, answers)] else [])
  }

  lemma {:induction false} AfterJoin(w: World, a: seq<Move>, b: seq<Move>)
    ensures After(w, a + b) == After(After(w, a), b)
    decreases |a|
  {
    if a == [] {
      assert a + b == b;
    } else {
      assert (a + b)[1..] == a[1..] + b;
      AfterJoin(Moved(w, a[0]), a[1..], b);
    }
  }

  lemma AfterTurn(w: World, t: nat, c: Candidate, rest: seq<Candidate>, answers: Answers)
    requires t < |w.tasks| && w.tasks[t].running.None? && w.tasks[t].waiting == [c] + rest && c.row.terms.action.Some?
    ensures var task := w.tasks[t];
            After(w, Turn(t, c, answers))
            == World(ServedOne(w.core, c, task.sim, task.record, answers),
                     w.tasks[t := task.(waiting := rest, resetting := false)])
  {
    var task := w.tasks[t];
    assert task.waiting[1..] == rest;
    if !answers.quotaSpent(c.id) {
      var begun := Moved(w, Begin(t, false));
      var ended := Moved(begun, Finish(t, answers.run(c.id)));
      assert ended.tasks == w.tasks[t := task.(waiting := rest, resetting := false)];
      assert Turn(t, c, answers)[1..] == [Finish(t, answers.run(c.id))];
      assert After(begun, [Finish(t, answers.run(c.id))]) == ended;
    }
  }

  lemma {:induction false} TurnsServe(w: World, t: nat, cs: seq<Candidate>, rest: seq<Candidate>, answers: Answers)
    requires t < |w.tasks| && w.tasks[t].running.None? && w.tasks[t].waiting == cs + rest && AllHaveActions(cs)
    ensures var task := w.tasks[t];
            After(w, Turns(t, cs, answers))
            == World(Served(w.core, cs, task.sim, task.record, answers),
                     w.tasks[t := task.(waiting := rest, resetting := task.resetting && cs == [])])
  {
    var task := w.tasks[t];
    if cs == [] {
      assert [] + rest == rest && w.tasks[t := task] == w.tasks;
    } else {
      var front, c := cs[..|cs| - 1], cs[|cs| - 1];
      assert cs + rest == front + ([c] + rest);
      TurnsServe(w, t, front, [c] + rest, answers);
      AfterJoin(w, Turns(t, front, answers), Turn(t, c, answers));
      AfterTurn(After(w, Turns(t, front, answers)), t, c, rest, answers);
    }
  }

  lemma ServedIsFired(s: State, c: Candidate, sim: nat, record: Injection, answers: Answers)
    requires c.row.terms.action.Some? && c.id < |s.rows| && s.rows[c.id] == Some(c.row)
    ensures ServedOne(s, c, sim, record, answers) == Fire(s, c.id, sim, record, answers)
  {
    if !answers.quotaSpent(c.id) {
      EndedIsFired(s, c, sim, record, answers.run(c.id), answers);
    }
  }

  lemma ServedGrows(s: State, front: seq<Candidate>, c: Candidate, sim: nat, record: Injection, answers: Answers)
    requires AllHaveActions(front) && c.row.terms.action.Some?
    ensures AllHaveActions(front + [c])
    ensures Served(s, front + [c], sim, record, answers) == ServedOne(Served(s, front, sim, record, answers), c, sim, record, answers)
  {
    assert (front + [c])[..|front|] == front;
  }

  lemma {:induction false} LaneServes(s: State, n: nat, envId: string, sim: nat, record: Injection, answers: Answers)
    requires n <= |s.rows|
    ensures var cs := Candidates(s.rows, n, envId, record);
            AllHaveActions(cs) && TriggerLane(s, n, envId, sim, record, answers) == Served(s, cs, sim, record, answers)
  {
    if n > 0 {
      LaneServes(s, n - 1, envId, sim, record, answers);
      var front := Candidates(s.rows, n - 1, envId, record);
      if IsCandidate(s.rows, envId, n - 1) && TriggerMatches(s.rows[n - 1].value.terms.trigger.value, record) {
        var c := Candidate(n - 1, s.rows[n - 1].value);
        ServedGrows(s, front, c, sim, record, answers);
        ServedIsFired(Served(s, front, sim, record, answers), c, sim, record, answers);
      } else {
        assert Candidates(s.rows, n, envId, record) == front;
      }
    }
  }

  lemma {:induction false} ResetTurnsReset(w: World, t: nat, i: nat, answers: Answers)
    requires Inv(w.core) && t < |w.tasks| && w.tasks[t].resetting && i <= |w.core.pending|
    ensures var entries, task := w.core.pending[..i], w.tasks[t];
            After(w, ResetTurns(t, entries, task.sim, task.record, answers))
            == w.(core := EventLane(w.core, entries, task.sim, task.record, answers))
  {
    if i > 0 {
      var e, task := w.core.pending[i - 1], w.tasks[t];
      var front, entries := w.core.pending[..i - 1], w.core.pending[..i];
      assert entries[..i - 1] == front;
      ResetTurnsReset(w, t, i - 1, answers);
      EventLaneKeeps(w.core, i - 1, task.sim, task.record, answers);
      NotBefore(w.core.pending, i - 1);
      var before := w.(core := EventLane(w.core, front, task.sim, task.record, answers));
      assert e in before.core.pending;
      if EventResets(e.value, task.sim, task.record) {
        AfterJoin(w, ResetTurns(t, front, task.sim, task.record, answers), [ResetNext(t, e, answers)]);
        assert After(before, [ResetNext(t, e, answers)]) == Moved(before, ResetNext(t, e, answers));
      } else {
        assert ResetTurns(t, entries, task.sim, task.record, answers) == ResetTurns(t, front, task.sim, task.record, answers);
      }
    }
  }

  /** An evaluation that is never interrupted does what the atomic one does, and leaves the other tasks alone. */
  lemma UninterruptedIsEvaluated(w: World, envId: string, sim: nat, record: Injection, now: int, answers: Answers)
    requires Inv(w.core)
    ensures var rows, t := SettleAll(w.core.rows, envId, now), |w.tasks|;
            var moves := [Arrive(envId, sim, record, now)] + ResetTurns(t, w.core.pending, sim, record, answers)
                         + Turns(t, Candidates(rows, |rows|, envId, record), answers);
            var after := After(w, moves);
            && after.core == Evaluated(w.core, envId, sim, record, now, answers)
            && |after.tasks| == t + 1 && after.tasks[..t] == w.tasks
            && after.tasks[t].waiting == [] && after.tasks[t].running == None
  {
    var rows, t := SettleAll(w.core.rows, envId, now), |w.tasks|;
    var settled, cs := w.core.(rows := rows), Candidates(rows, |rows|, envId, record);
    var first, resets, turns := [Arrive(envId, sim, record, now)], ResetTurns(t, w.core.pending, sim, record, answers), Turns(t, cs, answers);
    var arrived := Moved(w, first[0]);
    AfterJoin(w, first + resets, turns);
    AfterJoin(w, first, resets);
    assert After(w, first) == arrived;
    SameLedger(w.core, settled);
    assert settled.pending[..|settled.pending|] == settled.pending;
    ResetTurnsReset(arrived, t, |settled.pending|, answers);
    var reset := EventLane(settled, settled.pending, sim, record, answers);
    LaneServes(reset, |rows|, envId, sim, record, answers);
    assert cs + [] == cs;
    TurnsServe(arrived.(core := reset), t, cs, [], answers);
  }
}
