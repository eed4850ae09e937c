/** The due-driven scheduler of lazy worlds: when the simulation clock moves, and how old frames get. */
module LazyDriver {
  import opened Options
  import opened FrameEvaluator

  /** `rate` is simulated seconds per wall second; the other settings are in simulated resp. wall seconds. */
  datatype Settings = Settings(rate: real, maxStride: real, recheck: real) {
    predicate Valid() {
      rate > 0.0 && maxStride > 0.0 && recheck > 0.0
    }
  }

  /**
   * What one loop iteration meets: the runtime's state, its next due moment and the freshness floor at
   * the start, how long the sleep really took and whether it was cut short, how far manual steps moved
   * the simulation meanwhile, whether the driver may still advance, and how long the advance took.
   */
  datatype Turn = Turn(running: bool, due: Option<real>, floor: Option<real>, slept: real, early: bool,
                       manual: real, mayAdvance: bool, work: real)

  datatype Clock = Clock(sim: real, wall: real)

  function Min(a: real, b: real): real {
    if b < a then b else a
  }

  /** The moment to aim for: the next due moment or the floor mapped to simulated time, whichever is first. */
  function Target(settings: Settings, sim: real, turn: Turn): Option<real> {
    if turn.floor.Some? && turn.floor.value > 0.0 then
      var floorSim := sim + turn.floor.value * settings.rate;
      Some(if turn.due.None? then floorSim else Min(turn.due.value, floorSim))
    else turn.due
  }

  /** How far the iteration plans to advance; `None` when it only polls. */
  function Stride(settings: Settings, sim: real, turn: Turn): Option<real> {
    var target := Target(settings, sim, turn);
    if !turn.running || target.None? || target.value <= sim then None
    else Some(Min(target.value - sim, settings.maxStride))
  }

  /** The sleep that the iteration asks for, in wall seconds. */
  function Requested(settings: Settings, sim: real, turn: Turn): real
    requires settings.Valid()
  {
    var stride := Stride(settings, sim, turn);
    if stride.None? then settings.recheck else stride.value / settings.rate
  }

  /** Timers never run out early, and time and simulations only go forward. */
  predicate Possible(settings: Settings, sim: real, turn: Turn)
    requires settings.Valid()
  {
    && turn.slept >= 0.0 && turn.manual >= 0.0 && turn.work >= 0.0
    && (!turn.early ==> turn.slept >= Requested(settings, sim, turn))
  }

  function Advances(settings: Settings, sim: real, turn: Turn): bool {
    var stride := Stride(settings, sim, turn);
    stride.Some? && !turn.early && turn.mayAdvance && sim + stride.value > sim + turn.manual
  }

  function Next(settings: Settings, clock: Clock, turn: Turn): Clock {
    if Advances(settings, clock.sim, turn) then
      Clock(clock.sim + Stride(settings, clock.sim, turn).value, clock.wall + turn.slept + turn.work)
    else Clock(clock.sim + turn.manual, clock.wall + turn.slept)
  }

  class LazyDriver {
    const settings: Settings
    const agreements: seq<Agreement>
    const computable: set<string>
    const cache: FrameCache
    var clock: Clock

    constructor (settings: Settings, clock: Clock, agreements: seq<Agreement>, computable: set<string>, cache: FrameCache)
      ensures this.settings == settings && this.clock == clock && this.cache == cache
      ensures this.agreements == agreements && this.computable == computable
    {
      this.settings, this.clock, this.cache := settings, clock, cache;
      this.agreements, this.computable := agreements, computable;
    }

    /** One pass through the driver loop. */
    method Iterate(turn: Turn) returns (advanced: bool)
      modifies this, cache
      ensures clock == Next(settings, old(clock), turn)
      ensures advanced == Advances(settings, old(clock).sim, turn)
      ensures if advanced then Refreshed(old(cache.frames), cache.frames, agreements, computable, clock.wall)
              else cache.frames == old(cache.frames)
    {
      var simTime := clock.sim;
      advanced := false;
      if !turn.running {
        clock := Clock(simTime + turn.manual, clock.wall + turn.slept);
        return;
      }
      var target := turn.due;
      if turn.floor.Some? && turn.floor.value > 0.0 {
        var floorSim := simTime + turn.floor.value * settings.rate;
        target := if target.None? then Some(floorSim) else Some(Min(target.value, floorSim));
      }
      if target.None? || target.value <= simTime {
        clock := Clock(simTime + turn.manual, clock.wall + turn.slept);
        return;
      }
      var stride := Min(target.value - simTime, settings.maxStride);
      clock := Clock(simTime + turn.manual, clock.wall + turn.slept);
      if turn.early || !turn.mayAdvance {
        return;
      }
      var now := clock.sim;
      var stopAt := Min(simTime + stride, target.value);
      if stopAt > now {
        clock := Clock(stopAt, clock.wall + turn.work);
        advanced := true;
        cache.RecomputeStale(agreements, computable, clock.wall);
      }
    }
  }

  // ---- The clock over whole runs ----------------------------------------------------

  function After(settings: Settings, start: Clock, turns: seq<Turn>): Clock {
    if turns == [] then start else Next(settings, After(settings, start, turns[..|turns| - 1]), turns[|turns| - 1])
  }

  ghost predicate PossibleRun(settings: Settings, start: Clock, turns: seq<Turn>)
    requires settings.Valid()
  {
    forall k :: 0 <= k < |turns| ==> Possible(settings, After(settings, start, turns[..k]).sim, turns[k])
  }

  /** Simulated seconds added by manual steps. */
  function Manual(turns: seq<Turn>): real {
    if turns == [] then 0.0 else Manual(turns[..|turns| - 1]) + turns[|turns| - 1].manual
  }

  lemma MappedBack(stride: real, rate: real)
    requires rate > 0.0
    ensures rate * (stride / rate) == stride
  {
  }

  lemma Scales(rate: real, a: real, b: real)
    requires a >= b && rate > 0.0
    ensures rate * a >= rate * b
  {
  }

  lemma Distributes(rate: real, a: real, b: real)
    ensures rate * a + rate * b == rate * (a + b)
  {
  }

  /** `now` is no further ahead of `start` than the rate allows, beyond `manual` seconds. */
  predicate OnPace(rate: real, start: Clock, now: Clock, manual: real) {
    now.sim <= start.sim + rate * (now.wall - start.wall) + manual
  }

  lemma PaceAdds(rate: real, start: Clock, mid: Clock, end: Clock, m: real, n: real)
    requires OnPace(rate, start, mid, m) && OnPace(rate, mid, end, n)
    ensures OnPace(rate, start, end, m + n)
  {
    Distributes(rate, mid.wall - start.wall, end.wall - mid.wall);
  }

  lemma TurnKeepsPace(settings: Settings, clock: Clock, turn: Turn)
    requires settings.Valid() && Possible(settings, clock.sim, turn)
    ensures OnPace(settings.rate, clock, Next(settings, clock, turn), turn.manual)
  {
    var elapsed := Next(settings, clock, turn).wall - clock.wall;
    Scales(settings.rate, elapsed, 0.0);
    if Advances(settings, clock.sim, turn) {
      var stride := Stride(settings, clock.sim, turn).value;
      var asked := Requested(settings, clock.sim, turn);
      assert asked == stride / settings.rate && elapsed >= asked;
      MappedBack(stride, settings.rate);
      Scales(settings.rate, elapsed, asked);
      assert settings.rate * elapsed >= stride;
    }
  }

  /**
   * For any interleaving of sleeps, late timers, early wakes, pauses and manual steps: the simulation
   * clock never runs ahead of `rate` times the wall time elapsed, beyond what manual steps added.
   */
  lemma {:induction false} NeverAheadOfTheWall(settings: Settings, start: Clock, turns: seq<Turn>)
    requires settings.Valid() && PossibleRun(settings, start, turns)
    ensures OnPace(settings.rate, start, After(settings, start, turns), Manual(turns))
  {
    if turns != [] {
      var front, last := turns[..|turns| - 1], turns[|turns| - 1];
      FrontIsPossible(settings, start, turns);
      NeverAheadOfTheWall(settings, start, front);
      OneMoreTurn(settings, start, After(settings, start, front), last, Manual(front));
    }
  }

  lemma OneMoreTurn(settings: Settings, start: Clock, before: Clock, turn: Turn, manual: real)
    requires settings.Valid() && Possible(settings, before.sim, turn)
    requires OnPace(settings.rate, start, before, manual)
    ensures OnPace(settings.rate, start, Next(settings, before, turn), manual + turn.manual)
  {
    TurnKeepsPace(settings, before, turn);
    PaceAdds(settings.rate, start, before, Next(settings, before, turn), manual, turn.manual);
  }

  lemma FrontIsPossible(settings: Settings, start: Clock, turns: seq<Turn>)
    requires settings.Valid() && PossibleRun(settings, start, turns) && turns != []
    ensures PossibleRun(settings, start, turns[..|turns| - 1])
    ensures Possible(settings, After(settings, start, turns[..|turns| - 1]).sim, turns[|turns| - 1])
  {
    var front := turns[..|turns| - 1];
    forall k | 0 <= k < |front|
      ensures Possible(settings, After(settings, start, front[..k]).sim, front[k])
    {
      assert front[..k] == turns[..k];
    }
  }

  /**
   * An early wake never advances the world; an advance is at most one stride, never passes the due moment
   * peeked at the start of the iteration nor the mapped freshness floor, and reaches the nearest of the three.
   */
  lemma AdvanceIsBounded(settings: Settings, clock: Clock, turn: Turn)
    requires settings.Valid() && turn.manual >= 0.0
    ensures turn.early ==> Next(settings, clock, turn).sim == clock.sim + turn.manual
    ensures Advances(settings, clock.sim, turn) ==>
              var reached := Next(settings, clock, turn).sim;
              && clock.sim + turn.manual < reached <= clock.sim + settings.maxStride
              && (turn.due.Some? ==> reached <= turn.due.value)
              && (turn.floor.Some? && turn.floor.value > 0.0 ==> reached <= clock.sim + turn.floor.value * settings.rate)
              && (reached == clock.sim + settings.maxStride || turn.due == Some(reached)
                  || (turn.floor.Some? && reached == clock.sim + turn.floor.value * settings.rate))
  {
  }

  /** A moment that the turn may aim for: what is due next, or the freshness floor on the simulation clock. */
  ghost predicate Aims(settings: Settings, sim: real, turn: Turn, moment: real) {
    turn.due == Some(moment)
    || (turn.floor.Some? && turn.floor.value > 0.0 && moment == sim + turn.floor.value * settings.rate)
  }

  /** There is something to aim for, and all of it still lies ahead. */
  ghost predicate HasAim(settings: Settings, sim: real, turn: Turn) {
    && (exists moment :: Aims(settings, sim, turn, moment))
    && forall moment :: Aims(settings, sim, turn, moment) ==> moment > sim
  }

  /** `moment` is the first of all aims and of the end of the longest stride. */
  ghost predicate IsFirst(settings: Settings, sim: real, turn: Turn, moment: real) {
    && (moment == sim + settings.maxStride || Aims(settings, sim, turn, moment))
    && moment <= sim + settings.maxStride
    && forall other :: Aims(settings, sim, turn, other) ==> moment <= other
  }

  /** A turn without an aim plans nothing; otherwise it plans to get exactly to the first of its aims and its cap. */
  lemma StrideIsToTheFirst(settings: Settings, sim: real, turn: Turn)
    requires settings.Valid()
    ensures Stride(settings, sim, turn).Some? <==> turn.running && HasAim(settings, sim, turn)
    ensures Stride(settings, sim, turn).Some? ==> IsFirst(settings, sim, turn, sim + Stride(settings, sim, turn).value)
  {
    var floorSim := if turn.floor.Some? then sim + turn.floor.value * settings.rate else 0.0;
    if turn.floor.Some? && turn.floor.value > 0.0 {
      assert Aims(settings, sim, turn, floorSim);
    }
    if turn.due.Some? {
      assert Aims(settings, sim, turn, turn.due.value);
    }
  }

  /**
   * What every turn does, exactly. A running turn with aims ahead asks to sleep until its first moment, at the rate,
   * and any other one for the recheck interval. Unless it is cut short or may not advance, it then ends at that
   * moment, with the wall clock past the work as well, provided manual steps have not got there; else only they count.
   */
  lemma TurnEndsExactly(settings: Settings, clock: Clock, turn: Turn, first: real)
    requires settings.Valid() && IsFirst(settings, clock.sim, turn, first)
    ensures var plans, next := turn.running && HasAim(settings, clock.sim, turn), Next(settings, clock, turn);
            var goes := plans && !turn.early && turn.mayAdvance && clock.sim + turn.manual < first;
            && Requested(settings, clock.sim, turn) == (if plans then (first - clock.sim) / settings.rate else settings.recheck)
            && Advances(settings, clock.sim, turn) == goes
            && next == if goes then Clock(first, clock.wall + turn.slept + turn.work)
                       else Clock(clock.sim + turn.manual, clock.wall + turn.slept)
  {
    StrideIsToTheFirst(settings, clock.sim, turn);
  }

  lemma FirstExists(settings: Settings, sim: real, turn: Turn) returns (first: real)
    ensures IsFirst(settings, sim, turn, first)
  {
    first := sim + settings.maxStride;
    if turn.due.Some? && turn.due.value < first {
      first := turn.due.value;
    }
    if turn.floor.Some? && turn.floor.value > 0.0 && sim + turn.floor.value * settings.rate < first {
      first := sim + turn.floor.value * settings.rate;
    }
  }

  /** A turn that nothing disturbs: it runs, sleeps through, may advance, and nobody steps the simulation. */
  predicate Quiet(turn: Turn) {
    turn.running && turn.mayAdvance && !turn.early && turn.manual == 0.0
  }

  /** Without a usable floor, a quiet turn gets to the due moment ahead, or as far as one stride. */
  lemma DueIsApproached(settings: Settings, clock: Clock, turn: Turn)
    requires settings.Valid() && Quiet(turn) && turn.due.Some? && turn.due.value > clock.sim
    requires turn.floor.Some? ==> turn.floor.value <= 0.0
    ensures var due := turn.due.value;
            Next(settings, clock, turn).sim == if due <= clock.sim + settings.maxStride then due else clock.sim + settings.maxStride
  {
  }

  /** A quiet turn under a due moment that stays, with no floor tighter than `tight`. */
  predicate Towards(turn: Turn, due: real, tight: real) {
    Quiet(turn) && turn.due == Some(due) && (turn.floor.Some? && turn.floor.value > 0.0 ==> turn.floor.value >= tight)
  }

  lemma TurnApproaches(settings: Settings, clock: Clock, turn: Turn, due: real, tight: real, step: real)
    requires settings.Valid() && Towards(turn, due, tight) && clock.sim <= due
    requires 0.0 < step <= settings.maxStride && step <= tight * settings.rate
    ensures var sim := Next(settings, clock, turn).sim;
            sim <= due && (sim == due || sim >= clock.sim + step)
  {
    if turn.floor.Some? && turn.floor.value > 0.0 {
      Scales(settings.rate, turn.floor.value, tight);
    }
  }

  /** Whatever the floors, as long as they have a lower bound: a due moment that stays is reached, and not passed. */
  lemma {:induction false} DueComesCloser(settings: Settings, start: Clock, turns: seq<Turn>, due: real, tight: real, step: real)
    requires settings.Valid() && start.sim <= due && forall k :: 0 <= k < |turns| ==> Towards(turns[k], due, tight)
    requires 0.0 < step <= settings.maxStride && step <= tight * settings.rate
    ensures var sim := After(settings, start, turns).sim;
            sim <= due && (sim == due || sim >= start.sim + Gaps(|turns|, step))
  {
    if turns != [] {
      var n := |turns| - 1;
      DueComesCloser(settings, start, turns[..n], due, tight, step);
      TurnApproaches(settings, After(settings, start, turns[..n]), turns[n], due, tight, step);
    }
  }

  lemma {:induction false} GapsGrow(n: nat, m: nat, gap: real)
    requires n <= m && gap > 0.0
    ensures Gaps(n, gap) <= Gaps(m, gap)
  {
    if n < m {
      GapsGrow(n, m - 1, gap);
    }
  }

  /** So there is a number of quiet turns after which every run towards it has reached it. */
  lemma DueIsReached(settings: Settings, start: Clock, due: real, tight: real) returns (n: nat)
    requires settings.Valid() && start.sim <= due && tight > 0.0
    ensures forall turns: seq<Turn> :: |turns| >= n && (forall k :: 0 <= k < |turns| ==> Towards(turns[k], due, tight)) ==>
              After(settings, start, turns).sim == due
  {
    var cap := Min(settings.maxStride, tight * settings.rate);
    var step := cap;
    n := 0;
    assert tight * settings.rate > 0.0;
    if start.sim < due {
      n, step := StepsFor(due - start.sim, cap);
    }
    forall turns: seq<Turn> | |turns| >= n && (forall k :: 0 <= k < |turns| ==> Towards(turns[k], due, tight))
      ensures After(settings, start, turns).sim == due
    {
      DueComesCloser(settings, start, turns, due, tight, step);
      GapsGrow(n, |turns|, step);
    }
  }

  lemma SleepIsCapped(settings: Settings, sim: real, turn: Turn)
    requires settings.Valid() && Stride(settings, sim, turn).Some?
    ensures 0.0 < Requested(settings, sim, turn) <= settings.maxStride / settings.rate
  {
    var stride := Stride(settings, sim, turn).value;
    Divides(settings.rate, stride, settings.maxStride);
  }

  lemma Divides(rate: real, a: real, b: real)
    requires rate > 0.0 && 0.0 < a <= b
    ensures 0.0 < a / rate <= b / rate
  {
  }

  /** A turn that meets nothing but a due moment one stride away. */
  function FullStride(settings: Settings, sim: real): Turn {
    Turn(true, Some(sim + settings.maxStride), None, 0.0, false, 0.0, true, 0.0)
  }

  /**
   * The due set is re-read within `recheck` seconds, whatever a turn meets, if and only if a whole stride takes
   * no longer than that: a planned stride is slept through in one piece.
   */
  lemma RecheckIsKeptIff(settings: Settings, sim: real)
    requires settings.Valid()
    ensures (forall turn :: Requested(settings, sim, turn) <= settings.recheck)
       <==> settings.maxStride <= settings.recheck * settings.rate
  {
    var longest := settings.maxStride / settings.rate;
    MappedBack(settings.maxStride, settings.rate);
    assert longest <= settings.recheck <==> settings.maxStride <= settings.recheck * settings.rate by {
      if longest <= settings.recheck {
        Scales(settings.rate, settings.recheck, longest);
      } else {
        ScalesStrictly(settings.rate, longest, settings.recheck);
      }
    }
    if longest <= settings.recheck {
      forall turn ensures Requested(settings, sim, turn) <= settings.recheck {
        if Stride(settings, sim, turn).Some? {
          SleepIsCapped(settings, sim, turn);
        }
      }
    } else {
      assert Requested(settings, sim, FullStride(settings, sim)) == longest;
    }
  }

  lemma ScalesStrictly(rate: real, a: real, b: real)
    requires a > b && rate > 0.0
    ensures rate * a > rate * b
  {
  }

  // ---- How old a frame gets ------------------------------------------------------------

  /** A turn of an undisturbed world: running, not woken early, at most `slack` seconds slower than asked. */
  predicate Undisturbed(settings: Settings, sim: real, turn: Turn, floor: real, slack: real)
    requires settings.Valid()
  {
    && turn.running && turn.mayAdvance && !turn.early && turn.manual == 0.0
    && turn.floor == Some(floor) && floor > 0.0
    && (turn.due.Some? ==> turn.due.value > sim)
    && turn.slept >= Requested(settings, sim, turn) && turn.work >= 0.0
    && turn.slept + turn.work <= Requested(settings, sim, turn) + slack
  }

  /** The longest sleep that a turn asks for under a floor: the floor itself, or that of a whole stride. */
  function LongestSleep(settings: Settings, floor: real): real
    requires settings.Valid()
  {
    Min(floor, settings.maxStride / settings.rate)
  }

  /** An undisturbed turn always advances, and the next hook comes within the floor and within a stride's sleep. */
  lemma NextHookIsNear(settings: Settings, clock: Clock, turn: Turn, floor: real, slack: real)
    requires settings.Valid() && Undisturbed(settings, clock.sim, turn, floor, slack)
    ensures Advances(settings, clock.sim, turn)
    ensures Next(settings, clock, turn).wall <= clock.wall + LongestSleep(settings, floor) + slack
  {
    var step := floor * settings.rate;
    assert step > 0.0;
    var stride := Stride(settings, clock.sim, turn).value;
    assert 0.0 < stride <= step;
    assert stride / settings.rate <= step / settings.rate == floor;
    SleepIsCapped(settings, clock.sim, turn);
  }

  /**
   * The end-to-end bound, for undisturbed worlds: if every frame was inside its contract after some hook,
   * then just before the next one a frame with floor `f` is younger than `f` plus the tightest floor, or the
   * sleep of a whole stride where that is shorter, plus the slack, so less than `2 f` with exact timers; and the
   * next hook restores every contract.
   */
  lemma FrameAgeBound(settings: Settings, clock: Clock, turn: Turn, slack: real, agreements: seq<Agreement>,
                      computable: set<string>, frames: Frames, refreshed: Frames, a: Agreement, s: string)
    requires settings.Valid() && turn.floor.Some? && IsTightest(agreements, turn.floor)
    requires Undisturbed(settings, clock.sim, turn, turn.floor.value, slack)
    requires Fresh(frames, agreements, computable, clock.wall)
    requires a in agreements && Demands(a, s) && s in computable
    requires Refreshed(frames, refreshed, agreements, computable, Next(settings, clock, turn).wall)
    ensures var wall := Next(settings, clock, turn).wall;
            && wall - frames[s] < a.floor.value + LongestSleep(settings, turn.floor.value) + slack
            && (slack == 0.0 ==> wall - frames[s] < 2.0 * a.floor.value)
            && Fresh(refreshed, agreements, computable, wall)
  {
    NextHookIsNear(settings, clock, turn, turn.floor.value, slack);
    HookRestoresContracts(frames, refreshed, agreements, computable, Next(settings, clock, turn).wall);
  }

  /** A turn of an undisturbed world that may also have nothing to aim for. */
  predicate Calm(settings: Settings, sim: real, turn: Turn, slack: real)
    requires settings.Valid()
  {
    && turn.running && turn.mayAdvance && !turn.early && turn.manual == 0.0
    && (turn.due.Some? ==> turn.due.value > sim)
    && turn.slept >= Requested(settings, sim, turn) && turn.work >= 0.0
    && turn.slept + turn.work <= Requested(settings, sim, turn) + slack
  }

  /**
   * A run of undisturbed turns. Each turn reads the agreements anew, for its floor (`read`) and for its hook
   * (`hooked`, with the services computable then); `frames` are those cached before each turn and at the end.
   */
  datatype History = History(turns: seq<Turn>, read: seq<seq<Agreement>>, hooked: seq<seq<Agreement>>,
                             computable: seq<set<string>>, frames: seq<Frames>)

  ghost predicate CalmTurn(settings: Settings, start: Clock, h: History, slack: real, k: nat)
    requires settings.Valid() && k < |h.turns|
    requires |h.read| == |h.hooked| == |h.computable| == |h.turns| && |h.frames| == |h.turns| + 1
  {
    var clock := After(settings, start, h.turns[..k]);
    var next := Next(settings, clock, h.turns[k]);
    && IsTightest(h.read[k], h.turns[k].floor) && Calm(settings, clock.sim, h.turns[k], slack)
    && if Advances(settings, clock.sim, h.turns[k])
       then Refreshed(h.frames[k], h.frames[k + 1], h.hooked[k], h.computable[k], next.wall)
       else h.frames[k + 1] == h.frames[k]
  }

  ghost predicate CalmRun(settings: Settings, start: Clock, h: History, slack: real)
    requires settings.Valid()
  {
    && |h.read| == |h.hooked| == |h.computable| == |h.turns| && |h.frames| == |h.turns| + 1
    && forall k :: 0 <= k < |h.turns| ==> CalmTurn(settings, start, h, slack, k)
  }

  lemma AfterOneTurn(settings: Settings, start: Clock, turns: seq<Turn>, k: nat, next: nat)
    requires k < |turns| && next == k + 1
    ensures After(settings, start, turns[..next]) == Next(settings, After(settings, start, turns[..k]), turns[k])
  {
    assert turns[..next][..k] == turns[..k];
  }

  /** A turn that reads an agreement with a floor has a tightest floor, no looser than that one, and advances. */
  lemma FloorIsRead(settings: Settings, sim: real, turn: Turn, slack: real, read: seq<Agreement>, a: Agreement, s: string)
    requires settings.Valid() && IsTightest(read, turn.floor) && Calm(settings, sim, turn, slack)
    requires a in read && Demands(a, s)
    ensures turn.floor.Some? && 0.0 < turn.floor.value <= a.floor.value
    ensures Undisturbed(settings, sim, turn, turn.floor.value, slack)
  {
  }

  /**
   * Over every undisturbed run, with agreements coming and going: an agreement seen by one hook and still there
   * when the next turn reads its floor finds its frame younger than its floor plus the tightest one, or the sleep
   * of a whole stride where that is shorter, plus the slack just before the next hook, which does come; with exact
   * timers that is less than twice its floor.
   */
  lemma FrameAgeBoundOverRuns(settings: Settings, start: Clock, h: History, slack: real, k: nat, next: nat, a: Agreement, s: string)
    requires settings.Valid() && CalmRun(settings, start, h, slack) && next == k + 1 < |h.turns|
    requires Advances(settings, After(settings, start, h.turns[..k]).sim, h.turns[k])
    requires a in h.hooked[k] && a in h.read[next] && Demands(a, s) && s in h.computable[k]
    ensures s in h.frames[next] && h.turns[next].floor.Some?
    ensures Advances(settings, After(settings, start, h.turns[..next]).sim, h.turns[next])
    ensures var age := Next(settings, After(settings, start, h.turns[..next]), h.turns[next]).wall - h.frames[next][s];
            && age < a.floor.value + LongestSleep(settings, h.turns[next].floor.value) + slack
            && (slack == 0.0 ==> age < 2.0 * a.floor.value)
  {
    var before, clock := After(settings, start, h.turns[..k]), After(settings, start, h.turns[..next]);
    AfterOneTurn(settings, start, h.turns, k, next);
    assert CalmTurn(settings, start, h, slack, k) && CalmTurn(settings, start, h, slack, next);
    HookRestoresContracts(h.frames[k], h.frames[next], h.hooked[k], h.computable[k], clock.wall);
    FloorIsRead(settings, clock.sim, h.turns[next], slack, h.read[next], a, s);
    NextHookIsNear(settings, clock, h.turns[next], h.turns[next].floor.value, slack);
  }

  // ---- No better bound ---------------------------------------------------------------------

  lemma SleepsUnderFloor(settings: Settings, clock: Clock, floor: real)
    requires settings.Valid() && floor > 0.0
    ensures var turn := Turn(true, None, Some(floor), LongestSleep(settings, floor), false, 0.0, true, 0.0);
            Undisturbed(settings, clock.sim, turn, floor, 0.0)
            && Next(settings, clock, turn).wall == clock.wall + LongestSleep(settings, floor)
  {
    var turn := Turn(true, None, Some(floor), LongestSleep(settings, floor), false, 0.0, true, 0.0);
    var step := floor * settings.rate;
    assert step > 0.0;
    Undivided(floor, settings.rate);
    PlannedStride(settings, clock.sim, turn, floor, step);
    MinDivides(settings.rate, step, settings.maxStride);
  }

  lemma PlannedStride(settings: Settings, sim: real, turn: Turn, floor: real, step: real)
    requires turn.running && turn.due.None? && turn.floor == Some(floor) && floor > 0.0
    requires step == turn.floor.value * settings.rate && step > 0.0
    ensures Stride(settings, sim, turn) == Some(Min(step, settings.maxStride))
  {
    assert Target(settings, sim, turn).value - sim == step;
  }

  lemma Undivided(q: real, rate: real)
    requires rate > 0.0
    ensures (q * rate) / rate == q
  {
  }

  lemma MinDivides(rate: real, a: real, b: real)
    requires rate > 0.0
    ensures Min(a, b) / rate == Min(a / rate, b / rate)
  {
    if b < a {
      assert b / rate < a / rate;
    } else {
      assert a / rate <= b / rate;
    }
  }

  lemma SleepIsShort(settings: Settings, clock: Clock, turn: Turn, floor: real)
    requires settings.Valid() && Undisturbed(settings, clock.sim, turn, floor, 0.0)
    ensures Next(settings, clock, turn).wall <= clock.wall + LongestSleep(settings, floor)
  {
    NextHookIsNear(settings, clock, turn, floor, 0.0);
  }

  /**
   * A contract with floor `f` survives to the next hook in every undisturbed turn if and only if its frame's age,
   * plus the tightest floor or the sleep of a whole stride, does not exceed `f`.
   */
  lemma ContractKeptIff(settings: Settings, clock: Clock, floor: real, computedAt: real, f: real)
    requires settings.Valid() && floor > 0.0
    ensures (forall turn :: Undisturbed(settings, clock.sim, turn, floor, 0.0) ==> Next(settings, clock, turn).wall - computedAt <= f)
       <==> clock.wall + LongestSleep(settings, floor) - computedAt <= f
  {
    SleepsUnderFloor(settings, clock, floor);
    forall turn | Undisturbed(settings, clock.sim, turn, floor, 0.0)
      ensures Next(settings, clock, turn).wall <= clock.wall + LongestSleep(settings, floor)
    {
      SleepIsShort(settings, clock, turn, floor);
    }
  }

  /** Agreements on two services, with floors `f` and `tight`. */
  function TwoAgreements(f: real, tight: real): seq<Agreement> {
    [Agreement(true, Some("s"), Some(f)), Agreement(true, Some("t"), Some(tight))]
  }

  function Recomputed(frames: Frames, service: string, floor: real, now: real): Frames {
    if service in frames && frames[service] + floor > now then frames else frames[service := now]
  }

  function Hook(frames: Frames, f: real, tight: real, now: real): Frames {
    Recomputed(Recomputed(frames, "s", f, now), "t", tight, now)
  }

  lemma HookRefreshes(frames: Frames, f: real, tight: real, now: real)
    requires f > 0.0 && tight > 0.0
    ensures Refreshed(frames, Hook(frames, f, tight, now), TwoAgreements(f, tight), {"s", "t"}, now)
  {
    var a, b := Agreement(true, Some("s"), Some(f)), Agreement(true, Some("t"), Some(tight));
    var once := Recomputed(frames, "s", f, now);
    RefreshStep(frames, frames, once, [], a, {"s", "t"}, now);
    RefreshStep(frames, once, Recomputed(once, "t", tight, now), [] + [a], b, {"s", "t"}, now);
    assert [] + [a] + [b] == TwoAgreements(f, tight);
  }

  /** Neither the floor nor the stride cap shortens a sleep of `gap` seconds. */
  predicate Sleeps(settings: Settings, gap: real, tight: real) {
    0.0 < gap <= tight && gap * settings.rate <= settings.maxStride
  }

  lemma LongestSleeps(settings: Settings, gap: real, tight: real)
    requires settings.Valid() && tight > 0.0 && 0.0 < gap <= LongestSleep(settings, tight)
    ensures Sleeps(settings, gap, tight)
  {
    assert settings.rate * (settings.maxStride / settings.rate) == settings.maxStride;
    Scales(settings.rate, settings.maxStride / settings.rate, gap);
  }

  /** A turn with a due moment `gap` seconds ahead. */
  function DueTurn(settings: Settings, sim: real, gap: real, tight: real): Turn {
    Turn(true, Some(sim + gap * settings.rate), Some(tight), gap, false, 0.0, true, 0.0)
  }

  lemma DueTurnIsCalm(settings: Settings, clock: Clock, gap: real, tight: real)
    requires settings.Valid() && Sleeps(settings, gap, tight)
    ensures Undisturbed(settings, clock.sim, DueTurn(settings, clock.sim, gap, tight), tight, 0.0)
    ensures Advances(settings, clock.sim, DueTurn(settings, clock.sim, gap, tight))
    ensures Next(settings, clock, DueTurn(settings, clock.sim, gap, tight))
         == Clock(clock.sim + gap * settings.rate, clock.wall + gap)
  {
    var step := gap * settings.rate;
    assert step > 0.0;
    Undivided(gap, settings.rate);
    Scales(settings.rate, tight, gap);
    var turn := DueTurn(settings, clock.sim, gap, tight);
    assert step <= tight * settings.rate;
    DueStride(settings, clock.sim, turn, tight * settings.rate, step);
    assert Requested(settings, clock.sim, turn) == gap;
  }

  /** The stride to a due moment `step` ahead that neither the floor nor the cap shortens. */
  lemma DueStride(settings: Settings, sim: real, turn: Turn, floorStep: real, step: real)
    requires turn.running && turn.due == Some(sim + step) && turn.floor.Some? && floorStep == turn.floor.value * settings.rate
    requires 0.0 < step <= settings.maxStride && step <= floorStep && turn.floor.value > 0.0
    ensures Stride(settings, sim, turn) == Some(step)
  {
  }

  /** The turns of the example, the frames before each, and the clock, after `n` of them. */
  datatype Trail = Trail(turns: seq<Turn>, frames: seq<Frames>, clock: Clock)

  function TrailOf(settings: Settings, start: Clock, gap: real, f: real, tight: real, n: nat): (trail: Trail)
    ensures |trail.turns| == n && |trail.frames| == n + 1
  {
    if n == 0 then Trail([], [map["s" := start.wall, "t" := start.wall]], start)
    else
      var before := TrailOf(settings, start, gap, f, tight, n - 1);
      var clock := Clock(before.clock.sim + gap * settings.rate, before.clock.wall + gap);
      Trail(before.turns + [DueTurn(settings, before.clock.sim, gap, tight)],
            before.frames + [Hook(before.frames[n - 1], f, tight, clock.wall)], clock)
  }

  function Repeat<T>(x: T, n: nat): (r: seq<T>)
    ensures |r| == n && forall i :: 0 <= i < n ==> r[i] == x
  {
    seq(n, i requires 0 <= i < n => x)
  }

  function HistoryOf(trail: Trail, f: real, tight: real): History {
    var n := |trail.turns|;
    History(trail.turns, Repeat(TwoAgreements(f, tight), n), Repeat(TwoAgreements(f, tight), n), Repeat({"s", "t"}, n), trail.frames)
  }

  /** How long `n` gaps take. */
  function Gaps(n: nat, gap: real): real {
    if n == 0 then 0.0 else Gaps(n - 1, gap) + gap
  }

  lemma {:induction false} GapsMultiply(n: nat, gap: real)
    ensures Gaps(n, gap) == n as real * gap
  {
    if n > 0 {
      GapsMultiply(n - 1, gap);
      Distributes(gap, (n - 1) as real, 1.0);
    }
  }

  lemma TrailUnfolds(settings: Settings, start: Clock, gap: real, f: real, tight: real, n: nat, before: Trail, trail: Trail)
    requires n > 0 && before == TrailOf(settings, start, gap, f, tight, n - 1) && trail == TrailOf(settings, start, gap, f, tight, n)
    ensures trail.clock == Clock(before.clock.sim + gap * settings.rate, before.clock.wall + gap)
    ensures trail.turns == before.turns + [DueTurn(settings, before.clock.sim, gap, tight)]
    ensures trail.turns[..n - 1] == before.turns
    ensures trail.frames == before.frames + [Hook(before.frames[n - 1], f, tight, trail.clock.wall)]
  {
  }

  lemma {:induction false} TrailWall(settings: Settings, start: Clock, gap: real, f: real, tight: real, n: nat)
    ensures TrailOf(settings, start, gap, f, tight, n).clock.wall == start.wall + Gaps(n, gap)
  {
    if n > 0 {
      TrailWall(settings, start, gap, f, tight, n - 1);
      TrailUnfolds(settings, start, gap, f, tight, n, TrailOf(settings, start, gap, f, tight, n - 1),
                   TrailOf(settings, start, gap, f, tight, n));
    }
  }

  lemma {:induction false} TrailAfter(settings: Settings, start: Clock, gap: real, f: real, tight: real, n: nat, trail: Trail)
    requires settings.Valid() && Sleeps(settings, gap, tight)
    requires trail == TrailOf(settings, start, gap, f, tight, n)
    ensures After(settings, start, trail.turns) == trail.clock
  {
    if n > 0 {
      var before := TrailOf(settings, start, gap, f, tight, n - 1);
      TrailAfter(settings, start, gap, f, tight, n - 1, before);
      TrailUnfolds(settings, start, gap, f, tight, n, before, trail);
      OneMoreDueTurn(settings, start, gap, tight, before.turns, before.clock);
    }
  }

  lemma TrailClock(settings: Settings, start: Clock, gap: real, f: real, tight: real, n: nat)
    requires settings.Valid() && Sleeps(settings, gap, tight)
    ensures After(settings, start, TrailOf(settings, start, gap, f, tight, n).turns) == TrailOf(settings, start, gap, f, tight, n).clock
    ensures TrailOf(settings, start, gap, f, tight, n).clock.wall == start.wall + Gaps(n, gap)
  {
    TrailAfter(settings, start, gap, f, tight, n, TrailOf(settings, start, gap, f, tight, n));
    TrailWall(settings, start, gap, f, tight, n);
  }

  lemma OneMoreDueTurn(settings: Settings, start: Clock, gap: real, tight: real, turns: seq<Turn>, clock: Clock)
    requires settings.Valid() && Sleeps(settings, gap, tight)
    requires After(settings, start, turns) == clock
    ensures After(settings, start, turns + [DueTurn(settings, clock.sim, gap, tight)])
         == Clock(clock.sim + gap * settings.rate, clock.wall + gap)
  {
    var turn := DueTurn(settings, clock.sim, gap, tight);
    assert (turns + [turn])[..|turns|] == turns;
    DueTurnIsCalm(settings, clock, gap, tight);
  }

  /** The frame of "s" is not recomputed while its age stays below `f`. */
  lemma {:induction false} FrameStays(settings: Settings, start: Clock, gap: real, f: real, tight: real, n: nat)
    requires settings.Valid() && Sleeps(settings, gap, tight)
    requires Gaps(n, gap) < f
    ensures var frames := TrailOf(settings, start, gap, f, tight, n).frames;
            "s" in frames[n] && frames[n]["s"] == start.wall
  {
    if n > 0 {
      FrameStays(settings, start, gap, f, tight, n - 1);
      TrailClock(settings, start, gap, f, tight, n);
      TrailUnfolds(settings, start, gap, f, tight, n, TrailOf(settings, start, gap, f, tight, n - 1),
                   TrailOf(settings, start, gap, f, tight, n));
    }
  }

  /** Whether turn `k` is calm depends on what comes up to it only. */
  lemma CalmTurnOfPrefix(settings: Settings, start: Clock, h: History, g: History, slack: real, k: nat)
    requires settings.Valid() && k < |h.turns| <= |g.turns| && h.turns == g.turns[..|h.turns|]
    requires |h.read| == |h.hooked| == |h.computable| == |h.turns| && |h.frames| == |h.turns| + 1
    requires |g.read| == |g.hooked| == |g.computable| == |g.turns| && |g.frames| == |g.turns| + 1
    requires h.read[k] == g.read[k] && h.hooked[k] == g.hooked[k] && h.computable[k] == g.computable[k]
    requires h.frames[k] == g.frames[k] && h.frames[k + 1] == g.frames[k + 1]
    requires CalmTurn(settings, start, h, slack, k)
    ensures CalmTurn(settings, start, g, slack, k)
  {
    assert g.turns[..k] == h.turns[..k];
  }

  /** A due turn at the end of a history. */
  lemma LastTurnIsCalm(settings: Settings, start: Clock, gap: real, f: real, tight: real, h: History, k: nat, clock: Clock)
    requires settings.Valid() && Sleeps(settings, gap, tight) && tight <= f
    requires |h.read| == |h.hooked| == |h.computable| == |h.turns| == k + 1 && |h.frames| == k + 2
    requires After(settings, start, h.turns[..k]) == clock && h.turns[k] == DueTurn(settings, clock.sim, gap, tight)
    requires h.read[k] == h.hooked[k] == TwoAgreements(f, tight) && h.computable[k] == {"s", "t"}
    requires h.frames[k + 1] == Hook(h.frames[k], f, tight, clock.wall + gap)
    ensures CalmTurn(settings, start, h, 0.0, k)
  {
    DueTurnIsCalm(settings, clock, gap, tight);
    HookRefreshes(h.frames[k], f, tight, clock.wall + gap);
    TightestOfTwo(f, tight);
  }

  lemma OneMoreIsCalm(settings: Settings, start: Clock, gap: real, f: real, tight: real, n: nat, before: Trail, trail: Trail, k: nat)
    requires settings.Valid() && Sleeps(settings, gap, tight) && tight <= f && k < n
    requires |before.turns| == n - 1 && |before.frames| == n && |trail.turns| == n
    requires After(settings, start, before.turns) == before.clock
    requires trail.turns == before.turns + [DueTurn(settings, before.clock.sim, gap, tight)]
    requires trail.frames == before.frames + [Hook(before.frames[n - 1], f, tight, before.clock.wall + gap)]
    requires k < n - 1 ==> CalmTurn(settings, start, HistoryOf(before, f, tight), 0.0, k)
    ensures CalmTurn(settings, start, HistoryOf(trail, f, tight), 0.0, k)
  {
    assert trail.turns[..n - 1] == before.turns;
    if k < n - 1 {
      CalmTurnOfPrefix(settings, start, HistoryOf(before, f, tight), HistoryOf(trail, f, tight), 0.0, k);
    } else {
      LastTurnIsCalm(settings, start, gap, f, tight, HistoryOf(trail, f, tight), k, before.clock);
    }
  }

  lemma TrailGrows(settings: Settings, start: Clock, gap: real, f: real, tight: real, n: nat, k: nat, before: Trail, trail: Trail)
    requires settings.Valid() && Sleeps(settings, gap, tight) && tight <= f && k < n
    requires before == TrailOf(settings, start, gap, f, tight, n - 1) && trail == TrailOf(settings, start, gap, f, tight, n)
    requires k < n - 1 ==> CalmTurn(settings, start, HistoryOf(before, f, tight), 0.0, k)
    ensures CalmTurn(settings, start, HistoryOf(trail, f, tight), 0.0, k)
  {
    TrailUnfolds(settings, start, gap, f, tight, n, before, trail);
    TrailAfter(settings, start, gap, f, tight, n - 1, before);
    OneMoreIsCalm(settings, start, gap, f, tight, n, before, trail, k);
  }

  lemma {:induction false} TrailIsCalm(settings: Settings, start: Clock, gap: real, f: real, tight: real, n: nat, k: nat, trail: Trail)
    requires settings.Valid() && Sleeps(settings, gap, tight) && tight <= f && k < n
    requires trail == TrailOf(settings, start, gap, f, tight, n)
    ensures CalmTurn(settings, start, HistoryOf(trail, f, tight), 0.0, k)
  {
    var before := TrailOf(settings, start, gap, f, tight, n - 1);
    if k < n - 1 {
      TrailIsCalm(settings, start, gap, f, tight, n - 1, k, before);
    }
    TrailGrows(settings, start, gap, f, tight, n, k, before, trail);
  }

  lemma TightestOfTwo(f: real, tight: real)
    requires 0.0 < tight <= f
    ensures IsTightest(TwoAgreements(f, tight), Some(tight))
  {
    var a, b := TwoAgreements(f, tight)[0], TwoAgreements(f, tight)[1];
    assert HasFloor(a) && HasFloor(b) && b in TwoAgreements(f, tight);
  }

  /** An example run: `n` due moments `gap` apart, then one `last` seconds ahead. */
  function ExampleTurns(settings: Settings, start: Clock, gap: real, f: real, tight: real, n: nat, last: real): seq<Turn> {
    var trail := TrailOf(settings, start, gap, f, tight, n);
    trail.turns + [DueTurn(settings, trail.clock.sim, last, tight)]
  }

  /** Just before hook `k` the frame of service `s` is older than `age`. */
  ghost predicate OlderBeforeHook(settings: Settings, start: Clock, h: History, k: nat, s: string, age: real)
    requires k < |h.turns| < |h.frames|
  {
    var clock := After(settings, start, h.turns[..k]);
    && Advances(settings, clock.sim, h.turns[k]) && s in h.frames[k]
    && Next(settings, clock, h.turns[k]).wall - h.frames[k][s] > age
  }

  lemma LastHookIsLate(settings: Settings, start: Clock, gap: real, f: real, tight: real, n: nat, last: real, h: History, eps: real)
    requires settings.Valid() && Sleeps(settings, gap, tight) && tight <= f
    requires Sleeps(settings, last, tight) && f - eps < Gaps(n, gap) < f
    requires var trail := TrailOf(settings, start, gap, f, tight, n);
             && h.turns == ExampleTurns(settings, start, gap, f, tight, n, last) && |h.frames| == n + 2 && h.frames[..n + 1] == trail.frames
    ensures OlderBeforeHook(settings, start, h, n, "s", f + last - eps)
  {
    var trail := TrailOf(settings, start, gap, f, tight, n);
    assert h.turns[..n] == trail.turns && h.frames[n] == trail.frames[n] by {
      assert h.frames[..n + 1][n] == h.frames[n];
    }
    TrailClock(settings, start, gap, f, tight, n);
    FrameStays(settings, start, gap, f, tight, n);
    DueTurnIsCalm(settings, trail.clock, last, tight);
  }

  /** How many steps, no longer than `tight`, make up `span`. */
  lemma StepsFor(span: real, tight: real) returns (n: nat, gap: real)
    requires span > 0.0 && tight > 0.0
    ensures n > 0 && 0.0 < gap <= tight && Gaps(n, gap) == span
  {
    var q := span / tight;
    assert q * tight == span && q > 0.0;
    n := q.Floor + 1;
    gap := span / n as real;
    assert n as real * gap == span;
    assert n as real > q;
    StepFits(n as real, gap, q, tight);
    GapsMultiply(n, gap);
  }

  lemma StepFits(n: real, gap: real, q: real, tight: real)
    requires n > q > 0.0 && tight > 0.0 && n * gap == q * tight
    ensures 0.0 < gap <= tight
  {
    if gap > tight {
      Exceeds(n, gap, q, tight);
      assert false;
    }
    if gap <= 0.0 {
      NotPositive(n, gap);
      NotPositive(q, -tight);
      assert false;
    }
  }

  lemma Exceeds(n: real, gap: real, q: real, tight: real)
    requires n > q > 0.0 && gap > tight > 0.0
    ensures n * gap > q * tight
  {
    assert n * gap > n * tight > q * tight;
  }

  lemma NotPositive(n: real, x: real)
    requires n > 0.0 && x <= 0.0
    ensures n * x <= 0.0 && (x < 0.0 ==> n * x < 0.0)
  {
  }

  /** The example run as a whole, with the hook of its last turn. */
  function ExampleHistory(settings: Settings, start: Clock, gap: real, f: real, tight: real, n: nat, last: real): History {
    var trail := TrailOf(settings, start, gap, f, tight, n);
    HistoryOf(Trail(ExampleTurns(settings, start, gap, f, tight, n, last),
                    trail.frames + [Hook(trail.frames[n], f, tight, trail.clock.wall + last)], trail.clock), f, tight)
  }

  lemma ExampleIsCalm(settings: Settings, start: Clock, gap: real, f: real, tight: real, n: nat, last: real)
    requires settings.Valid() && Sleeps(settings, gap, tight) && Sleeps(settings, last, tight) && tight <= f
    ensures CalmRun(settings, start, ExampleHistory(settings, start, gap, f, tight, n, last), 0.0)
  {
    var trail, h := TrailOf(settings, start, gap, f, tight, n), ExampleHistory(settings, start, gap, f, tight, n, last);
    assert h.turns[..n] == trail.turns;
    forall k | 0 <= k < |h.turns| ensures CalmTurn(settings, start, h, 0.0, k) {
      if k < n {
        TrailIsCalm(settings, start, gap, f, tight, n, k, trail);
        CalmTurnOfPrefix(settings, start, HistoryOf(trail, f, tight), h, 0.0, k);
      } else {
        TrailClock(settings, start, gap, f, tight, n);
        LastTurnIsCalm(settings, start, last, f, tight, h, n, trail.clock);
      }
    }
  }

  /** An undisturbed run from fresh frames, under the two agreements, whose frame under floor `f` gets that old. */
  ghost predicate AlmostReaches(settings: Settings, start: Clock, f: real, tight: real, eps: real, h: History, k: nat)
    requires settings.Valid()
  {
    && k < |h.turns| < |h.frames| && CalmRun(settings, start, h, 0.0)
    && Fresh(h.frames[0], TwoAgreements(f, tight), {"s", "t"}, start.wall)
    && (forall j :: 0 <= j < |h.turns| ==> h.read[j] == h.hooked[j] == TwoAgreements(f, tight))
    && OlderBeforeHook(settings, start, h, k, "s", f + LongestSleep(settings, tight) - eps)
  }

  /**
   * No better bound holds: for every floor `f`, every tightest floor up to it, every stride cap and every margin,
   * some undisturbed run starting with fresh frames has a frame under floor `f` older than the bound less the margin.
   */
  lemma BoundIsBestPossible(settings: Settings, start: Clock, f: real, tight: real, eps: real)
    requires settings.Valid() && 0.0 < tight <= f && eps > 0.0
    ensures exists h, k :: AlmostReaches(settings, start, f, tight, eps, h, k)
  {
    var margin := if eps < f then eps / 2.0 else f / 2.0;
    Divides(settings.rate, settings.maxStride, settings.maxStride);
    var last := LongestSleep(settings, tight);
    var n, gap := StepsFor(f - margin, last);
    LongestSleeps(settings, gap, tight);
    LongestSleeps(settings, last, tight);
    var h := ExampleHistory(settings, start, gap, f, tight, n, last);
    ExampleIsCalm(settings, start, gap, f, tight, n, last);
    var trail := TrailOf(settings, start, gap, f, tight, n);
    assert h.frames[..n + 1] == trail.frames;
    LastHookIsLate(settings, start, gap, f, tight, n, last, h, eps);
    FirstFrames(settings, start, gap, f, tight, n);
    assert h.frames[0] == trail.frames[0];
    assert AlmostReaches(settings, start, f, tight, eps, h, n);
  }

  lemma {:induction false} FirstFrames(settings: Settings, start: Clock, gap: real, f: real, tight: real, n: nat)
    ensures TrailOf(settings, start, gap, f, tight, n).frames[0] == map["s" := start.wall, "t" := start.wall]
  {
    if n > 0 {
      FirstFrames(settings, start, gap, f, tight, n - 1);
    }
  }
}
