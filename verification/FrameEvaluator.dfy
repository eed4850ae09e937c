/** Cached data frames and the recomputation that follows every advance of a lazy world. */
module FrameEvaluator {
  import opened Options

  /** `floor` is `terms.read.minFreshnessSec` when the terms parse and carry a finite number. */
  datatype Agreement = Agreement(active: bool, service: Option<string>, floor: Option<real>)

  /** When each service's cached frame was computed (wall seconds). */
  type Frames = map<string, real>

  /** The agreement carries a usable freshness floor; others never gate anything. */
  predicate HasFloor(a: Agreement) {
    a.active && a.floor.Some? && a.floor.value > 0.0
  }

  predicate Demands(a: Agreement, service: string) {
    HasFloor(a) && a.service == Some(service)
  }

  /** The tightest floor of the active data-read agreements. */
  method TightestFloor(agreements: seq<Agreement>) returns (floor: Option<real>)
    ensures IsTightest(agreements, floor)
  {
    floor := None;
    for i := 0 to |agreements|
      invariant IsTightest(agreements[..i], floor)
    {
      assert agreements[..i + 1] == agreements[..i] + [agreements[i]];
      if HasFloor(agreements[i]) {
        var value := agreements[i].floor.value;
        floor := Some(if floor.None? || value < floor.value then value else floor.value);
      }
    }
    assert agreements[..|agreements|] == agreements;
  }

  ghost predicate IsTightest(agreements: seq<Agreement>, floor: Option<real>) {
    match floor
    case None => forall a :: a in agreements ==> !HasFloor(a)
    case Some(f) =>
      && (exists a :: a in agreements && HasFloor(a) && a.floor.value == f)
      && forall a :: a in agreements && HasFloor(a) ==> f <= a.floor.value
  }

  lemma TightestIsUnique(agreements: seq<Agreement>, f: Option<real>, g: Option<real>)
    requires IsTightest(agreements, f) && IsTightest(agreements, g)
    ensures f == g
  {
    if f.Some? {
      var a :| a in agreements && HasFloor(a) && a.floor.value == f.value;
    }
    if g.Some? {
      var a :| a in agreements && HasFloor(a) && a.floor.value == g.value;
    }
  }

  /** No frame yet, or one that the agreement's floor no longer covers at `now`. */
  predicate Violates(frames: Frames, service: string, a: Agreement, now: real) {
    Demands(a, service) && (service in frames ==> frames[service] + a.floor.value <= now)
  }

  /** After the hook: a computable service that some agreement found stale is fresh, all else is untouched. */
  ghost predicate Refreshed(frames: Frames, after: Frames, agreements: seq<Agreement>, computable: set<string>, now: real) {
    forall s ::
      if s in computable && exists a :: a in agreements && Violates(frames, s, a, now)
      then s in after && after[s] == now
      else (s in after <==> s in frames) && (s in frames ==> after[s] == frames[s])
  }

  class FrameCache {
    var frames: Frames

    constructor ()
      ensures frames == map[]
    {
      frames := map[];
    }

    /** `computable` holds the services that exist and have a stored computation. */
    method RecomputeStale(agreements: seq<Agreement>, computable: set<string>, now: real)
      modifies this
      ensures Refreshed(old(frames), frames, agreements, computable, now)
    {
      for i := 0 to |agreements|
        invariant Refreshed(old(frames), frames, agreements[..i], computable, now)
      {
        assert agreements[..i + 1] == agreements[..i] + [agreements[i]];
        var a := agreements[i];
        ghost var before := frames;
        if a.active && a.service.Some? && a.floor.Some? && a.floor.value > 0.0 && a.service.value in computable {
          var service := a.service.value;
          if !(service in frames && frames[service] + a.floor.value > now) {
            frames := frames[service := now];
          }
        }
        RefreshStep(old(frames), before, frames, agreements[..i], a, computable, now);
      }
      assert agreements[..|agreements|] == agreements;
    }
  }

  lemma RefreshStep(frames: Frames, before: Frames, after: Frames, agreements: seq<Agreement>, a: Agreement,
                    computable: set<string>, now: real)
    requires Refreshed(frames, before, agreements, computable, now)
    requires after == if a.service.Some? && a.service.value in computable && Violates(before, a.service.value, a, now)
                      then before[a.service.value := now] else before
    ensures Refreshed(frames, after, agreements + [a], computable, now)
  {
    forall s
      ensures if s in computable && exists b :: b in agreements + [a] && Violates(frames, s, b, now)
              then s in after && after[s] == now
              else (s in after <==> s in frames) && (s in frames ==> after[s] == frames[s])
    {
      if s in computable && exists b :: b in agreements && Violates(frames, s, b, now) {
        var b :| b in agreements && Violates(frames, s, b, now);
        assert b in agreements + [a];
      } else if s in computable && Violates(frames, s, a, now) {
        assert a in agreements + [a];
      }
    }
  }

  /** Every agreement's frame is inside its contract at `now`. */
  ghost predicate Fresh(frames: Frames, agreements: seq<Agreement>, computable: set<string>, now: real) {
    forall a, s :: a in agreements && Demands(a, s) && s in computable ==> s in frames && now < frames[s] + a.floor.value
  }

  /** The hook restores every contract, and never makes a frame older. */
  lemma HookRestoresContracts(frames: Frames, after: Frames, agreements: seq<Agreement>, computable: set<string>, now: real)
    requires Refreshed(frames, after, agreements, computable, now)
    ensures Fresh(after, agreements, computable, now)
    ensures forall s :: s in frames ==> s in after && (after[s] == frames[s] || after[s] == now)
  {
    forall a, s | a in agreements && Demands(a, s) && s in computable
      ensures s in after && now < after[s] + a.floor.value
    {
      if Violates(frames, s, a, now) {
        assert after[s] == now;
      } else {
        assert s in frames && now < frames[s] + a.floor.value;
      }
    }
  }

  /** An agreement that is not in force, or has no positive floor, gates nothing: neither the schedule nor any frame. */
  lemma OthersNeverGate(frames: Frames, after: Frames, agreements: seq<Agreement>, a: Agreement, computable: set<string>,
                        now: real, floor: Option<real>)
    requires !a.active || a.floor.None? || a.floor.value <= 0.0
    ensures IsTightest(agreements + [a], floor) <==> IsTightest(agreements, floor)
    ensures Refreshed(frames, after, agreements + [a], computable, now) <==> Refreshed(frames, after, agreements, computable, now)
  {
    var all := agreements + [a];
    assert a in all && forall b :: b in all <==> b in agreements || b == a;
    forall s ensures IsStale(frames, s, all, now) <==> IsStale(frames, s, agreements, now) {
      if b :| b in agreements && Violates(frames, s, b, now) {
        assert b in all;
      }
    }
  }

  ghost predicate IsStale(frames: Frames, service: string, agreements: seq<Agreement>, now: real) {
    exists b :: b in agreements && Violates(frames, service, b, now)
  }

  /** One in force with a positive floor does: the schedule's floor is no looser, and its stale frame is recomputed. */
  lemma FloorsGate(frames: Frames, after: Frames, agreements: seq<Agreement>, a: Agreement, service: string,
                   computable: set<string>, now: real, floor: Option<real>)
    requires a in agreements && a.active && a.floor.Some? && a.floor.value > 0.0
    ensures IsTightest(agreements, floor) ==> floor.Some? && 0.0 < floor.value <= a.floor.value
    ensures (&& Refreshed(frames, after, agreements, computable, now) && service in computable && a.service == Some(service)
             && (service in frames ==> a.floor.value <= now - frames[service])) ==> service in after && after[service] == now
  {
    if service in computable && a.service == Some(service) && (service in frames ==> a.floor.value <= now - frames[service]) {
      assert Violates(frames, service, a, now);
    }
  }
}
