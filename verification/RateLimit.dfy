/** The in-process fixed-window limiter: one 60-second window per (route class, client). */
module RateLimit {
  import opened Options

  datatype RouteClass = Auth | Session | Write | Global

  datatype Limits = Limits(authPerMin: int, sessionPerMin: int, writePerMin: int, globalPerMin: int)

  /** The composite map key `class|client`. */
  datatype Bucket = Bucket(routeClass: RouteClass, client: string)

  datatype Window = Window(start: int, count: int)

  datatype Verdict = Allowed | Blocked(retryAfterSec: int)

  /** One request: its bucket and the clock reading (ms) when it was checked. */
  datatype Call = Call(bucket: Bucket, now: int)

  const WINDOW_MS := 60_000
  const MAX_WINDOWS := 10_000

  function LimitFor(limits: Limits, routeClass: RouteClass): int {
    match routeClass
    case Auth => limits.authPerMin
    case Session => limits.sessionPerMin
    case Write => limits.writePerMin
    case Global => limits.globalPerMin
  }

  predicate Expired(w: Window, now: int) {
    now - w.start >= WINDOW_MS
  }

  function Lookup(windows: map<Bucket, Window>, b: Bucket): Option<Window> {
    if b in windows then Some(windows[b]) else None
  }

  /** The window after one more request at `now`. */
  function Refresh(w: Option<Window>, now: int): Window {
    if w.None? || Expired(w.value, now) then Window(now, 1) else Window(w.value.start, w.value.count + 1)
  }

  function Rule(w: Window, limit: int, now: int): Verdict {
    if w.count <= limit then Allowed
    else
      var seconds := (w.start + WINDOW_MS - now + 999) / 1000; // rounded up
      Blocked(if seconds < 1 then 1 else seconds)
  }

  function Unexpired(windows: map<Bucket, Window>, now: int): map<Bucket, Window> {
    map b | b in windows && !Expired(windows[b], now) :: windows[b]
  }

  /** The table after one check, garbage collection included. */
  function Step(windows: map<Bucket, Window>, call: Call): map<Bucket, Window> {
    var counted := windows[call.bucket := Refresh(Lookup(windows, call.bucket), call.now)];
    if |counted| > MAX_WINDOWS then Unexpired(counted, call.now) else counted
  }

  class RateLimiter {
    const limits: Limits
    var windows: map<Bucket, Window>

    constructor (limits: Limits)
      ensures this.limits == limits && windows == map[]
    {
      this.limits := limits;
      windows := map[];
    }

    method Check(client: string, routeClass: RouteClass, now: int) returns (v: Verdict)
      modifies this
      ensures windows == Step(old(windows), Call(Bucket(routeClass, client), now))
      ensures v == Rule(Refresh(Lookup(old(windows), Bucket(routeClass, client)), now),
                        LimitFor(limits, routeClass), now)
    {
      var limit := LimitFor(limits, routeClass);
      var mapKey := Bucket(routeClass, client);
      if mapKey !in windows || now - windows[mapKey].start >= WINDOW_MS {
        windows := windows[mapKey := Window(now, 0)];
      }
      var window := windows[mapKey].(count := windows[mapKey].count + 1);
      windows := windows[mapKey := window];
      if |windows| > MAX_WINDOWS {
        Sweep(now);
      }
      if window.count <= limit {
        v := Allowed;
      } else {
        var seconds := (window.start + WINDOW_MS - now + 999) / 1000;
        v := Blocked(if seconds < 1 then 1 else seconds);
      }
    }

    method Sweep(now: int)
      modifies this
      ensures windows == Unexpired(old(windows), now)
    {
      var todo := windows.Keys;
      while todo != {}
        invariant todo <= windows.Keys <= old(windows).Keys
        invariant forall b :: b in windows ==> windows[b] == old(windows)[b]
        invariant forall b :: b in old(windows) && b !in todo ==>
                                (b in windows <==> !Expired(old(windows)[b], now))
        decreases todo
      {
        var b :| b in todo;
        if now - windows[b].start >= WINDOW_MS {
          windows := windows - {b};
        }
        todo := todo - {b};
      }
    }
  }

  // ---- Whole runs ---------------------------------------------------------

  ghost function TableAfter(calls: seq<Call>): map<Bucket, Window> {
    if calls == [] then map[] else Step(TableAfter(calls[..|calls| - 1]), calls[|calls| - 1])
  }

  /** The verdict of the last call of a run, as `Check` gives it on the table reached so far. */
  ghost function LastVerdict(limits: Limits, calls: seq<Call>): Verdict
    requires calls != []
  {
    var call := calls[|calls| - 1];
    Rule(Refresh(Lookup(TableAfter(calls[..|calls| - 1]), call.bucket), call.now),
         LimitFor(limits, call.bucket.routeClass), call.now)
  }

  ghost predicate ClockNeverGoesBack(calls: seq<Call>) {
    forall i, j :: 0 <= i < j < |calls| ==> calls[i].now <= calls[j].now
  }

  // ---- The reference: one client alone, nothing ever deleted ----------------

  ghost function TimesOf(calls: seq<Call>, b: Bucket): seq<int> {
    if calls == [] then []
    else
      var before := TimesOf(calls[..|calls| - 1], b);
      if calls[|calls| - 1].bucket == b then before + [calls[|calls| - 1].now] else before
  }

  ghost function WindowAfter(times: seq<int>): Option<Window> {
    if times == [] then None
    else Some(Refresh(WindowAfter(times[..|times| - 1]), times[|times| - 1]))
  }

  ghost function ReferenceVerdict(limit: int, times: seq<int>): Verdict
    requires times != []
  {
    Rule(WindowAfter(times).value, limit, times[|times| - 1])
  }

  /** The table holds the reference window of every bucket, save those already expired. */
  ghost predicate TableAgrees(windows: map<Bucket, Window>, calls: seq<Call>) {
    forall b ::
      var reference := WindowAfter(TimesOf(calls, b));
      if b in windows then reference == Some(windows[b])
      else reference.Some? ==> calls != [] && Expired(reference.value, calls[|calls| - 1].now)
  }

  lemma {:induction false} TableAlwaysAgrees(calls: seq<Call>)
    requires ClockNeverGoesBack(calls)
    ensures TableAgrees(TableAfter(calls), calls)
  {
    if calls != [] {
      var before, call := calls[..|calls| - 1], calls[|calls| - 1];
      TableAlwaysAgrees(before);
      var windows := TableAfter(before);
      forall b
        ensures var reference := WindowAfter(TimesOf(calls, b));
                if b in TableAfter(calls) then reference == Some(TableAfter(calls)[b])
                else reference.Some? ==> Expired(reference.value, call.now)
      {
        if b == call.bucket {
          assert TimesOf(calls, b)[..|TimesOf(calls, b)| - 1] == TimesOf(before, b);
        }
      }
    }
  }

  /**
   * Sweeping is invisible and clients never share a window: with a clock that never goes back,
   * every verdict is the one the client would get alone from a limiter that deletes nothing.
   */
  lemma {:induction false} LimiterMatchesReference(limits: Limits, calls: seq<Call>)
    requires ClockNeverGoesBack(calls) && calls != []
    ensures var b := calls[|calls| - 1].bucket;
            TimesOf(calls, b) != [] &&
            LastVerdict(limits, calls) == ReferenceVerdict(LimitFor(limits, b.routeClass), TimesOf(calls, b))
  {
    var before, call := calls[..|calls| - 1], calls[|calls| - 1];
    TableAlwaysAgrees(before);
    assert TimesOf(calls, call.bucket)[..|TimesOf(calls, call.bucket)| - 1] == TimesOf(before, call.bucket);
  }

  // ---- How many requests one minute can admit -------------------------------

  ghost predicate Ascending(times: seq<int>) {
    forall i, j :: 0 <= i < j < |times| ==> times[i] <= times[j]
  }

  /** Requests of one client admitted at a time in [from, from + WINDOW_MS). */
  ghost function Admitted(limit: int, times: seq<int>, from: int): nat {
    if times == [] then 0
    else
      var now := times[|times| - 1];
      Admitted(limit, times[..|times| - 1], from)
      + (if from <= now < from + WINDOW_MS && ReferenceVerdict(limit, times) == Allowed then 1 else 0)
  }

  function Min(a: int, b: int): int {
    if a < b then a else b
  }

  lemma {:induction false} AdmittedByWindow(limit: int, times: seq<int>, from: int)
    requires limit >= 1 && Ascending(times) && times != []
    ensures var w := WindowAfter(times).value;
            var n := Admitted(limit, times, from);
            && 1 <= w.count && w.start <= times[|times| - 1]
            && n <= 2 * limit - 1
            && (times[|times| - 1] < from ==> n == 0)
            && (w.start < from ==> n <= Min(w.count, limit) - 1)
            && (from <= w.start < from + WINDOW_MS ==> n <= limit - 1 + Min(w.count, limit))
  {
    var before := times[..|times| - 1];
    if before != [] {
      AdmittedByWindow(limit, before, from);
    }
  }

  /** Any 60-second interval admits at most 2 * limit - 1 requests of one bucket. */
  lemma {:induction false} AtMostTwiceTheLimit(limits: Limits, calls: seq<Call>, b: Bucket, from: int)
    requires ClockNeverGoesBack(calls) && LimitFor(limits, b.routeClass) >= 1
    ensures AdmittedInRun(limits, calls, b, from) <= 2 * LimitFor(limits, b.routeClass) - 1
  {
    RunAdmitsAsReference(limits, calls, b, from);
    TimesAscend(calls, b);
    if TimesOf(calls, b) != [] {
      AdmittedByWindow(LimitFor(limits, b.routeClass), TimesOf(calls, b), from);
    }
  }

  ghost function AdmittedInRun(limits: Limits, calls: seq<Call>, b: Bucket, from: int): nat {
    if calls == [] then 0
    else
      var call := calls[|calls| - 1];
      AdmittedInRun(limits, calls[..|calls| - 1], b, from)
      + (if call.bucket == b && from <= call.now < from + WINDOW_MS && LastVerdict(limits, calls) == Allowed
         then 1 else 0)
  }

  lemma {:induction false} RunAdmitsAsReference(limits: Limits, calls: seq<Call>, b: Bucket, from: int)
    requires ClockNeverGoesBack(calls)
    ensures AdmittedInRun(limits, calls, b, from)
         == Admitted(LimitFor(limits, b.routeClass), TimesOf(calls, b), from)
  {
    if calls != [] {
      var before := calls[..|calls| - 1];
      RunAdmitsAsReference(limits, before, b, from);
      if calls[|calls| - 1].bucket == b {
        LimiterMatchesReference(limits, calls);
        assert TimesOf(calls, b)[..|TimesOf(calls, b)| - 1] == TimesOf(before, b);
      }
    }
  }

  lemma {:induction false} TimesAscend(calls: seq<Call>, b: Bucket)
    requires ClockNeverGoesBack(calls)
    ensures Ascending(TimesOf(calls, b))
    ensures forall i :: 0 <= i < |TimesOf(calls, b)| ==> calls != [] && TimesOf(calls, b)[i] <= calls[|calls| - 1].now
  {
    if calls != [] {
      var before, now := calls[..|calls| - 1], calls[|calls| - 1].now;
      TimesAscend(before, b);
      var times := TimesOf(before, b);
      forall i | 0 <= i < |times|
        ensures times[i] <= now
      {
        assert times[i] <= before[|before| - 1].now == calls[|calls| - 2].now;
      }
    }
  }

  /** `n` further requests at one moment. */
  function Burst(times: seq<int>, now: int, n: nat): seq<int> {
    if n == 0 then times else Burst(times, now, n - 1) + [now]
  }

  lemma OneMoreRequest(limit: int, times: seq<int>, now: int, from: int)
    ensures WindowAfter(times + [now]) == Some(Refresh(WindowAfter(times), now))
    ensures Admitted(limit, times + [now], from)
         == Admitted(limit, times, from)
            + (if from <= now < from + WINDOW_MS && Refresh(WindowAfter(times), now).count <= limit then 1 else 0)
  {
    assert (times + [now])[..|times|] == times;
  }

  /** A burst within the running window is admitted while the count allows it. */
  lemma {:induction false} BurstIsAdmitted(limit: int, times: seq<int>, now: int, n: nat, from: int, w: Window)
    requires WindowAfter(times) == Some(w) && !Expired(w, now)
    requires w.count + n <= limit && from <= now < from + WINDOW_MS
    ensures WindowAfter(Burst(times, now, n)) == Some(Window(w.start, w.count + n))
    ensures Admitted(limit, Burst(times, now, n), from) == Admitted(limit, times, from) + n
  {
    if n > 0 {
      BurstIsAdmitted(limit, times, now, n - 1, from, w);
      OneMoreRequest(limit, Burst(times, now, n - 1), now, from);
    }
  }

  lemma {:induction false} BurstAscends(times: seq<int>, now: int, n: nat)
    requires Ascending(times) && (times != [] ==> times[|times| - 1] <= now)
    ensures Ascending(Burst(times, now, n))
    ensures Burst(times, now, n) != [] && n > 0 ==> Burst(times, now, n)[|Burst(times, now, n)| - 1] == now
  {
    if n > 0 {
      BurstAscends(times, now, n - 1);
    }
  }

  /** One request opens a window, the rest of the limit comes at its end, and as much again in the next one. */
  function WorstTimes(limit: nat): seq<int>
    requires limit >= 1
  {
    Burst(Burst([0], 59_999, limit - 1), 60_000, limit)
  }

  lemma FirstWindow(limit: nat, first: seq<int>)
    requires limit >= 1 && first == Burst([0], 59_999, limit - 1)
    ensures WindowAfter(first) == Some(Window(0, limit)) && Admitted(limit, first, 1) == limit - 1
  {
    OneMoreRequest(limit, [], 0, 1);
    assert [] + [0] == [0];
    BurstIsAdmitted(limit, [0], 59_999, limit - 1, 1, Window(0, 1));
  }

  lemma SecondWindow(limit: nat, first: seq<int>, n: nat)
    requires limit == n + 1
    requires WindowAfter(first) == Some(Window(0, limit)) && Admitted(limit, first, 1) == n
    ensures Admitted(limit, Burst(first + [60_000], 60_000, n), 1) == 2 * limit - 1
  {
    OneMoreRequest(limit, first, 60_000, 1);
    BurstIsAdmitted(limit, first + [60_000], 60_000, n, 1, Window(60_000, 1));
  }

  lemma WorstTimesAreAdmitted(limit: nat)
    requires limit >= 1
    ensures Ascending(WorstTimes(limit)) && Admitted(limit, WorstTimes(limit), 1) == 2 * limit - 1
  {
    var n := limit - 1;
    var first := Burst([0], 59_999, n);
    FirstWindow(limit, first);
    SecondWindow(limit, first, n);
    BurstStarts(first, 60_000, n);
    WorstTimesAscend(limit, first);
  }

  lemma WorstTimesAscend(limit: nat, first: seq<int>)
    requires limit >= 1 && first == Burst([0], 59_999, limit - 1)
    ensures Ascending(Burst(first, 60_000, limit))
  {
    BurstAscends([0], 59_999, limit - 1);
    BurstAscends(first, 60_000, limit);
  }

  lemma {:induction false} BurstStarts(times: seq<int>, now: int, n: nat)
    ensures Burst(times, now, n + 1) == Burst(times + [now], now, n)
  {
    if n > 0 {
      BurstStarts(times, now, n - 1);
    }
  }

  function CallsAt(b: Bucket, times: seq<int>): (calls: seq<Call>)
    ensures |calls| == |times| && forall i :: 0 <= i < |times| ==> calls[i] == Call(b, times[i])
  {
    seq(|times|, i requires 0 <= i < |times| => Call(b, times[i]))
  }

  lemma {:induction false} TimesOfCallsAt(b: Bucket, times: seq<int>, n: nat)
    requires n <= |times|
    ensures TimesOf(CallsAt(b, times)[..n], b) == times[..n]
  {
    if n > 0 {
      TimesOfCallsAt(b, times, n - 1);
      assert CallsAt(b, times)[..n][..n - 1] == CallsAt(b, times)[..n - 1];
      assert times[..n] == times[..n - 1] + [times[n - 1]];
    }
  }

  /** The bound is reached, for every limit: some run admits that many requests of one client within a minute. */
  lemma BoundIsReached(limits: Limits, b: Bucket)
    requires LimitFor(limits, b.routeClass) >= 1
    ensures exists calls :: ClockNeverGoesBack(calls)
              && AdmittedInRun(limits, calls, b, 1) == 2 * LimitFor(limits, b.routeClass) - 1
  {
    var limit := LimitFor(limits, b.routeClass);
    var times := WorstTimes(limit);
    var calls := CallsAt(b, times);
    WorstTimesAreAdmitted(limit);
    TimesOfCallsAt(b, times, |times|);
    assert calls[..|times|] == calls && times[..|times|] == times;
    assert ClockNeverGoesBack(calls);
    RunAdmitsAsReference(limits, calls, b, 1);
  }

  /**
   * What `retryAfterSec` promises: a blocked client that stays quiet is refused up to the end of
   * its window, admitted from then on, and the promised second is the first whole one after that.
   */
  lemma RetryAfterIsHonest(limit: int, times: seq<int>, next: int)
    requires limit >= 1 && times != [] && Ascending(times)
    requires ReferenceVerdict(limit, times).Blocked?
    requires next >= times[|times| - 1]
    ensures var now := times[|times| - 1];
            var wait := ReferenceVerdict(limit, times).retryAfterSec;
            var reopens := WindowAfter(times).value.start + WINDOW_MS;
            && (ReferenceVerdict(limit, times + [next]) == Allowed <==> next >= reopens)
            && now + (wait - 1) * 1000 < reopens <= now + wait * 1000
  {
    assert (times + [next])[..|times|] == times;
    AdmittedByWindow(limit, times, 0);
    WindowIsCurrent(times);
  }

  lemma WindowIsCurrent(times: seq<int>)
    requires times != []
    ensures !Expired(WindowAfter(times).value, times[|times| - 1])
  {
  }

  // ---- Every verdict, from the requests alone ---------------------------------------------

  /** All requests after the `k`-th come less than a minute after it. */
  ghost predicate WithinAMinute(times: seq<int>, k: nat)
    requires k < |times|
  {
    forall i :: k < i < |times| ==> times[i] < times[k] + 60_000
  }

  /** A window starts with the first request, and with the first one that comes a minute or more after the last start. */
  ghost predicate StartsWindow(times: seq<int>, k: nat)
    requires k < |times|
    decreases k
  {
    k == 0 || exists j :: 0 <= j < k && StartsNext(times, j, k)
  }

  ghost predicate StartsNext(times: seq<int>, j: nat, k: nat)
    requires j < k < |times|
    decreases k, 0
  {
    StartsWindow(times, j) && WithinAMinute(times[..k], j) && times[k] >= times[j] + 60_000
  }

  lemma {:induction false} StartsInPrefix(times: seq<int>, n: nat, k: nat)
    requires k < n <= |times|
    ensures StartsWindow(times[..n], k) <==> StartsWindow(times, k)
    decreases k
  {
    forall j | 0 <= j < k ensures StartsNext(times[..n], j, k) <==> StartsNext(times, j, k) {
      StartsInPrefix(times, n, j);
      assert times[..n][..k] == times[..k];
    }
  }

  /** The current window is that of the last start, and counts the requests since. */
  lemma {:induction false} WindowIsOfTheLastStart(times: seq<int>) returns (k: nat)
    requires times != []
    ensures k < |times| && StartsWindow(times, k) && WithinAMinute(times, k)
    ensures WindowAfter(times) == Some(Window(times[k], |times| - k))
  {
    var n := |times| - 1;
    if n == 0 {
      k := 0;
      assert times[..0] == [];
    } else {
      k := WindowIsOfTheLastStart(times[..n]);
      StartsInPrefix(times, n, k);
      if times[n] >= times[k] + 60_000 {
        assert StartsNext(times, k, n);
        k := n;
      }
    }
  }

  /** What a class admits in a minute. */
  predicate HasLimit(limits: Limits, routeClass: RouteClass, limit: int) {
    && (routeClass == Auth ==> limit == limits.authPerMin)
    && (routeClass == Session ==> limit == limits.sessionPerMin)
    && (routeClass == Write ==> limit == limits.writePerMin)
    && (routeClass == Global ==> limit == limits.globalPerMin)
  }

  /**
   * Every verdict of every run, from the client's own requests of that class: it is allowed exactly when it is among
   * the first `limit` ones of its window; else it is told the whole seconds, rounded up, to the end of that window.
   */
  lemma VerdictIsExact(limits: Limits, calls: seq<Call>, limit: int) returns (times: seq<int>, k: nat)
    requires ClockNeverGoesBack(calls) && calls != [] && HasLimit(limits, calls[|calls| - 1].bucket.routeClass, limit)
    ensures times == TimesOf(calls, calls[|calls| - 1].bucket) && k < |times|
    ensures StartsWindow(times, k) && WithinAMinute(times, k)
    ensures var verdict, now := LastVerdict(limits, calls), calls[|calls| - 1].now;
            && (verdict == Allowed <==> |times| - k <= limit)
            && (verdict.Blocked? ==>
                  now + (verdict.retryAfterSec - 1) * 1000 < times[k] + 60_000 <= now + verdict.retryAfterSec * 1000)
  {
    var call := calls[|calls| - 1];
    LimiterMatchesReference(limits, calls);
    times := TimesOf(calls, call.bucket);
    k := WindowIsOfTheLastStart(times);
    assert times[|times| - 1] == call.now;
    TimesAscend(calls, call.bucket);
  }

  /** Nothing is deleted while the table is small; once it is large, exactly the windows that have run out. */
  lemma SweepsOnlyLargeTables(windows: map<Bucket, Window>, call: Call, b: Bucket)
    requires b in windows && b != call.bucket
    ensures var after := Step(windows, call);
            && call.bucket in after
            && (b in after ==> after[b] == windows[b])
            && (b in after <==> |windows.Keys + {call.bucket}| <= 10_000 || call.now < windows[b].start + 60_000)
  {
    var counted := windows[call.bucket := Refresh(Lookup(windows, call.bucket), call.now)];
    assert counted.Keys == windows.Keys + {call.bucket};
  }
}
