/** Evaluating a declared computation over zones, devices and events into one data frame. */
module Computation {
  import opened Options
  import opened Listings

  /** A value as far as the evaluator tells them apart: finite number, other number, boolean, anything else. */
  datatype Value = Number(n: real) | NonFinite | Flag(b: bool) | Opaque

  type Fields = map<string, Value>

  datatype Zone = Zone(id: string, parameters: Fields)

  datatype Device = Device(id: string, capabilities: seq<string>, state: Fields)

  datatype SimEvent = SimEvent(eventType: string, simTimeSec: real)

  datatype Fn = Avg | Min | Max | Total

  datatype DeviceFn = Count | CountActive | Value(fn: Fn)

  datatype Metric =
    | ZoneMetric(path: string, fn: Fn, field: string)
    | DeviceMetric(capability: string, key: Option<string>, deviceFn: DeviceFn, field: string)
    | EventMetric(eventType: string, windowSec: real, field: string)

  /** `zones` and `devices` are None when the spec takes all of them. */
  datatype Spec = Spec(zones: Option<seq<string>>, devices: Option<seq<string>>, metrics: seq<Metric>)

  /** `written` lists, for the devices the runtime knows about, the state paths written at least once. */
  datatype Inputs = Inputs(zones: seq<Zone>, devices: seq<Device>, events: seq<SimEvent>, simTimeSec: real,
                           written: Option<map<string, seq<string>>>)

  datatype Echo = Echo(field: string, parameter: string, zoneId: string, value: Value)

  datatype Frame = Frame(data: map<string, Option<real>>, eventsWindowed: nat, unwritten: seq<string>, echoes: seq<Echo>)

  datatype Result = Result(frame: Frame, zones: nat, devices: nat)

  /** Registration refuses other specs: value metrics on devices name a state key, fields are distinct. */
  ghost predicate Valid(spec: Spec) {
    && (forall m :: m in spec.metrics && m.DeviceMetric? && m.deviceFn.Value? ==> m.key.Some? && m.deviceFn.fn != Total)
    && (forall i, j :: 0 <= i < j < |spec.metrics| ==> spec.metrics[i].field != spec.metrics[j].field)
  }

  // ---- Aggregates -------------------------------------------------------------------------

  function Sum(values: seq<real>): real {
    if values == [] then 0.0 else Sum(values[..|values| - 1]) + values[|values| - 1]
  }

  function Least(values: seq<real>): real
    requires values != []
  {
    var last := values[|values| - 1];
    if |values| == 1 then last
    else if Least(values[..|values| - 1]) <= last then Least(values[..|values| - 1]) else last
  }

  function Greatest(values: seq<real>): real
    requires values != []
  {
    var last := values[|values| - 1];
    if |values| == 1 then last
    else if Greatest(values[..|values| - 1]) >= last then Greatest(values[..|values| - 1]) else last
  }

  function AggregateNumbers(values: seq<real>, fn: Fn): Option<real> {
    if values == [] then None
    else match fn
      case Avg => Some(Sum(values) / |values| as real)
      case Min => Some(Least(values))
      case Max => Some(Greatest(values))
      case Total => Some(Sum(values))
  }

  lemma {:induction false} ExtremesAreValues(values: seq<real>)
    requires values != []
    ensures Least(values) in values && Greatest(values) in values
    ensures forall v :: v in values ==> Least(values) <= v <= Greatest(values)
  {
    if |values| > 1 {
      ExtremesAreValues(values[..|values| - 1]);
      assert values == values[..|values| - 1] + [values[|values| - 1]];
    }
  }

  lemma {:induction false} SumIsBounded(values: seq<real>, low: real, high: real)
    requires forall v :: v in values ==> low <= v <= high
    ensures |values| as real * low <= Sum(values) <= |values| as real * high
  {
    if values != [] {
      var n := |values| - 1;
      forall v | v in values[..n] ensures low <= v <= high {
        assert v in values;
      }
      SumIsBounded(values[..n], low, high);
      assert values[n] in values;
      OneMore(n, low);
      OneMore(n, high);
    }
  }

  lemma OneMore(n: nat, x: real)
    ensures (n + 1) as real * x == n as real * x + x
  {
    assert (n + 1) as real == n as real + 1.0;
  }

  lemma PositiveProduct(a: real, b: real)
    requires a > 0.0 && b > 0.0
    ensures a * b > 0.0
  {
  }

  lemma Quotient(sum: real, n: real, low: real, high: real)
    requires n > 0.0 && n * low <= sum <= n * high
    ensures low <= sum / n <= high
  {
    var q := sum / n;
    assert q * n == sum;
    if q < low {
      PositiveProduct(n, low - q);
      assert false;
    }
    if q > high {
      PositiveProduct(n, q - high);
      assert false;
    }
  }

  /** The average lies between the extremes, which are values themselves. */
  lemma AverageIsBetween(values: seq<real>)
    requires values != []
    ensures AggregateNumbers(values, Min).value <= AggregateNumbers(values, Avg).value
    ensures AggregateNumbers(values, Avg).value <= AggregateNumbers(values, Max).value
    ensures AggregateNumbers(values, Min).value in values && AggregateNumbers(values, Max).value in values
  {
    ExtremesAreValues(values);
    SumIsBounded(values, Least(values), Greatest(values));
    Quotient(Sum(values), |values| as real, Least(values), Greatest(values));
  }

  // ---- What a metric reads --------------------------------------------------------------------

  function Look(fields: Fields, key: string): Option<Value> {
    if key in fields then Some(fields[key]) else None
  }

  function Numeric(v: Option<Value>): seq<real> {
    if v.Some? && v.value.Number? then [v.value.n] else []
  }

  function SelectedZones(all: seq<Zone>, ids: Option<seq<string>>): seq<Zone> {
    if ids.None? then all
    else if all == [] then []
    else SelectedZones(all[..|all| - 1], ids) + if all[|all| - 1].id in ids.value then [all[|all| - 1]] else []
  }

  function ScopedDevices(all: seq<Device>, ids: Option<seq<string>>): seq<Device> {
    if ids.None? then all
    else if all == [] then []
    else ScopedDevices(all[..|all| - 1], ids) + if all[|all| - 1].id in ids.value then [all[|all| - 1]] else []
  }

  function Matching(devices: seq<Device>, capability: string): seq<Device> {
    if devices == [] then []
    else
      var last := devices[|devices| - 1];
      Matching(devices[..|devices| - 1], capability) + if capability in last.capabilities then [last] else []
  }

  function ZoneValues(zones: seq<Zone>, path: string): seq<real> {
    if zones == [] then []
    else ZoneValues(zones[..|zones| - 1], path) + Numeric(Look(zones[|zones| - 1].parameters, path))
  }

  function DeviceValues(devices: seq<Device>, key: string): seq<real> {
    if devices == [] then []
    else DeviceValues(devices[..|devices| - 1], key) + Numeric(Look(devices[|devices| - 1].state, key))
  }

  function ActiveCount(devices: seq<Device>, key: string): (n: nat)
    ensures n <= |devices|
  {
    if devices == [] then 0
    else ActiveCount(devices[..|devices| - 1], key)
         + if Look(devices[|devices| - 1].state, key) == Some(Flag(true)) then 1 else 0
  }

  function EventCount(events: seq<SimEvent>, eventType: string, cutoff: real): nat {
    if events == [] then 0
    else
      var last := events[|events| - 1];
      EventCount(events[..|events| - 1], eventType, cutoff)
      + if last.eventType == eventType && last.simTimeSec >= cutoff then 1 else 0
  }

  /** The state key of a device metric; counting active devices defaults to `active`. */
  function KeyOf(m: Metric): string
    requires m.DeviceMetric?
  {
    if m.key.Some? then m.key.value else "active"
  }

  function MetricValue(m: Metric, zones: seq<Zone>, devices: seq<Device>, events: seq<SimEvent>, now: real): Option<real> {
    match m
    case ZoneMetric(path, fn, _) => AggregateNumbers(ZoneValues(zones, path), fn)
    case DeviceMetric(capability, _, fn, _) =>
      var matching := Matching(devices, capability);
      if fn.Count? then Some(|matching| as real)
      else if fn.CountActive? then Some(ActiveCount(matching, KeyOf(m)) as real)
      else AggregateNumbers(DeviceValues(matching, KeyOf(m)), fn.fn)
    case EventMetric(eventType, windowSec, _) => Some(EventCount(events, eventType, now - windowSec) as real)
  }

  datatype Status = Unknown | Written | Never

  function StatusOf(written: Option<map<string, seq<string>>>, id: string, key: string): Status {
    if written.None? || id !in written.value then Unknown
    else if key in written.value[id] then Written
    else Never
  }

  function AllNever(devices: seq<Device>, written: Option<map<string, seq<string>>>, key: string): (all: bool)
    ensures all <==> forall d :: d in devices ==> StatusOf(written, d.id, key) == Never
  {
    if devices == [] then true
    else
      assert devices == devices[..|devices| - 1] + [devices[|devices| - 1]];
      AllNever(devices[..|devices| - 1], written, key) && StatusOf(written, devices[|devices| - 1].id, key) == Never
  }

  /** A device value that no device ever wrote: a placeholder, not a measurement. */
  predicate IsPlaceholder(m: Metric, devices: seq<Device>, written: Option<map<string, seq<string>>>) {
    && m.DeviceMetric? && m.deviceFn.Value?
    && AggregateNumbers(DeviceValues(Matching(devices, m.capability), KeyOf(m)), m.deviceFn.fn).Some?
    && AllNever(Matching(devices, m.capability), written, KeyOf(m))
  }

  /** The first selected zone that shows a number or a flag under the same name. */
  function EchoOf(zones: seq<Zone>, field: string, key: string): seq<Echo> {
    if zones == [] then []
    else
      var v := Look(zones[0].parameters, key);
      if v.Some? && !v.value.Opaque? then [Echo(field, key, zones[0].id, v.value)] else EchoOf(zones[1..], field, key)
  }

  function FrameStep(frame: Frame, m: Metric, zones: seq<Zone>, devices: seq<Device>, inputs: Inputs): Frame {
    var value := MetricValue(m, zones, devices, inputs.events, inputs.simTimeSec);
    var flagged := IsPlaceholder(m, devices, inputs.written);
    Frame(frame.data[m.field := value],
          frame.eventsWindowed
          + (if m.EventMetric? then EventCount(inputs.events, m.eventType, inputs.simTimeSec - m.windowSec) else 0),
          frame.unwritten + (if flagged then [m.field] else []),
          frame.echoes + (if flagged then EchoOf(zones, m.field, KeyOf(m)) else []))
  }

  function FrameOf(metrics: seq<Metric>, zones: seq<Zone>, devices: seq<Device>, inputs: Inputs): Frame {
    if metrics == [] then Frame(map[], 0, [], [])
    else FrameStep(FrameOf(metrics[..|metrics| - 1], zones, devices, inputs), metrics[|metrics| - 1], zones, devices, inputs)
  }

  function Evaluated(spec: Spec, inputs: Inputs): Result {
    var zones, devices := SelectedZones(inputs.zones, spec.zones), ScopedDevices(inputs.devices, spec.devices);
    Result(FrameOf(spec.metrics, zones, devices, inputs), |zones|, |devices|)
  }

  // ---- The evaluation loop ----------------------------------------------------------------------

  method FirstEcho(zones: seq<Zone>, field: string, key: string) returns (echo: seq<Echo>)
    ensures echo == EchoOf(zones, field, key)
  {
    for i := 0 to |zones|
      invariant EchoOf(zones, field, key) == EchoOf(zones[i..], field, key)
    {
      var v := Look(zones[i].parameters, key);
      assert zones[i..][1..] == zones[i + 1..];
      if v.Some? && !v.value.Opaque? {
        return [Echo(field, key, zones[i].id, v.value)];
      }
    }
    echo := [];
  }

  method EvaluateMetric(frame: Frame, m: Metric, zones: seq<Zone>, devices: seq<Device>, inputs: Inputs)
    returns (next: Frame)
    requires m.DeviceMetric? && m.deviceFn.Value? ==> m.key.Some?
    ensures next == FrameStep(frame, m, zones, devices, inputs)
  {
    if m.ZoneMetric? {
      return frame.(data := frame.data[m.field := AggregateNumbers(ZoneValues(zones, m.path), m.fn)]);
    }
    if m.EventMetric? {
      var matched := EventCount(inputs.events, m.eventType, inputs.simTimeSec - m.windowSec);
      return frame.(data := frame.data[m.field := Some(matched as real)], eventsWindowed := frame.eventsWindowed + matched);
    }
    var matching := Matching(devices, m.capability);
    if m.deviceFn.Count? {
      return frame.(data := frame.data[m.field := Some(|matching| as real)]);
    }
    if m.deviceFn.CountActive? {
      var key := if m.key.Some? then m.key.value else "active";
      return frame.(data := frame.data[m.field := Some(ActiveCount(matching, key) as real)]);
    }
    var key := m.key.value;
    var value := AggregateNumbers(DeviceValues(matching, key), m.deviceFn.fn);
    next := frame.(data := frame.data[m.field := value]);
    if value.Some? && inputs.written.Some? && |matching| > 0 {
      if AllNever(matching, inputs.written, key) {
        var echo := FirstEcho(zones, m.field, key);
        next := next.(unwritten := next.unwritten + [m.field], echoes := next.echoes + echo);
      }
    }
    NoValuesWithoutDevices(matching, key);
  }

  lemma NoValuesWithoutDevices(devices: seq<Device>, key: string)
    ensures DeviceValues(devices, key) != [] ==> |devices| > 0
    ensures forall written: Option<map<string, seq<string>>> :: |devices| > 0 && written.None? ==> !AllNever(devices, written, key)
  {
    if |devices| > 0 {
      assert devices[0] in devices;
    }
  }

  method Evaluate(spec: Spec, inputs: Inputs) returns (result: Result)
    requires Valid(spec)
    ensures result == Evaluated(spec, inputs)
  {
    var zones, devices := SelectedZones(inputs.zones, spec.zones), ScopedDevices(inputs.devices, spec.devices);
    var frame := Frame(map[], 0, [], []);
    for i := 0 to |spec.metrics|
      invariant frame == FrameOf(spec.metrics[..i], zones, devices, inputs)
    {
      assert spec.metrics[..i + 1][..i] == spec.metrics[..i];
      frame := EvaluateMetric(frame, spec.metrics[i], zones, devices, inputs);
    }
    assert spec.metrics[..|spec.metrics|] == spec.metrics;
    result := Result(frame, |zones|, |devices|);
  }

  // ---- The frame, metric by metric -----------------------------------------------------------------

  ghost predicate DistinctFields(metrics: seq<Metric>) {
    forall i, j :: 0 <= i < j < |metrics| ==> metrics[i].field != metrics[j].field
  }

  predicate HoldsMetric(data: map<string, Option<real>>, m: Metric, zones: seq<Zone>, devices: seq<Device>, inputs: Inputs) {
    m.field in data && data[m.field] == MetricValue(m, zones, devices, inputs.events, inputs.simTimeSec)
  }

  lemma EarlierFieldsDiffer(metrics: seq<Metric>, n: nat)
    requires DistinctFields(metrics) && n < |metrics|
    ensures forall m :: m in metrics[..n] ==> m.field != metrics[n].field
  {
    forall m | m in metrics[..n] ensures m.field != metrics[n].field {
      var i :| 0 <= i < n && metrics[i] == m;
    }
  }

  lemma StepHolds(data: map<string, Option<real>>, m: Metric, other: Metric, zones: seq<Zone>, devices: seq<Device>, inputs: Inputs)
    requires HoldsMetric(data, other, zones, devices, inputs) && other.field != m.field
    ensures HoldsMetric(data[m.field := MetricValue(m, zones, devices, inputs.events, inputs.simTimeSec)],
                        other, zones, devices, inputs)
  {
  }

  /** Every declared field is present in the frame, with its own metric's value. */
  lemma {:induction false} FrameHoldsEveryMetric(metrics: seq<Metric>, zones: seq<Zone>, devices: seq<Device>, inputs: Inputs)
    requires DistinctFields(metrics)
    ensures var data := FrameOf(metrics, zones, devices, inputs).data;
            forall m :: m in metrics ==> HoldsMetric(data, m, zones, devices, inputs)
  {
    if metrics != [] {
      var n := |metrics| - 1;
      FrameHoldsEveryMetric(metrics[..n], zones, devices, inputs);
      EarlierFieldsDiffer(metrics, n);
      var data := FrameOf(metrics[..n], zones, devices, inputs).data;
      forall m | m in metrics ensures HoldsMetric(FrameOf(metrics, zones, devices, inputs).data, m, zones, devices, inputs) {
        if m in metrics[..n] {
          StepHolds(data, metrics[n], m, zones, devices, inputs);
        } else {
          assert m == metrics[n];
        }
      }
    }
  }

  /** The frame has no other field. */
  lemma {:induction false} FieldsAreDeclared(metrics: seq<Metric>, zones: seq<Zone>, devices: seq<Device>, inputs: Inputs)
    ensures forall f :: f in FrameOf(metrics, zones, devices, inputs).data ==> exists m :: m in metrics && m.field == f
  {
    if metrics != [] {
      FieldsAreDeclared(metrics[..|metrics| - 1], zones, devices, inputs);
      assert metrics == metrics[..|metrics| - 1] + [metrics[|metrics| - 1]];
    }
  }

  /** A field is flagged exactly when its metric is a placeholder. */
  lemma {:induction false} FlaggedIffPlaceholder(metrics: seq<Metric>, zones: seq<Zone>, devices: seq<Device>, inputs: Inputs, m: Metric)
    requires DistinctFields(metrics) && m in metrics
    ensures m.field in FrameOf(metrics, zones, devices, inputs).unwritten <==> IsPlaceholder(m, devices, inputs.written)
  {
    var n := |metrics| - 1;
    assert metrics == metrics[..n] + [metrics[n]];
    FlaggedAreDeclared(metrics[..n], zones, devices, inputs);
    EarlierFieldsDiffer(metrics, n);
    if m in metrics[..n] {
      FlaggedIffPlaceholder(metrics[..n], zones, devices, inputs, m);
    }
  }

  lemma {:induction false} FlaggedAreDeclared(metrics: seq<Metric>, zones: seq<Zone>, devices: seq<Device>, inputs: Inputs)
    ensures forall f :: f in FrameOf(metrics, zones, devices, inputs).unwritten ==> exists m :: m in metrics && m.field == f
  {
    if metrics != [] {
      FlaggedAreDeclared(metrics[..|metrics| - 1], zones, devices, inputs);
      assert metrics == metrics[..|metrics| - 1] + [metrics[|metrics| - 1]];
    }
  }

  lemma {:induction false} MatchingMembers(devices: seq<Device>, capability: string)
    ensures forall d :: d in Matching(devices, capability) <==> d in devices && capability in d.capabilities
  {
    if devices != [] {
      MatchingMembers(devices[..|devices| - 1], capability);
      assert devices == devices[..|devices| - 1] + [devices[|devices| - 1]];
    }
  }

  /** Once one matching device in scope has written the path, or is unknown to the runtime, the metric is not flagged. */
  lemma WrittenIsNeverFlagged(spec: Spec, inputs: Inputs, m: Metric, d: Device)
    requires Valid(spec) && m in spec.metrics && m.DeviceMetric?
    requires d in ScopedDevices(inputs.devices, spec.devices) && m.capability in d.capabilities
    requires StatusOf(inputs.written, d.id, KeyOf(m)) != Never
    ensures m.field !in Evaluated(spec, inputs).frame.unwritten
  {
    var zones, devices := SelectedZones(inputs.zones, spec.zones), ScopedDevices(inputs.devices, spec.devices);
    FlaggedIffPlaceholder(spec.metrics, zones, devices, inputs, m);
    MatchingMembers(devices, m.capability);
  }

  /** Fields over the same devices and key are consistent with each other. */
  lemma DeviceFieldsAreConsistent(spec: Spec, inputs: Inputs, capability: string, key: Option<string>,
                                  least: string, average: string, greatest: string)
    requires Valid(spec)
    requires DeviceMetric(capability, key, Value(Min), least) in spec.metrics
    requires DeviceMetric(capability, key, Value(Avg), average) in spec.metrics
    requires DeviceMetric(capability, key, Value(Max), greatest) in spec.metrics
    ensures var data := Evaluated(spec, inputs).frame.data;
            && least in data && average in data && greatest in data
            && (data[least].None? <==> data[average].None?) && (data[average].None? <==> data[greatest].None?)
            && (data[average].Some? ==> data[least].value <= data[average].value <= data[greatest].value)
  {
    var zones, devices := SelectedZones(inputs.zones, spec.zones), ScopedDevices(inputs.devices, spec.devices);
    FrameHoldsEveryMetric(spec.metrics, zones, devices, inputs);
    var m := DeviceMetric(capability, key, Value(Min), least);
    var values := DeviceValues(Matching(devices, capability), KeyOf(m));
    if values != [] {
      AverageIsBetween(values);
    }
  }

  lemma CountsAreConsistent(spec: Spec, inputs: Inputs, capability: string, key: Option<string>, active: string,
                            keyless: Option<string>, all: string)
    requires Valid(spec)
    requires DeviceMetric(capability, key, CountActive, active) in spec.metrics
    requires DeviceMetric(capability, keyless, Count, all) in spec.metrics
    ensures var data := Evaluated(spec, inputs).frame.data;
            && active in data && all in data && data[active].Some? && data[all].Some?
            && 0.0 <= data[active].value <= data[all].value <= Evaluated(spec, inputs).devices as real
  {
    var zones, devices := SelectedZones(inputs.zones, spec.zones), ScopedDevices(inputs.devices, spec.devices);
    FrameHoldsEveryMetric(spec.metrics, zones, devices, inputs);
    MatchingIsFewer(devices, capability);
  }

  lemma {:induction false} MatchingIsFewer(devices: seq<Device>, capability: string)
    ensures |Matching(devices, capability)| <= |devices|
  {
    if devices != [] {
      MatchingIsFewer(devices[..|devices| - 1], capability);
    }
  }

  // ---- The frame depends on nothing undeclared ----------------------------------------------------------

  /** The state keys and zone parameters that some metric names. */
  ghost predicate IsKey(metrics: seq<Metric>, key: string) {
    exists m :: m in metrics && ((m.DeviceMetric? && KeyOf(m) == key) || (m.ZoneMetric? && m.path == key))
  }

  ghost predicate IsCapability(metrics: seq<Metric>, capability: string) {
    exists m :: m in metrics && m.DeviceMetric? && m.capability == capability
  }

  ghost predicate SameZone(metrics: seq<Metric>, a: Zone, b: Zone) {
    a.id == b.id && forall key :: IsKey(metrics, key) ==> Look(a.parameters, key) == Look(b.parameters, key)
  }

  ghost predicate SameDevice(metrics: seq<Metric>, a: Device, b: Device) {
    && a.id == b.id
    && (forall key :: IsKey(metrics, key) ==> Look(a.state, key) == Look(b.state, key))
    && (forall c :: IsCapability(metrics, c) ==> (c in a.capabilities <==> c in b.capabilities))
  }

  ghost predicate SameZones(metrics: seq<Metric>, a: seq<Zone>, b: seq<Zone>) {
    |a| == |b| && forall i :: 0 <= i < |a| ==> SameZone(metrics, a[i], b[i])
  }

  ghost predicate SameDevices(metrics: seq<Metric>, a: seq<Device>, b: seq<Device>) {
    |a| == |b| && forall i :: 0 <= i < |a| ==> SameDevice(metrics, a[i], b[i])
  }

  /** What the runtime knows about the declared keys of the given devices. */
  ghost predicate SameStatus(metrics: seq<Metric>, devices: seq<Device>, a: Inputs, b: Inputs) {
    forall d, key :: d in devices && IsKey(metrics, key) ==>
      StatusOf(a.written, d.id, key) == StatusOf(b.written, d.id, key)
  }

  ghost predicate IsEventType(metrics: seq<Metric>, eventType: string) {
    exists m :: m in metrics && m.EventMetric? && m.eventType == eventType
  }

  /** The events of the declared types, in order. */
  ghost function EventsOfInterest(metrics: seq<Metric>, events: seq<SimEvent>): seq<SimEvent> {
    if events == [] then []
    else
      var last := events[|events| - 1];
      EventsOfInterest(metrics, events[..|events| - 1])
      + if IsEventType(metrics, last.eventType) then [last] else []
  }

  /** The inputs agree on everything that the spec declares, and may differ in everything else. */
  ghost predicate AgreeOnDeclared(spec: Spec, a: Inputs, b: Inputs) {
    && a.simTimeSec == b.simTimeSec
    && SameZones(spec.metrics, SelectedZones(a.zones, spec.zones), SelectedZones(b.zones, spec.zones))
    && SameDevices(spec.metrics, ScopedDevices(a.devices, spec.devices), ScopedDevices(b.devices, spec.devices))
    && SameStatus(spec.metrics, ScopedDevices(a.devices, spec.devices), a, b)
    && EventsOfInterest(spec.metrics, a.events) == EventsOfInterest(spec.metrics, b.events)
  }

  lemma {:induction false} SameZoneValues(metrics: seq<Metric>, a: seq<Zone>, b: seq<Zone>, key: string)
    requires SameZones(metrics, a, b) && IsKey(metrics, key)
    ensures ZoneValues(a, key) == ZoneValues(b, key)
  {
    if a != [] {
      SameZoneValues(metrics, a[..|a| - 1], b[..|b| - 1], key);
    }
  }

  lemma {:induction false} SameEcho(metrics: seq<Metric>, a: seq<Zone>, b: seq<Zone>, field: string, key: string)
    requires SameZones(metrics, a, b) && IsKey(metrics, key)
    ensures EchoOf(a, field, key) == EchoOf(b, field, key)
  {
    if a != [] {
      assert SameZone(metrics, a[0], b[0]);
      SameEcho(metrics, a[1..], b[1..], field, key);
    }
  }

  lemma {:induction false} SameMatching(metrics: seq<Metric>, a: seq<Device>, b: seq<Device>, capability: string)
    requires SameDevices(metrics, a, b) && IsCapability(metrics, capability)
    ensures SameDevices(metrics, Matching(a, capability), Matching(b, capability))
  {
    if a != [] {
      assert SameDevice(metrics, a[|a| - 1], b[|b| - 1]);
      SameMatching(metrics, a[..|a| - 1], b[..|b| - 1], capability);
    }
  }

  lemma {:induction false} SameDeviceReadings(metrics: seq<Metric>, a: seq<Device>, b: seq<Device>, key: string)
    requires SameDevices(metrics, a, b) && IsKey(metrics, key)
    ensures DeviceValues(a, key) == DeviceValues(b, key)
    ensures ActiveCount(a, key) == ActiveCount(b, key)
  {
    if a != [] {
      assert SameDevice(metrics, a[|a| - 1], b[|b| - 1]);
      SameDeviceReadings(metrics, a[..|a| - 1], b[..|b| - 1], key);
    }
  }

  lemma {:induction false} CountsOfInterest(metrics: seq<Metric>, events: seq<SimEvent>, eventType: string, cutoff: real)
    requires IsEventType(metrics, eventType)
    ensures EventCount(EventsOfInterest(metrics, events), eventType, cutoff) == EventCount(events, eventType, cutoff)
  {
    if events != [] {
      var front, last := events[..|events| - 1], events[|events| - 1];
      CountsOfInterest(metrics, front, eventType, cutoff);
      var kept := EventsOfInterest(metrics, front);
      if IsEventType(metrics, last.eventType) {
        assert (kept + [last])[..|kept|] == kept;
      } else {
        assert last.eventType != eventType;
        assert EventsOfInterest(metrics, events) == kept;
      }
    }
  }

  lemma SameNever(metrics: seq<Metric>, a: seq<Device>, b: seq<Device>, x: Inputs, y: Inputs, key: string)
    requires SameDevices(metrics, a, b) && SameStatus(metrics, a, x, y) && IsKey(metrics, key)
    ensures AllNever(a, x.written, key) <==> AllNever(b, y.written, key)
  {
    forall i | 0 <= i < |a| ensures StatusOf(x.written, a[i].id, key) == StatusOf(y.written, b[i].id, key) {
      assert a[i] in a && SameDevice(metrics, a[i], b[i]);
    }
    if AllNever(a, x.written, key) {
      forall d | d in b ensures StatusOf(y.written, d.id, key) == Never {
        var i :| 0 <= i < |b| && b[i] == d;
        assert a[i] in a;
      }
    }
    if AllNever(b, y.written, key) {
      forall d | d in a ensures StatusOf(x.written, d.id, key) == Never {
        var i :| 0 <= i < |a| && a[i] == d;
        assert b[i] in b;
      }
    }
  }

  lemma SameValue(metrics: seq<Metric>, m: Metric, a: seq<Zone>, b: seq<Zone>, c: seq<Device>, d: seq<Device>,
                  x: Inputs, y: Inputs)
    requires m in metrics && SameZones(metrics, a, b) && SameDevices(metrics, c, d) && x.simTimeSec == y.simTimeSec
    requires EventsOfInterest(metrics, x.events) == EventsOfInterest(metrics, y.events)
    ensures MetricValue(m, a, c, x.events, x.simTimeSec) == MetricValue(m, b, d, y.events, y.simTimeSec)
    ensures m.EventMetric? ==> EventCount(x.events, m.eventType, x.simTimeSec - m.windowSec)
                               == EventCount(y.events, m.eventType, y.simTimeSec - m.windowSec)
  {
    match m
    case ZoneMetric(path, _, _) =>
      assert IsKey(metrics, path);
      SameZoneValues(metrics, a, b, path);
    case DeviceMetric(capability, _, _, _) =>
      assert IsKey(metrics, KeyOf(m)) && IsCapability(metrics, capability);
      SameMatching(metrics, c, d, capability);
      SameDeviceReadings(metrics, Matching(c, capability), Matching(d, capability), KeyOf(m));
    case EventMetric(eventType, windowSec, _) =>
      assert IsEventType(metrics, eventType);
      CountsOfInterest(metrics, x.events, eventType, x.simTimeSec - windowSec);
      CountsOfInterest(metrics, y.events, eventType, y.simTimeSec - windowSec);
  }

  lemma SamePlaceholder(metrics: seq<Metric>, m: Metric, c: seq<Device>, d: seq<Device>, x: Inputs, y: Inputs)
    requires m in metrics && m.DeviceMetric? && SameDevices(metrics, c, d) && SameStatus(metrics, c, x, y)
    ensures IsPlaceholder(m, c, x.written) <==> IsPlaceholder(m, d, y.written)
  {
    assert IsKey(metrics, KeyOf(m)) && IsCapability(metrics, m.capability);
    SameMatching(metrics, c, d, m.capability);
    SameDeviceReadings(metrics, Matching(c, m.capability), Matching(d, m.capability), KeyOf(m));
    MatchingMembers(c, m.capability);
    SameNever(metrics, Matching(c, m.capability), Matching(d, m.capability), x, y, KeyOf(m));
  }

  /** One metric adds the same to the same frame. */
  lemma SameStep(metrics: seq<Metric>, frame: Frame, m: Metric, a: seq<Zone>, b: seq<Zone>, c: seq<Device>, d: seq<Device>,
                 x: Inputs, y: Inputs)
    requires m in metrics && SameZones(metrics, a, b) && SameDevices(metrics, c, d)
    requires SameStatus(metrics, c, x, y) && x.simTimeSec == y.simTimeSec
    requires EventsOfInterest(metrics, x.events) == EventsOfInterest(metrics, y.events)
    ensures FrameStep(frame, m, a, c, x) == FrameStep(frame, m, b, d, y)
  {
    SameValue(metrics, m, a, b, c, d, x, y);
    if m.DeviceMetric? {
      SamePlaceholder(metrics, m, c, d, x, y);
      assert IsKey(metrics, KeyOf(m));
      SameEcho(metrics, a, b, m.field, KeyOf(m));
    }
  }

  lemma {:induction false} SameFrames(metrics: seq<Metric>, n: nat, a: seq<Zone>, b: seq<Zone>, c: seq<Device>, d: seq<Device>,
                                      x: Inputs, y: Inputs)
    requires n <= |metrics| && SameZones(metrics, a, b) && SameDevices(metrics, c, d)
    requires SameStatus(metrics, c, x, y) && x.simTimeSec == y.simTimeSec
    requires EventsOfInterest(metrics, x.events) == EventsOfInterest(metrics, y.events)
    ensures FrameOf(metrics[..n], a, c, x) == FrameOf(metrics[..n], b, d, y)
  {
    if n > 0 {
      SameFrames(metrics, n - 1, a, b, c, d, x, y);
      assert metrics[..n][..n - 1] == metrics[..n - 1];
      SameStep(metrics, FrameOf(metrics[..n - 1], a, c, x), metrics[n - 1], a, b, c, d, x, y);
    }
  }

  /**
   * The privacy boundary: the whole result is a function of what the spec declares. Undeclared devices,
   * unselected zones, other state keys, parameters, capabilities and event types cannot change it.
   */
  lemma UndeclaredInputsCannotShow(spec: Spec, a: Inputs, b: Inputs)
    requires AgreeOnDeclared(spec, a, b)
    ensures Evaluated(spec, a) == Evaluated(spec, b)
  {
    SameFrames(spec.metrics, |spec.metrics|, SelectedZones(a.zones, spec.zones), SelectedZones(b.zones, spec.zones),
               ScopedDevices(a.devices, spec.devices), ScopedDevices(b.devices, spec.devices), a, b);
    assert spec.metrics[..|spec.metrics|] == spec.metrics;
  }

  lemma ScopeGrows(devices: seq<Device>, front: seq<Device>, ids: seq<string>)
    requires devices != [] && front == devices[..|devices| - 1]
    ensures var last := devices[|devices| - 1];
            ScopedDevices(devices, Some(ids)) == ScopedDevices(front, Some(ids)) + if last.id in ids then [last] else []
  {
  }

  /** In particular, replacing the devices outside the declared scope changes nothing. */
  lemma {:induction false} ScopeIgnoresOthers(devices: seq<Device>, ids: seq<string>, i: nat, other: Device)
    requires i < |devices| && devices[i].id !in ids && other.id !in ids
    ensures ScopedDevices(devices[i := other], Some(ids)) == ScopedDevices(devices, Some(ids))
  {
    var n, changed := |devices| - 1, devices[i := other];
    ScopeGrows(devices, devices[..n], ids);
    ScopeGrows(changed, changed[..n], ids);
    if i < n {
      ScopeIgnoresOthers(devices[..n], ids, i, other);
      assert changed[..n] == devices[..n][i := other] && changed[n] == devices[n];
    } else {
      assert changed[..n] == devices[..n];
    }
  }

  lemma OtherDevicesCannotShow(spec: Spec, a: Inputs, i: nat, other: Device)
    requires spec.devices.Some? && i < |a.devices|
    requires a.devices[i].id !in spec.devices.value && other.id !in spec.devices.value
    ensures Evaluated(spec, a.(devices := a.devices[i := other])) == Evaluated(spec, a)
  {
    var b := a.(devices := a.devices[i := other]);
    ScopeIgnoresOthers(a.devices, spec.devices.value, i, other);
    UndeclaredInputsCannotShow(spec, b, a);
  }

  lemma SelectionGrows(zones: seq<Zone>, front: seq<Zone>, ids: seq<string>)
    requires zones != [] && front == zones[..|zones| - 1]
    ensures var last := zones[|zones| - 1];
            SelectedZones(zones, Some(ids)) == SelectedZones(front, Some(ids)) + if last.id in ids then [last] else []
  {
  }

  /** Nor does replacing a zone outside the selection. */
  lemma {:induction false} SelectionIgnoresOthers(zones: seq<Zone>, ids: seq<string>, i: nat, other: Zone)
    requires i < |zones| && zones[i].id !in ids && other.id !in ids
    ensures SelectedZones(zones[i := other], Some(ids)) == SelectedZones(zones, Some(ids))
  {
    var n, changed := |zones| - 1, zones[i := other];
    SelectionGrows(zones, zones[..n], ids);
    SelectionGrows(changed, changed[..n], ids);
    if i < n {
      SelectionIgnoresOthers(zones[..n], ids, i, other);
      assert changed[..n] == zones[..n][i := other] && changed[n] == zones[n];
    } else {
      assert changed[..n] == zones[..n];
    }
  }

  lemma OtherZonesCannotShow(spec: Spec, a: Inputs, i: nat, other: Zone)
    requires spec.zones.Some? && i < |a.zones|
    requires a.zones[i].id !in spec.zones.value && other.id !in spec.zones.value
    ensures Evaluated(spec, a.(zones := a.zones[i := other])) == Evaluated(spec, a)
  {
    var b := a.(zones := a.zones[i := other]);
    SelectionIgnoresOthers(a.zones, spec.zones.value, i, other);
    UndeclaredInputsCannotShow(spec, b, a);
  }

  // ---- What every field holds ----------------------------------------------------------------------------

  predicate IsDeclared(ids: Option<seq<string>>, id: string) {
    ids.None? || id in ids.value
  }

  function DeclaredZone(ids: Option<seq<string>>): Zone -> bool {
    (z: Zone) => IsDeclared(ids, z.id)
  }

  function DeclaredDevice(ids: Option<seq<string>>): Device -> bool {
    (d: Device) => IsDeclared(ids, d.id)
  }

  function Capable(capability: string): Device -> bool {
    (d: Device) => capability in d.capabilities
  }

  lemma {:induction false} AllKept<T>(all: seq<T>, keep: T -> bool)
    requires forall x :: keep(x)
    ensures Kept(all, keep) == all
  {
    if all != [] {
      AllKept(all[..|all| - 1], keep);
    }
  }

  lemma {:induction false} SelectedZonesAreKept(all: seq<Zone>, ids: Option<seq<string>>)
    ensures SelectedZones(all, ids) == Kept(all, DeclaredZone(ids))
  {
    if ids.None? {
      AllKept(all, DeclaredZone(ids));
    } else if all != [] {
      SelectedZonesAreKept(all[..|all| - 1], ids);
    }
  }

  lemma {:induction false} ScopedDevicesAreKept(all: seq<Device>, ids: Option<seq<string>>)
    ensures ScopedDevices(all, ids) == Kept(all, DeclaredDevice(ids))
  {
    if ids.None? {
      AllKept(all, DeclaredDevice(ids));
    } else if all != [] {
      ScopedDevicesAreKept(all[..|all| - 1], ids);
    }
  }

  lemma {:induction false} MatchingAreKept(all: seq<Device>, capability: string)
    ensures Matching(all, capability) == Kept(all, Capable(capability))
  {
    if all != [] {
      MatchingAreKept(all[..|all| - 1], capability);
    }
  }

  function NumberZone(path: string): Zone -> bool {
    (z: Zone) => path in z.parameters && z.parameters[path].Number?
  }

  function NumberDevice(key: string): Device -> bool {
    (d: Device) => key in d.state && d.state[key].Number?
  }

  /** `values` are the numbers that the zones show under `path`, zone by zone. */
  ghost predicate ReadFromZones(zones: seq<Zone>, path: string, values: seq<real>) {
    var shown := Kept(zones, NumberZone(path));
    && |shown| == |values|
    && forall k :: 0 <= k < |shown| ==> path in shown[k].parameters && shown[k].parameters[path] == Number(values[k])
  }

  ghost predicate ReadFromDevices(devices: seq<Device>, key: string, values: seq<real>) {
    var shown := Kept(devices, NumberDevice(key));
    && |shown| == |values|
    && forall k :: 0 <= k < |shown| ==> key in shown[k].state && shown[k].state[key] == Number(values[k])
  }

  lemma {:induction false} ZoneValuesAreRead(zones: seq<Zone>, path: string)
    ensures ReadFromZones(zones, path, ZoneValues(zones, path))
  {
    if zones != [] {
      ZoneValuesAreRead(zones[..|zones| - 1], path);
    }
  }

  lemma {:induction false} DeviceValuesAreRead(devices: seq<Device>, key: string)
    ensures ReadFromDevices(devices, key, DeviceValues(devices, key))
  {
    if devices != [] {
      DeviceValuesAreRead(devices[..|devices| - 1], key);
    }
  }

  /** Those whose flag under `key` is up. */
  ghost function ActiveAt(devices: seq<Device>, key: string): set<nat> {
    set i: nat | i < |devices| && key in devices[i].state && devices[i].state[key] == Flag(true)
  }

  lemma {:induction false} ActiveAreCounted(devices: seq<Device>, key: string)
    ensures ActiveCount(devices, key) == |ActiveAt(devices, key)|
  {
    if devices != [] {
      var n := |devices| - 1;
      ActiveAreCounted(devices[..n], key);
      assert ActiveAt(devices, key)
          == ActiveAt(devices[..n], key) + if Look(devices[n].state, key) == Some(Flag(true)) then {n} else {};
      assert n !in ActiveAt(devices[..n], key);
    }
  }

  /** The events of a type since `cutoff`, inclusive. */
  ghost function EventsAt(events: seq<SimEvent>, eventType: string, cutoff: real): set<nat> {
    set i: nat | i < |events| && events[i].eventType == eventType && cutoff <= events[i].simTimeSec
  }

  lemma EventsAtGrow(events: seq<SimEvent>, n: nat, eventType: string, cutoff: real)
    requires n == |events| - 1
    ensures EventsAt(events, eventType, cutoff)
         == EventsAt(events[..n], eventType, cutoff)
            + (if events[n].eventType == eventType && cutoff <= events[n].simTimeSec then {n} else {})
    ensures n !in EventsAt(events[..n], eventType, cutoff)
  {
  }

  lemma {:induction false} EventsAreCounted(events: seq<SimEvent>, eventType: string, cutoff: real)
    ensures EventCount(events, eventType, cutoff) == |EventsAt(events, eventType, cutoff)|
  {
    if events != [] {
      EventsAreCounted(events[..|events| - 1], eventType, cutoff);
      EventsAtGrow(events, |events| - 1, eventType, cutoff);
    }
  }

  lemma {:induction false} SumJoins(a: seq<real>, b: seq<real>)
    ensures Sum(a + b) == Sum(a) + Sum(b) && Sum([]) == 0.0 && forall x: real :: Sum([x]) == x
  {
    forall x: real ensures Sum([x]) == x {
      assert [x][..0] == [];
    }
    if b == [] {
      assert a + b == a;
    } else {
      SumJoins(a, b[..|b| - 1]);
      assert (a + b)[..|a + b| - 1] == a + b[..|b| - 1];
    }
  }

  /** What aggregating means; without values there is none. */
  ghost predicate Aggregates(values: seq<real>, fn: Fn, result: Option<real>) {
    if values == [] then result.None?
    else
      result.Some? && match fn
        case Min => result.value in values && forall v :: v in values ==> result.value <= v
        case Max => result.value in values && forall v :: v in values ==> v <= result.value
        case Total => result.value == Sum(values)
        case Avg => |values| as real * result.value == Sum(values)
  }

  lemma AggregatesAreRight(values: seq<real>, fn: Fn)
    ensures Aggregates(values, fn, AggregateNumbers(values, fn))
  {
    if values != [] {
      ExtremesAreValues(values);
    }
  }

  ghost predicate AggregatesZones(zones: seq<Zone>, path: string, fn: Fn, result: Option<real>) {
    exists values :: ReadFromZones(zones, path, values) && Aggregates(values, fn, result)
  }

  ghost predicate AggregatesDevices(devices: seq<Device>, key: string, fn: Fn, result: Option<real>) {
    exists values :: ReadFromDevices(devices, key, values) && Aggregates(values, fn, result)
  }

  /** What a metric must show: the numbers of its own zones or devices aggregated, or a count of devices or events. */
  ghost predicate Measures(m: Metric, zones: seq<Zone>, devices: seq<Device>, inputs: Inputs, result: Option<real>) {
    match m
    case ZoneMetric(path, fn, _) => AggregatesZones(zones, path, fn, result)
    case DeviceMetric(capability, key, fn, _) =>
      var capable, name := Kept(devices, Capable(capability)), if key.Some? then key.value else "active";
      (match fn
       case Count => result == Some(|capable| as real)
       case CountActive => result == Some(|ActiveAt(capable, name)| as real)
       case Value(fn) => AggregatesDevices(capable, name, fn, result))
    case EventMetric(eventType, windowSec, _) =>
      result == Some(|EventsAt(inputs.events, eventType, inputs.simTimeSec - windowSec)| as real)
  }

  lemma MetricMeasures(m: Metric, zones: seq<Zone>, devices: seq<Device>, inputs: Inputs)
    ensures Measures(m, zones, devices, inputs, MetricValue(m, zones, devices, inputs.events, inputs.simTimeSec))
  {
    match m
    case ZoneMetric(path, fn, _) =>
      ZoneValuesAreRead(zones, path);
      AggregatesAreRight(ZoneValues(zones, path), fn);
    case DeviceMetric(capability, key, fn, _) =>
      DeviceMeasures(m, devices, zones, inputs);
    case EventMetric(eventType, windowSec, _) =>
      EventsAreCounted(inputs.events, eventType, inputs.simTimeSec - windowSec);
  }

  lemma DeviceMeasures(m: Metric, devices: seq<Device>, zones: seq<Zone>, inputs: Inputs)
    requires m.DeviceMetric?
    ensures Measures(m, zones, devices, inputs, MetricValue(m, zones, devices, inputs.events, inputs.simTimeSec))
  {
    var capable := Matching(devices, m.capability);
    MatchingAreKept(devices, m.capability);
    ActiveAreCounted(capable, KeyOf(m));
    DeviceValuesAreRead(capable, KeyOf(m));
    if m.deviceFn.Value? {
      AggregatesAreRight(DeviceValues(capable, KeyOf(m)), m.deviceFn.fn);
    }
  }

  ghost predicate ShowsMeasured(m: Metric, zones: seq<Zone>, devices: seq<Device>, inputs: Inputs, data: map<string, Option<real>>) {
    m.field in data && Measures(m, zones, devices, inputs, data[m.field])
  }

  /** Every field of every frame: its metric measured over exactly the declared zones and devices. */
  lemma FieldsAreMeasured(spec: Spec, inputs: Inputs)
    requires DistinctFields(spec.metrics)
    ensures var result := Evaluated(spec, inputs);
            var zones, devices := Kept(inputs.zones, DeclaredZone(spec.zones)), Kept(inputs.devices, DeclaredDevice(spec.devices));
            && result.zones == |zones| && result.devices == |devices|
            && forall m :: m in spec.metrics ==> ShowsMeasured(m, zones, devices, inputs, result.frame.data)
  {
    var zones, devices := SelectedZones(inputs.zones, spec.zones), ScopedDevices(inputs.devices, spec.devices);
    var data := FrameOf(spec.metrics, zones, devices, inputs).data;
    SelectedZonesAreKept(inputs.zones, spec.zones);
    ScopedDevicesAreKept(inputs.devices, spec.devices);
    FrameHoldsEveryMetric(spec.metrics, zones, devices, inputs);
    forall m | m in spec.metrics ensures ShowsMeasured(m, zones, devices, inputs, data) {
      assert HoldsMetric(data, m, zones, devices, inputs);
      MetricMeasures(m, zones, devices, inputs);
    }
  }

  /** A declared zone's number enters the aggregate: the extremes enclose it. */
  lemma DeclaredZonesShow(spec: Spec, inputs: Inputs, z: Zone, path: string, n: real, least: string, greatest: string)
    requires DistinctFields(spec.metrics) && z in inputs.zones && IsDeclared(spec.zones, z.id)
    requires path in z.parameters && z.parameters[path] == Number(n)
    requires ZoneMetric(path, Min, least) in spec.metrics && ZoneMetric(path, Max, greatest) in spec.metrics
    ensures var data := Evaluated(spec, inputs).frame.data;
            && least in data && greatest in data && data[least].Some? && data[greatest].Some?
            && data[least].value <= n <= data[greatest].value
  {
    var data, zones := Evaluated(spec, inputs).frame.data, Kept(inputs.zones, DeclaredZone(spec.zones));
    var devices := Kept(inputs.devices, DeclaredDevice(spec.devices));
    FieldsAreMeasured(spec, inputs);
    KeptMembers(inputs.zones, DeclaredZone(spec.zones));
    assert ShowsMeasured(ZoneMetric(path, Min, least), zones, devices, inputs, data);
    assert ShowsMeasured(ZoneMetric(path, Max, greatest), zones, devices, inputs, data);
    NumberIsAggregated(zones, path, z, n, Min, data[least]);
    NumberIsAggregated(zones, path, z, n, Max, data[greatest]);
  }

  lemma NumberIsAggregated(zones: seq<Zone>, path: string, z: Zone, n: real, fn: Fn, result: Option<real>)
    requires z in zones && path in z.parameters && z.parameters[path] == Number(n) && AggregatesZones(zones, path, fn, result)
    ensures result.Some? && (fn == Min ==> result.value <= n) && (fn == Max ==> n <= result.value)
  {
    var values :| ReadFromZones(zones, path, values) && Aggregates(values, fn, result);
    var shown := Kept(zones, NumberZone(path));
    KeptMembers(zones, NumberZone(path));
    var k :| 0 <= k < |shown| && shown[k] == z;
    assert values[k] == n && n in values;
  }

  ghost predicate ShowsEcho(z: Zone, key: string) {
    key in z.parameters && !z.parameters[key].Opaque?
  }

  ghost predicate IsFirstEcho(zones: seq<Zone>, key: string, i: int) {
    0 <= i < |zones| && ShowsEcho(zones[i], key) && forall j :: 0 <= j < i ==> !ShowsEcho(zones[j], key)
  }

  lemma EchoMovesUp(zones: seq<Zone>, key: string, i: int)
    requires zones != [] && !ShowsEcho(zones[0], key) && IsFirstEcho(zones[1..], key, i)
    ensures IsFirstEcho(zones, key, i + 1) && zones[i + 1] == zones[1..][i]
  {
    assert forall j :: 1 <= j < |zones| ==> zones[j] == zones[1..][j - 1];
  }

  ghost predicate IsEchoOf(zones: seq<Zone>, field: string, key: string, i: int, echo: seq<Echo>) {
    IsFirstEcho(zones, key, i) && echo == [Echo(field, key, zones[i].id, zones[i].parameters[key])]
  }

  /** The contrasting zone is the first one that shows a number or flag under the name; without one there is none. */
  lemma {:induction false} EchoIsFirst(zones: seq<Zone>, field: string, key: string)
    ensures var echo := EchoOf(zones, field, key);
            && (echo == [] <==> forall z :: z in zones ==> !ShowsEcho(z, key))
            && (echo != [] ==> exists i :: IsEchoOf(zones, field, key, i, echo))
  {
    if zones != [] {
      var echo, rest := EchoOf(zones, field, key), zones[1..];
      assert zones == [zones[0]] + rest;
      if ShowsEcho(zones[0], key) {
        assert IsEchoOf(zones, field, key, 0, echo);
      } else {
        EchoIsFirst(rest, field, key);
        if echo != [] {
          var i :| IsEchoOf(rest, field, key, i, echo);
          EchoMovesUp(zones, key, i);
          assert IsEchoOf(zones, field, key, i + 1, echo);
        }
      }
    }
  }

  /** The events that the event metrics count, metric by metric. */
  ghost function Windowed(metrics: seq<Metric>, inputs: Inputs): nat {
    if metrics == [] then 0
    else
      var m := metrics[|metrics| - 1];
      Windowed(metrics[..|metrics| - 1], inputs)
      + if m.EventMetric? then |EventsAt(inputs.events, m.eventType, inputs.simTimeSec - m.windowSec)| else 0
  }

  ghost predicate IsEchoed(m: Metric, zones: seq<Zone>, devices: seq<Device>, written: Option<map<string, seq<string>>>, e: Echo) {
    IsPlaceholder(m, devices, written) && [e] == EchoOf(zones, m.field, KeyOf(m))
  }

  /** The summary counts the windowed events of all event metrics. */
  lemma {:induction false} WindowedAreCounted(metrics: seq<Metric>, zones: seq<Zone>, devices: seq<Device>, inputs: Inputs)
    ensures FrameOf(metrics, zones, devices, inputs).eventsWindowed == Windowed(metrics, inputs)
  {
    if metrics != [] {
      var m := metrics[|metrics| - 1];
      WindowedAreCounted(metrics[..|metrics| - 1], zones, devices, inputs);
      if m.EventMetric? {
        EventsAreCounted(inputs.events, m.eventType, inputs.simTimeSec - m.windowSec);
      }
    }
  }

  lemma StepEchoes(frame: Frame, m: Metric, zones: seq<Zone>, devices: seq<Device>, inputs: Inputs, e: Echo)
    ensures e in FrameStep(frame, m, zones, devices, inputs).echoes
       <==> e in frame.echoes || IsEchoed(m, zones, devices, inputs.written, e)
  {
    if m.DeviceMetric? {
      AtMostOneEcho(zones, m.field, KeyOf(m));
    }
  }

  ghost predicate AnyEchoed(metrics: seq<Metric>, zones: seq<Zone>, devices: seq<Device>,
                            written: Option<map<string, seq<string>>>, e: Echo)
  {
    exists m :: m in metrics && IsEchoed(m, zones, devices, written, e)
  }

  lemma OneMoreEchoed(metrics: seq<Metric>, front: seq<Metric>, m: Metric, zones: seq<Zone>, devices: seq<Device>,
                      written: Option<map<string, seq<string>>>, e: Echo)
    requires metrics == front + [m]
    ensures AnyEchoed(metrics, zones, devices, written, e)
       <==> AnyEchoed(front, zones, devices, written, e) || IsEchoed(m, zones, devices, written, e)
  {
  }

  /** Contrasting zones come with flagged fields, and with no others. */
  lemma {:induction false} EchoesComeWithFlags(metrics: seq<Metric>, zones: seq<Zone>, devices: seq<Device>, inputs: Inputs, e: Echo)
    ensures e in FrameOf(metrics, zones, devices, inputs).echoes <==> AnyEchoed(metrics, zones, devices, inputs.written, e)
  {
    if metrics != [] {
      var front, m := metrics[..|metrics| - 1], metrics[|metrics| - 1];
      EchoesComeWithFlags(front, zones, devices, inputs, e);
      StepEchoes(FrameOf(front, zones, devices, inputs), m, zones, devices, inputs, e);
      OneMoreEchoed(metrics, front, m, zones, devices, inputs.written, e);
    }
  }

  lemma {:induction false} AtMostOneEcho(zones: seq<Zone>, field: string, key: string)
    ensures |EchoOf(zones, field, key)| <= 1
  {
    if zones != [] {
      AtMostOneEcho(zones[1..], field, key);
    }
  }

  predicate ShowsNumber(fields: Fields, key: string) {
    key in fields && fields[key].Number?
  }

  /** A metric is a placeholder exactly when it shows a value, and every device it reads is known never to have written it. */
  lemma PlaceholdersAreUnwritten(m: Metric, devices: seq<Device>, written: Option<map<string, seq<string>>>)
    requires m.DeviceMetric? && m.deviceFn.Value?
    ensures IsPlaceholder(m, devices, written)
       <==> && (exists d :: d in devices && m.capability in d.capabilities && ShowsNumber(d.state, KeyOf(m)))
            && written.Some?
            && forall d :: d in devices && m.capability in d.capabilities ==>
                 d.id in written.value && KeyOf(m) !in written.value[d.id]
  {
    var capable, key := Matching(devices, m.capability), KeyOf(m);
    var shown := Kept(capable, NumberDevice(key));
    MatchingMembers(devices, m.capability);
    DeviceValuesAreRead(capable, key);
    KeptMembers(capable, NumberDevice(key));
    if shown != [] {
      assert shown[0] in shown;
    }
    assert shown != [] <==> exists d :: d in devices && m.capability in d.capabilities && ShowsNumber(d.state, key);
    if capable != [] {
      NeverMeans(capable, written, key);
    }
  }

  lemma NeverMeans(capable: seq<Device>, written: Option<map<string, seq<string>>>, key: string)
    requires capable != []
    ensures AllNever(capable, written, key)
       <==> written.Some? && forall d :: d in capable ==> d.id in written.value && key !in written.value[d.id]
  {
    assert capable[0] in capable;
  }

  // ---- Gathering the inputs --------------------------------------------------------------------------------

  /**
   * The provider's bound device ids (None without an agent row), device rows with their capabilities,
   * the snapshot, and the written paths of the devices the runtime knows.
   */
  datatype World = World(bound: Option<seq<string>>, rows: map<string, seq<string>>, states: map<string, Fields>,
                         known: map<string, seq<string>>, zones: seq<Zone>, events: seq<SimEvent>, simTimeSec: real)

  predicate IsGathered(world: World, id: string) {
    id in world.rows && id in world.states
  }

  function GatheredDevices(world: World, ids: seq<string>): seq<Device> {
    if ids == [] then []
    else
      var id := ids[|ids| - 1];
      GatheredDevices(world, ids[..|ids| - 1])
      + if IsGathered(world, id) then [Device(id, world.rows[id], world.states[id])] else []
  }

  function GatheredPaths(world: World, ids: seq<string>): map<string, seq<string>> {
    if ids == [] then map[]
    else
      var before, id := GatheredPaths(world, ids[..|ids| - 1]), ids[|ids| - 1];
      if IsGathered(world, id) && id in world.known then before[id := world.known[id]] else before
  }

  function Gathered(world: World): Inputs {
    var ids := if world.bound.Some? then world.bound.value else [];
    var paths := GatheredPaths(world, ids);
    Inputs(world.zones, GatheredDevices(world, ids), world.events, world.simTimeSec,
           if paths == map[] then None else Some(paths))
  }

  method GatherInputs(world: World) returns (inputs: Inputs)
    ensures inputs == Gathered(world)
  {
    var devices: seq<Device>, paths: map<string, seq<string>>, known := [], map[], false;
    if world.bound.Some? {
      var ids := world.bound.value;
      for i := 0 to |ids|
        invariant devices == GatheredDevices(world, ids[..i]) && paths == GatheredPaths(world, ids[..i])
        invariant known <==> paths != map[]
      {
        assert ids[..i + 1][..i] == ids[..i];
        var id := ids[i];
        if IsGathered(world, id) {
          devices := devices + [Device(id, world.rows[id], world.states[id])];
          if id in world.known {
            paths := paths[id := world.known[id]];
            known := true;
            assert id in paths;
          }
        }
      }
      assert ids[..|ids|] == ids;
    }
    inputs := Inputs(world.zones, devices, world.events, world.simTimeSec, if known then Some(paths) else None);
  }

  function Present(world: World): string -> bool {
    (id: string) => id in world.rows && id in world.states
  }

  lemma {:induction false} DevicesAreGathered(world: World, ids: seq<string>)
    ensures var present, devices := Kept(ids, Present(world)), GatheredDevices(world, ids);
            && |devices| == |present|
            && forall k :: 0 <= k < |present| ==>
                 && present[k] in world.rows && present[k] in world.states
                 && devices[k] == Device(present[k], world.rows[present[k]], world.states[present[k]])
  {
    if ids != [] {
      DevicesAreGathered(world, ids[..|ids| - 1]);
    }
  }

  lemma {:induction false} PathsAreGathered(world: World, ids: seq<string>, id: string)
    ensures var paths := GatheredPaths(world, ids);
            && (id in paths <==> id in ids && id in world.rows && id in world.states && id in world.known)
            && (id in paths ==> paths[id] == world.known[id])
  {
    if ids != [] {
      PathsAreGathered(world, ids[..|ids| - 1], id);
      assert ids == ids[..|ids| - 1] + [ids[|ids| - 1]];
    }
  }

  /**
   * What is gathered, exactly: the bound devices that have a row and appear in the snapshot, in the order they are
   * bound, and the written paths of those among them that the runtime knows, if it knows any; the rest as it is.
   */
  lemma GatheredIsExact(world: World)
    ensures var inputs, bound := Gathered(world), if world.bound.Some? then world.bound.value else [];
            var present := Kept(bound, Present(world));
            && |inputs.devices| == |present|
            && (forall k :: 0 <= k < |present| ==>
                  && present[k] in world.rows && present[k] in world.states
                  && inputs.devices[k] == Device(present[k], world.rows[present[k]], world.states[present[k]]))
            && (inputs.written.Some? <==> exists id :: id in bound && Present(world)(id) && id in world.known)
            && (inputs.written.Some? ==> forall id ::
                  && (id in inputs.written.value <==> id in bound && Present(world)(id) && id in world.known)
                  && (id in inputs.written.value ==> inputs.written.value[id] == world.known[id]))
            && inputs.zones == world.zones && inputs.events == world.events && inputs.simTimeSec == world.simTimeSec
  {
    var bound := if world.bound.Some? then world.bound.value else [];
    var paths := GatheredPaths(world, bound);
    DevicesAreGathered(world, bound);
    forall id
      ensures id in paths <==> id in bound && Present(world)(id) && id in world.known
      ensures id in paths ==> paths[id] == world.known[id]
    {
      PathsAreGathered(world, bound, id);
    }
    if paths != map[] {
      var id :| id in paths;
    }
  }

  /** The worlds agree on everything about the given devices. */
  ghost predicate AgreeOn(a: World, b: World, ids: seq<string>) {
    forall id :: id in ids ==>
      && (IsGathered(a, id) <==> IsGathered(b, id))
      && (IsGathered(a, id) ==> a.rows[id] == b.rows[id] && a.states[id] == b.states[id])
      && (id in a.known <==> id in b.known) && (id in a.known ==> a.known[id] == b.known[id])
  }

  lemma {:induction false} GatherOnlyBound(a: World, b: World, ids: seq<string>)
    requires AgreeOn(a, b, ids)
    ensures GatheredDevices(a, ids) == GatheredDevices(b, ids) && GatheredPaths(a, ids) == GatheredPaths(b, ids)
  {
    if ids != [] {
      assert ids == ids[..|ids| - 1] + [ids[|ids| - 1]];
      GatherOnlyBound(a, b, ids[..|ids| - 1]);
    }
  }

  /** End to end: a frame shows nothing of devices that the provider's agent does not bind. */
  lemma FrameShowsOnlyBoundDevices(spec: Spec, a: World, b: World)
    requires a.bound == b.bound && a.zones == b.zones && a.events == b.events && a.simTimeSec == b.simTimeSec
    requires AgreeOn(a, b, if a.bound.Some? then a.bound.value else [])
    ensures Evaluated(spec, Gathered(a)) == Evaluated(spec, Gathered(b))
  {
    GatherOnlyBound(a, b, if a.bound.Some? then a.bound.value else []);
  }
}
