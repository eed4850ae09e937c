/** Folding an observation log into an initial state and value-change events. */
module Replay {
  import opened Options

  datatype Scalar = Number(n: real) | Flag(b: bool) | Text(s: string)

  /** `stored` is the device's own initial state, empty when it has none. */
  datatype Device = Device(id: string, zone: string, owner: string, stored: map<string, Scalar>)

  /** `wallMs` is the observation's wall time. */
  datatype Row = Row(entity: string, key: string, value: Scalar, wallMs: int)

  /**
   * The environment as the exporter sees it: device rows by id, sync bindings from (entity, key) to a
   * device id, and the viewer (absent, anonymous, or a user).
   */
  datatype World = World(owner: string, viewer: Option<Option<string>>, devices: map<string, Device>,
                         bindings: map<(string, string), string>)

  datatype Event = Event(number: nat, zone: string, parameter: string, value: Scalar, simSec: real)

  datatype Counts = Counts(emitted: nat, same: nat, skipped: nat, redacted: nat)

  datatype Reading = Unresolved | Coarse | Taken(device: Device)

  /** Values by device id and key. */
  type Values = map<(string, string), Scalar>

  function Lookup(world: World, id: string): Option<Device> {
    if id in world.devices then Some(world.devices[id]) else None
  }

  /** A device id resolves to itself, anything else through its binding. */
  function Resolve(world: World, entity: string, key: string): Option<Device> {
    if entity in world.devices then Some(world.devices[entity])
    else Lookup(world, if (entity, key) in world.bindings then world.bindings[(entity, key)] else "")
  }

  /** A missing or anonymous viewer counts as the owner. */
  function ViewerId(world: World): string {
    if world.viewer.Some? && world.viewer.value.Some? then world.viewer.value.value else world.owner
  }

  predicate FullTier(world: World, device: Device) {
    ViewerId(world) == world.owner || device.owner == ViewerId(world)
  }

  /** Device rows are stored under their own ids. */
  ghost predicate KeyedById(world: World) {
    forall id :: id in world.devices ==> world.devices[id].id == id
  }

  predicate Exported(world: World, id: string) {
    id in world.devices && FullTier(world, world.devices[id])
  }

  function Read(world: World, row: Row): Reading {
    match Resolve(world, row.entity, row.key)
    case None => Unresolved
    case Some(device) => if FullTier(world, device) then Taken(device) else Coarse
  }

  function ToSimSec(wallMs: int, fromMs: int): real {
    (wallMs - fromMs) as real / 1000.0
  }

  /**
   * A resolved row is withheld exactly from an identified viewer who owns neither the environment nor the
   * device. The viewer's type also admits an anonymous one, who is not withheld anything.
   */
  lemma WithheldIff(world: World, row: Row, device: Device)
    requires Resolve(world, row.entity, row.key) == Some(device)
    ensures Read(world, row) == Coarse
       <==> world.viewer.Some? && world.viewer.value.Some? && world.viewer.value.value !in {world.owner, device.owner}
  {
  }

  // ---- Observations before the window: the initial state -------------------------------

  type States = map<string, map<string, Scalar>>

  datatype Initial = Initial(states: States, known: Values, taken: nat, skipped: nat, redacted: nat)

  function StateOf(states: States, id: string): map<string, Scalar> {
    if id in states then states[id] else map[]
  }

  function InitialFold(world: World, rows: seq<Row>): Initial {
    if rows == [] then Initial(map[], map[], 0, 0, 0)
    else
      var before, row := InitialFold(world, rows[..|rows| - 1]), rows[|rows| - 1];
      match Read(world, row)
      case Unresolved => before.(skipped := before.skipped + 1)
      case Coarse => before.(redacted := before.redacted + 1)
      case Taken(d) =>
        before.(states := before.states[d.id := StateOf(before.states, d.id)[row.key := row.value]],
                known := before.known[(d.id, row.key) := row.value],
                taken := before.taken + 1)
  }

  /** The initial states the export carries: observed values over stored ones, nothing for foreign devices. */
  function Snapshot(world: World, states: States): States {
    map id | id in world.devices ::
      if FullTier(world, world.devices[id]) then world.devices[id].stored + StateOf(states, id) else map[]
  }

  // ---- Observations in the window: value changes become events ----------------------------

  /** `sources` is the device behind each event; the exported event itself only names zone and parameter. */
  datatype Delta = Delta(known: Values, events: seq<Event>, sources: seq<string>, counts: Counts)

  function DeltaStep(world: World, fromMs: int, d: Delta, row: Row): Delta {
    match Read(world, row)
    case Unresolved => d.(counts := d.counts.(skipped := d.counts.skipped + 1))
    case Coarse => d.(counts := d.counts.(redacted := d.counts.redacted + 1))
    case Taken(device) =>
      var key := (device.id, row.key);
      if key in d.known && d.known[key] == row.value then d.(counts := d.counts.(same := d.counts.same + 1))
      else
        Delta(d.known[key := row.value],
              d.events + [Event(|d.events| + 1, device.zone, row.key, row.value, ToSimSec(row.wallMs, fromMs))],
              d.sources + [device.id],
              d.counts.(emitted := d.counts.emitted + 1))
  }

  function DeltaFold(world: World, fromMs: int, known: Values, rows: seq<Row>): Delta {
    if rows == [] then Delta(known, [], [], Counts(0, 0, 0, 0))
    else DeltaStep(world, fromMs, DeltaFold(world, fromMs, known, rows[..|rows| - 1]), rows[|rows| - 1])
  }

  method BuildReplay(world: World, fromMs: int, before: seq<Row>, window: seq<Row>)
    returns (initial: Initial, snapshot: States, delta: Delta)
    ensures initial == InitialFold(world, before)
    ensures snapshot == Snapshot(world, initial.states)
    ensures delta == DeltaFold(world, fromMs, initial.known, window)
  {
    initial := Initial(map[], map[], 0, 0, 0);
    for i := 0 to |before|
      invariant initial == InitialFold(world, before[..i])
    {
      assert before[..i + 1][..i] == before[..i];
      var row := before[i];
      var device := Resolve(world, row.entity, row.key);
      if device.None? {
        initial := initial.(skipped := initial.skipped + 1);
      } else if !FullTier(world, device.value) {
        initial := initial.(redacted := initial.redacted + 1);
      } else {
        var id := device.value.id;
        var state := if id in initial.states then initial.states[id] else map[];
        state := state[row.key := row.value];
        initial := Initial(initial.states[id := state], initial.known[(id, row.key) := row.value],
                           initial.taken + 1, initial.skipped, initial.redacted);
      }
    }
    assert before[..|before|] == before;

    delta := Delta(initial.known, [], [], Counts(0, 0, 0, 0));
    for i := 0 to |window|
      invariant delta == DeltaFold(world, fromMs, initial.known, window[..i])
    {
      assert window[..i + 1][..i] == window[..i];
      var row, c := window[i], delta.counts;
      var device := Resolve(world, row.entity, row.key);
      if device.None? {
        delta := delta.(counts := c.(skipped := c.skipped + 1));
      } else if !FullTier(world, device.value) {
        delta := delta.(counts := c.(redacted := c.redacted + 1));
      } else {
        var key := (device.value.id, row.key);
        if key in delta.known && delta.known[key] == row.value {
          delta := delta.(counts := c.(same := c.same + 1));
        } else {
          var event := Event(|delta.events| + 1, device.value.zone, row.key, row.value, ToSimSec(row.wallMs, fromMs));
          delta := Delta(delta.known[key := row.value], delta.events + [event], delta.sources + [device.value.id],
                         c.(emitted := c.emitted + 1));
        }
      }
    }
    assert window[..|window|] == window;
    snapshot := Snapshot(world, initial.states);
  }

  // ---- What the fold means -------------------------------------------------------------------

  /** All resolvable, full-tier observations applied in order. */
  function ApplyRows(world: World, values: Values, rows: seq<Row>): Values {
    if rows == [] then values
    else
      var before, row := ApplyRows(world, values, rows[..|rows| - 1]), rows[|rows| - 1];
      match Read(world, row)
      case Taken(d) => before[(d.id, row.key) := row.value]
      case _ => before
  }

  /** The events applied in order to the devices they came from. */
  function ApplyEvents(values: Values, events: seq<Event>, sources: seq<string>): Values
    requires |events| == |sources|
  {
    if events == [] then values
    else
      var last := |events| - 1;
      ApplyEvents(values, events[..last], sources[..last])[(sources[last], events[last].parameter) := events[last].value]
  }

  ghost predicate SameAt(values: Values, states: States, p: (string, string)) {
    if p.0 in states && p.1 in states[p.0] then p in values && values[p] == states[p.0][p.1] else p !in values
  }

  /** `values` lists, by device and key, exactly what `states` holds. */
  ghost predicate Lists(values: Values, states: States) {
    forall p :: SameAt(values, states, p)
  }

  ghost predicate Agrees(known: Values, values: Values) {
    forall k :: k in known ==> k in values && values[k] == known[k]
  }

  lemma {:induction false} SourcesMatch(world: World, fromMs: int, known: Values, rows: seq<Row>)
    ensures var d := DeltaFold(world, fromMs, known, rows); |d.events| == |d.sources|
  {
    if rows != [] {
      SourcesMatch(world, fromMs, known, rows[..|rows| - 1]);
    }
  }

  /** The merged initial state holds exactly the values that the delta compression starts from; every row is counted once. */
  lemma {:induction false} InitialStateIsKnown(world: World, rows: seq<Row>)
    ensures var initial := InitialFold(world, rows);
            && Lists(initial.known, initial.states)
            && initial.known == ApplyRows(world, map[], rows)
            && initial.taken + initial.skipped + initial.redacted == |rows|
  {
    if rows != [] {
      var before, row, after := InitialFold(world, rows[..|rows| - 1]), rows[|rows| - 1], InitialFold(world, rows);
      InitialStateIsKnown(world, rows[..|rows| - 1]);
      if Read(world, row).Taken? {
        forall p ensures SameAt(after.known, after.states, p) {
          assert SameAt(before.known, before.states, p);
        }
      }
    }
  }

  /**
   * Replaying the events from any start that carries the known values gives, after every window prefix
   * (take `rows` to be that prefix), the same values as applying every observation.
   */
  lemma {:induction false} DeltasReplayTheLog(world: World, fromMs: int, known: Values, start: Values, rows: seq<Row>)
    requires Agrees(known, start)
    ensures var d := DeltaFold(world, fromMs, known, rows);
            && |d.events| == |d.sources|
            && ApplyEvents(start, d.events, d.sources) == ApplyRows(world, start, rows)
            && Agrees(d.known, ApplyRows(world, start, rows))
  {
    if rows != [] {
      var front, row := rows[..|rows| - 1], rows[|rows| - 1];
      DeltasReplayTheLog(world, fromMs, known, start, front);
      var before, after := DeltaFold(world, fromMs, known, front), DeltaFold(world, fromMs, known, rows);
      if after.events != before.events {
        var n := |before.events|;
        assert after.events[..n] == before.events && after.sources[..n] == before.sources;
      } else if Read(world, row).Taken? {
        var key := (Read(world, row).device.id, row.key);
        var values := ApplyRows(world, start, front);
        assert values[key := row.value] == values;
      }
    }
  }

  lemma {:induction false} RowsOverride(world: World, values: Values, rows: seq<Row>)
    ensures ApplyRows(world, values, rows) == values + ApplyRows(world, map[], rows)
  {
    if rows != [] {
      RowsOverride(world, values, rows[..|rows| - 1]);
    }
  }

  lemma {:induction false} RowsConcatenate(world: World, values: Values, first: seq<Row>, second: seq<Row>)
    ensures ApplyRows(world, values, first + second) == ApplyRows(world, ApplyRows(world, values, first), second)
  {
    if second == [] {
      assert first + second == first;
    } else {
      var front := second[..|second| - 1];
      RowsConcatenate(world, values, first, front);
      assert (first + second)[..|first + second| - 1] == first + front;
    }
  }

  lemma {:induction false} OnlyExportedAreObserved(world: World, rows: seq<Row>)
    requires KeyedById(world)
    ensures forall id :: id in InitialFold(world, rows).states ==> Exported(world, id)
  {
    if rows != [] {
      OnlyExportedAreObserved(world, rows[..|rows| - 1]);
    }
  }

  lemma SnapshotAt(world: World, states: States, known: Values, base: Values, start: Values, p: (string, string))
    requires SameAt(known, states, p) && SameAt(base, Snapshot(world, map[]), p)
    requires SameAt(start, Snapshot(world, states), p)
    requires p.0 in states ==> Exported(world, p.0)
    ensures p in start <==> p in base + known
    ensures p in start ==> start[p] == (base + known)[p]
  {
  }

  lemma SnapshotValues(world: World, states: States, known: Values, base: Values, start: Values)
    requires Lists(known, states) && Lists(base, Snapshot(world, map[])) && Lists(start, Snapshot(world, states))
    requires forall id :: id in states ==> Exported(world, id)
    ensures start == base + known
  {
    forall p ensures p in start <==> p in base + known
             ensures p in start ==> start[p] == (base + known)[p]
    {
      SnapshotAt(world, states, known, base, start, p);
    }
  }

  lemma SnapshotIsTheFold(world: World, before: seq<Row>, base: Values, start: Values)
    requires KeyedById(world) && Lists(base, Snapshot(world, map[]))
    requires Lists(start, Snapshot(world, InitialFold(world, before).states))
    ensures start == ApplyRows(world, base, before) && Agrees(InitialFold(world, before).known, start)
  {
    var initial := InitialFold(world, before);
    InitialStateIsKnown(world, before);
    OnlyExportedAreObserved(world, before);
    RowsOverride(world, base, before);
    SnapshotValues(world, initial.states, initial.known, base, start);
  }

  /**
   * The export as a whole: its events, replayed on the initial states it carries, end where all
   * observations (those before the window, then those in it) applied to the stored states end.
   */
  lemma ExportReplaysTheLog(world: World, fromMs: int, before: seq<Row>, window: seq<Row>, base: Values, start: Values)
    requires KeyedById(world) && Lists(base, Snapshot(world, map[]))
    requires Lists(start, Snapshot(world, InitialFold(world, before).states))
    ensures var d := DeltaFold(world, fromMs, InitialFold(world, before).known, window);
            && |d.events| == |d.sources|
            && ApplyEvents(start, d.events, d.sources) == ApplyRows(world, base, before + window)
  {
    SnapshotIsTheFold(world, before, base, start);
    DeltasReplayTheLog(world, fromMs, InitialFold(world, before).known, start, window);
    RowsConcatenate(world, base, before, window);
  }

  /** The events of a window prefix are a prefix of the window's events. */
  lemma {:induction false} PrefixesGivePrefixes(world: World, fromMs: int, known: Values, rows: seq<Row>, n: nat)
    requires n <= |rows|
    ensures var part, all := DeltaFold(world, fromMs, known, rows[..n]), DeltaFold(world, fromMs, known, rows);
            |part.events| <= |all.events| && all.events[..|part.events|] == part.events
  {
    if n == |rows| {
      assert rows[..n] == rows;
    } else {
      PrefixesGivePrefixes(world, fromMs, known, rows[..|rows| - 1], n);
      assert rows[..|rows| - 1][..n] == rows[..n];
    }
  }

  /** No event is redundant: each one changes the value its device had, so consecutive values differ. */
  ghost predicate EveryEventChanges(known: Values, events: seq<Event>, sources: seq<string>)
    requires |events| == |sources|
  {
    forall j :: 0 <= j < |events| ==> ChangesAt(known, events, sources, j)
  }

  ghost predicate ChangesAt(known: Values, events: seq<Event>, sources: seq<string>, j: nat)
    requires |events| == |sources| && j < |events|
  {
    var values := ApplyEvents(known, events[..j], sources[..j]);
    !((sources[j], events[j].parameter) in values && values[(sources[j], events[j].parameter)] == events[j].value)
  }

  lemma AppendKeepsChanging(known: Values, events: seq<Event>, sources: seq<string>, event: Event, source: string)
    requires |events| == |sources| && EveryEventChanges(known, events, sources)
    requires var values := ApplyEvents(known, events, sources);
             !((source, event.parameter) in values && values[(source, event.parameter)] == event.value)
    ensures EveryEventChanges(known, events + [event], sources + [source])
    ensures ApplyEvents(known, events + [event], sources + [source])
            == ApplyEvents(known, events, sources)[(source, event.parameter) := event.value]
  {
    var e, s, n := events + [event], sources + [source], |events|;
    assert e[..n] == events && s[..n] == sources;
    forall j | 0 <= j < |e| ensures ChangesAt(known, e, s, j) {
      assert j < n ==> e[..j] == events[..j] && s[..j] == sources[..j] && ChangesAt(known, events, sources, j);
    }
  }

  lemma {:induction false} NoRedundantEvents(world: World, fromMs: int, known: Values, rows: seq<Row>)
    ensures var d := DeltaFold(world, fromMs, known, rows);
            && |d.events| == |d.sources|
            && d.known == ApplyEvents(known, d.events, d.sources)
            && EveryEventChanges(known, d.events, d.sources)
  {
    if rows != [] {
      var front, row := rows[..|rows| - 1], rows[|rows| - 1];
      NoRedundantEvents(world, fromMs, known, front);
      var before, after := DeltaFold(world, fromMs, known, front), DeltaFold(world, fromMs, known, rows);
      assert after == DeltaStep(world, fromMs, before, row);
      if after.events != before.events {
        var source, event := Read(world, row).device.id, after.events[|before.events|];
        assert after.events == before.events + [event] && after.sources == before.sources + [source];
        AppendKeepsChanging(known, before.events, before.sources, event, source);
      }
    }
  }

  /** Every window row is counted once, and event numbers run from 1. */
  lemma {:induction false} RowsAreCounted(world: World, fromMs: int, known: Values, rows: seq<Row>)
    ensures var d := DeltaFold(world, fromMs, known, rows);
            && d.counts.emitted + d.counts.same + d.counts.skipped + d.counts.redacted == |rows|
            && d.counts.emitted == |d.events|
            && forall j :: 0 <= j < |d.events| ==> d.events[j].number == j + 1
  {
    if rows != [] {
      RowsAreCounted(world, fromMs, known, rows[..|rows| - 1]);
    }
  }

  // ---- What an exported event can say -----------------------------------------------------------

  /** The same two replays by zone and parameter, which is all that an exported event names. */
  function ApplyByZone(values: Values, events: seq<Event>): Values {
    if events == [] then values
    else
      var last := events[|events| - 1];
      ApplyByZone(values, events[..|events| - 1])[(last.zone, last.parameter) := last.value]
  }

  function ApplyRowsByZone(world: World, values: Values, rows: seq<Row>): Values {
    if rows == [] then values
    else
      var before, row := ApplyRowsByZone(world, values, rows[..|rows| - 1]), rows[|rows| - 1];
      match Read(world, row)
      case Taken(d) => before[(d.zone, row.key) := row.value]
      case _ => before
  }

  /** No zone holds two devices whose observations are exported. */
  ghost predicate OneDevicePerZone(world: World) {
    forall a, b :: Exported(world, a) && Exported(world, b) && world.devices[a].zone == world.devices[b].zone ==> a == b
  }

  ghost predicate ZoneAgrees(world: World, known: Values, zones: Values) {
    forall id, key :: (id, key) in known && Exported(world, id) ==>
      (world.devices[id].zone, key) in zones && zones[(world.devices[id].zone, key)] == known[(id, key)]
  }

  lemma TakenIsExported(world: World, row: Row)
    requires KeyedById(world) && Read(world, row).Taken?
    ensures var d := Read(world, row).device; Exported(world, d.id) && world.devices[d.id] == d
  {
  }

  lemma ZoneAgreesAfter(world: World, known: Values, zones: Values, d: Device, key: string, value: Scalar)
    requires KeyedById(world) && OneDevicePerZone(world) && ZoneAgrees(world, known, zones)
    requires Exported(world, d.id) && world.devices[d.id] == d
    ensures ZoneAgrees(world, known[(d.id, key) := value], zones[(d.zone, key) := value])
  {
  }

  /** With one exported device per zone, replaying what the events name is exact for every log. */
  lemma {:induction false} ZoneReplayIsExact(world: World, fromMs: int, known: Values, start: Values, rows: seq<Row>)
    requires KeyedById(world) && OneDevicePerZone(world) && ZoneAgrees(world, known, start)
    ensures var d := DeltaFold(world, fromMs, known, rows);
            && ApplyByZone(start, d.events) == ApplyRowsByZone(world, start, rows)
            && ZoneAgrees(world, d.known, ApplyRowsByZone(world, start, rows))
  {
    if rows != [] {
      var front, row := rows[..|rows| - 1], rows[|rows| - 1];
      ZoneReplayIsExact(world, fromMs, known, start, front);
      var before, after := DeltaFold(world, fromMs, known, front), DeltaFold(world, fromMs, known, rows);
      assert after == DeltaStep(world, fromMs, before, row);
      if Read(world, row).Taken? {
        TakenIsExported(world, row);
        var d, zones := Read(world, row).device, ApplyRowsByZone(world, start, front);
        ZoneAgreesAfter(world, before.known, zones, d, row.key, row.value);
        var next := zones[(d.zone, row.key) := row.value];
        assert ApplyRowsByZone(world, start, rows) == next;
        if (d.id, row.key) in before.known && before.known[(d.id, row.key)] == row.value {
          assert next == zones;
          assert before.known[(d.id, row.key) := row.value] == before.known;
        } else {
          assert after.events[..|before.events|] == before.events;
        }
      }
    }
  }

  ghost predicate ZoneReplayExactFor(world: World, fromMs: int, rows: seq<Row>) {
    ApplyByZone(map[], DeltaFold(world, fromMs, map[], rows).events) == ApplyRowsByZone(world, map[], rows)
  }

  /** Two exported devices in one zone, alternating, make the compressed replay end on the wrong value. */
  lemma SharedZoneLosesAValue(world: World, fromMs: int, a: string, b: string)
    requires KeyedById(world) && Exported(world, a) && Exported(world, b) && a != b
    requires world.devices[a].zone == world.devices[b].zone
    ensures !ZoneReplayExactFor(world, fromMs,
              [Row(a, "k", Flag(true), 0), Row(b, "k", Flag(false), 0), Row(a, "k", Flag(true), 0)])
  {
    var r1, r2 := Row(a, "k", Flag(true), 0), Row(b, "k", Flag(false), 0);
    var zone := world.devices[a].zone;
    assert [r1, r2, r1][..2] == [r1, r2] && [r1, r2][..1] == [r1] && [r1][..0] == [];
    var d0 := DeltaFold(world, fromMs, map[], []);
    var d1 := DeltaFold(world, fromMs, map[], [r1]);
    assert d1 == DeltaStep(world, fromMs, d0, r1) && d1.known == map[(a, "k") := Flag(true)];
    var d2 := DeltaFold(world, fromMs, map[], [r1, r2]);
    assert d2 == DeltaStep(world, fromMs, d1, r2) && d2.known[(a, "k")] == Flag(true);
    var d3 := DeltaFold(world, fromMs, map[], [r1, r2, r1]);
    assert d3 == DeltaStep(world, fromMs, d2, r1) && d3.events == d2.events;
    assert d2.events[|d2.events| - 1].value == Flag(false);
    assert ApplyByZone(map[], d3.events)[(zone, "k")] == Flag(false);
    assert ApplyRowsByZone(world, map[], [r1, r2, r1])[(zone, "k")] == Flag(true);
  }

  /**
   * Replayed by what the exported events name, the compression is exact for every log if and only if
   * no zone holds two exported devices.
   */
  lemma ZoneReplayExactIff(world: World, fromMs: int)
    requires KeyedById(world)
    ensures (forall rows :: ZoneReplayExactFor(world, fromMs, rows)) <==> OneDevicePerZone(world)
  {
    if OneDevicePerZone(world) {
      forall rows ensures ZoneReplayExactFor(world, fromMs, rows) {
        ZoneReplayIsExact(world, fromMs, map[], map[], rows);
      }
    } else {
      var a, b :| Exported(world, a) && Exported(world, b) && world.devices[a].zone == world.devices[b].zone && a != b;
      SharedZoneLosesAValue(world, fromMs, a, b);
    }
  }

  /** An anonymous viewer is exported the observations of a device that the environment's owner does not own. */
  lemma AnonymousSeesForeignDevices(world: World, fromMs: int, id: string, key: string, value: Scalar, wallMs: int)
    requires world.viewer == Some(None) && id in world.devices && world.devices[id].owner != world.owner
    ensures var events := DeltaFold(world, fromMs, map[], [Row(id, key, value, wallMs)]).events;
            |events| == 1 && events[0].parameter == key && events[0].value == value
    ensures var identified := world.(viewer := Some(Some(world.owner + "'" + world.devices[id].owner)));
            DeltaFold(identified, fromMs, map[], [Row(id, key, value, wallMs)]).events == []
  {
    var row := Row(id, key, value, wallMs);
    var identified := world.(viewer := Some(Some(world.owner + "'" + world.devices[id].owner)));
    assert |world.owner + "'" + world.devices[id].owner| > |world.owner|;
    assert |world.owner + "'" + world.devices[id].owner| > |world.devices[id].owner|;
    assert [row][..0] == [];
    WithheldIff(world, row, world.devices[id]);
    WithheldIff(identified, row, world.devices[id]);
    assert DeltaFold(world, fromMs, map[], [row]) == DeltaStep(world, fromMs, DeltaFold(world, fromMs, map[], []), row);
    assert DeltaFold(identified, fromMs, map[], [row])
        == DeltaStep(identified, fromMs, DeltaFold(identified, fromMs, map[], []), row);
  }
}
