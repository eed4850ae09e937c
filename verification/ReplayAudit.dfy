/** Which observations a replay exports, row by row. */
module ReplayAudit {
  import opened Options
  import opened Listings
  import opened Replay

  /** A row is about the device it names or, when it names none, the one its binding leads to. */
  predicate IsAbout(world: World, row: Row, device: Device) {
    if row.entity in world.devices then device == world.devices[row.entity]
    else
      var bound := if (row.entity, row.key) in world.bindings then world.bindings[(row.entity, row.key)] else "";
      bound in world.devices && device == world.devices[bound]
  }

  /** An identified user who owns neither the environment nor the device must not see its values. */
  predicate IsForeign(world: World, device: Device) {
    world.viewer.Some? && world.viewer.value.Some? && world.viewer.value.value != world.owner
    && world.viewer.value.value != device.owner
  }

  ghost predicate IsLost(world: World, row: Row) {
    forall device :: !IsAbout(world, row, device)
  }

  ghost predicate IsWithheld(world: World, row: Row) {
    exists device :: IsAbout(world, row, device) && IsForeign(world, device)
  }

  /** What becomes of a row: skipped when it is about no device, withheld when the device is foreign, else taken. */
  lemma ReadingsFollowTheRow(world: World, row: Row)
    ensures Read(world, row) == Unresolved <==> IsLost(world, row)
    ensures Read(world, row) == Coarse <==> IsWithheld(world, row)
    ensures forall device :: Read(world, row) == Taken(device) <==> IsAbout(world, row, device) && !IsForeign(world, device)
  {
    var device := Resolve(world, row.entity, row.key);
    if device.Some? {
      assert IsAbout(world, row, device.value);
    }
  }

  // ---- One event for each change ------------------------------------------------------------

  /** The row is about this device and changes the value it has after `values`. */
  ghost predicate Changes(world: World, values: Values, row: Row, device: Device) {
    && IsAbout(world, row, device) && !IsForeign(world, device)
    && !((device.id, row.key) in values && values[(device.id, row.key)] == row.value)
  }

  ghost predicate ChangesAt(world: World, known: Values, rows: seq<Row>, i: nat)
    requires i < |rows|
  {
    exists device :: Changes(world, ApplyRows(world, known, rows[..i]), rows[i], device)
  }

  /** The event tells the row: its device's zone, its parameter and value, and the seconds since the window began. */
  ghost predicate TellsRow(world: World, fromMs: int, row: Row, event: Event, source: string) {
    && event.parameter == row.key && event.value == row.value && 1000.0 * event.simSec == (row.wallMs - fromMs) as real
    && exists device :: IsAbout(world, row, device) && device.id == source && device.zone == event.zone
  }

  ghost predicate TellsChanges(world: World, fromMs: int, known: Values, rows: seq<Row>, events: seq<Event>, sources: seq<string>,
                               positions: seq<nat>)
  {
    && Increasing(positions, |rows|) && |positions| == |events| == |sources|
    && (forall k :: 0 <= k < |events| ==>
          events[k].number == k + 1 && TellsRow(world, fromMs, rows[positions[k]], events[k], sources[k]))
    && (forall i: nat :: i < |rows| ==> (i in positions <==> ChangesAt(world, known, rows, i)))
  }

  lemma KnownIsApplied(world: World, fromMs: int, known: Values, rows: seq<Row>)
    ensures DeltaFold(world, fromMs, known, rows).known == ApplyRows(world, known, rows)
  {
    DeltasReplayTheLog(world, fromMs, known, known, rows);
    NoRedundantEvents(world, fromMs, known, rows);
  }

  /** Whether the last row changes anything is what the fold decides. */
  lemma LastRowChanges(world: World, fromMs: int, known: Values, rows: seq<Row>)
    requires rows != []
    ensures var n := |rows| - 1;
            var d, row := DeltaFold(world, fromMs, known, rows[..n]), rows[n];
            ChangesAt(world, known, rows, n)
            <==> Read(world, row).Taken?
                 && !((Read(world, row).device.id, row.key) in d.known && d.known[(Read(world, row).device.id, row.key)] == row.value)
  {
    var n := |rows| - 1;
    KnownIsApplied(world, fromMs, known, rows[..n]);
    ReadingsFollowTheRow(world, rows[n]);
    var values := ApplyRows(world, known, rows[..n]);
    if Read(world, rows[n]).Taken? {
      var device := Read(world, rows[n]).device;
      assert Changes(world, values, rows[n], device)
        <==> !((device.id, rows[n].key) in values && values[(device.id, rows[n].key)] == rows[n].value);
    }
    if device :| Changes(world, values, rows[n], device) {
      assert Read(world, rows[n]) == Taken(device);
    }
  }

  lemma PositionsGrow(world: World, fromMs: int, known: Values, rows: seq<Row>, events: seq<Event>, sources: seq<string>,
                      positions: seq<nat>, n: nat)
    requires n == |rows| - 1 && TellsChanges(world, fromMs, known, rows[..n], events, sources, positions)
    ensures !ChangesAt(world, known, rows, n) ==> TellsChanges(world, fromMs, known, rows, events, sources, positions)
    ensures forall event: Event, source: string ::
              (ChangesAt(world, known, rows, n) && event.number == |events| + 1 && TellsRow(world, fromMs, rows[n], event, source)) ==>
                TellsChanges(world, fromMs, known, rows, events + [event], sources + [source], positions + [n])
  {
    forall i: nat | i < n ensures ChangesAt(world, known, rows[..n], i) <==> ChangesAt(world, known, rows, i) {
      assert rows[..n][..i] == rows[..i];
    }
  }

  lemma LastRowTells(world: World, fromMs: int, d: Delta, row: Row)
    requires Read(world, row).Taken?
    ensures var device := Read(world, row).device;
            TellsRow(world, fromMs, row, Event(|d.events| + 1, device.zone, row.key, row.value, ToSimSec(row.wallMs, fromMs)), device.id)
  {
    ReadingsFollowTheRow(world, row);
  }

  /**
   * There is one event for each row that changes its device's value as the rows before leave it, and for no other,
   * in the rows' order and numbered from one; each event tells its row.
   */
  lemma {:induction false} EventsAreTheChanges(world: World, fromMs: int, known: Values, rows: seq<Row>)
    returns (positions: seq<nat>)
    ensures var d := DeltaFold(world, fromMs, known, rows);
            TellsChanges(world, fromMs, known, rows, d.events, d.sources, positions)
  {
    positions := [];
    if rows != [] {
      var n := |rows| - 1;
      var d := DeltaFold(world, fromMs, known, rows[..n]);
      positions := EventsAreTheChanges(world, fromMs, known, rows[..n]);
      LastRowChanges(world, fromMs, known, rows);
      PositionsGrow(world, fromMs, known, rows, d.events, d.sources, positions, n);
      if ChangesAt(world, known, rows, n) {
        LastRowTells(world, fromMs, d, rows[n]);
        positions := positions + [n];
      }
    }
  }

  // ---- The counters ------------------------------------------------------------------------------

  ghost function SkippedAt(world: World, rows: seq<Row>): set<nat> {
    set i: nat | i < |rows| && IsLost(world, rows[i])
  }

  ghost function WithheldAt(world: World, rows: seq<Row>): set<nat> {
    set i: nat | i < |rows| && IsWithheld(world, rows[i])
  }

  lemma SkippedGrow(world: World, rows: seq<Row>, n: nat)
    requires n == |rows| - 1
    ensures |SkippedAt(world, rows)| == |SkippedAt(world, rows[..n])| + if IsLost(world, rows[n]) then 1 else 0
  {
    assert SkippedAt(world, rows) == SkippedAt(world, rows[..n]) + if IsLost(world, rows[n]) then {n} else {};
    assert n !in SkippedAt(world, rows[..n]);
  }

  lemma WithheldGrow(world: World, rows: seq<Row>, n: nat)
    requires n == |rows| - 1
    ensures |WithheldAt(world, rows)| == |WithheldAt(world, rows[..n])| + if IsWithheld(world, rows[n]) then 1 else 0
  {
    assert WithheldAt(world, rows) == WithheldAt(world, rows[..n]) + if IsWithheld(world, rows[n]) then {n} else {};
    assert n !in WithheldAt(world, rows[..n]);
  }

  /** Rows about no device are counted as skipped, those of foreign devices as redacted, before the window and in it. */
  lemma {:induction false} CountsFollowTheRows(world: World, fromMs: int, known: Values, rows: seq<Row>)
    ensures var d := DeltaFold(world, fromMs, known, rows).counts;
            d.skipped == |SkippedAt(world, rows)| && d.redacted == |WithheldAt(world, rows)|
    ensures var initial := InitialFold(world, rows);
            initial.skipped == |SkippedAt(world, rows)| && initial.redacted == |WithheldAt(world, rows)|
  {
    if rows != [] {
      CountsFollowTheRows(world, fromMs, known, rows[..|rows| - 1]);
      SkippedGrow(world, rows, |rows| - 1);
      WithheldGrow(world, rows, |rows| - 1);
      ReadingsFollowTheRow(world, rows[|rows| - 1]);
    } else {
      assert SkippedAt(world, rows) == {} && WithheldAt(world, rows) == {};
    }
  }

  // ---- The exported initial states ------------------------------------------------------------------

  /** The value that the export starts a device's key with: the one last observed before the window, else the stored one. */
  ghost predicate StartsWith(world: World, observed: Values, states: States, id: string, key: string)
    requires id in world.devices
  {
    && id in states
    && if IsForeign(world, world.devices[id]) then states[id] == map[]
       else if (id, key) in observed then key in states[id] && states[id][key] == observed[(id, key)]
       else if key in world.devices[id].stored then key in states[id] && states[id][key] == world.devices[id].stored[key]
       else key !in states[id]
  }

  /** Every device starts with what was last observed over what it stores, and foreign devices with nothing. */
  lemma SnapshotStartsWith(world: World, rows: seq<Row>, id: string, key: string)
    requires id in world.devices
    ensures StartsWith(world, ApplyRows(world, map[], rows), Snapshot(world, InitialFold(world, rows).states), id, key)
  {
    InitialStateIsKnown(world, rows);
    assert SameAt(InitialFold(world, rows).known, InitialFold(world, rows).states, (id, key));
  }

  /** What a row does to the values: the last one that is about a device's key, and may be seen, decides it. */
  lemma {:induction false} LastRowDecides(world: World, values: Values, rows: seq<Row>, i: nat, device: Device)
    requires i < |rows| && IsAbout(world, rows[i], device) && !IsForeign(world, device)
    requires forall j, other :: i < j < |rows| && IsAbout(world, rows[j], other) && !IsForeign(world, other) ==>
               (other.id, rows[j].key) != (device.id, rows[i].key)
    ensures var after := ApplyRows(world, values, rows);
            (device.id, rows[i].key) in after && after[(device.id, rows[i].key)] == rows[i].value
  {
    var n := |rows| - 1;
    ReadingsFollowTheRow(world, rows[n]);
    if i < n {
      LastRowDecides(world, values, rows[..n], i, device);
    }
  }
}
