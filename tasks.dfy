/**
 * The task supervisor's decisions: which polling task `__start_sensor_task`
 * registers for a record (`__prepare_dht_task` for the DHT22 halves), whether
 * `__stop_sensor_task` retires it, and which lines `delete_sensor` hands back
 * to the ledger.
 */
module Tasks {
  import opened Records
  import opened Catalog

  // ---------------------------------------------------------------------
  // Starting

  /**
   * `__prepare_dht_task`: with both halves in the catalog, one task bound
   * to [temperature record, humidity record]; with one record, the record
   * itself in its own slot and nothing in the other; otherwise no task.
   */
  function DhtBinding(d: seq<Sensor>, s: Sensor): (r: Option<Task>)
    ensures r.Some? <==> |ByName(d, s.name)| == 1 || |ByName(d, s.name)| == 2
    ensures r.Some? ==> r.value.DhtTask? && r.value.interval == s.interval
    ensures r.Some? ==> (r.value.temperature.Some? && r.value.humidity.Some? <==> |ByName(d, s.name)| == 2)
    ensures r.Some? && r.value.temperature.Some? ==> r.value.temperature.value.name == s.name
    ensures r.Some? && r.value.humidity.Some? ==> r.value.humidity.value.name == s.name
    ensures r.Some? && |ByName(d, s.name)| == 1 ==>
      (if s.kind == Temperature then r.value.temperature == Some(s) else r.value.humidity == Some(s))
    ensures r.Some? ==> forall b :: b in Bound(r.value) ==> b == s || b in d
  {
    var found := ByName(d, s.name);
    if |found| == 2 then
      assert found[0] in found && found[1] in found;
      if found[0].kind == Temperature then Some(DhtTask(s.interval, Some(found[0]), Some(found[1])))
      else Some(DhtTask(s.interval, Some(found[1]), Some(found[0])))
    else if |found| == 1 then
      if s.kind == Temperature then Some(DhtTask(s.interval, Some(s), None))
      else Some(DhtTask(s.interval, None, Some(s)))
    else None
  }

  /**
   * In a catalog whose names are paired, the two records of a DHT22 sensor
   * are bound as [temperature, humidity] whichever of them the catalog lists
   * first.
   */
  lemma DhtBindingSlots(d: seq<Sensor>, s: Sensor)
    requires DistinctUuids(d) && PairedNames(d)
    requires |ByName(d, s.name)| == 2
    ensures var task := DhtBinding(d, s).value;
      && task.temperature.Some? && task.humidity.Some?
      && task.temperature.value.kind == Temperature && task.humidity.value.kind == Humidity
      && task.temperature.value in d && task.humidity.value in d
      && DhtPair(task.temperature.value, task.humidity.value)
  {
    var found := ByName(d, s.name);
    ByNameDistinct(d, s.name);
    assert found[0] in found && found[1] in found;
    assert found[0] != found[1];
    assert DhtPair(found[0], found[1]);
    assert DhtPair(found[1], found[0]) by {
      assert {found[1].kind, found[0].kind} == {found[0].kind, found[1].kind};
    }
    if found[0].kind != Temperature {
      assert found[0].kind in {Temperature, Humidity};
    } else {
      assert found[1].kind in {Temperature, Humidity};
    }
  }

  /** Listing the two halves of a DHT22 sensor in either order gives the same task. */
  lemma DhtBindingOrderFree(a: Sensor, b: Sensor, s: Sensor)
    requires DhtPair(a, b) && a.name == s.name && b.name == s.name
    ensures DhtBinding([a, b], s) == DhtBinding([b, a], s)
  {
    assert ByName([a, b], s.name) == [a, b] by {
      assert ByName([a, b], s.name) == [a] + ByName([b], s.name);
      assert ByName([b], s.name) == [b] + ByName([], s.name);
    }
    assert ByName([b, a], s.name) == [b, a] by {
      assert ByName([b, a], s.name) == [b] + ByName([a], s.name);
      assert ByName([a], s.name) == [a] + ByName([], s.name);
    }
    assert a.kind in {Temperature, Humidity};
  }

  /**
   * The two halves `add_dht22` appends under a name no record carries are
   * bound together, temperature first, by the start that follows.
   */
  lemma FreshPairBinding(d: seq<Sensor>, t: Sensor, h: Sensor)
    requires !NameUsed(d, t.name) && t.name == h.name
    requires t.kind == Temperature && t.subtype == Dht22 && h.kind == Humidity
    ensures NewTask(d + [t, h], t) == Some(DhtTask(t.interval, Some(t), Some(h)))
  {
    ByNameUnused(d, t.name);
    ByNameSnoc(d, t, t.name);
    ByNameSnoc(d + [t], h, t.name);
    assert d + [t] + [h] == d + [t, h];
  }

  /**
   * The task `__start_sensor_task` registers for a record whose name has no
   * task yet: none for motion, a onewire task bound to the record for any
   * other temperature record, the DHT22 binding for a DHT22 half, and none
   * for a humidity record of another subtype.
   */
  function NewTask(d: seq<Sensor>, s: Sensor): (r: Option<Task>)
    ensures r.Some? <==>
      || (s.kind == Temperature && s.subtype != Dht22)
      || (s.kind != Motion && s.subtype == Dht22 && (|ByName(d, s.name)| == 1 || |ByName(d, s.name)| == 2))
    ensures r.Some? ==> r.value.interval == s.interval
    ensures r.Some? && r.value.OneWireTask? ==> r.value.sensor == s && s.subtype != Dht22
    ensures r.Some? && r.value.DhtTask? ==> s.subtype == Dht22
    ensures s.kind != Motion && s.subtype == Dht22 ==> r == DhtBinding(d, s)
  {
    match s.kind
    case Motion => None
    case Temperature =>
      if s.subtype == Dht22 then DhtBinding(d, s) else Some(OneWireTask(s.interval, s))
    case Humidity =>
      if s.subtype == Dht22 then DhtBinding(d, s) else None
  }

  /** A motion record never gets a task, and in a paired catalog no task binds a motion record. */
  lemma NewTaskNeverBindsMotion(d: seq<Sensor>, s: Sensor)
    requires DistinctUuids(d) && PairedNames(d)
    ensures s.kind == Motion ==> NewTask(d, s).None?
    ensures NewTask(d, s).Some? ==> forall b :: b in Bound(NewTask(d, s).value) ==> b.kind != Motion
  {
    if NewTask(d, s).Some? && NewTask(d, s).value.DhtTask? && |ByName(d, s.name)| == 2 {
      DhtBindingSlots(d, s);
    }
  }

  /** The records a task is bound to. */
  function Bound(t: Task): (r: set<Sensor>)
    ensures t.OneWireTask? ==> r == {t.sensor}
  {
    match t
    case OneWireTask(_, s) => {s}
    case DhtTask(_, temp, hum) =>
      (if temp.Some? then {temp.value} else {}) + (if hum.Some? then {hum.value} else {})
  }

  // ---------------------------------------------------------------------
  // Stopping

  /**
   * Whether `__stop_sensor_task` retires the task of a record's name: for a
   * DHT22 half, only when no record of the catalog names its line any more;
   * otherwise exactly for temperature records.
   */
  function Retires(d: seq<Sensor>, s: Sensor): (r: bool)
    requires s.subtype == Dht22 ==> |s.gpios| >= 1
    ensures s.subtype == Dht22 ==>
      (r <==> forall t, j :: t in d && 0 <= j < |t.gpios| ==> t.gpios[j].gpio != s.gpios[0].gpio)
    ensures s.subtype != Dht22 ==> (r <==> s.kind == Temperature)
  {
    if s.subtype == Dht22 then
      CountUsesZero(d, s.gpios[0].gpio);
      CountUses(d, s.gpios[0].gpio) == 0
    else s.kind == Temperature
  }

  /**
   * `delete_sensor` stops the task while the record is still in the catalog,
   * so the record's own line keeps the count above zero: the DHT22 task of
   * a deleted half is never retired by the delete.
   */
  lemma {:induction false} DeleteNeverRetiresDht(d: seq<Sensor>, s: Sensor)
    requires s in d && s.subtype == Dht22 && |s.gpios| >= 1
    ensures !Retires(d, s)
  {
    CountUsesPositive(d, s, 0);
  }

  // ---------------------------------------------------------------------
  // The task table after a start or a stop

  /** The task table after `__start_sensor_task(s)`: unchanged when the name already has a task. */
  function AfterStart(d: seq<Sensor>, tasks: map<string, Task>, s: Sensor): map<string, Task>
  {
    if s.name in tasks || NewTask(d, s).None? then tasks else tasks[s.name := NewTask(d, s).value]
  }

  /** The task table after `__stop_sensor_task(s)`. */
  function AfterStop(d: seq<Sensor>, tasks: map<string, Task>, s: Sensor): map<string, Task>
    requires s.subtype == Dht22 ==> |s.gpios| >= 1
  {
    if s.name in tasks && Retires(d, s) then tasks - {s.name} else tasks
  }

  /**
   * The stop rules: nothing happens to a name without a task, to a motion
   * record or to a humidity record of another subtype; a onewire temperature
   * record loses its task; a DHT22 half loses it exactly when no record
   * names its line.
   */
  lemma StopOutcome(d: seq<Sensor>, tasks: map<string, Task>, s: Sensor)
    requires s.subtype == Dht22 ==> |s.gpios| >= 1
    ensures AfterStop(d, tasks, s) == tasks || AfterStop(d, tasks, s) == tasks - {s.name}
    ensures s.name !in tasks ==> AfterStop(d, tasks, s) == tasks
    ensures s.kind == Motion && s.subtype != Dht22 ==> AfterStop(d, tasks, s) == tasks
    ensures s.kind == Humidity && s.subtype != Dht22 ==> AfterStop(d, tasks, s) == tasks
    ensures s.kind == Temperature && s.subtype != Dht22 ==> AfterStop(d, tasks, s) == tasks - {s.name}
    ensures s.subtype == Dht22 && s.name in tasks ==>
      (s.name !in AfterStop(d, tasks, s) <==> CountUses(d, s.gpios[0].gpio) == 0)
  {
  }

  /** Starting twice is starting once, and a start never replaces or removes a task. */
  lemma StartIdempotent(d: seq<Sensor>, tasks: map<string, Task>, s: Sensor)
    ensures AfterStart(d, AfterStart(d, tasks, s), s) == AfterStart(d, tasks, s)
    ensures forall n :: n in tasks ==> n in AfterStart(d, tasks, s) && AfterStart(d, tasks, s)[n] == tasks[n]
    ensures s.kind == Motion ==> AfterStart(d, tasks, s) == tasks
  {
  }

  /**
   * A onewire temperature record renamed while its task runs: the update
   * stops and starts under the new name, so the task registered under the
   * old name stays, beside a new one under the new name.
   */
  lemma RenameKeepsOldTask(d: seq<Sensor>, tasks: map<string, Task>, s: Sensor, oldName: string)
    requires s.kind == Temperature && s.subtype == OneWire
    requires oldName in tasks && s.name != oldName && s.name !in tasks
    ensures var after := AfterStart(d, AfterStop(d, tasks, s), s);
      && oldName in after && after[oldName] == tasks[oldName]
      && after[s.name] == OneWireTask(s.interval, s)
  {
  }

  /** The task table after `_configure` has started the first `k` records of `d`, in catalog order. */
  ghost function StartAll(d: seq<Sensor>, tasks: map<string, Task>, k: nat): map<string, Task>
    requires k <= |d|
    decreases k
  {
    if k == 0 then tasks else AfterStart(d, StartAll(d, tasks, k - 1), d[k - 1])
  }

  /** Record `j` of `d` is named `n` and gets a task of its own. */
  ghost predicate Builds(d: seq<Sensor>, j: int, n: string)
  {
    0 <= j < |d| && d[j].name == n && NewTask(d, d[j]).Some?
  }

  /** Record `j` is the first record named `n` that gets a task. */
  ghost predicate FirstBuilds(d: seq<Sensor>, j: int, n: string)
  {
    Builds(d, j, n) && forall i :: 0 <= i < j ==> !Builds(d, i, n)
  }

  /**
   * Each entry of the table after starting `k` records: a name that had a
   * task keeps it; a new name is there exactly when some started record
   * of that name gets a task, and it holds the task of the first such record.
   */
  lemma {:induction false} StartAllEntry(d: seq<Sensor>, tasks: map<string, Task>, k: nat, n: string)
    requires k <= |d|
    ensures n in tasks ==> n in StartAll(d, tasks, k) && StartAll(d, tasks, k)[n] == tasks[n]
    ensures n !in tasks ==> (n in StartAll(d, tasks, k) <==> exists j :: 0 <= j < k && Builds(d, j, n))
    ensures n !in tasks && n in StartAll(d, tasks, k) ==>
      exists j :: 0 <= j < k && FirstBuilds(d, j, n) && StartAll(d, tasks, k)[n] == NewTask(d, d[j]).value
    decreases k
  {
    if k > 0 {
      StartAllEntry(d, tasks, k - 1, n);
      var before := StartAll(d, tasks, k - 1);
      var after := StartAll(d, tasks, k);
      assert after == AfterStart(d, before, d[k - 1]);
      if n !in tasks {
        if n in before {
          // The entry was made by an earlier record and the start keeps it.
          assert after[n] == before[n];
          var j :| 0 <= j < k - 1 && FirstBuilds(d, j, n) && before[n] == NewTask(d, d[j]).value;
          assert Builds(d, j, n);
        } else if Builds(d, k - 1, n) {
          // This record is the first of its name to get a task.
          assert FirstBuilds(d, k - 1, n);
          assert after[n] == NewTask(d, d[k - 1]).value;
        } else {
          assert n !in after;
          assert forall j :: 0 <= j < k && Builds(d, j, n) ==> j < k - 1;
        }
      }
    }
  }

  // ---------------------------------------------------------------------
  // Releasing lines on delete

  /** `delete_sensor` releases a line that is reserved, or that at most one record names. */
  predicate ReleasesLine(d: seq<Sensor>, reserved: set<Uuid>, g: Gpio)
  {
    g.gpioUuid in reserved || CountUses(d, g.gpio) <= 1
  }

  /**
   * The ledger after the release loop of `delete_sensor` over a record's
   * lines, taken in order, while the catalog still holds the record.
   */
  function ReleaseAll(d: seq<Sensor>, l: Ledger, gpios: seq<Gpio>): (r: Ledger)
    ensures r.granted <= l.granted && r.reserved <= l.reserved
    ensures forall u :: u in l.granted - r.granted ==> exists j :: 0 <= j < |gpios| && gpios[j].gpioUuid == u
    ensures forall j :: 0 <= j < |gpios| && gpios[j].gpioUuid in l.reserved ==>
      gpios[j].gpioUuid !in r.granted && gpios[j].gpioUuid !in r.reserved
    decreases |gpios|
  {
    if gpios == [] then l
    else
      var g := gpios[0];
      var next := if ReleasesLine(d, l.reserved, g) then l.Release(g.gpioUuid) else l;
      var r := ReleaseAll(d, next, gpios[1..]);
      assert forall j :: 1 <= j < |gpios| ==> gpios[j] == gpios[1..][j - 1];
      assert forall u :: u in l.granted - r.granted ==> exists j :: 0 <= j < |gpios| && gpios[j].gpioUuid == u by {
        forall u | u in l.granted - r.granted ensures exists j :: 0 <= j < |gpios| && gpios[j].gpioUuid == u {
          if u in next.granted {
            assert u in next.granted - r.granted;
            var j :| 0 <= j < |gpios[1..]| && gpios[1..][j].gpioUuid == u;
            assert gpios[j + 1].gpioUuid == u;
          } else {
            assert gpios[0].gpioUuid == u;
          }
        }
      }
      r
  }

  /** A line no other record names is released with the record's deletion, and a reserved line always. */
  lemma SingleLineRelease(d: seq<Sensor>, l: Ledger, g: Gpio)
    ensures ReleasesLine(d, l.reserved, g) ==> ReleaseAll(d, l, [g]) == l.Release(g.gpioUuid)
    ensures !ReleasesLine(d, l.reserved, g) ==> ReleaseAll(d, l, [g]) == l
  {
    assert [g][1..] == [];
  }

  /** Two different records naming one line count it at least twice. */
  lemma {:induction false} CountUsesTwo(d: seq<Sensor>, a: Sensor, b: Sensor, name: string)
    requires DistinctUuids(d) && a in d && b in d && a.uuid != b.uuid
    requires |a.gpios| == 1 && a.gpios[0].gpio == name && |b.gpios| >= 1 && b.gpios[0].gpio == name
    ensures CountUses(d, name) >= 2
  {
    var k :| 0 <= k < |d| && d[k] == a;
    CountUsesWithout(d, k, name);
    assert b in Without(d, a.uuid);
    CountUsesPositive(Without(d, a.uuid), b, 0);
    assert CountIn(a.gpios, name) == 1 by {
      assert a.gpios[1..] == [];
    }
  }

  /**
   * Deleting one half of a DHT22 sensor leaves the shared line allocated
   * (it is not reserved and the other half still names it); deleting the
   * remaining half then releases it, provided no third record names the line.
   */
  lemma DhtPairRelease(d: seq<Sensor>, l: Ledger, t: Sensor, h: Sensor)
    requires DistinctUuids(d) && t in d && h in d && DhtPair(t, h) && t.uuid != h.uuid
    requires t.gpios[0].gpioUuid !in l.reserved
    ensures ReleaseAll(d, l, t.gpios) == l
    ensures CountUses(d, t.gpios[0].gpio) == 2 ==>
      ReleaseAll(Without(d, t.uuid), l, h.gpios) == l.Release(t.gpios[0].gpioUuid)
  {
    var g := t.gpios[0];
    assert t.gpios == [g];
    CountUsesTwo(d, t, h, g.gpio);
    SingleLineRelease(d, l, g);
    if CountUses(d, g.gpio) == 2 {
      var k :| 0 <= k < |d| && d[k] == t;
      CountUsesWithout(d, k, g.gpio);
      assert CountIn(t.gpios, g.gpio) == 1 by {
        assert t.gpios[1..] == [];
      }
      SingleLineRelease(Without(d, t.uuid), l, g);
    }
  }
}
