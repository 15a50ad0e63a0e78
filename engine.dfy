/**
 * The sensors engine (`Sensors` in backend/sensors.py): the catalog of
 * sensor records, the task table keyed by sensor name, what the engine
 * knows of the gpio ledger and the log of published events, with the
 * operations that change them. Replies of the gpio ledger and of the
 * catalog store, probe contents, command results and the clock are
 * parameters.
 */
module Engine {
  import opened Records
  import opened Catalog
  import opened Readings
  import opened Validation
  import opened Tasks
  import opened Ticks

  /** Every record the engine creates names exactly one line. */
  predicate Shaped(s: Sensor)
  {
    |s.gpios| == 1
  }

  predicate TaskShaped(t: Task)
  {
    forall b :: b in Bound(t) ==> Shaped(b)
  }

  /** The record `add_temperature_onewire` stores; keys it does not set keep their defaults. */
  function OneWireRecord(uuid: Uuid, name: string, device: string, path: string, interval: int,
                         offset: real, unit: string, line: Gpio, probe: Option<seq<string>>, now: int): Sensor
  {
    var offsets := ComputeOffset(offset, unit);
    var reading := ReadOneWire(probe, offsets.0, offsets.1);
    Sensor(uuid, name, Temperature, OneWire, [line], interval, device, path,
           offset, unit, offsets.0, offsets.1, reading.0, reading.1, None,
           false, false, 0, now)
  }

  /** The record `add_motion_generic` stores: idle, never triggered. */
  function MotionRecord(uuid: Uuid, name: string, line: Gpio, inverted: bool): Sensor
  {
    Sensor(uuid, name, Motion, Generic, [line], 0, "", "", 0.0, "", 0.0, 0.0, None, None, None,
           false, inverted, 0, 0)
  }

  /** The temperature half `add_dht22` stores, not read yet. */
  function DhtTemperatureRecord(uuid: Uuid, name: string, line: Gpio, interval: int,
                                offset: real, unit: string, now: int): Sensor
  {
    var offsets := ComputeOffset(offset, unit);
    Sensor(uuid, name, Temperature, Dht22, [line], interval, "", "",
           offset, unit, offsets.0, offsets.1, None, None, None, false, false, 0, now)
  }

  /** The humidity half `add_dht22` stores, not read yet. */
  function DhtHumidityRecord(uuid: Uuid, name: string, line: Gpio, interval: int, now: int): Sensor
  {
    Sensor(uuid, name, Humidity, Dht22, [line], interval, "", "", 0.0, "", 0.0, 0.0, None, None, None,
           false, false, 0, now)
  }

  class Sensors {
    var devices: seq<Sensor>
    var tasks: map<string, Task>
    var ledger: Ledger
    var events: seq<Event>
    var boardGpios: set<string>

    ghost predicate Valid()
      reads this
    {
      && DistinctUuids(devices)
      && (forall s :: s in devices ==> Shaped(s))
      && (forall n :: n in tasks ==> TaskShaped(tasks[n]))
      && ledger.reserved <= ledger.granted
    }

    /** The whole state, to say in one clause that an operation left it alone. */
    function State(): (seq<Sensor>, map<string, Task>, Ledger, seq<Event>, set<string>)
      reads this
    {
      (devices, tasks, ledger, events, boardGpios)
    }

    /** A module over an existing catalog and ledger: no task, no event, no known board line yet. */
    constructor (catalog: seq<Sensor>, lines: Ledger)
      requires DistinctUuids(catalog) && (forall s :: s in catalog ==> Shaped(s))
      requires lines.reserved <= lines.granted
      ensures Valid()
      ensures devices == catalog && tasks == map[] && ledger == lines && events == [] && boardGpios == {}
    {
      devices := catalog;
      tasks := map[];
      ledger := lines;
      events := [];
      boardGpios := {};
    }

    // -------------------------------------------------------------------
    // Catalog queries

    /** `__get_gpio_uses`: the number of gpios entries, over all records, that name this line. */
    method GpioUses(gpio: string) returns (uses: nat)
      ensures uses == CountUses(devices, gpio)
    {
      uses := 0;
      var i := 0;
      while i < |devices|
        invariant 0 <= i <= |devices|
        invariant uses == CountUses(devices[..i], gpio)
      {
        var gpios := devices[i].gpios;
        var j := 0;
        while j < |gpios|
          invariant 0 <= j <= |gpios|
          invariant uses == CountUses(devices[..i], gpio) + CountIn(gpios[..j], gpio)
        {
          if gpio == gpios[j].gpio {
            uses := uses + 1;
          }
          assert gpios[..j + 1] == gpios[..j] + [gpios[j]];
          CountInSnoc(gpios[..j], gpios[j], gpio);
          j := j + 1;
        }
        assert gpios[..j] == gpios;
        assert devices[..i + 1] == devices[..i] + [devices[i]];
        CountUsesSnoc(devices[..i], devices[i], gpio);
        i := i + 1;
      }
      assert devices[..i] == devices;
    }

    /** `__search_by_gpio`: the first record, in catalog order, with an entry for this line uuid. */
    method SearchByGpio(gpioUuid: Uuid) returns (found: Option<Sensor>)
      ensures found == FirstWithLine(devices, gpioUuid)
    {
      var d := devices;
      var i := 0;
      while i < |d|
        invariant 0 <= i <= |d|
        invariant FirstWithLine(d[i..], gpioUuid) == FirstWithLine(d, gpioUuid)
      {
        var has := CarriesLine(d[i], gpioUuid);
        assert d[i..][0] == d[i];
        if has {
          return Some(d[i]);
        }
        assert d[i..][1..] == d[i + 1..];
        i := i + 1;
      }
      return None;
    }

    /** The inner scan of `__search_by_gpio`: does this record hold an entry for the line uuid? */
    method CarriesLine(s: Sensor, gpioUuid: Uuid) returns (has: bool)
      ensures has <==> HasLine(s, gpioUuid)
    {
      var j := 0;
      while j < |s.gpios|
        invariant 0 <= j <= |s.gpios|
        invariant forall k :: 0 <= k < j ==> s.gpios[k].gpioUuid != gpioUuid
      {
        if s.gpios[j].gpioUuid == gpioUuid {
          return true;
        }
        j := j + 1;
      }
      return false;
    }

    // -------------------------------------------------------------------
    // Task supervisor

    /** `__prepare_dht_task`: register the DHT22 binding of the record's name, if there is one. */
    method PrepareDhtTask(s: Sensor)
      requires Valid() && Shaped(s)
      modifies this
      ensures Valid()
      ensures devices == old(devices) && ledger == old(ledger) && events == old(events) && boardGpios == old(boardGpios)
      ensures tasks == if DhtBinding(devices, s).Some? then old(tasks)[s.name := DhtBinding(devices, s).value] else old(tasks)
    {
      var found := ByName(devices, s.name);
      if |found| == 2 {
        if found[0].kind == Temperature {
          tasks := tasks[s.name := DhtTask(s.interval, Some(found[0]), Some(found[1]))];
        } else {
          tasks := tasks[s.name := DhtTask(s.interval, Some(found[1]), Some(found[0]))];
        }
      } else if |found| == 1 {
        if s.kind == Temperature {
          tasks := tasks[s.name := DhtTask(s.interval, Some(s), None)];
        } else {
          tasks := tasks[s.name := DhtTask(s.interval, None, Some(s))];
        }
      }
      assert DhtBinding(devices, s).Some? ==> TaskShaped(DhtBinding(devices, s).value);
    }

    /**
     * `__start_sensor_task`. `ok` is false when the source's final
     * `self._tasks[name].start()` raises KeyError: no task was registered
     * for a record that is not a motion record.
     */
    method StartTask(s: Sensor) returns (ok: bool)
      requires Valid() && Shaped(s)
      modifies this
      ensures Valid()
      ensures devices == old(devices) && ledger == old(ledger) && events == old(events) && boardGpios == old(boardGpios)
      ensures tasks == AfterStart(devices, old(tasks), s)
      ensures ok <==> s.kind == Motion || s.name in tasks
    {
      if s.name in tasks {
        return true;
      }
      if s.kind == Motion {
        return true;
      } else if s.kind == Temperature {
        if s.subtype == Dht22 {
          PrepareDhtTask(s);
        } else {
          tasks := tasks[s.name := OneWireTask(s.interval, s)];
        }
      } else if s.subtype == Dht22 {
        PrepareDhtTask(s);
      }
      ok := s.name in tasks;
    }

    /** `__stop_sensor_task`: drop the task of the record's name when `Retires` says so. */
    method StopTask(s: Sensor)
      requires Valid()
      requires s.subtype == Dht22 ==> |s.gpios| >= 1
      modifies this
      ensures Valid()
      ensures devices == old(devices) && ledger == old(ledger) && events == old(events) && boardGpios == old(boardGpios)
      ensures tasks == AfterStop(devices, old(tasks), s)
    {
      if s.name !in tasks {
        return;
      }
      var stop := false;
      if s.subtype == Dht22 {
        var count := GpioUses(s.gpios[0].gpio);
        stop := count == 0;
      } else if s.kind == Temperature {
        stop := true;
      }
      if stop {
        tasks := tasks - {s.name};
      }
    }

    /** Every record before index `k` that is not a motion record has a task under its name. */
    ghost predicate StartedBefore(k: int)
      reads this
    {
      forall j :: 0 <= j < k && j < |devices| && devices[j].kind != Motion ==> devices[j].name in tasks
    }

    /**
     * `_configure`: learn the board's lines, then start the task of every
     * record in catalog order; a start that raises ends the loop. The table
     * is `StartAll` of the records started, all of them when no start
     * raised. A name that had a task keeps it; a new name holds the task
     * built for the first record of that name; when no start raised, the
     * names with a task are the old ones plus those of the records that are
     * not motion records, and no other. (The driver probe is not part of
     * this model.)
     */
    method Configure(gpios: set<string>) returns (ok: bool)
      requires Valid()
      modifies this
      ensures Valid()
      ensures devices == old(devices) && ledger == old(ledger) && events == old(events) && boardGpios == gpios
      ensures ok ==> tasks == StartAll(devices, old(tasks), |devices|)
      ensures !ok ==> exists k :: && 0 <= k < |devices| && devices[k].kind != Motion && devices[k].name !in tasks
                                  && tasks == StartAll(devices, old(tasks), k + 1)
                                  && StartedBefore(k)
      ensures forall n :: n in old(tasks) ==> n in tasks && tasks[n] == old(tasks)[n]
      ensures forall n :: n in tasks && n !in old(tasks) ==>
        exists j :: FirstBuilds(devices, j, n) && tasks[n] == NewTask(devices, devices[j]).value
      ensures ok ==> tasks.Keys == old(tasks).Keys + set s | s in devices && s.kind != Motion :: s.name
    {
      boardGpios := gpios;
      ghost var stop;
      ok, stop := StartInOrder();
      StartedEntries(old(tasks), stop);
      if ok {
        StartedNames(old(tasks));
      } else {
        assert StartAll(devices, old(tasks), (stop - 1) + 1) == tasks;
      }
    }

    /**
     * The loop of `_configure`: start the records in catalog order until one
     * start raises. `stop` records are started; when one raised, it is the
     * last of them and every earlier non-motion record got its task.
     */
    method StartInOrder() returns (ok: bool, ghost stop: nat)
      requires Valid()
      modifies this
      ensures Valid()
      ensures devices == old(devices) && ledger == old(ledger) && events == old(events) && boardGpios == old(boardGpios)
      ensures stop <= |devices| && tasks == StartAll(devices, old(tasks), stop)
      ensures ok ==> stop == |devices| && StartedBefore(stop)
      ensures !ok ==> 0 < stop && devices[stop - 1].kind != Motion && devices[stop - 1].name !in tasks && StartedBefore(stop - 1)
    {
      ok := true;
      var i := 0;
      while i < |devices| && ok
        invariant 0 <= i <= |devices|
        invariant Valid()
        invariant devices == old(devices) && ledger == old(ledger) && events == old(events) && boardGpios == old(boardGpios)
        invariant tasks == StartAll(devices, old(tasks), i)
        invariant ok ==> StartedBefore(i)
        invariant !ok ==> 0 < i && devices[i - 1].kind != Motion && devices[i - 1].name !in tasks && StartedBefore(i - 1)
      {
        ok := StartTask(devices[i]);
        i := i + 1;
      }
      stop := i;
    }

    /** Every entry of the table after `k` starts, as `StartAllEntry` gives it. */
    lemma StartedEntries(before: map<string, Task>, k: nat)
      requires k <= |devices| && tasks == StartAll(devices, before, k)
      ensures forall n :: n in before ==> n in tasks && tasks[n] == before[n]
      ensures forall n :: n in tasks && n !in before ==>
        exists j :: FirstBuilds(devices, j, n) && tasks[n] == NewTask(devices, devices[j]).value
    {
      forall n | n in before
        ensures n in tasks && tasks[n] == before[n]
      {
        StartAllEntry(devices, before, k, n);
      }
      forall n | n in tasks && n !in before
        ensures exists j :: FirstBuilds(devices, j, n) && tasks[n] == NewTask(devices, devices[j]).value
      {
        StartAllEntry(devices, before, k, n);
      }
    }

    /** After every start, the new names are exactly those of the records that got a task. */
    lemma StartedNames(before: map<string, Task>)
      requires tasks == StartAll(devices, before, |devices|)
      requires StartedBefore(|devices|)
      ensures tasks.Keys == before.Keys + set s | s in devices && s.kind != Motion :: s.name
    {
      forall n | n in tasks && n !in before
        ensures exists s :: s in devices && s.kind != Motion && s.name == n
      {
        StartAllEntry(devices, before, |devices|, n);
        var j :| 0 <= j < |devices| && Builds(devices, j, n);
        assert devices[j] in devices;
      }
      forall n | n in before
        ensures n in tasks
      {
        StartAllEntry(devices, before, |devices|, n);
      }
      forall s | s in devices && s.kind != Motion
        ensures s.name in tasks
      {
        var k :| 0 <= k < |devices| && devices[k] == s;
      }
    }

    // -------------------------------------------------------------------
    // Delete

    /**
     * `delete_sensor`. The task is stopped while the record is still in the
     * catalog; then each of the record's lines is checked with the ledger
     * (`queryReply(i)` answers for the i-th line) and released
     * (`releaseReply(i)`) unless it is not reserved and more than one record
     * names it; last, the catalog store removes the record (`removed`). A
     * failed ledger call or removal raises CommandError and leaves the steps
     * already taken in place.
     */
    method DeleteSensor(uuid: Uuid, queryReply: nat -> Ack, releaseReply: nat -> Ack, removed: bool)
      returns (r: Result<bool>)
      requires Valid()
      modifies this
      ensures Valid()
      ensures events == old(events) && boardGpios == old(boardGpios)
      ensures uuid == "" ==> r == Err(MissingParameter("uuid")) && State() == old(State())
      ensures uuid != "" && Find(old(devices), uuid).None? ==> r == Err(InvalidParameter("uuid")) && State() == old(State())
      ensures uuid != "" && Find(old(devices), uuid).Some? ==>
        var s := Find(old(devices), uuid).value;
        var g := s.gpios[0];
        var release := ReleasesLine(old(devices), old(ledger).reserved, g);
        var released := if release then old(ledger).Release(g.gpioUuid) else old(ledger);
        && tasks == AfterStop(old(devices), old(tasks), s)
        && (!queryReply(0).Done? ==>
              r == Err(AckError(queryReply(0))) && devices == old(devices) && ledger == old(ledger))
        && (queryReply(0).Done? && release && !releaseReply(0).Done? ==>
              r == Err(AckError(releaseReply(0))) && devices == old(devices) && ledger == old(ledger))
        && (queryReply(0).Done? && (release ==> releaseReply(0).Done?) && !removed ==>
              r == Err(CommandError("Unable to delete sensor")) && devices == old(devices) && ledger == released)
        && (r.Ok? <==> queryReply(0).Done? && (release ==> releaseReply(0).Done?) && removed)
        && (r.Ok? ==> r.value && devices == Without(old(devices), uuid) && ledger == released
                      && ledger == ReleaseAll(old(devices), old(ledger), s.gpios))
      ensures old(PairedNames(devices)) ==> PairedNames(devices)
    {
      var sensor := Find(devices, uuid);
      if uuid == "" {
        return Err(MissingParameter("uuid"));
      } else if sensor.None? {
        return Err(InvalidParameter("uuid"));
      }
      var s := sensor.value;
      assert Shaped(s);
      ghost var release := ReleasesLine(devices, ledger.reserved, s.gpios[0]);
      StopTask(s);
      var i := 0;
      while i < |s.gpios|
        invariant 0 <= i <= |s.gpios|
        invariant Valid()
        invariant devices == old(devices) && events == old(events) && boardGpios == old(boardGpios)
        invariant tasks == AfterStop(old(devices), old(tasks), s)
        invariant ReleaseAll(devices, ledger, s.gpios[i..]) == ReleaseAll(old(devices), old(ledger), s.gpios)
        invariant i == 0 ==> ledger == old(ledger)
        invariant i == 1 ==> queryReply(0).Done? && (release ==> releaseReply(0).Done?)
      {
        var g := s.gpios[i];
        var query := queryReply(i);
        if !query.Done? {
          return Err(AckError(query));
        }
        var isReserved := g.gpioUuid in ledger.reserved;
        var release := true;
        if !isReserved {
          var uses := GpioUses(g.gpio);
          if uses > 1 {
            release := false;
          }
        }
        assert s.gpios[i..][1..] == s.gpios[i + 1..];
        if release {
          var reply := releaseReply(i);
          if !reply.Done? {
            return Err(AckError(reply));
          }
          ledger := ledger.Release(g.gpioUuid);
        }
        i := i + 1;
      }
      SingleLineRelease(old(devices), old(ledger), s.gpios[0]);
      assert s.gpios[0..] == [s.gpios[0]] && s.gpios[1..] == [];
      if !removed {
        return Err(CommandError("Unable to delete sensor"));
      }
      WithoutDistinct(devices, uuid);
      devices := Without(devices, uuid);
      return Ok(true);
    }

    // -------------------------------------------------------------------
    // Add

    /**
     * `add_temperature_onewire`: validate, then reserve the line and store
     * the record (`ReserveAndStoreOneWire`).
     */
    method AddTemperatureOneWire(name: string, device: string, path: string, interval: Option<int>,
                                 offset: Option<real>, unit: string, gpio: string,
                                 reply: Grant, probe: Option<seq<string>>, newUuid: Uuid, inserted: bool, now: int)
      returns (r: Result<Sensor>)
      requires Valid()
      requires Find(devices, newUuid).None?
      modifies this
      ensures Valid()
      ensures events == old(events) && boardGpios == old(boardGpios)
      ensures ValidateAddOneWire(old(devices), name, device, path, interval, offset, unit, gpio).Some? ==>
        r == Err(ValidateAddOneWire(old(devices), name, device, path, interval, offset, unit, gpio).value)
        && State() == old(State())
      ensures ValidateAddOneWire(old(devices), name, device, path, interval, offset, unit, gpio).None? ==>
        && (reply.Denied? ==> r == Err(CommandError(reply.message)) && State() == old(State()))
        && (reply.Granted? && !inserted ==>
              && r == Err(CommandError("Unable to add temperature sensor"))
              && devices == old(devices) && tasks == old(tasks) && ledger == old(ledger).Release(reply.lineUuid))
        && (reply.Granted? && inserted ==>
              var s := OneWireRecord(newUuid, name, device, path, interval.value, offset.value, unit,
                                     Gpio(gpio, reply.lineUuid, reply.pin), probe, now);
              && r == Ok(s)
              && devices == old(devices) + [s]
              && tasks == AfterStart(devices, old(tasks), s)
              && ledger == Ledger(old(ledger).granted + {reply.lineUuid}, old(ledger).reserved + {reply.lineUuid}))
      ensures old(PairedNames(devices)) ==> PairedNames(devices)
    {
      var invalid := ValidateAddOneWire(devices, name, device, path, interval, offset, unit, gpio);
      if invalid.Some? {
        return Err(invalid.value);
      }
      if reply.Denied? {
        return Err(CommandError(reply.message));
      }
      var s := OneWireRecord(newUuid, name, device, path, interval.value, offset.value, unit,
                             Gpio(gpio, reply.lineUuid, reply.pin), probe, now);
      r := ReserveAndStoreOneWire(s, inserted);
    }

    /**
     * The part of `add_temperature_onewire` after the ledger reserved the
     * line of the validated record `s`: store it (`inserted`), start its
     * task. A store failure releases the line again. The start cannot fail
     * for this record, so the source's rollback after it is never reached.
     */
    method ReserveAndStoreOneWire(s: Sensor, inserted: bool) returns (r: Result<Sensor>)
      requires Valid() && Find(devices, s.uuid).None? && !NameUsed(devices, s.name)
      requires s.kind == Temperature && s.subtype == OneWire && |s.gpios| == 1
      modifies this
      ensures Valid()
      ensures events == old(events) && boardGpios == old(boardGpios)
      ensures !inserted ==>
        && r == Err(CommandError("Unable to add temperature sensor"))
        && devices == old(devices) && tasks == old(tasks) && ledger == old(ledger).Release(s.gpios[0].gpioUuid)
      ensures inserted ==>
        && r == Ok(s)
        && devices == old(devices) + [s]
        && tasks == AfterStart(devices, old(tasks), s)
        && ledger == Ledger(old(ledger).granted + {s.gpios[0].gpioUuid}, old(ledger).reserved + {s.gpios[0].gpioUuid})
      ensures old(PairedNames(devices)) ==> PairedNames(devices)
    {
      var line := s.gpios[0].gpioUuid;
      ledger := Ledger(ledger.granted + {line}, ledger.reserved + {line});
      if !inserted {
        ledger := ledger.Release(line);
        return Err(CommandError("Unable to add temperature sensor"));
      }
      AppendDistinct(devices, s);
      if PairedNames(devices) {
        PairedAppendFresh(devices, s);
      }
      devices := devices + [s];
      assert NewTask(devices, s) == Some(OneWireTask(s.interval, s));
      var ok := StartTask(s);
      assert ok;
      return Ok(s);
    }

    /**
     * `add_motion_generic`: validate against the lines the ledger reports
     * as assigned (`inUse`) and the board's lines, add the line as an input
     * (`reply`), store the record. A store failure releases the line again.
     * Motion sensors get no task.
     */
    method AddMotionGeneric(name: string, gpio: string, inverted: Option<bool>, inUse: set<string>,
                            reply: Grant, newUuid: Uuid, inserted: bool)
      returns (r: Result<Sensor>)
      requires Valid()
      requires Find(devices, newUuid).None?
      modifies this
      ensures Valid()
      ensures events == old(events) && boardGpios == old(boardGpios) && tasks == old(tasks)
      ensures ValidateAddMotion(old(devices), name, gpio, inverted, inUse, boardGpios).Some? ==>
        r == Err(ValidateAddMotion(old(devices), name, gpio, inverted, inUse, boardGpios).value)
        && State() == old(State())
      ensures ValidateAddMotion(old(devices), name, gpio, inverted, inUse, boardGpios).None? ==>
        && (reply.Denied? ==> r == Err(CommandError(reply.message)) && State() == old(State()))
        && (reply.Granted? && !inserted ==>
              && r == Err(CommandError("Unable to add sensor"))
              && devices == old(devices) && ledger == old(ledger).Release(reply.lineUuid))
        && (reply.Granted? && inserted ==>
              var s := MotionRecord(newUuid, name, Gpio(gpio, reply.lineUuid, reply.pin), inverted.value);
              && r == Ok(s)
              && devices == old(devices) + [s]
              && ledger == Ledger(old(ledger).granted + {reply.lineUuid}, old(ledger).reserved))
      ensures old(PairedNames(devices)) ==> PairedNames(devices)
    {
      var invalid := ValidateAddMotion(devices, name, gpio, inverted, inUse, boardGpios);
      if invalid.Some? {
        return Err(invalid.value);
      }
      if reply.Denied? {
        return Err(CommandError(reply.message));
      }
      ledger := Ledger(ledger.granted + {reply.lineUuid}, ledger.reserved);
      var s := MotionRecord(newUuid, name, Gpio(gpio, reply.lineUuid, reply.pin), inverted.value);
      if !inserted {
        ledger := ledger.Release(reply.lineUuid);
        return Err(CommandError("Unable to add sensor"));
      }
      AppendDistinct(devices, s);
      if PairedNames(devices) {
        PairedAppendFresh(devices, s);
      }
      devices := devices + [s];
      return Ok(s);
    }

    /**
     * `add_dht22`: validate, add the line as an input (`reply`), then store
     * both halves and start their task (`StoreDhtPair`).
     */
    method AddDht22(name: string, gpio: string, interval: Option<int>, offset: Option<real>, unit: string,
                    reply: Grant, tempUuid: Uuid, tempInserted: bool, humUuid: Uuid, humInserted: bool, now: int)
      returns (r: Result<(Sensor, Sensor)>)
      requires Valid()
      requires tempUuid != humUuid && Find(devices, tempUuid).None? && Find(devices, humUuid).None?
      modifies this
      ensures Valid()
      ensures events == old(events) && boardGpios == old(boardGpios)
      ensures ValidateAddDht22(old(devices), name, gpio, interval, offset, unit).Some? ==>
        r == Err(ValidateAddDht22(old(devices), name, gpio, interval, offset, unit).value)
        && State() == old(State())
      ensures ValidateAddDht22(old(devices), name, gpio, interval, offset, unit).None? ==>
        && (reply.Denied? ==> r == Err(CommandError(reply.message)) && State() == old(State()))
        && (reply.Granted? && !(tempInserted && humInserted) ==>
              && r.Err? && r.error.CommandError?
              && devices == old(devices) && tasks == old(tasks) && ledger == old(ledger).Release(reply.lineUuid))
        && (reply.Granted? && tempInserted && humInserted ==>
              var line := Gpio(gpio, reply.lineUuid, reply.pin);
              var t := DhtTemperatureRecord(tempUuid, name, line, interval.value, offset.value, unit, now);
              var h := DhtHumidityRecord(humUuid, name, line, interval.value, now);
              && r == Ok((t, h))
              && devices == old(devices) + [t, h]
              && tasks == AfterStart(devices, old(tasks), t)
              && ledger == Ledger(old(ledger).granted + {reply.lineUuid}, old(ledger).reserved))
      ensures r.Ok? ==> DhtPair(r.value.0, r.value.1) && r.value.0.name == name && r.value.1.name == name
                        && r.value.0.kind == Temperature && r.value.1.kind == Humidity
      ensures old(PairedNames(devices)) ==> PairedNames(devices)
    {
      var invalid := ValidateAddDht22(devices, name, gpio, interval, offset, unit);
      if invalid.Some? {
        return Err(invalid.value);
      }
      if reply.Denied? {
        return Err(CommandError(reply.message));
      }
      var line := Gpio(gpio, reply.lineUuid, reply.pin);
      var t := DhtTemperatureRecord(tempUuid, name, line, interval.value, offset.value, unit, now);
      var h := DhtHumidityRecord(humUuid, name, line, interval.value, now);
      r := StoreDhtPair(t, h, tempInserted, humInserted);
    }

    /**
     * The part of `add_dht22` after the ledger granted the line of the
     * validated halves `t` and `h`: store the temperature half
     * (`tempInserted`), then the humidity half (`humInserted`), then start
     * the task, which binds both. A store failure releases the line and
     * deletes the half already stored. The start cannot fail here (both
     * halves are in the catalog), so the rollback after it is never reached.
     */
    method StoreDhtPair(t: Sensor, h: Sensor, tempInserted: bool, humInserted: bool)
      returns (r: Result<(Sensor, Sensor)>)
      requires Valid() && t.uuid != h.uuid && Find(devices, t.uuid).None? && Find(devices, h.uuid).None?
      requires !NameUsed(devices, t.name) && t.name == h.name
      requires t.kind == Temperature && h.kind == Humidity && DhtPair(t, h)
      modifies this
      ensures Valid()
      ensures events == old(events) && boardGpios == old(boardGpios)
      ensures !tempInserted ==>
        && r == Err(CommandError("Unable to add DHT22 temperature sensor"))
        && devices == old(devices) && tasks == old(tasks) && ledger == old(ledger).Release(t.gpios[0].gpioUuid)
      ensures tempInserted && !humInserted ==>
        && r == Err(CommandError("Unable to add DHT22 humidity sensor"))
        && devices == old(devices) && tasks == old(tasks) && ledger == old(ledger).Release(t.gpios[0].gpioUuid)
      ensures tempInserted && humInserted ==>
        && r == Ok((t, h))
        && devices == old(devices) + [t, h]
        && tasks == AfterStart(devices, old(tasks), t)
        && (t.name !in old(tasks) ==> tasks == old(tasks)[t.name := DhtTask(t.interval, Some(t), Some(h))])
        && ledger == Ledger(old(ledger).granted + {t.gpios[0].gpioUuid}, old(ledger).reserved)
      ensures old(PairedNames(devices)) ==> PairedNames(devices)
    {
      var line := t.gpios[0].gpioUuid;
      ledger := Ledger(ledger.granted + {line}, ledger.reserved);
      if !tempInserted {
        ledger := ledger.Release(line);
        return Err(CommandError("Unable to add DHT22 temperature sensor"));
      }
      if !humInserted {
        ghost var before := devices;
        AppendDistinct(devices, t);
        devices := devices + [t];
        ledger := ledger.Release(line);
        WithoutLast(before, t);
        devices := Without(devices, t.uuid);
        return Err(CommandError("Unable to add DHT22 humidity sensor"));
      }
      InsertPair(t, h);
      return Ok((t, h));
    }

    /** The successful tail of `add_dht22`: both records are in the catalog and the task is started. */
    method InsertPair(t: Sensor, h: Sensor)
      requires Valid() && t.uuid != h.uuid && Find(devices, t.uuid).None? && Find(devices, h.uuid).None?
      requires !NameUsed(devices, t.name) && t.name == h.name
      requires t.kind == Temperature && h.kind == Humidity && DhtPair(t, h)
      modifies this
      ensures Valid()
      ensures events == old(events) && boardGpios == old(boardGpios) && ledger == old(ledger)
      ensures devices == old(devices) + [t, h]
      ensures tasks == AfterStart(devices, old(tasks), t)
      ensures t.name !in old(tasks) ==> tasks == old(tasks)[t.name := DhtTask(t.interval, Some(t), Some(h))]
      ensures old(PairedNames(devices)) ==> PairedNames(devices)
    {
      ghost var before := devices;
      AppendDistinct(devices, t);
      devices := devices + [t];
      AppendDistinct(devices, h);
      devices := devices + [h];
      assert devices == before + [t, h];
      if PairedNames(before) {
        PairedAppendPair(before, t, h);
      }
      FreshPairBinding(before, t, h);
      var ok := StartTask(t);
      assert ok;
    }

    // -------------------------------------------------------------------
    // Update

    /**
     * `update_temperature_onewire`: validate, rewrite the record's name,
     * interval and offsets, persist it (`persisted`), then stop and start the
     * task under the NEW name. When the start raises KeyError the update is
     * already persisted and the caller gets a CommandError.
     */
    method UpdateTemperatureOneWire(uuid: Uuid, name: string, interval: Option<int>, offset: Option<real>,
                                    unit: string, persisted: bool)
      returns (r: Result<bool>)
      requires Valid()
      modifies this
      ensures Valid()
      ensures ledger == old(ledger) && events == old(events) && boardGpios == old(boardGpios)
      ensures ValidateUpdateOneWire(old(devices), uuid, name, interval, offset, unit).Some? ==>
        r == Err(ValidateUpdateOneWire(old(devices), uuid, name, interval, offset, unit).value)
        && State() == old(State())
      ensures ValidateUpdateOneWire(old(devices), uuid, name, interval, offset, unit).None? ==>
        var current := Find(old(devices), uuid).value;
        var offsets := ComputeOffset(offset.value, unit);
        var s := current.(name := name, interval := interval.value, offset := offset.value, offsetUnit := unit,
                          offsetCelsius := offsets.0, offsetFahrenheit := offsets.1);
        && (!persisted ==> r == Err(CommandError("Unable to update sensor")) && State() == old(State()))
        && (persisted ==>
              && devices == Replaced(old(devices), s)
              && tasks == AfterStart(devices, AfterStop(devices, old(tasks), s), s)
              && (r.Ok? <==> s.kind == Motion || s.name in tasks)
              && (r.Err? ==> r.error.CommandError?))
      ensures r.Ok? ==> r.value
      ensures old(PairedNames(devices)) ==> PairedNames(devices)
    {
      var invalid := ValidateUpdateOneWire(devices, uuid, name, interval, offset, unit);
      if invalid.Some? {
        return Err(invalid.value);
      }
      var current := Find(devices, uuid).value;
      var offsets := ComputeOffset(offset.value, unit);
      var s := current.(name := name, interval := interval.value, offset := offset.value, offsetUnit := unit,
                        offsetCelsius := offsets.0, offsetFahrenheit := offsets.1);
      if !persisted {
        return Err(CommandError("Unable to update sensor"));
      }
      Rewrite(current, s);
      StopTask(s);
      var ok := StartTask(s);
      if !ok {
        return Err(CommandError("KeyError"));
      }
      return Ok(true);
    }

    /**
     * `update_motion_generic`: validate, rename the record's line in the
     * ledger (`gpioReply`), then rename the record and set `inverted`, and
     * persist it (`persisted`). The task table is not touched.
     */
    method UpdateMotionGeneric(uuid: Uuid, name: string, inverted: Option<bool>, gpioReply: Ack, persisted: bool)
      returns (r: Result<Sensor>)
      requires Valid()
      modifies this
      ensures Valid()
      ensures tasks == old(tasks) && ledger == old(ledger) && events == old(events) && boardGpios == old(boardGpios)
      ensures ValidateUpdateMotion(old(devices), uuid, name, inverted).Some? ==>
        r == Err(ValidateUpdateMotion(old(devices), uuid, name, inverted).value) && State() == old(State())
      ensures ValidateUpdateMotion(old(devices), uuid, name, inverted).None? ==>
        var s := Find(old(devices), uuid).value.(name := name, inverted := inverted.value);
        && (!gpioReply.Done? ==> r == Err(AckError(gpioReply)) && State() == old(State()))
        && (gpioReply.Done? && !persisted ==> r == Err(CommandError("Unable to update sensor")) && State() == old(State()))
        && (gpioReply.Done? && persisted ==> r == Ok(s) && devices == Replaced(old(devices), s))
      ensures old(PairedNames(devices)) ==> PairedNames(devices)
    {
      var invalid := ValidateUpdateMotion(devices, uuid, name, inverted);
      if invalid.Some? {
        return Err(invalid.value);
      }
      var current := Find(devices, uuid).value;
      if !gpioReply.Done? {
        return Err(AckError(gpioReply));
      }
      var s := current.(name := name, inverted := inverted.value);
      if !persisted {
        return Err(CommandError("Unable to update sensor"));
      }
      Rewrite(current, s);
      return Ok(s);
    }

    /** `_update_device` on a record of the catalog with a version of the same shape and a free or unchanged name. */
    method Rewrite(current: Sensor, s: Sensor)
      requires Valid() && current in devices && current.uuid == s.uuid && SameShape(current, s)
      requires s.name == current.name || !NameUsed(devices, s.name)
      modifies this
      ensures Valid()
      ensures devices == Replaced(old(devices), s)
      ensures tasks == old(tasks) && ledger == old(ledger) && events == old(events) && boardGpios == old(boardGpios)
      ensures old(PairedNames(devices)) ==> PairedNames(devices)
    {
      ReplacedDistinct(devices, s);
      ReplacedMembers(devices, s);
      if PairedNames(devices) {
        PairedReplaced(devices, current, s);
      }
      devices := Replaced(devices, s);
    }

    // -------------------------------------------------------------------
    // Motion

    /**
     * `event_received`: startup events, and gpio edges flagged as the
     * line's initial state, are dropped; a gpio edge is matched to the first
     * record with an entry for the event's line uuid and handed to the
     * motion machine when that record is a motion record.
     */
    method EventReceived(e: GpioEvent, now: int)
      requires Valid()
      modifies this
      ensures Valid()
      ensures tasks == old(tasks) && ledger == old(ledger) && boardGpios == old(boardGpios)
      ensures var found := FirstWithLine(old(devices), e.deviceId);
        if e.startup || !(e.event.GpioOn? || e.event.GpioOff?) || e.init || found.None? || found.value.kind != Motion
        then devices == old(devices) && events == old(events)
        else
          var step := MotionStep(found.value, e, now);
          && devices == (if step.1.Some? then Replaced(old(devices), step.0) else old(devices))
          && events == old(events) + (if step.1.Some? then [step.1.value] else [])
      ensures old(PairedNames(devices)) ==> PairedNames(devices)
    {
      if e.startup {
        return;
      }
      if e.event.GpioOn? || e.event.GpioOff? {
        if e.init {
          return;
        }
        var found := SearchByGpio(e.deviceId);
        if found.Some? && found.value.kind == Motion {
          ProcessMotionSensor(e, found.value, now);
        }
      }
    }

    /** `__process_motion_sensor`, on a record of the catalog. */
    method ProcessMotionSensor(e: GpioEvent, s: Sensor, now: int)
      requires Valid() && s in devices
      modifies this
      ensures Valid()
      ensures tasks == old(tasks) && ledger == old(ledger) && boardGpios == old(boardGpios)
      ensures var step := MotionStep(s, e, now);
        && devices == (if step.1.Some? then Replaced(old(devices), step.0) else old(devices))
        && events == old(events) + (if step.1.Some? then [step.1.value] else [])
      ensures old(PairedNames(devices)) ==> PairedNames(devices)
    {
      if e.event.GpioOn? {
        if !s.on {
          var next := s.(lastUpdate := now, on := true);
          Rewrite(s, next);
          events := events + [MotionOn(s.name, now, s.uuid)];
        }
      } else if e.event.GpioOff? {
        if s.on {
          var next := s.(lastUpdate := now, on := false, lastDuration := e.duration);
          Rewrite(s, next);
          events := events + [MotionOff(s.name, e.duration, now, s.uuid)];
        }
      }
    }

    // -------------------------------------------------------------------
    // Polling ticks

    /** One tick of the onewire task registered under `name` (`__read_temperature`). */
    method ReadTemperatureTick(name: string, probe: Option<seq<string>>, now: int)
      requires Valid() && name in tasks && tasks[name].OneWireTask?
      modifies this
      ensures Valid()
      ensures ledger == old(ledger) && boardGpios == old(boardGpios)
      ensures var o := OneWireTick(old(devices), old(tasks)[name], probe, now);
        devices == o.devices && tasks == old(tasks)[name := o.task] && events == old(events) + o.events
    {
      var task := tasks[name];
      var s := task.sensor;
      if s.subtype == OneWire {
        var reading := ReadOneWire(probe, s.offsetCelsius, s.offsetFahrenheit);
        if reading.0.Some? && reading.1.Some? {
          assert task.sensor in Bound(task);
          StoreOneWireReading(name, s.(celsius := reading.0, fahrenheit := reading.1, lastUpdate := now),
                              reading.0.value, reading.1.value);
        }
      }
    }

    /** The tail of a onewire tick that got a reading: task record, catalog record, event. */
    method StoreOneWireReading(name: string, s: Sensor, celsius: real, fahrenheit: real)
      requires Valid() && name in tasks && tasks[name].OneWireTask? && Shaped(s)
      modifies this
      ensures Valid()
      ensures ledger == old(ledger) && boardGpios == old(boardGpios)
      ensures tasks == old(tasks)[name := OneWireTask(old(tasks)[name].interval, s)]
      ensures devices == Replaced(old(devices), s)
      ensures events == old(events) + [TemperatureUpdate(s.name, celsius, fahrenheit, s.lastUpdate, s.uuid)]
    {
      tasks := tasks[name := OneWireTask(tasks[name].interval, s)];
      StoreReading(s);
      events := events + [TemperatureUpdate(s.name, celsius, fahrenheit, s.lastUpdate, s.uuid)];
    }

    /** One tick of the DHT22 task registered under `name` (`_read_dht`). */
    method ReadDhtTick(name: string, res: CommandResult, now: int)
      requires Valid() && name in tasks && tasks[name].DhtTask?
      modifies this
      ensures Valid()
      ensures ledger == old(ledger) && boardGpios == old(boardGpios)
      ensures var o := DhtTick(old(devices), old(tasks)[name], res, now);
        devices == o.devices && tasks == old(tasks)[name := o.task] && events == old(events) + o.events
    {
      var task := tasks[name];
      assert task.temperature.Some? ==> task.temperature.value in Bound(task);
      assert task.humidity.Some? ==> task.humidity.value in Bound(task);
      var v := DhtReading(task, res);
      var temperature, humidity := StoreDhtReading(task.temperature, task.humidity, v, now);
      assert TaskShaped(DhtTask(task.interval, temperature, humidity));
      tasks := tasks[name := DhtTask(task.interval, temperature, humidity)];
    }

    /** Both halves of `_read_dht`, temperature first. */
    method StoreDhtReading(t: Option<Sensor>, h: Option<Sensor>, v: DhtValues, now: int)
      returns (temperature: Option<Sensor>, humidity: Option<Sensor>)
      requires Valid() && (t.Some? ==> Shaped(t.value)) && (h.Some? ==> Shaped(h.value))
      modifies this
      ensures Valid() && (temperature.Some? ==> Shaped(temperature.value)) && (humidity.Some? ==> Shaped(humidity.value))
      ensures tasks == old(tasks) && ledger == old(ledger) && boardGpios == old(boardGpios)
      ensures var first := TemperatureHalf(old(devices), t, v, now);
        var second := HumidityHalf(first.devices, h, v, now);
        && devices == second.devices && temperature == first.half && humidity == second.half
        && events == old(events) + (first.events + second.events)
    {
      ghost var e0 := events;
      temperature := StoreTemperatureHalf(t, v, now);
      ghost var e1 := events;
      humidity := StoreHumidityHalf(h, v, now);
      assert events == e1 + (events[|e1|..]);
      assert e1 == e0 + e1[|e0|..];
    }

    /** The temperature half of `_read_dht`: store the values, publish when the catalog write succeeds. */
    method StoreTemperatureHalf(t: Option<Sensor>, v: DhtValues, now: int) returns (next: Option<Sensor>)
      requires Valid() && (t.Some? ==> Shaped(t.value))
      modifies this
      ensures Valid() && (next.Some? ==> Shaped(next.value))
      ensures tasks == old(tasks) && ledger == old(ledger) && boardGpios == old(boardGpios)
      ensures var o := TemperatureHalf(old(devices), t, v, now);
        devices == o.devices && next == o.half && events == old(events) + o.events
    {
      next := t;
      if t.Some? && v.celsius.Some? && v.fahrenheit.Some? {
        var s := t.value.(celsius := v.celsius, fahrenheit := v.fahrenheit, lastUpdate := now);
        next := Some(s);
        var present := Find(devices, s.uuid).Some?;
        StoreReading(s);
        if present {
          events := events + [TemperatureUpdate(s.name, v.celsius.value, v.fahrenheit.value, now, s.uuid)];
        }
      }
    }

    /** The humidity half of `_read_dht`: store the value, publish when the catalog write succeeds. */
    method StoreHumidityHalf(h: Option<Sensor>, v: DhtValues, now: int) returns (next: Option<Sensor>)
      requires Valid() && (h.Some? ==> Shaped(h.value))
      modifies this
      ensures Valid() && (next.Some? ==> Shaped(next.value))
      ensures tasks == old(tasks) && ledger == old(ledger) && boardGpios == old(boardGpios)
      ensures var o := HumidityHalf(old(devices), h, v, now);
        devices == o.devices && next == o.half && events == old(events) + o.events
    {
      next := h;
      if h.Some? && v.humidity.Some? {
        var s := h.value.(humidity := v.humidity, lastUpdate := now);
        next := Some(s);
        var present := Find(devices, s.uuid).Some?;
        StoreReading(s);
        if present {
          events := events + [HumidityUpdate(s.name, v.humidity.value, now, s.uuid)];
        }
      }
    }

    /** `_update_device` from a tick: the record with the reading's uuid, if still there, becomes the reading. */
    method StoreReading(s: Sensor)
      requires Shaped(s)
      requires DistinctUuids(devices) && (forall t :: t in devices ==> Shaped(t))
      modifies this`devices
      ensures devices == Replaced(old(devices), s)
      ensures DistinctUuids(devices) && (forall t :: t in devices ==> Shaped(t))
    {
      ReplacedDistinct(devices, s);
      ReplacedMembers(devices, s);
      devices := Replaced(devices, s);
    }
  }
}
