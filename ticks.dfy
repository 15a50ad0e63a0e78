/**
 * What one polling tick and one motion edge do to a record: the onewire
 * tick (`__read_temperature`), the DHT22 tick (`_read_dht`) and the two-state
 * motion machine (`__process_motion_sensor`). Each returns the catalog after
 * its writes, the task's copy of its record(s) and the events it publishes.
 */
module Ticks {
  import opened Records
  import opened Catalog
  import opened Readings

  /** The catalog, the task's bound record(s) and the events published after one tick. */
  datatype TickOutcome = TickOutcome(devices: seq<Sensor>, task: Task, events: seq<Event>)

  // ---------------------------------------------------------------------
  // Onewire temperature tick

  /** The probe reading of a onewire task, or nothing for a record of another subtype. */
  function OneWireReading(task: Task, probe: Option<seq<string>>): (Option<real>, Option<real>)
    requires task.OneWireTask?
  {
    var s := task.sensor;
    if s.subtype == OneWire then ReadOneWire(probe, s.offsetCelsius, s.offsetFahrenheit) else (None, None)
  }

  /**
   * `__read_temperature`: a valid reading is stored in the task's record,
   * written to the catalog and published. The event does not depend on the
   * catalog write: it is published even when the record is gone.
   */
  function OneWireTick(d: seq<Sensor>, task: Task, probe: Option<seq<string>>, now: int): (r: TickOutcome)
    requires task.OneWireTask?
    ensures r.task.OneWireTask? && r.task.interval == task.interval
    ensures |r.events| <= 1
    ensures r.events != [] <==> OneWireReading(task, probe).0.Some?
    ensures r.events == [] ==> r.devices == d && r.task == task
    ensures r.events != [] ==>
      var s := task.sensor;
      var v := OneWireReading(task, probe);
      && r.events[0] == TemperatureUpdate(s.name, v.0.value, v.1.value, now, s.uuid)
      && r.task.sensor == s.(celsius := v.0, fahrenheit := v.1, lastUpdate := now)
      && r.devices == Replaced(d, r.task.sensor)
  {
    var v := OneWireReading(task, probe);
    if v.0.Some? && v.1.Some? then
      var s := task.sensor.(celsius := v.0, fahrenheit := v.1, lastUpdate := now);
      TickOutcome(Replaced(d, s), OneWireTask(task.interval, s),
                  [TemperatureUpdate(s.name, v.0.value, v.1.value, now, s.uuid)])
    else TickOutcome(d, task, [])
  }

  /** A onewire task whose record was deleted still publishes its readings. */
  lemma OneWirePublishesForDeletedRecord(d: seq<Sensor>, task: Task, probe: Option<seq<string>>, now: int)
    requires task.OneWireTask? && Find(d, task.sensor.uuid).None?
    requires OneWireReading(task, probe).0.Some?
    ensures OneWireTick(d, task, probe, now).devices == d
    ensures |OneWireTick(d, task, probe, now).events| == 1
  {
    var s := task.sensor;
    var v := OneWireReading(task, probe);
    var s' := s.(celsius := v.0, fahrenheit := v.1, lastUpdate := now);
    assert Replaced(d, s') == d;
  }

  // ---------------------------------------------------------------------
  // DHT22 tick

  /** Some bound record of the DHT task is a DHT22 half (`_read_dht`'s guard). */
  predicate DhtGuard(task: Task)
    requires task.DhtTask?
  {
    (task.temperature.Some? && task.temperature.value.subtype == Dht22)
    || (task.humidity.Some? && task.humidity.value.subtype == Dht22)
  }

  /** The values one DHT22 tick reads, through the temperature record if bound, else the humidity one. */
  function DhtReading(task: Task, res: CommandResult): DhtValues
    requires task.DhtTask?
  {
    if DhtGuard(task) then
      var bound := if task.temperature.Some? then task.temperature.value else task.humidity.value;
      InterpretDht22(bound.gpios, res)
    else NoValues
  }

  /** The catalog, one half's record and the event published for that half. */
  datatype HalfOutcome = HalfOutcome(devices: seq<Sensor>, half: Option<Sensor>, events: seq<Event>)

  /** The temperature half updates when it is bound and both temperature values were read. */
  predicate TemperatureUpdates(t: Option<Sensor>, v: DhtValues)
  {
    t.Some? && v.celsius.Some? && v.fahrenheit.Some?
  }

  /** The humidity half updates when it is bound and the humidity value was read. */
  predicate HumidityUpdates(h: Option<Sensor>, v: DhtValues)
  {
    h.Some? && v.humidity.Some?
  }

  /** The temperature half of `_read_dht`. */
  function TemperatureHalf(d: seq<Sensor>, t: Option<Sensor>, v: DhtValues, now: int): (r: HalfOutcome)
    ensures !TemperatureUpdates(t, v) ==> r == HalfOutcome(d, t, [])
    ensures TemperatureUpdates(t, v) ==>
      && r.half == Some(t.value.(celsius := v.celsius, fahrenheit := v.fahrenheit, lastUpdate := now))
      && r.devices == Replaced(d, r.half.value)
      && r.events == if Find(d, t.value.uuid).Some?
                     then [TemperatureUpdate(t.value.name, v.celsius.value, v.fahrenheit.value, now, t.value.uuid)]
                     else []
  {
    if TemperatureUpdates(t, v) then
      var s := t.value.(celsius := v.celsius, fahrenheit := v.fahrenheit, lastUpdate := now);
      HalfOutcome(Replaced(d, s), Some(s),
                  if Find(d, s.uuid).Some? then [TemperatureUpdate(s.name, v.celsius.value, v.fahrenheit.value, now, s.uuid)] else [])
    else HalfOutcome(d, t, [])
  }

  /** The humidity half of `_read_dht`. */
  function HumidityHalf(d: seq<Sensor>, h: Option<Sensor>, v: DhtValues, now: int): (r: HalfOutcome)
    ensures !HumidityUpdates(h, v) ==> r == HalfOutcome(d, h, [])
    ensures HumidityUpdates(h, v) ==>
      && r.half == Some(h.value.(humidity := v.humidity, lastUpdate := now))
      && r.devices == Replaced(d, r.half.value)
      && r.events == if Find(d, h.value.uuid).Some? then [HumidityUpdate(h.value.name, v.humidity.value, now, h.value.uuid)] else []
  {
    if HumidityUpdates(h, v) then
      var s := h.value.(humidity := v.humidity, lastUpdate := now);
      HalfOutcome(Replaced(d, s), Some(s),
                  if Find(d, s.uuid).Some? then [HumidityUpdate(s.name, v.humidity.value, now, s.uuid)] else [])
    else HalfOutcome(d, h, [])
  }

  /** A half's catalog write keeps the set of uuids the catalog holds. */
  lemma HalfKeepsRecords(d: seq<Sensor>, next: seq<Sensor>, half: Option<Sensor>)
    requires next == d || (half.Some? && next == Replaced(d, half.value))
    ensures forall u :: Find(next, u).Some? <==> Find(d, u).Some?
  {
    if next != d {
      forall u ensures Find(next, u).Some? <==> Find(d, u).Some? {
        ReplacedFind(d, half.value, u);
      }
    }
  }

  /**
   * `_read_dht`: each bound half with values is updated in the task and
   * written to the catalog; its event is published only when the write
   * succeeds, that is when the catalog still holds the record.
   */
  function DhtTick(d: seq<Sensor>, task: Task, res: CommandResult, now: int): (r: TickOutcome)
    requires task.DhtTask?
    ensures r.task.DhtTask? && r.task.interval == task.interval
    ensures |r.events| <= 2
    ensures DhtReading(task, res) == NoValues ==> r == TickOutcome(d, task, [])
    ensures !TemperatureUpdates(task.temperature, DhtReading(task, res)) ==> r.task.temperature == task.temperature
    ensures !HumidityUpdates(task.humidity, DhtReading(task, res)) ==> r.task.humidity == task.humidity
    ensures var v := DhtReading(task, res);
      TemperatureUpdates(task.temperature, v) ==>
        r.task.temperature == Some(task.temperature.value.(celsius := v.celsius, fahrenheit := v.fahrenheit, lastUpdate := now))
    ensures var v := DhtReading(task, res);
      HumidityUpdates(task.humidity, v) ==>
        r.task.humidity == Some(task.humidity.value.(humidity := v.humidity, lastUpdate := now))
    ensures var v := DhtReading(task, res);
      var afterTemperature := if TemperatureUpdates(task.temperature, v) then Replaced(d, r.task.temperature.value) else d;
      r.devices == if HumidityUpdates(task.humidity, v) then Replaced(afterTemperature, r.task.humidity.value) else afterTemperature
  {
    var v := DhtReading(task, res);
    var first := TemperatureHalf(d, task.temperature, v, now);
    var second := HumidityHalf(first.devices, task.humidity, v, now);
    TickOutcome(second.devices, DhtTask(task.interval, first.half, second.half), first.events + second.events)
  }

  /** A DHT22 tick neither adds nor removes catalog records: it only rewrites the ones it finds. */
  lemma DhtTickKeepsRecords(d: seq<Sensor>, task: Task, res: CommandResult, now: int)
    requires task.DhtTask?
    ensures forall u :: Find(DhtTick(d, task, res, now).devices, u).Some? <==> Find(d, u).Some?
  {
    var v := DhtReading(task, res);
    var first := TemperatureHalf(d, task.temperature, v, now);
    var second := HumidityHalf(first.devices, task.humidity, v, now);
    HalfKeepsRecords(d, first.devices, first.half);
    HalfKeepsRecords(first.devices, second.devices, second.half);
  }

  /**
   * What a DHT22 tick publishes, in terms of the catalog it starts from:
   * the temperature event, then the humidity event, each for a half that
   * updates and whose record the catalog holds. With a full reading and
   * both records present, that is two events, temperature first.
   */
  lemma DhtTickEvents(d: seq<Sensor>, task: Task, res: CommandResult, now: int)
    requires task.DhtTask?
    ensures var v := DhtReading(task, res);
      var t := task.temperature;
      var h := task.humidity;
      DhtTick(d, task, res, now).events ==
        (if TemperatureUpdates(t, v) && Find(d, t.value.uuid).Some?
         then [TemperatureUpdate(t.value.name, v.celsius.value, v.fahrenheit.value, now, t.value.uuid)] else [])
        + (if HumidityUpdates(h, v) && Find(d, h.value.uuid).Some?
           then [HumidityUpdate(h.value.name, v.humidity.value, now, h.value.uuid)] else [])
    ensures var v := DhtReading(task, res);
      var r := DhtTick(d, task, res, now);
      TemperatureUpdates(task.temperature, v) && HumidityUpdates(task.humidity, v)
      && Find(d, task.temperature.value.uuid).Some? && Find(d, task.humidity.value.uuid).Some? ==>
        |r.events| == 2 && r.events[0].TemperatureUpdate? && r.events[1].HumidityUpdate?
  {
    var v := DhtReading(task, res);
    var first := TemperatureHalf(d, task.temperature, v, now);
    HalfKeepsRecords(d, first.devices, first.half);
  }

  /**
   * Unlike the onewire tick, a DHT22 tick publishes only for records the
   * catalog still holds.
   */
  lemma DhtTickPublishesOnlyPresent(d: seq<Sensor>, task: Task, res: CommandResult, now: int)
    requires task.DhtTask?
    ensures var r := DhtTick(d, task, res, now);
      forall k :: 0 <= k < |r.events| ==> Find(d, r.events[k].deviceId).Some?
  {
    var v := DhtReading(task, res);
    var first := TemperatureHalf(d, task.temperature, v, now);
    var second := HumidityHalf(first.devices, task.humidity, v, now);
    HalfKeepsRecords(d, first.devices, first.half);
    var r := DhtTick(d, task, res, now);
    assert r.events == first.events + second.events;
    forall k | 0 <= k < |r.events| ensures Find(d, r.events[k].deviceId).Some? {
      if k < |first.events| {
        assert r.events[k] == first.events[k];
      } else {
        assert r.events[k] == second.events[k - |first.events|];
      }
    }
  }

  // ---------------------------------------------------------------------
  // Motion

  /**
   * `__process_motion_sensor`: a rising edge turns an idle sensor on, a
   * falling edge turns an active sensor off and records the duration; any
   * other edge, or an edge that does not change the state, does nothing.
   */
  function MotionStep(s: Sensor, e: GpioEvent, now: int): (r: (Sensor, Option<Event>))
    ensures r.1.None? <==> r.0 == s
    ensures r.0.on == (if e.event.GpioOn? then true else if e.event.GpioOff? then false else s.on)
    ensures r.0 == s.(on := r.0.on, lastUpdate := r.0.lastUpdate, lastDuration := r.0.lastDuration)
    ensures r.1.Some? ==> r.0.lastUpdate == now && r.1.value.deviceId == s.uuid && r.1.value.sensor == s.name
    ensures r.1.Some? ==> r.1.value.lastUpdate == now
    ensures r.1.Some? && r.1.value.MotionOn? ==> !s.on && e.event.GpioOn?
    ensures r.1.Some? && r.1.value.MotionOff? ==> s.on && e.event.GpioOff? && r.1.value.duration == e.duration == r.0.lastDuration
    ensures r.1.Some? ==> r.1.value.MotionOn? || r.1.value.MotionOff?
    ensures !(r.1.Some? && r.1.value.MotionOff?) ==> r.0.lastDuration == s.lastDuration
  {
    match e.event
    case GpioOn =>
      if !s.on then (s.(lastUpdate := now, on := true), Some(MotionOn(s.name, now, s.uuid)))
      else (s, None)
    case GpioOff =>
      if s.on then
        (s.(lastUpdate := now, on := false, lastDuration := e.duration),
         Some(MotionOff(s.name, e.duration, now, s.uuid)))
      else (s, None)
    case OtherEvent(_) => (s, None)
  }

  /** A second rising edge changes nothing and publishes nothing. */
  lemma MotionOnIdempotent(s: Sensor, e1: GpioEvent, e2: GpioEvent, now1: int, now2: int)
    requires e1.event.GpioOn? && e2.event.GpioOn?
    ensures MotionStep(MotionStep(s, e1, now1).0, e2, now2) == (MotionStep(s, e1, now1).0, None)
  {
  }

  /** From idle, a rising then a falling edge publishes one on-event then one off-event and ends idle. */
  lemma MotionCycle(s: Sensor, on: GpioEvent, off: GpioEvent, t1: int, t2: int)
    requires !s.on && on.event.GpioOn? && off.event.GpioOff?
    ensures var a := MotionStep(s, on, t1);
      var b := MotionStep(a.0, off, t2);
      && a.1 == Some(MotionOn(s.name, t1, s.uuid))
      && b.1 == Some(MotionOff(s.name, off.duration, t2, s.uuid))
      && !b.0.on && b.0.lastDuration == off.duration && b.0.lastUpdate == t2
  {
  }
}
