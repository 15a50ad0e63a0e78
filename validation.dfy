/**
 * The parameter checks of the add and update operations. Each operation
 * checks its parameters in a fixed order (an `if ... elif ...` chain) and
 * raises the error of the first check that fails.
 */
module Validation {
  import opened Records
  import opened Catalog

  predicate KnownUnit(unit: string)
  {
    unit == "celsius" || unit == "fahrenheit"
  }

  predicate ReadingOk(interval: Option<int>, offset: Option<real>, unit: string)
  {
    interval.Some? && interval.value > 0 && offset.Some? && offset.value >= 0.0 && KnownUnit(unit)
  }

  /** The checks shared by the temperature families, in order: interval, offset, offset unit. */
  function CheckReading(interval: Option<int>, offset: Option<real>, unit: string): (r: Option<Error>)
    ensures r.None? <==> ReadingOk(interval, offset, unit)
    ensures interval.None? ==> r == Some(MissingParameter("interval"))
    ensures interval.Some? && interval.value <= 0 ==> r == Some(InvalidParameter("interval"))
    ensures interval.Some? && interval.value > 0 ==>
      && (offset.None? ==> r == Some(MissingParameter("offset")))
      && (offset.Some? && offset.value < 0.0 ==> r == Some(InvalidParameter("offset")))
      && (offset.Some? && offset.value >= 0.0 && unit == "" ==> r == Some(MissingParameter("offset_unit")))
      && (offset.Some? && offset.value >= 0.0 && unit != "" && !KnownUnit(unit) ==> r == Some(InvalidParameter("offset_unit")))
  {
    if interval.None? then Some(MissingParameter("interval"))
    else if interval.value <= 0 then Some(InvalidParameter("interval"))
    else if offset.None? then Some(MissingParameter("offset"))
    else if offset.value < 0.0 then Some(InvalidParameter("offset"))
    else if unit == "" then Some(MissingParameter("offset_unit"))
    else if !KnownUnit(unit) then Some(InvalidParameter("offset_unit"))
    else None
  }

  /** `add_temperature_onewire`: name, name in use, device, path, interval, offset, unit, gpio. */
  function ValidateAddOneWire(d: seq<Sensor>, name: string, device: string, path: string,
                              interval: Option<int>, offset: Option<real>, unit: string, gpio: string)
    : (r: Option<Error>)
    ensures r.None? <==>
      && name != "" && !NameUsed(d, name) && device != "" && path != ""
      && ReadingOk(interval, offset, unit) && gpio != ""
    ensures name == "" ==> r == Some(MissingParameter("name"))
    ensures name != "" && NameUsed(d, name) ==> r == Some(InvalidParameter("name"))
    ensures name != "" && !NameUsed(d, name) ==>
      && (device == "" ==> r == Some(MissingParameter("device")))
      && (device != "" && path == "" ==> r == Some(MissingParameter("path")))
      && (device != "" && path != "" && !ReadingOk(interval, offset, unit) ==> r == CheckReading(interval, offset, unit))
      && (device != "" && path != "" && ReadingOk(interval, offset, unit) && gpio == "" ==> r == Some(MissingParameter("gpio")))
  {
    if name == "" then Some(MissingParameter("name"))
    else if NameUsed(d, name) then Some(InvalidParameter("name"))
    else if device == "" then Some(MissingParameter("device"))
    else if path == "" then Some(MissingParameter("path"))
    else if CheckReading(interval, offset, unit).Some? then CheckReading(interval, offset, unit)
    else if gpio == "" then Some(MissingParameter("gpio"))
    else None
  }

  /**
   * `add_motion_generic`: name, name in use, gpio, inverted, gpio already
   * assigned, gpio unknown on this board. (The source repeats the name check
   * twice more; those repeats can never fail.)
   */
  function ValidateAddMotion(d: seq<Sensor>, name: string, gpio: string, inverted: Option<bool>,
                             inUse: set<string>, boardGpios: set<string>)
    : (r: Option<Error>)
    ensures r.None? <==>
      && name != "" && !NameUsed(d, name) && gpio != "" && inverted.Some?
      && gpio !in inUse && gpio in boardGpios
    ensures name == "" ==> r == Some(MissingParameter("name"))
    ensures name != "" && NameUsed(d, name) ==> r == Some(InvalidParameter("name"))
    ensures name != "" && !NameUsed(d, name) ==>
      && (gpio == "" ==> r == Some(MissingParameter("gpio")))
      && (gpio != "" && inverted.None? ==> r == Some(MissingParameter("inverted")))
      && (gpio != "" && inverted.Some? && (gpio in inUse || gpio !in boardGpios) ==> r == Some(InvalidParameter("gpio")))
  {
    if name == "" then Some(MissingParameter("name"))
    else if NameUsed(d, name) then Some(InvalidParameter("name"))
    else if gpio == "" then Some(MissingParameter("gpio"))
    else if inverted.None? then Some(MissingParameter("inverted"))
    else if gpio in inUse then Some(InvalidParameter("gpio"))
    else if gpio !in boardGpios then Some(InvalidParameter("gpio"))
    else None
  }

  /** `add_dht22`: name, name in use, interval, offset, unit, gpio; the line itself is not checked. */
  function ValidateAddDht22(d: seq<Sensor>, name: string, gpio: string,
                            interval: Option<int>, offset: Option<real>, unit: string)
    : (r: Option<Error>)
    ensures r.None? <==>
      name != "" && !NameUsed(d, name) && ReadingOk(interval, offset, unit) && gpio != ""
    ensures name == "" ==> r == Some(MissingParameter("name"))
    ensures name != "" && NameUsed(d, name) ==> r == Some(InvalidParameter("name"))
    ensures name != "" && !NameUsed(d, name) ==>
      && (!ReadingOk(interval, offset, unit) ==> r == CheckReading(interval, offset, unit))
      && (ReadingOk(interval, offset, unit) && gpio == "" ==> r == Some(MissingParameter("gpio")))
  {
    if name == "" then Some(MissingParameter("name"))
    else if NameUsed(d, name) then Some(InvalidParameter("name"))
    else if CheckReading(interval, offset, unit).Some? then CheckReading(interval, offset, unit)
    else if gpio == "" then Some(MissingParameter("gpio"))
    else None
  }

  /** A new name for an existing record is free: unchanged, or used by no record. */
  predicate RenameOk(d: seq<Sensor>, current: Sensor, name: string)
  {
    name == current.name || !NameUsed(d, name)
  }

  /** `update_temperature_onewire`: uuid, record exists, name, name in use by another, interval, offset, unit. */
  function ValidateUpdateOneWire(d: seq<Sensor>, uuid: Uuid, name: string,
                                 interval: Option<int>, offset: Option<real>, unit: string)
    : (r: Option<Error>)
    ensures r.None? <==>
      && uuid != "" && Find(d, uuid).Some? && name != "" && RenameOk(d, Find(d, uuid).value, name)
      && ReadingOk(interval, offset, unit)
    ensures uuid == "" ==> r == Some(MissingParameter("uuid"))
    ensures uuid != "" && Find(d, uuid).None? ==> r == Some(InvalidParameter("uuid"))
    ensures uuid != "" && Find(d, uuid).Some? ==>
      && (name == "" ==> r == Some(MissingParameter("name")))
      && (name != "" && !RenameOk(d, Find(d, uuid).value, name) ==> r == Some(InvalidParameter("name")))
      && (name != "" && RenameOk(d, Find(d, uuid).value, name) ==> r == CheckReading(interval, offset, unit))
  {
    if uuid == "" then Some(MissingParameter("uuid"))
    else if Find(d, uuid).None? then Some(InvalidParameter("uuid"))
    else if name == "" then Some(MissingParameter("name"))
    else if !RenameOk(d, Find(d, uuid).value, name) then Some(InvalidParameter("name"))
    else CheckReading(interval, offset, unit)
  }

  /** `update_motion_generic`: uuid, record exists, name, name in use by another, inverted. */
  function ValidateUpdateMotion(d: seq<Sensor>, uuid: Uuid, name: string, inverted: Option<bool>)
    : (r: Option<Error>)
    ensures r.None? <==>
      uuid != "" && Find(d, uuid).Some? && name != "" && RenameOk(d, Find(d, uuid).value, name) && inverted.Some?
    ensures uuid == "" ==> r == Some(MissingParameter("uuid"))
    ensures uuid != "" && Find(d, uuid).None? ==> r == Some(InvalidParameter("uuid"))
    ensures uuid != "" && Find(d, uuid).Some? ==>
      && (name == "" ==> r == Some(MissingParameter("name")))
      && (name != "" && !RenameOk(d, Find(d, uuid).value, name) ==> r == Some(InvalidParameter("name")))
      && (name != "" && RenameOk(d, Find(d, uuid).value, name) && inverted.None? ==> r == Some(MissingParameter("inverted")))
  {
    if uuid == "" then Some(MissingParameter("uuid"))
    else if Find(d, uuid).None? then Some(InvalidParameter("uuid"))
    else if name == "" then Some(MissingParameter("name"))
    else if !RenameOk(d, Find(d, uuid).value, name) then Some(InvalidParameter("name"))
    else if inverted.None? then Some(MissingParameter("inverted"))
    else None
  }
}
