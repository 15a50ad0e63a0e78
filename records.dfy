/**
 * The values the sensors engine works with: sensor records as the catalog
 * stores them, polling-task descriptors, published events, inbound gpio
 * events, the replies of the gpio ledger and the errors raised to callers.
 */
module Records {

  datatype Option<+T> = None | Some(value: T)

  /** The three exception classes the engine raises; each names what failed. */
  datatype Error =
    | MissingParameter(field: string)
    | InvalidParameter(field: string)
    | CommandError(message: string)

  datatype Result<+T> = Ok(value: T) | Err(error: Error)

  type Uuid = string

  /** `type` of a sensor record. */
  datatype Kind = Temperature | Humidity | Motion

  /** `subtype` of a sensor record. */
  datatype Subtype = OneWire | Dht22 | Generic

  /** One entry of a record's `gpios` list: line name, line uuid in the ledger, physical pin. */
  datatype Gpio = Gpio(gpio: string, gpioUuid: Uuid, pin: int)

  /**
   * A sensor record. It carries every key any sensor family stores; a key a
   * family does not use keeps its default value.
   */
  datatype Sensor = Sensor(
    uuid: Uuid,
    name: string,
    kind: Kind,
    subtype: Subtype,
    gpios: seq<Gpio>,
    interval: int,
    // onewire temperature probe
    device: string,
    path: string,
    // temperature
    offset: real,
    offsetUnit: string,
    offsetCelsius: real,
    offsetFahrenheit: real,
    celsius: Option<real>,
    fahrenheit: Option<real>,
    // humidity
    humidity: Option<real>,
    // motion
    on: bool,
    inverted: bool,
    lastDuration: int,
    lastUpdate: int)

  /**
   * A polling task: its interval and the record(s) it is bound to. The task
   * holds its own copy of the record(s), which its ticks update.
   * A DHT22 task is bound to [temperature, humidity], either slot possibly empty.
   */
  datatype Task =
    | OneWireTask(interval: int, sensor: Sensor)
    | DhtTask(interval: int, temperature: Option<Sensor>, humidity: Option<Sensor>)

  /** Events the engine publishes on the bus. */
  datatype Event =
    | TemperatureUpdate(sensor: string, celsius: real, fahrenheit: real, lastUpdate: int, deviceId: Uuid)
    | HumidityUpdate(sensor: string, humidity: real, lastUpdate: int, deviceId: Uuid)
    | MotionOn(sensor: string, lastUpdate: int, deviceId: Uuid)
    | MotionOff(sensor: string, duration: int, lastUpdate: int, deviceId: Uuid)

  /** Names of inbound events; only the two gpio edges matter to the engine. */
  datatype EventName = GpioOn | GpioOff | OtherEvent(name: string)

  /** An inbound event: startup flag, name, `params.init`, `params.duration` and `device_id`. */
  datatype GpioEvent = GpioEvent(startup: bool, event: EventName, init: bool, duration: int, deviceId: Uuid)

  /** Reply of the ledger to a request for a line (`reserve_gpio`, `add_gpio`). */
  datatype Grant = Granted(lineUuid: Uuid, pin: int) | Denied(message: string)

  /**
   * What the engine knows of the gpio ledger: the line uuids granted to
   * sensors, and those among them reserved for a bus driver (onewire).
   */
  datatype Ledger = Ledger(granted: set<Uuid>, reserved: set<Uuid>)
  {
    /** `delete_gpio`: the line is neither allocated nor reserved any more. */
    function Release(line: Uuid): (l: Ledger)
      ensures line !in l.granted && line !in l.reserved
      ensures l.granted + {line} >= granted && l.reserved + {line} >= reserved
      ensures l.granted <= granted && l.reserved <= reserved
    {
      Ledger(granted - {line}, reserved - {line})
    }
  }

  /** Reply of the ledger to `is_reserved_gpio`, `delete_gpio` and `update_gpio`. */
  datatype Ack = Done | NoResponse | Refused(message: string)

  /** The CommandError an unsuccessful Ack turns into. */
  function AckError(a: Ack): (e: Error)
    requires !a.Done?
    ensures e.CommandError?
    ensures a.Refused? ==> e.message == a.message
  {
    match a
    case NoResponse => CommandError("No response")
    case Refused(m) => CommandError(m)
  }
}
