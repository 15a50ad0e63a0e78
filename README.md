# Sensors engine of cleepmod-sensors, in Dafny

This project models the `Sensors` module of cleepmod-sensors (`backend/sensors.py`). That module keeps the catalog of sensor records for:

- onewire DS18B20 temperature probes;
- generic motion detectors;
- DHT22 temperature/humidity sensors. A DHT22 sensor is stored as two records, one temperature and one humidity, that share one name and one gpio line.

The module runs one polling task per sensor name and asks the gpios module (the "ledger") for lines. It publishes `sensors.*` events when readings or motion states change.

The model has one stateful class, `Engine.Sensors`, with these fields:

- `devices`: the catalog, a sequence. The source keeps it in a dict whose iteration order Python does not specify, and "first record holding a line" and the loop order of `_configure` depend on that order. The model fixes one order, that of insertion, and proves its results for that order;
- `tasks`: the task table, keyed by sensor name. A task holds its own copy of its bound record(s);
- `ledger`: the granted and reserved line uuids;
- `events`: the log of published events;
- `boardGpios`: the board's line names.

Replies of the outside world are parameters:

- the ledger's answers (`Grant`, `Ack`);
- whether the catalog store accepted an insert, update or delete;
- the fresh uuids the store assigns;
- the probe file's lines and the DHT22 command's result;
- the clock (`now`).

Catalog writes whose result the source ignores, or uses only to decide whether to publish, are computed by the model.

The code is split into these modules:

- `Records`: the values;
- `Catalog`: queries and catalog invariants;
- `Readings`: offsets, the `t=` probe parse, DHT22 result interpretation;
- `Validation`: the `if/elif` parameter chains;
- `Tasks`: the task supervisor's decisions and line release on delete;
- `Ticks`: one polling tick and one motion edge, as functions;
- `Engine`: the class.

Behaviour kept as the code has it, where the design intent differs:

- `__start_sensor_task` ends with `self._tasks[name].start()` even when it registered nothing. This happens for a humidity record that is not a DHT22 half, and for a DHT22 name held by 0 or more than 2 records. The call then raises KeyError. `StartTask` returns `ok == false` in exactly that case, and an update that hits it reports a CommandError after the record is already persisted.
- `delete_sensor` stops the task while the record is still in the catalog. The DHT22 line count therefore includes the record being deleted, so delete never retires a DHT22 task (`Tasks.DeleteNeverRetiresDht`).
- The onewire add's rollback calls a `_delete_sensor` method that does not exist. That rollback is only reached when the task start raises, and the start cannot raise for the record just added, so it is unreachable. The same holds for the DHT22 add's record rollback once both halves are stored.
- `update_temperature_onewire` stops and starts under the new name on a rename. The task of the old name stays (`Tasks.RenameKeepsOldTask`).
- `update_motion_generic` does not stop or restart anything. This follows the code.
- The onewire tick publishes its event even when the record was deleted meanwhile (`Ticks.OneWirePublishesForDeletedRecord`). The DHT22 tick publishes a half only when the catalog update succeeds, that is, when the record is still there.
- A task keeps its own copy of its records, so a tick can write a stale name back into the catalog after a rename. For that reason "names are unique except for DHT22 pairs" (`Catalog.PairedNames`) is not part of `Valid()`. Instead, every add, update, delete and motion operation is proved to preserve it.

## Model

| member | source | states |
|---|---|---|
| Records.Ledger.Release | backend/sensors.py:258-264 | after `delete_gpio` the line is neither granted nor reserved, and no other line changes |
| Records.AckError | backend/sensors.py:244-247 | a missing reply or an error reply becomes a CommandError carrying the reply's message |
| Catalog.Find | backend/sensors.py:230-234 | `_get_device`: the found record is in the catalog with that uuid; none is found exactly when no record has it |
| Catalog.ByName | backend/sensors.py:311 | `_search_devices('name', …)`: a record is in the result iff it is in the catalog and carries the name; never longer than the catalog |
| Catalog.ByNameCount | backend/sensors.py:311 | each record carrying the name occurs in the result as often as in the catalog, every other record never |
| Catalog.ByNameSnoc | backend/sensors.py:311 | appending a record extends the result by that record exactly when it carries the name, so the result follows catalog order |
| Catalog.ByNameDistinct | backend/sensors.py:311 | over a catalog with distinct uuids, the records found have distinct uuids |
| Catalog.Replaced | backend/sensors.py:523 | `_update_device`: same length; the record with the uuid is replaced, every other one is kept in place |
| Catalog.Without | backend/sensors.py:269 | `_delete_device`: exactly the records with another uuid remain |
| Catalog.FirstWithLine | backend/sensors.py:141-149 | none iff no record holds the line uuid; otherwise the record returned holds it and no earlier record does |
| Catalog.CountUsesZero | backend/sensors.py:178-184 | the use count of a line is 0 iff no gpios entry of any record names it |
| Catalog.CountUsesWithout | backend/sensors.py:252 | removing a record lowers a line's count by the number of entries that record has for it |
| Catalog.ByNameAtMostTwo | backend/sensors.py:311-324 | in a catalog whose names are paired, at most two records share a name |
| Catalog.WithoutLast | backend/sensors.py:986-987 | deleting the record just appended restores the catalog |
| Catalog.ReplacedFind | backend/sensors.py:1105 | an update by uuid neither adds nor removes a uuid |
| Catalog.PairedAppendPair | backend/sensors.py:961-977 | adding both DHT22 halves under a free name keeps names unique except for DHT22 pairs |
| Catalog.PairedReplaced | backend/sensors.py:697-703 | a rewrite that keeps type, subtype and lines, with the same or a free name, keeps names paired |
| Readings.ComputeOffset | backend/sensors.py:545-553 | 0 gives (0, 0); otherwise the component in the given unit is the offset and the pair is a Celsius/Fahrenheit pair |
| Readings.OffsetRoundTrip | backend/sensors.py:548-553 | a celsius offset converted to fahrenheit and back is recovered |
| Readings.ZeroOffsetIsNotConverted | backend/sensors.py:545-547 | the zero offset is the one pair that is not a conversion of one temperature |
| Readings.FindMarker | backend/sensors.py:473 | `find('t=')`: the first index of the marker, or none when the line has none |
| Readings.ParseInt | backend/sensors.py:484 | a value iff the token has integer syntax; the value is the decimal value of the digits, negated after a `-` |
| Readings.ParseIntRoundTrip | backend/sensors.py:484 | the decimal text of any integer, with a `-` when negative, parses back to that integer |
| Readings.OneWireToken | backend/sensors.py:473-476 | a token iff there is a second line with a `t=` in it |
| Readings.ReadOneWire | backend/sensors.py:468-502 | both values or neither; values iff the file exists, has a marker, and the token is parsable and not a sentinel; celsius = token/1000 + celsius offset; fahrenheit is its conversion + fahrenheit offset |
| Readings.SentinelLineRejected | backend/sensors.py:476-481 | a line whose token is `85000` or `-62`, whatever whitespace follows, yields no value |
| Readings.InterpretDht22 | backend/sensors.py:1138-1164 | a misconfigured gpios list, a failed or killed command, unreadable output or a non-empty error give no value; otherwise the fields are read in order and the first absent key stops the reading |
| Readings.DhtFullReading | backend/sensors.py:1148-1159 | a clean report with three numbers gives all three values |
| Validation.CheckReading | backend/sensors.py:581-592 | no error iff interval > 0, offset ≥ 0 and the unit is celsius or fahrenheit; checked in the order interval, offset, unit, each failure giving its own missing/invalid error for that field |
| Validation.ValidateAddOneWire | backend/sensors.py:573-594 | no error iff every parameter is present and valid and the name is free; the checks run name, name in use, device, path, the reading checks, gpio, and the first failing one gives its field's error |
| Validation.ValidateAddMotion | backend/sensors.py:736-751 | no error iff name free, gpio given, inverted given, gpio not assigned and on the board; the checks run in that order and the first failing one gives its field's error |
| Validation.ValidateAddDht22 | backend/sensors.py:907-924 | no error iff name free, reading parameters valid and gpio given; the checks run in that order and the first failing one gives its field's error |
| Validation.ValidateUpdateOneWire | backend/sensors.py:670-690 | no error iff the uuid is known, the new name is given and is its own or free, and the reading parameters are valid; the checks run in that order and the first failing one gives its field's error |
| Validation.ValidateUpdateMotion | backend/sensors.py:807-819 | no error iff the uuid is known, the new name is given and is its own or free, and inverted is given; the checks run in that order and the first failing one gives its field's error |
| Tasks.DhtBinding | backend/sensors.py:311-324 | a task iff one or two records carry the name; two records fill both slots; one record sits in its own kind's slot; bound records carry the name |
| Tasks.DhtBindingSlots | backend/sensors.py:312-317 | with both halves present the task is [temperature, humidity], both from the catalog and forming a DHT22 pair |
| Tasks.DhtBindingOrderFree | backend/sensors.py:312-317 | the binding does not depend on which half the catalog lists first |
| Tasks.FreshPairBinding | backend/sensors.py:961-980 | the start after `add_dht22` binds the two new halves, temperature first |
| Tasks.NewTask | backend/sensors.py:285-297 | which records get a task: non-DHT22 temperature records a onewire task on the record itself; a DHT22 half that is not a motion record exactly its `DhtBinding`; motion and other humidity records none |
| Tasks.NewTaskNeverBindsMotion | backend/sensors.py:285-287 | a motion record gets no task, and in a paired catalog no task binds a motion record |
| Tasks.Retires | backend/sensors.py:339-354 | a DHT22 task is retired iff no record names its line; otherwise exactly temperature records are retired |
| Tasks.StopOutcome | backend/sensors.py:334-360 | a stop removes the name or nothing; nothing for an absent name, motion or non-DHT22 humidity; always for non-DHT22 temperature; for DHT22 iff the line count is 0 |
| Tasks.DeleteNeverRetiresDht | backend/sensors.py:339-345 | with the record still in the catalog (stop at line 237 precedes removal at line 269) a DHT22 task is never retired |
| Tasks.StartIdempotent | backend/sensors.py:279-287 | starting twice equals starting once; a start never replaces or removes a task; motion changes nothing |
| Tasks.StartAllEntry | backend/sensors.py:86-89 | after starting records in order, a name with a task keeps it; a new name is present iff some started record of that name gets a task, and holds the task of the first such record |
| Tasks.RenameKeepsOldTask | backend/sensors.py:697-708 | after a rename the old name's task remains, beside a new one under the new name |
| Tasks.ReleaseAll | backend/sensors.py:240-265 | the ledger only shrinks, only by the record's lines, and every reserved line of the record is released |
| Tasks.SingleLineRelease | backend/sensors.py:251-264 | a line is released iff it is reserved or at most one record names it |
| Tasks.DhtPairRelease | backend/sensors.py:250-256 | deleting one DHT22 half keeps the shared line; deleting the other half afterwards releases it |
| Ticks.OneWireTick | backend/sensors.py:515-531 | at most one event, published iff a reading exists; otherwise nothing changes; the task copy and the catalog get the reading |
| Ticks.OneWirePublishesForDeletedRecord | backend/sensors.py:523-528 | a reading for a deleted record leaves the catalog alone yet still publishes |
| Ticks.DhtTick | backend/sensors.py:1093-1118 | at most two events; no values change nothing; a bound half with its values read gets them and `now` in the task and is written back to the catalog by uuid, temperature half first; a half that is unbound or has no value is not updated |
| Ticks.DhtTickEvents | backend/sensors.py:1097-1115 | the events are the temperature event then the humidity event, each exactly when its half updates and the catalog holds its record; a full reading with both records present publishes two events, temperature first |
| Ticks.DhtTickKeepsRecords | backend/sensors.py:1105-1114 | a DHT22 tick neither adds nor removes catalog records |
| Ticks.DhtTickPublishesOnlyPresent | backend/sensors.py:1105-1115 | every event a DHT22 tick publishes is for a record the catalog holds |
| Ticks.MotionStep | backend/sensors.py:857-883 | on while off turns on and publishes one on-event at now; off while on turns off, records the duration and publishes one off-event; only the off-edge touches the duration; anything else changes nothing |
| Ticks.MotionOnIdempotent | backend/sensors.py:857-869 | a second rising edge changes nothing and publishes nothing |
| Ticks.MotionCycle | backend/sensors.py:857-883 | from idle, on then off publishes on then off and ends idle with the duration recorded |
| Engine.Sensors.constructor | backend/sensors.py:53-67 | a module over a catalog and ledger starts with no task and no event |
| Engine.Sensors.GpioUses | backend/sensors.py:168-184 | the counting loop returns the line's use count over the catalog |
| Engine.Sensors.SearchByGpio | backend/sensors.py:131-149 | the nested loop returns the first record holding the line uuid |
| Engine.Sensors.CarriesLine | backend/sensors.py:143-146 | the inner loop finds the uuid iff the record holds it |
| Engine.Sensors.PrepareDhtTask | backend/sensors.py:303-324 | registers the DHT22 binding when there is one, else nothing; the rest of the state is unchanged |
| Engine.Sensors.StartTask | backend/sensors.py:275-301 | task table becomes `AfterStart`; ok iff motion or a task exists for the name (otherwise the source raises KeyError) |
| Engine.Sensors.StopTask | backend/sensors.py:326-360 | task table becomes `AfterStop`; nothing else changes |
| Engine.Sensors.Configure | backend/sensors.py:75-89 | remembers the board lines; the task table is `StartAll` over every record on success, over the records up to the first failing one otherwise; existing tasks kept; each new name holds the task built for its first record; on success the names are the old ones plus exactly those of the non-motion records |
| Engine.Sensors.StartInOrder | backend/sensors.py:86-89 | the start loop: the table is `StartAll` of the records started; all of them unless one raised, and then that record is the last one started, has no task, and every earlier non-motion record has one |
| Engine.Sensors.StartedEntries | backend/sensors.py:86-89 | a table built by `StartAll` keeps the old tasks, and each new name holds its first record's task |
| Engine.Sensors.StartedNames | backend/sensors.py:86-89 | when every non-motion record got a task, the names are the old ones plus exactly the non-motion records' names |
| Engine.Sensors.DeleteSensor | backend/sensors.py:220-273 | empty uuid MissingParameter and unknown uuid InvalidParameter, with no change; otherwise the task is stopped first; a missing or error `is_reserved_gpio` reply fails with its error and no ledger change; a needed `delete_gpio` that fails does the same; a refused removal gives "Unable to delete sensor" with the line already released; success iff all three succeed, and then the record is removed and the ledger is `ReleaseAll` |
| Engine.Sensors.AddTemperatureOneWire | backend/sensors.py:556-654 | validation error with no change; a denied reservation with no change; a store failure releases the line; success appends the record with its first reading, reserves the line and starts its task |
| Engine.Sensors.ReserveAndStoreOneWire | backend/sensors.py:609-649 | after the reservation: store failure releases the line; success appends and starts the task |
| Engine.Sensors.AddMotionGeneric | backend/sensors.py:720-793 | validation error with no change; denied line with no change; store failure releases the line; success appends an idle record; the task table never changes |
| Engine.Sensors.AddDht22 | backend/sensors.py:889-994 | validation error with no change; denied line with no change; any store failure releases the line and leaves the catalog and tasks unchanged; success appends the two halves of one DHT22 pair and starts their task |
| Engine.Sensors.StoreDhtPair | backend/sensors.py:938-989 | each store failure gives its message, releases the line and deletes the half already stored; success appends [temperature, humidity] and binds both in one task |
| Engine.Sensors.InsertPair | backend/sensors.py:961-980 | both halves appended and one task binding both registered under the name |
| Engine.Sensors.UpdateTemperatureOneWire | backend/sensors.py:656-714 | validation error with no change; a failed persist with no change; otherwise the record gets name, interval and offsets, the task is stopped and started under the new name, and a KeyError becomes a CommandError |
| Engine.Sensors.UpdateMotionGeneric | backend/sensors.py:795-844 | validation error with no change; a failed line update or persist with no change; otherwise the record gets name and inverted; tasks untouched |
| Engine.Sensors.Rewrite | backend/sensors.py:703 | the catalog update keeps distinct uuids, record shapes and paired names |
| Engine.Sensors.EventReceived | backend/sensors.py:99-129 | startup, non-gpio and init events change nothing; a gpio edge runs `MotionStep` on the first record holding the line when it is a motion record |
| Engine.Sensors.ProcessMotionSensor | backend/sensors.py:846-883 | the catalog and the event log follow `MotionStep` |
| Engine.Sensors.ReadTemperatureTick | backend/sensors.py:508-531 | the catalog, the task's copy and the events follow `OneWireTick` |
| Engine.Sensors.StoreOneWireReading | backend/sensors.py:520-528 | stores the reading in the task copy and the catalog and publishes it |
| Engine.Sensors.ReadDhtTick | backend/sensors.py:1085-1121 | the catalog, the task's copies and the events follow `DhtTick` |
| Engine.Sensors.StoreDhtReading | backend/sensors.py:1097-1115 | the temperature half then the humidity half, each as its half function says |
| Engine.Sensors.StoreTemperatureHalf | backend/sensors.py:1098-1106 | a bound half with both temperature values is written back; its event is published iff the record is still in the catalog |
| Engine.Sensors.StoreHumidityHalf | backend/sensors.py:1108-1115 | a bound half with a humidity value is written back; its event is published iff the record is still in the catalog |
| Engine.Sensors.StoreReading | backend/sensors.py:523 | the write of a tick replaces the record with that uuid and keeps the catalog invariant |

## Left out

- The polling thread (`Task`): its timing, its interval as a float, `start`/`stop` and `_stop`. A task is a descriptor holding an interval and its bound record copies, and a tick is one explicit call.
- Onewire driver detection, installation and removal: configuration files, `lsmod` and a system reboot.
- `get_onewire_devices`: a filesystem scan.
- `get_raspi_gpios` and `get_assigned_gpios`: their replies are the `gpios` parameter of `Configure` and the `inUse` parameter of `AddMotionGeneric`. `add_dht22` fetches the assigned lines and never uses them, so that call is not modelled.
- `get_module_config`, including the stray motion-on publish in it.
- `update_dht22`: it refers to an undefined `uuid` and calls `_update_device` with one argument, so it can only fail as written.
- File reading and the `Console` command with its 11-second timeout. The model takes the file's lines and the command's result as inputs.
- JSON parsing: the command's first output line arrives already classified as missing, not JSON, or a document.
- Readings.ParseInt: accepts integer syntax only, not every form that `float()` accepts (decimals, exponents, `inf`). Probe tokens are integers in thousandths of a degree.
- Readings.IsSpace: covers ASCII whitespace only, not all the Unicode whitespace that `strip()` removes.
- Floating point: temperatures, offsets and conversions are exact `real` arithmetic.
- `time.time()`: each operation takes one `now`. `__read_temperature` reads the clock twice, for the record and for the event, and the model uses one value for both.
- Logging and exception messages. Errors keep their class (MissingParameter, InvalidParameter, CommandError) and the field or message they concern. A KeyError raised inside an update is reported as `CommandError("KeyError")`.
- The rollback's `delete_gpio` reply in the add operations: the source ignores it, and the model treats the release as done.
- The two rollbacks that cannot be reached are not modelled: the onewire add's call of the missing `_delete_sensor`, and the DHT22 add's deletion of both halves after a failed start. The proofs show the start succeeds at both points.
- The `update_gpio` reply data in `update_motion_generic` is unused by the source and not modelled.
- The uuid that `_add_device` writes into the stored dict is the `newUuid` / `tempUuid` / `humUuid` parameter.
- Catalog order: the source iterates a dict, whose order Python 2 leaves unspecified. The model fixes insertion order, so the choice of the first record holding a line (`Catalog.FirstWithLine`) and of the record whose start fails first in `Configure` is proved for that order only.
- Engine.Sensors.DeleteSensor: the `is_reserved_gpio` reply's data (backend/sensors.py:248) is not a parameter. The model assumes it agrees with the ledger, that is, that the line is reserved iff its uuid is in `ledger.reserved`.
- `_read_dht` when neither bound record is a DHT22 half: the warning branch (backend/sensors.py:1121) names an undefined `sensor` and raises NameError in the polling thread. The model treats that tick as changing nothing (`Ticks.DhtReading` gives no values).
- The `gpio='GPIO4'` default of `add_temperature_onewire`: the model has no default arguments, so `gpio` is an ordinary parameter of `AddTemperatureOneWire` and the caller passes `"GPIO4"` explicitly.
- Record shapes: `Valid()` requires every record to have exactly one gpios entry, as every add creates. The source also handles records with zero or several entries (`_read_dht22` checks the length; `delete_sensor` walks every entry). Catalogs holding such records are outside the model.
- Aliasing: in the source a task and the catalog may share one dict, so a tick's write can show through both. The model gives each task its own copy, and ticks write it back by uuid.
- The repeated name checks in `add_motion_generic` and the duplicate empty-name check in `update_motion_generic` can never fail. They are folded into the first check.
- `frontend/sensors.service.js` and `backend/sensor.py` (the UI service and the thin per-sensor base class) are not part of this model.
