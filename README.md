# Sensor daemons: retry, relays, telemetry and MQTT topics

This project models the rules inside two small Raspberry-Pi sensor daemons and proves them in Dafny.

- `dht22.py` polls a DHT22 temperature/humidity sensor and alternates a fridge relay (SSR, BCM pin 23) and a fan relay (pin 17) every cycle. It keeps every data point in an in-memory list. At start-up it resolves the collector's address, retrying with backoff.
- `w1therm.py` polls 1-Wire thermometers and publishes the temperature over MQTT to `home/<room>/temperature`. At start-up it may announce the sensor to Home Assistant with a retained discovery message.

Hardware, DNS, HTTP and MQTT calls become injected outcomes or recorded events:

- A GPIO write, a GPIO setup, an MQTT publication and a sleep are each an `Event` appended to a log.
- The sensor driver's results, the DNS answers and the HTTP status are inputs.
- The unbounded `while True` loops run for as many cycles as inputs are supplied.

Modules:

- `Wrappers` (`wrappers.dfy`): `Option`.
- `Retry` (`retry.dfy`): the `retry_forever` decorator. The wrapped operation is the sequence of outcomes of its successive calls (`Failed` or `Succeeded(v)`). The method returns the first successful value, the number of calls, and the sleeps, `min(retry², 64)` after the retry-th failure. If every supplied outcome fails, the result is `None`: the daemon would still be retrying.
- `Dht22` (`dht22.py`):
  - Pin levels are a `map<int, Level>`.
  - The `Controller` class holds the pins, the event log, the `data` list and the `fridge_off` flag.
  - `Read` is the sentinel-0 normalisation.
  - `SendAsWritten` and `SendClearing` are the HTTP send outcome as written and as intended.
  - `RunCycles` runs k cycles of the main loop.
- `W1ThermConfig` (`w1therm.py`, start-up): environment resolution with exit code 1 for missing settings, the room derived from `HA_SENSOR_NAME`, and the discovery record (topic, `name`, `unique_id`, `state_topic`, unit, device).
- `W1ThermLoop` (`w1therm.py`, loop): the `Daemon` class holds `temp` (None while the Python variable is still unbound) and the event log.
  - A failed read sleeps 2 s and leaves `temp` unchanged.
  - Each cycle publishes one `(topic, temp)` pair, then sleeps 59 s.
  - If no read has ever succeeded, `temp` is unbound at the publication and the loop crashes.

Three behaviours of the code are easy to misread; the model follows the code:

- Only HTTP status 200 counts as a successful send; 201 does not.
- `read` substitutes 0 for a missing value; it does not retry beyond the driver's own `read_retry`.
- The 1-Wire loop publishes the last good value of `temp`; it never skips a cycle.

## Model

| member | source | states |
|---|---|---|
| `Retry.Backoff` | dht22.py:43-45 | the sleep after a failed attempt is the smaller of retry² and the 64-second cap |
| `Retry.BackoffBelowCap` | dht22.py:43-45 | for retry ≤ 8 the sleep is retry² seconds |
| `Retry.BackoffAtCap` | dht22.py:43-45 | from the 8th retry on the sleep is the 64-second cap |
| `Retry.BackoffMonotone` | dht22.py:43-45 | the sleep never decreases as the retry count grows, and never exceeds 64 |
| `Retry.Schedule` | dht22.py:43-49 | after n failures the sleeps performed are, in order, the backoff of retries 1..n |
| `Retry.ScheduleNonDecreasing` | dht22.py:43-49 | successive sleeps of one retry run never decrease |
| `Retry.ScheduleExamples` | dht22.py:43-49 | three failures sleep 1, 4, 9; ten sleep 1, 4, …, 49, 64, 64, 64 |
| `Retry.FailuresBefore` | dht22.py:37-49 | counts the failed calls before the first success: all earlier calls failed, the next one succeeded |
| `Retry.RetryForever` | dht22.py:32-54 | returns the first successful call's value after exactly one sleep per earlier failure, retry counting from 1; n failures then a success make n + 1 calls |
| `Retry.ThreeFailuresThenSuccess` | dht22.py:32-54 | three failed resolutions, then a success: the fourth value is returned after sleeping 1, 4 and 9 s |
| `Dht22.Apply` | dht22.py:73-94 | a relay command sets its own pin to its level and leaves every other pin as it was |
| `Dht22.ApplyIdempotent` | dht22.py:73-94 | issuing a relay command twice gives the same pins as issuing it once |
| `Dht22.FridgeAndFanCommute` | dht22.py:73-94 | a fridge command and a fan command write different pins, so their order does not matter |
| `Dht22.SetupPins` | dht22.py:66-68 | after setup the SSR pin and the fan pin are both LOW, other pins unchanged |
| `Dht22.Controller.Output` | dht22.py:75 | a GPIO write changes exactly one pin and records one write event |
| `Dht22.Controller.TurnFridgeOff` | dht22.py:73-76 | writes SSR LOW only, returns true |
| `Dht22.Controller.TurnFridgeOn` | dht22.py:79-82 | writes SSR HIGH only, returns true |
| `Dht22.Controller.TurnFanOff` | dht22.py:85-88 | writes FAN LOW only, returns true |
| `Dht22.Controller.TurnFanOn` | dht22.py:91-94 | writes FAN HIGH only, returns true |
| `Dht22.Controller.SetupGpio` | dht22.py:57-70 | configures both relay pins as outputs, then forces SSR and FAN LOW; returns true |
| `Dht22.Read` | dht22.py:132-150 | a missing humidity or temperature becomes 0, a present one passes through |
| `Dht22.ReadBothPresent` | dht22.py:147-150 | with both values present, both are returned unchanged |
| `Dht22.SendAsWritten` | dht22.py:111-129 | only status 200 counts as delivered, request exceptions are swallowed, and the caller's buffer is left as it was in every outcome |
| `Dht22.SendAsWrittenKeepsDeliveredPoint` | dht22.py:118-122 | a delivered point stays in the caller's buffer |
| `Dht22.SendClearing` | dht22.py:118-129 | as the comment intends: success empties the buffer, any failure keeps every point in order |
| `Dht22.SendRetriesCachedPoints` | dht22.py:118-129 | a point cached after a 503 goes out with the next point on the next success, which empties the buffer |
| `Dht22.ResolveAttempt` | dht22.py:97-106 | a DNS query succeeds exactly when it returns at least one address, and yields the first one |
| `Dht22.Controller.Start` | dht22.py:153-161 | setup leaves both relays LOW, the address is the first successful resolution after the backoff sleeps, the buffer is empty and `fridge_off` is true |
| `Dht22.Controller.Cycle` | dht22.py:164-185 | one cycle flips `fridge_off`, drives the fan opposite to the fridge, appends one point and sleeps 30 s |
| `Dht22.Controller.RunCycles` | dht22.py:163-185 | k cycles flip the flag k times, append exactly the k points in order after the earlier ones, and perform the k cycles' writes and sleeps |
| `Dht22.LoopEventsAt` | dht22.py:161-175 | from `fridge_off = True`, cycle i switches the fridge ON for even i and OFF for odd i, drives the fan to the opposite level, then sleeps |
| `Dht22.LoopPinsAfter` | dht22.py:161-175 | after k > 0 cycles the fridge is HIGH iff k is odd and the fan is at the opposite level |
| `Dht22.PointsAt` | dht22.py:178-184 | the buffer gets one point per cycle; point i is made from reading i |
| `Dht22.StartAndRun` | dht22.py:153-185 | from process start, the address is the first successful resolution; while none succeeds nothing is buffered and both relays stay LOW; once one does, k cycles leave exactly k buffered points in reading order, and the relays as the last cycle drove them |
| `W1ThermConfig.ReplaceSpaces` | w1therm.py:38 | every space becomes `_`, all other characters are kept |
| `W1ThermConfig.Lower` | w1therm.py:38 | every ASCII capital is lowered, all other characters are kept |
| `W1ThermConfig.DeriveRoom` | w1therm.py:38 | a derived room has the name's length, no spaces and no ASCII capitals |
| `W1ThermConfig.DeriveRoomIdempotent` | w1therm.py:38 | deriving a room from a derived room returns it unchanged |
| `W1ThermConfig.DeriveRoomFixedPoint` | w1therm.py:38 | a name without spaces or capitals is its own room |
| `W1ThermConfig.ResolveConfig` | w1therm.py:28-42 | a missing or empty `MQTT_HOST` exits 1 first; a set `MQTT_TOPIC_ROOM` is used as is; otherwise the room comes from `HA_SENSOR_NAME`; if neither is set, exit 1 |
| `W1ThermConfig.DerivedRoomIsStable` | w1therm.py:36-39 | a room taken from `HA_SENSOR_NAME` is unchanged by a second derivation |
| `W1ThermConfig.Title` | w1therm.py:94 | `str.title` on ASCII: same length, the first character raised, characters other than letters kept |
| `W1ThermConfig.TitleOfLowerWord` | w1therm.py:94 | title case of a lower-case word raises its first letter only |
| `W1ThermConfig.TitleTemperature` | w1therm.py:94 | `'temperature'.title()` is `Temperature` |
| `W1ThermConfig.DiscoveryFor` | w1therm.py:91-107 | the publication for sensor kind `<kind>` goes to topic `homeassistant/sensor/<HA_DEVICE>_w1therm/<kind>/config` on the configured broker, retained; it is named `<HA_SENSOR_NAME> <Kind>` (`<Kind>` the title case of `<kind>`), has `unique_id` `<room>_<kind>`, `state_topic` `home/<room>/<kind>`, the kind as device class and its unit, and the device block with identifiers `<HA_DEVICE>` and `raspberrypi`, name `<HA_DEVICE> w1therm` and model `DS18B20` |
| `W1ThermConfig.DiscoveryMessages` | w1therm.py:89-107 | one retained discovery publication per announced sensor kind, in order |
| `W1ThermConfig.Autoconfigure` | w1therm.py:73-107 | exits 1 exactly when `HA_DEVICE` or `HA_SENSOR_NAME` is missing or empty, otherwise announces each sensor kind |
| `W1ThermConfig.AutoconfigureTemperature` | w1therm.py:90-106 | topic `homeassistant/sensor/<HA_DEVICE>_w1therm/temperature/config`, `unique_id` `<room>_temperature`, `name` `<HA_SENSOR_NAME> Temperature`, `state_topic` `home/<room>/temperature`, retained, to the configured broker |
| `W1ThermConfig.ResolveStartup` | w1therm.py:28-45 | start-up resolves exactly as `ResolveConfig`; without `HA_SENSOR_NAME` it succeeds iff `ResolveConfig` does and announces nothing; with it, it succeeds iff `Autoconfigure` does and announces exactly `Autoconfigure`'s publications; every failure is exit 1 |
| `W1ThermConfig.StartupNeedsDevice` | w1therm.py:44-87 | with broker and sensor name set, start-up fails exactly when `HA_DEVICE` is missing or empty |
| `W1ThermLoop.LastGood` | w1therm.py:50-61 | once bound, `temp` stays bound through a sensor pass; a successful last read sets it to that read |
| `W1ThermLoop.LastGoodIsLastSuccess` | w1therm.py:50-61 | `temp` is the last successfully read value, or unchanged when every read fails |
| `W1ThermLoop.LastGoodAppend` | w1therm.py:49-61 | reading more sensors continues from the `temp` the earlier reads left |
| `W1ThermLoop.ReadEventsAreRetrySleeps` | w1therm.py:56-61 | the sensor pass sleeps exactly once per failed read, 2 s each |
| `W1ThermLoop.CycleSpec` | w1therm.py:50-68 | a cycle leaves `temp` at the last good read and crashes iff `temp` is still unbound (never when it was bound before); a crashing cycle performs only the sensor pass's sleeps and publishes nothing; otherwise it adds one publication of the single pair (`home/<room>/temperature`, `temp`) to the configured broker `MQTT_HOST`, and ends with a 59 s sleep |
| `W1ThermLoop.CycleSleeps` | w1therm.py:50-68 | a cycle is: the 2 s retry sleeps, one publication, then a 59 s sleep |
| `W1ThermLoop.CyclePublishesOnce` | w1therm.py:63-66 | a cycle publishes exactly one message holding one `(home/<room>/temperature, temp)` pair |
| `W1ThermLoop.LoopSpec` | w1therm.py:48-68 | a loop entered with `temp` bound never crashes and keeps `temp` bound; a crash needs at least one cycle |
| `W1ThermLoop.CrashOnlyInFirstCycle` | w1therm.py:48-66 | the loop crashes iff it has a cycle and the first cycle reads nothing while `temp` is unbound |
| `W1ThermLoop.PrefixCrashes` | w1therm.py:48-66 | a run of two or more cycles that crashes had already crashed before its last cycle |
| `W1ThermLoop.CrashedLoopPublishesNothing` | w1therm.py:62-66 | a loop that crashes has published nothing: the unbound `temp` raises before the first `publish.multiple` |
| `W1ThermLoop.LoopTempIsLastGood` | w1therm.py:49-66 | after any number of cycles, `temp` is the last successful read over all of them |
| `W1ThermLoop.LoopPublications` | w1therm.py:49-68 | without a crash, cycle i publishes one pair: the room's topic and the last temperature read successfully in cycles 0..i |
| `W1ThermLoop.LoopSpecStopsAfterCrash` | w1therm.py:48-69 | once the loop has raised, later cycles add nothing |
| `W1ThermLoop.Daemon.ReadSensors` | w1therm.py:50-61 | the sensor pass sets `temp` to the last good read and records one 2 s sleep per failure |
| `W1ThermLoop.Daemon.Cycle` | w1therm.py:50-68 | one cycle of the loop, as the cycle specification says |
| `W1ThermLoop.Daemon.RunCycles` | w1therm.py:48-68 | the loop over the supplied cycles, stopping at a crash |
| `W1ThermLoop.Run` | w1therm.py:28-68 | a start-up failure exits 1 before any publication or sleep; otherwise the discovery announcements come first, then the loop |
| `W1ThermLoop.DiscoveryMatchesLoopTopic` | w1therm.py:64-97 | the announced `state_topic` equals the topic the loop publishes to |

## Left out

- GPIO `setmode`/`setwarnings`: board configuration with no state the model tracks. GPIO calls never fail in the model, so the retry around `setup_gpio` finishes at its first attempt. The `if not setup_gpio()` branch is never taken.
- `resolve_jorg`'s resolver and query name (`192.168.1.1`, `jorg.eggs`): the DNS query is foreign I/O. Its answers (an exception, or a list of addresses) are an input.
- The URL and the JSON body of the HTTP POST in `send`: foreign I/O. Only the status, or a `RequestException`, is an input. Other exception types, which would propagate out of `send`, are not modelled.
- Exceptions of `sensor.get_temperature()` other than `W1ThermSensorError`: they would end the loop. Only the sensor error is modelled.
- The data point's `ts` field and the debug timestamps: wall-clock time and float-to-string formatting.
- Float arithmetic and formatting of readings. Readings are `real` values. For a present reading of exactly 0, `x or 0` gives the integer 0 rather than the float 0.0; the model does not tell the two apart.
- Unicode semantics of `str.lower()`, `str.replace` and `str.title()`: only ASCII letters change case.
- The JSON text of the discovery payload. Its fields are a record. The unit is the source's literal `Â°C`: the characters U+00C2 and U+00B0, then `C`.
- Failures of MQTT publications: `publish.single` and `publish.multiple` raise when the broker cannot be reached, and nothing catches that, so the process ends. The model treats every `Announce` and `Publish` event as delivered.
- Logging, the `finally` log line, `KeyboardInterrupt` handling and process exit codes after a crash. A crash is reported as the `Crashed` status.
- The infinite loops: each run covers a finite number of supplied cycles.
- Enumeration of 1-Wire sensors: each cycle's read outcomes are an input, one per sensor, in order.
- `Adafruit_Python_DHT/setup.py`: packaging metadata with no logic.

## Findings

| source | as written | input that shows it | evidently intended | confidence | as-written member | corrected member |
|---|---|---|---|---|---|---|
| dht22.py:118-122 | `data = []` rebinds `send`'s local parameter, so the caller's list is never emptied after a successful POST | buffer `[p]`, status 200: reported as sent, and the caller's buffer is still `[p]` | the comment says to reset the data storage after a successful POST; the caller's buffer should become empty | high (not executed) | `Dht22.SendAsWrittenKeepsDeliveredPoint` | `Dht22.SendClearing` |

The main loop's call to `send` is commented out in the source, so neither version of `send` is called from `RunCycles`. `SendRetriesCachedPoints` shows how the corrected send behaves over two cycles.
