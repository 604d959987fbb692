# IoT home agent — verified model of the device control and polling core

This project models the device logic of the home-automation agent in
`iot_device.go` and proves properties of it in Dafny. The agent exposes relays,
a DHT22 temperature/humidity sensor and DS18B20 one-wire temperature probes as
bridge accessories. The modelled parts are:

- the relay controller (`SwitchState`, `OnSwitch`, `OffSwitch`), which drives an
  active-low relay addressed by the decimal text of its pin;
- the relay registry: the linear lookup `GetRelayById`, the stable sort by id
  and the start-up dispatch that turns each relay into an accessory with its
  remote-command handler;
- pin recovery (`RecoveryPin`), the fixed power cycle of a sensor's supply pin;
- the one-wire text functions `Ds18b20Temp` and `Ds18b20SensorsList`;
- one-wire discovery at start-up, with its retry loop, power cycles and
  contiguous numbering of registered sensors;
- the one-wire poll tick, and the DHT22 read (`ReadTemp`) published on every
  tick of its timer.

The hardware is an explicit value, `Gpio.Hw`. It holds the level last driven on
each pin, the level an undriven pin reads, and the trace of pin-mode, write and
sleep events. Everything else the code asks the outside world becomes an input:

- `BoardToPin` becomes the parameter `boardToPin`;
- the successive `os.Stat` presence checks become `Probe.present`;
- a read of the `w1_slave` or `w1_master_slaves` file becomes an
  `Option<string>`, with `None` for a failed read;
- a DHT driver read becomes `DriverRead`.

Temperatures from the one-wire bus are integer millidegrees Celsius.

Modules, one per file:

- `Wrappers`: `Option`.
- `Decimal`: Go's `strconv.Atoi` on 64-bit targets, and `%d` formatting.
- `Gpio`: the hardware value.
- `Recovery`: the power cycle.
- `Relay`: the relay controller.
- `Registry`: relay records, sort, lookup, dispatch and remote commands.
- `OneWire`: the two text functions.
- `Discovery`: start-up discovery.
- `Polling`: the two timers' bodies.

### Behaviour of the code worth knowing

- The discovery loop at `iot_device.go:452-465` recovers after every absent
  check and stops only once `count > 3`. An always-absent sensor therefore
  costs 4 recoveries. `Discovery.ProbeSensor` states 4.
- In `ReadTemp` (`iot_device.go:137-144`) the `(0, 0)` return and the call to
  `RecoveryPin` both sit inside the DEBUG branch. With DEBUG off, the error is
  ignored and the driver's values are returned.
- Discovery drops a sensor whose file is present but whose first read fails
  (`iot_device.go:473-480`). The temperature of that first read is only
  logged. A freshly registered device holds the characteristic's initial
  value, written 0 here.
- `SwitchState` (`iot_device.go:153-166`) reads the pin without setting its
  mode first. Reading a pin never written returns the hardware's `undriven`
  level.

## Model

| member | source | states |
|---|---|---|
| Decimal.ParseSigned | iot_device.go:154 | signed decimal text: the empty text, a bare sign and any stray character are rejected |
| Decimal.NatDigits | iot_device.go:353 | the digits of a natural number are non-empty decimal digits that read back as the number |
| Decimal.Format | iot_device.go:353 | the `%d` text of any integer parses back to that integer |
| Decimal.Atoi | iot_device.go:154 | `Atoi` accepts exactly the signed numerals whose value fits a 64-bit `int`, and returns that value |
| Decimal.AtoiFormat | iot_device.go:353-359 | a relay pin written into the serial number with `%d` is read back by `Atoi` as the same pin |
| Recovery.RecoveryPin | iot_device.go:321-332 | a power cycle appends its six events to the trace, leaves the supply pin HIGH and keeps the undriven level; the frame on other pins is stated in `RecoveryPinEffect`, the replay of the events in `RecoveryPinReplays` |
| Recovery.RecoveryPinEffect | iot_device.go:321-332 | after a power cycle the supply pin reads HIGH, every other pin keeps its level, and the trace grows by the six cycle events |
| Recovery.RecoveryPinReplays | iot_device.go:321-332 | the net effect equals issuing mode(B(p)), LOW write, 10 s sleep, mode(p), HIGH write, 10 s sleep one after another |
| Recovery.RecoverTimesEffect | iot_device.go:321-332 | k power cycles append k copies of the cycle, leave the supply pin HIGH when k > 0 and no other pin changed |
| Recovery.CyclesLength | iot_device.go:321-332 | every power cycle adds six trace events |
| Recovery.RecoverTimesAdd | iot_device.go:321-332 | m power cycles followed by n more are m + n power cycles |
| Relay.SwitchState | iot_device.go:153-166 | a pin text `Atoi` rejects always reads as off |
| Relay.Drive | iot_device.go:168-188 | a valid pin gets mode then write appended to the trace and reads the written level; other pins are untouched; an invalid pin text changes nothing |
| Relay.OnSwitch | iot_device.go:168-177 | afterwards the relay reads as on; trace gains mode + LOW write; an invalid pin text leaves the hardware unchanged; no other pin changes |
| Relay.OffSwitch | iot_device.go:179-188 | afterwards the relay reads as off; trace gains mode + HIGH write; an invalid pin text leaves the hardware unchanged; no other pin changes |
| Relay.SwitchFrame | iot_device.go:153-188 | switching one relay does not change the state read on a relay with a different pin |
| Registry.GetRelayById | iot_device.go:46-54 | the first relay in list order with the id, or the zero record when none has it |
| Registry.InsertWithId | iot_device.go:345-347 | an inserted relay goes in front of the relays already carrying its id, and every other id's relays stay as they were |
| Registry.SortById | iot_device.go:345-347 | the result is ordered by ascending id and is a permutation of the input |
| Registry.SortStable | iot_device.go:345-347 | relays sharing an id keep their configured relative order |
| Registry.LookupIsFirstWithId | iot_device.go:46-54 | the lookup is the head of the relays carrying the id, or the zero record |
| Registry.SortKeepsLookup | iot_device.go:46-54 | after the in-place stable sort every lookup finds the same relay as in the configured list |
| Registry.Register | iot_device.go:352-398 | an accessory exists exactly for kinds 0, 1, 2, and is a lightbulb, a switch or a fan respectively; its name is the relay's and its serial reads back as the pin; kind 1 has no handler; the handler is inverted exactly for a cooler with `Invert > 0` |
| Registry.RegisterAll | iot_device.go:349-399 | one accessory per supported relay, the i-th built from the i-th supported relay |
| Registry.SupportedInsert | iot_device.go:345-349 | inserting a relay adds one supported relay exactly when it is of a supported kind |
| Registry.SupportedSort | iot_device.go:345-349 | sorting keeps the number of supported relays |
| Registry.LoadRelays | iot_device.go:345-399 | start-up sorts the relays by id and registers them: one accessory per relay of kind 0, 1 or 2, the i-th built from the i-th such relay of the sorted list; the stable order is stated in `SortStable` |
| Registry.LoadRelaysShape | iot_device.go:345-399 | start-up yields exactly one accessory per relay of kind 0, 1 or 2, in stable ascending-id order |
| Registry.HandleCommand | iot_device.go:367-370 | an accessory without handler ignores remote updates |
| Registry.CommandDrivesPin | iot_device.go:357-395 | for a lamp or cooler, remote "on" writes LOW and "off" writes HIGH, swapped for a cooler with `Invert > 0`; only the relay's pin changes |
| Registry.SwitchIgnoresCommands | iot_device.go:367-370 | a switch relay's accessory never touches the hardware on remote updates |
| Registry.InitialState | iot_device.go:352-375 | a lamp starts on iff its pin reads LOW; a switch starts off; a cooler starts on iff `Invert == 1` and its pin does not read LOW |
| Registry.LampAndInvertedCooler | iot_device.go:345-397 | a lamp on pin 5 and an inverted cooler on pin 6 give two accessories whose "on" write LOW to pin 5 and HIGH to pin 6 |
| OneWire.LastMarker | iot_device.go:589 | the result is -1 or the start of a `t=` marker, and no marker starts after it |
| OneWire.Ds18b20Temp | iot_device.go:581-600 | a failed read or a missing marker fails; the parse panics exactly when the marker is the last two characters; a temperature is the numeral between the last marker and the final one-byte character, and is finite as a float64 |
| OneWire.TempReadsNumeral | iot_device.go:589-599 | any text ending in `t=`, a numeral finite as a float64 and one more one-byte character reads as the numeral's value, whatever precedes it |
| OneWire.TempRejectsOverflow | iot_device.go:594-597 | a numeral beyond the float64 range makes the read fail, as `ParseFloat`'s range error does |
| OneWire.TempRejectsWideLast | iot_device.go:594-597 | when the final character is wider than one byte, the byte slice keeps part of it and the read fails |
| OneWire.TempRoundTrip | iot_device.go:589-599 | a temperature written with `%d` after the marker reads back as itself |
| OneWire.SampleFile | iot_device.go:581-600 | a realistic two-line sensor file ending in `t=23562` reads as 23562 millidegrees |
| OneWire.SplitLines | iot_device.go:609 | the split has one more piece than the text has newlines, and no piece contains a newline |
| OneWire.SplitLinesJoin | iot_device.go:609 | the pieces, each followed by a newline, rebuild the text plus one newline |
| OneWire.Ds18b20SensorsList | iot_device.go:603-615 | a failed read gives no list; otherwise one entry per newline, no entry holds a newline, and the entries each followed by a newline rebuild the text up to its last newline |
| Discovery.RetryLoop | iot_device.go:450-465 | the loop recovers once per absent check, stops at the first present check or after the fourth absent one, and consumes one more check when it stopped on a present one |
| Discovery.ProbeSensor | iot_device.go:450-481 | a sensor is registered iff it is present at the check after the loop and its first read succeeds; present at first check costs no recovery; always absent costs 4 recoveries and is not registered |
| Discovery.ProbeAfter | iot_device.go:450-481 | probing a sensor after earlier recoveries adds its own recoveries to them |
| Discovery.TableAppend | iot_device.go:476-477 | registering one more sensor stores it under the next key |
| Discovery.TableNumbered | iot_device.go:446-478 | the device table has keys exactly 1..count, key k holding the k-th registered sensor |
| Discovery.Visit | iot_device.go:448-483 | one iteration extends the table and the recoveries by the visited sensor's |
| Discovery.Discover | iot_device.go:444-483 | registered sensors are numbered contiguously from 1 in visiting order, and the supply pin is power-cycled once per recovery of every sensor |
| Polling.TickOne | iot_device.go:489-498 | visiting one sensor either stores its new temperature or power-cycles the bus, leaving its value unchanged |
| Polling.OneWireTick | iot_device.go:485-501 | each sensor 1..count whose read succeeds gets the new temperature and keeps id and name; a failed read keeps the value and costs one power cycle; no other entry changes |
| Polling.TickTrace | iot_device.go:495-498 | a tick grows the trace by six events per failed read and touches no pin but the supply pin |
| Polling.FailedReadsNone | iot_device.go:495-498 | a tick power-cycles nothing exactly when no read failed, and never more often than there are sensors |
| Polling.FailedReadsAll | iot_device.go:495-498 | a tick power-cycles once per sensor exactly when every read failed |
| Polling.ReadTemp | iot_device.go:135-151 | a good read passes through; a failed read returns (0, 0) under DEBUG and the driver's values otherwise; the supply is power-cycled only on failure with DEBUG and autorecovery on |
| Polling.DhtTicks | iot_device.go:432-439 | every tick publishes its read's pair as `ReadTemp` returns it, and the supply is power-cycled once per recovering read |
| Polling.QuietNeverRecovers | iot_device.go:135-151 | with DEBUG off the DHT supply is never power-cycled, whatever the driver reports |

## Left out

- `ReadSettings` (`iot_device.go:86-133`) is not modelled. It does file I/O, JSON decoding and process exit. The settings it fills in become parameters: DEBUG, `Dht22_autorecovery`, the supply pins, the relay list and the one-wire ids.
- The `Relays_enabled`, `Dht22_enabled` and `Ds18b20_enabled` switches (`iot_device.go:342`, `:426`, `:444`) are not modelled: each only decides whether its part runs at all, and each modelled part is the body under its switch.
- `Ds18b20_autorecovery` is loaded (`iot_device.go:72`) but never read, so one-wire recovery is unconditional in the code and in the model. Only `Dht22_autorecovery` is read (`iot_device.go:140`).
- The Sonoff HTTP client (`iot_device.go:190-318`) is not modelled: it is network transport and library JSON. As written, `SonoffGetState` is true iff the decoded `switch` field is `"on"`, and `SonoffOn`/`SonoffOff` are true iff the transport call succeeds. The Sonoff dispatch loop is left out with it.
- The bridge, accessory and service constructors (`iot_device.go:505-579`) belong to an external library. An accessory is reduced to its kind, name, serial, initial on-state and handler.
- The `log.Printf` and `fmt.Printf` output (for example `iot_device.go:160`, `:322`, `:456`, `:496`) is not modelled: it changes no state the model keeps.
- Timers, goroutines and `time.Sleep` are not modelled. A sleep is a trace event, and a run of ticks is a loop over the successive answers.
- `BoardToPin`, `PinMode`, `DigitalRead`, `DigitalWrite` and `dht.ReadDHTxxWithRetry` are foreign calls into the GPIO and DHT libraries. They are parameters or state updates.
- Go map iteration order in discovery is nondeterministic. Discovery runs over the sensors in a given order.
- Go strings are byte strings; the model uses character sequences, so a file that is not valid UTF-8 cannot be written down. The marker and the digits are one byte each and no multi-byte character contains an ASCII byte, so the byte search finds the same marker and the slice after it holds the same text; only the index itself differs when a wider character comes before the marker. The one place where width matters, the final character `Ds18b20Temp` drops, is modelled: a wider final character fails the read.
- OneWire.Ds18b20Temp: accepts only optionally signed decimal integers where `strconv.ParseFloat` also accepts fractions, exponents, `inf`/`nan` and more. It returns millidegrees rather than the float quotient by 1000, so the rounding of large numerals to the nearest float64 is not modelled.
- Polling.ReadTemp: the driver's float32 values are whole numbers here.
- Polling.DhtTicks: the order of the two `SetValue` calls is not modelled.
- Discovery.ProbeSensor: requires at least five presence answers, the most the code can ask for. It also requires that the first read does not hit the slice-bounds panic of `raw[i+2:len(raw)-1]` in `Ds18b20Temp`, which ends the agent.
- Discovery.Discover: the same requirements, for every configured sensor.
- Polling.OneWireTick: requires that no read hits the slice-bounds panic, for the same reason. It also requires that keys 1..count are present in the table, as discovery leaves them.
