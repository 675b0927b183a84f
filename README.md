# dbus-twc3 in Dafny

A model of the bridge between a Tesla Wall Connector 3 and the Victron
D-Bus (`dbus_twc3.py`), with proofs about it. The bridge polls the charger's
HTTP API and publishes the results on two bus services. The primary one is
the "evcharger" (`com.victronenergy.evcharger.twc3`). The secondary one is a
"temperature" service that mirrors one value, for displays that only show
temperature sensors.

What is modelled:

- **Registries** (`registry.dfy`). Each bus service is a map from property
  path to value; writing a path replaces its value. The paths are a fixed
  enumeration, and `Path.Name` gives the bus name of each. A cycle is a
  straight-line list of statements `ds[path] = expr`, run by `Exec`. When
  `expr` raises, the cycle stops there, and the writes made before it stay
  in place. This file also holds the registries the constructor and
  `add_temp_service` create.
- **Python value semantics** (`snapshot.dfy`). A Python float is an exact
  real. `round` rounds half to even, `int` truncates toward zero, and a
  bool counts as 0 or 1. `d[key]` on a missing key raises KeyError, and
  arithmetic or comparison on null raises TypeError.
- **The lifetime cycle** (`history.dfy`, `_lifetime`). Python's
  `str.replace('nan', 'null')` is applied to the body, which is then
  decoded by a `parse` parameter. The nine counters are then published
  under `/History/*`.
- **The fast cycle's publication** (`vitals.dfy`, `_update`). It covers the
  phase and total power, the grid values, the status decision, the energy
  counter, the temperatures and the display mirror.
- **Connection health** (`health.dfy`, `_safe_update` and
  `_lifetime_update`). The retry counter and the state each cycle leaves
  behind.
- **Configuration** (`config.dfy`). It covers:
  - the default host and the endpoint URLs;
  - the `_dryrun` service names and the instance offsets;
  - Python's `split(',')` on the candidate list.
- **Startup** (`startup.dfy`). Constructing the service on one host, and
  main's loop over the candidate hosts.
- **The running object** (`service.dfy`). The class `Twc3Service` holds both
  registries and `_retries`, and has one method per callback. `Open` models
  the constructor on one host, and `Connect` models main's loop. Each
  method's `ensures` ties the new state to the functions above.
- **A worked example** (`scenario.dfy`). A charging vehicle on three phases
  of 10 A at 230 V.

Behaviour of the code that the model follows exactly, and that a reader
might not expect from the bridge's purpose:

- **The fast cycle is not atomic.** Its statements write the registry one at
  a time. When one raises, the earlier writes stay and the later ones are
  not made (`Registry.ExecCompletes`, `Vitals.TwoTablesStopsAt`).
- **The version fetch is retried on the next host.** A connection error
  while fetching the version moves main's loop on to the next candidate.
  Any other exception ends the program (`Startup.OtherFaultsAreFatal`).
- **The dryrun offset.** With dryrun, `main` adds 100 to the requested
  instance and `add_temp_service` adds 100 more to that, so the temperature
  service gets the requested instance plus 200. Without dryrun, both
  services use the requested instance (`Config.InstanceOffsets`).
- **The example cycle does not complete.** The example vitals carry no
  temperature fields, and the example lifetime snapshot carries only
  `energy_wh`. The full cycle therefore raises KeyError at
  `lt['charge_starts']` before writing anything
  (`Scenario.ChargingCycleWithSparseLifetime`). Given a full lifetime
  snapshot instead, the writes after the refresh publish 2300 W per phase,
  6900 W in total, status 2 and 5.000 kWh. They then raise KeyError at
  `d['mcu_temp_c']`, so the fast cycle counts as a failure
  (`Scenario.ChargingCycleWithoutTemperatures`).
- **A NaN counter is not absent.** The `nan` → `null` repair does not make
  it absent: `int(None)` raises TypeError. Only the average startup
  temperature treats null as "not published" (`History.HistoryRaisesIff`).
- **A later failure can relabel the display.** A failing cycle that gets as
  far as the display label writes `name + ' Handle'` before raising. For
  example, `handle_temp_c` is null, so `round(None, 1)` raises. This can
  happen after `name + ' Error'` was shown. The displayed temperature stays
  at -1 and `/Connected` stays at 0
  (`Health.RepeatedFailureKeepsHealthPaths`, `Health.Healthy`).

## Model

| member | source | states |
|---|---|---|
| Snapshot.RoundHalfEven | dbus_twc3.py:203-209 | Python 3 `round(x)`: the result is within 0.5 of x, and a tie goes to the even neighbour |
| Snapshot.RoundTo | dbus_twc3.py:207-213 | `round(x, n)` has at most n decimals (scaled by 10^n it is whole) and is within half a unit of the n-th decimal of x |
| Snapshot.Trunc | dbus_twc3.py:186-195 | `int(x)` on a float truncates toward zero, for either sign |
| Snapshot.Number | dbus_twc3.py:203-205 | `float(v)` raises exactly when v is null; a bool counts as 0 or 1 |
| Snapshot.GreaterThanOne | dbus_twc3.py:219 | `v > 1` raises exactly on null, and is true exactly for a number above 1 |
| Snapshot.RoundHalfEvenOfInteger | dbus_twc3.py:206 | rounding a whole number, such as a sum of rounded phase powers, changes nothing |
| Snapshot.RoundHalfEvenTies | dbus_twc3.py:203-209 | 0.5 and 2.5 round down, 1.5 rounds up, and likewise below zero |
| Snapshot.TruncTowardZero | dbus_twc3.py:186-195 | `int(-2.7)` is -2, not -3 |
| Registry.ExecAfterFault | dbus_twc3.py:198-231 | once a statement has raised, the remaining statements write nothing |
| Registry.ExecCompletes | dbus_twc3.py:198-231 | a statement list completes iff every right-hand side evaluates; otherwise it raises the first failing statement's fault, every earlier one having evaluated |
| Registry.ExecSplit | dbus_twc3.py:198-231 | running a statement list is running a prefix of it, then the rest |
| Registry.ExecFrame | dbus_twc3.py:198-231 | a path no statement writes keeps its value, or stays absent |
| Registry.ExecOtherTarget | dbus_twc3.py:185-195 | a registry no statement targets is left unchanged |
| Registry.ExecWritesOnly | dbus_twc3.py:229-231 | a path written only with value v either keeps its old value or ends with v |
| Registry.ExecLastWrite | dbus_twc3.py:203-231 | in a completed list, a path holds the value of the last statement that wrote it |
| Registry.ExecRegistered | dbus_twc3.py:112-148 | writes to created paths keep each registry's path set exactly the created one |
| Registry.StatementsPublished | dbus_twc3.py:203-231 | statements to distinct paths complete iff every value evaluates, and then each path holds its value |
| Registry.ExecStopsAt | dbus_twc3.py:198-231 | a list whose first failing statement is at k raises that fault, with the bus the statements before k left |
| Registry.StatementsStopAt | dbus_twc3.py:203-231 | statements to distinct paths whose first failing value is at k raise it, with the values before k published |
| Registry.StatementsFrame | dbus_twc3.py:203-231 | a path not among the statements' targets keeps its value |
| Registry.StatementsWriteOnly | dbus_twc3.py:229-231 | a path the table assigns only v keeps its value or ends with v |
| Registry.StatementsRegistered | dbus_twc3.py:112-148 | statements to created paths keep the registries' path sets |
| Registry.InitialPrimary | dbus_twc3.py:102-118 | the charger registry has exactly its created paths; /DeviceInstance is the instance, /ProductId 16, /ProductName the product name + ' - ' + the serial, /FirmwareVersion and /HardwareVersion the version body's firmware and part numbers, /Connected 1, /CustomName 'Tesla Charger', and every data, history and control path (/SetCurrent, /StartStop) starts null |
| Registry.InitialTemp | dbus_twc3.py:137-147 | the temperature registry has exactly its created paths: /DeviceInstance the given instance, /ProductId 0, /ProductName 'dbus-twc3', /FirmwareVersion and /HardwareVersion 0, /Connected 1, /CustomName the name, /TemperatureType 2, /Temperature 0 and /Status 0 |
| Registry.AcceptControlWrite | dbus_twc3.py:150-156 | a write by a bus client to /SetCurrent or /StartStop is always accepted |
| History.ReplaceAbsent | dbus_twc3.py:184 | replacing a pattern that does not occur leaves the text unchanged |
| History.ReplaceLonger | dbus_twc3.py:184 | a longer replacement never shortens the text, and lengthens it when the pattern occurs |
| History.ReplaceNanIdentityIff | dbus_twc3.py:184 | the repair changes the body iff the body contains `nan` |
| History.ReplaceNanLeavesNone | dbus_twc3.py:184 | no `nan` is left in the repaired body, including at the seams of inserted `null`s |
| History.ReplaceNanKeeps | dbus_twc3.py:184 | text with no `n` in it passes through the repair unchanged, whatever follows it |
| History.ReplaceNanExample | dbus_twc3.py:184 | `{"t":nan}` is repaired to `{"t":null}` |
| History.CounterWritesFrame | dbus_twc3.py:186-195 | counter writes touch only their table's paths on the charger registry |
| History.CounterWritesPublished | dbus_twc3.py:186-195 | counter writes complete iff every counter converts, and then each path holds `int(lt[field])` |
| History.HistoryRaisesIff | dbus_twc3.py:186-195 | the history writes complete iff every counter is present and numeric and `avg_startup_temp` is present |
| History.LeadingCountersPublished | dbus_twc3.py:186-191 | after complete history writes, the six leading /History paths hold `int()` of their fields |
| History.TrailingCountersPublished | dbus_twc3.py:194-195 | ... and so do /History/AbortedChargingCycles and /History/ThermalFoldbacks |
| History.AverageStartupTemperaturePublished | dbus_twc3.py:186-193 | once the six leading counters convert, a truthy `avg_startup_temp` is published as `int()` of it, even when a trailing counter raises later |
| History.AverageStartupTemperatureQuirk | dbus_twc3.py:192-193 | a present `avg_startup_temp` that is 0, False or null leaves /History/AverageStartupTemperature as it was, whatever the other counters hold |
| History.HistoryFrame | dbus_twc3.py:185-195 | the history writes change no temperature path and no non-history path, whether or not they complete |
| History.HistoryRegistered | dbus_twc3.py:185-195 | the history writes keep the registries' path sets |
| History.LifetimeFrame | dbus_twc3.py:180-196 | the whole lifetime cycle, fetch and decode failures included, changes only history paths |
| Vitals.Classify | dbus_twc3.py:216-221 | status 0 unless `vehicle_connected == True`; when connected, 2 iff the current is a number above 1, else 1; KeyError when the flag is missing |
| Vitals.UnpluggedWhateverCurrent | dbus_twc3.py:216-221 | when not connected, the status is 0 whatever the current, including a missing or null one |
| Vitals.ChargingThresholdIsStrict | dbus_twc3.py:217-220 | when connected, the status is 2 iff the current is > 1; exactly 1 gives 1 |
| Vitals.StatusMonotoneInCurrent | dbus_twc3.py:216-221 | when connected, a larger current never gives a lower status |
| Vitals.TwoTablesFrame | dbus_twc3.py:203-231 | the update's writes touch only its own paths, whatever the values |
| Vitals.TwoTablesRegistered | dbus_twc3.py:203-231 | the update's writes keep the path sets, and write nothing to a run that already raised |
| Vitals.TwoTablesPublished | dbus_twc3.py:203-231 | a complete update holds every value at its path; the total reads back the published phases |
| Vitals.TwoTablesCompletes | dbus_twc3.py:203-231 | the update completes iff every phase value and every later value evaluates |
| Vitals.TwoTablesStopsAt | dbus_twc3.py:203-231 | an update whose first failing value is at k raises it, with the phases and the values before k published |
| Vitals.TwoTablesFaultKeepsTemperature | dbus_twc3.py:229-231 | the displayed temperature is the last write, so a raising update never changes it |
| Vitals.TwoTablesLabel | dbus_twc3.py:229-230 | the only label the update writes on the temperature service is name + ' Handle' |
| Vitals.UpdateWritesFrame | dbus_twc3.py:203-231 | the update's writes change only the paths it names, never /Connected |
| Vitals.UpdateWritesRegistered | dbus_twc3.py:203-231 | the update keeps the path sets, and changes nothing after an earlier fault |
| Vitals.UpdateFaultKeepsTemperature | dbus_twc3.py:229-231 | an update that raises leaves the displayed temperature as it was |
| Vitals.UpdateWritesLabel | dbus_twc3.py:229-230 | after the update, the display label is unchanged or reads name + ' Handle' |
| Vitals.UpdateWritesHealthPaths | dbus_twc3.py:203-231 | the update leaves /Connected alone, changes the temperature only when it completes, and sets no label but the handle one |
| Vitals.HistoryKeepsHealthPaths | dbus_twc3.py:180-196 | the refresh inside `_update` leaves /Connected and the whole temperature registry alone |
| Vitals.UpdateEffectFrame | dbus_twc3.py:198-231 | the same for the whole `_update`, fetch and refresh failures included |
| Vitals.TotalPowerIsSumOfPublishedPhases | dbus_twc3.py:203-206 | after a complete update, /Ac/Power is the rounded sum of the three published, separately rounded phase powers |
| Vitals.StatusPublished | dbus_twc3.py:210-223 | a complete update publishes the status code of Classify, Mode 0, StartStop 1, and SetCurrent and MaxCurrent 16 |
| Vitals.MeasurementsPublished | dbus_twc3.py:207-213 | a complete update publishes the lifetime energy in kWh to 3 decimals and the frequency, voltage and current as rounded |
| Vitals.DisplayMirrorsHandle | dbus_twc3.py:226-231 | a complete update labels the display name + ' Handle', shows the handle temperature to 1 decimal, and publishes it unrounded on the charger |
| Vitals.RoundedPhasesDivergeFromRoundedSum | dbus_twc3.py:203-206 | three phases of 10.002 A at 230 V publish 2300 W each and 6900 W in total, while the rounded true sum is 6901 |
| Vitals.EnergyForwardInKilowattHours | dbus_twc3.py:213 | 5000 Wh is published as 5.0 kWh |
| Health.FirstFailure | dbus_twc3.py:171-177 | the first failure writes /Connected := 0, the label name + ' Error' and -1 on the temperature service, sets the counter to 1, and changes no other path |
| Health.RepeatedFailure | dbus_twc3.py:173-177 | a failure with the counter above 0 writes nothing and adds 1 to the counter |
| Health.SuccessResets | dbus_twc3.py:166-170 | a success sets the counter to 0; it writes /Connected := 1 only when the counter was above 0, and changes nothing else |
| Health.RepeatedFailureKeepsHealthPaths | dbus_twc3.py:165-178 | a whole failing fast cycle after a failure keeps /Connected and the displayed temperature, and leaves the label unchanged or name + ' Handle' |
| Health.ConnectedReflectsLastCycle | dbus_twc3.py:165-178 | from a healthy state, /Connected reads 1 after a fast cycle iff the cycle succeeded; the counter is reset or incremented accordingly |
| Health.FastCycleKeepsHealthy | dbus_twc3.py:165-178 | the fast cycle keeps the invariant: /Connected is 1 iff the counter is 0; while it is not, the display shows -1 with the error (or handle) label |
| Health.SlowCycleKeepsHealthy | dbus_twc3.py:158-163 | the slow cycle keeps the counter, the temperature registry and /Connected, and so the invariant |
| Config.Host | dbus_twc3.py:60 | no host, or the empty one, gives 'TeslaWallConnector.local'; any other host is used as given |
| Config.UrlNamesHost | dbus_twc3.py:60-64 | each endpoint URL is `http://` + host + `/api/1/<endpoint>`, and parsing it gives the host back |
| Config.UrlsAgreeIff | dbus_twc3.py:60-64 | two configurations give the same endpoint URL iff they derive the same host |
| Config.ServiceNames | dbus_twc3.py:284 | dryrun appends `_dryrun` to the service name, and the default charger and temperature names differ in either mode |
| Config.InstanceOffsets | dbus_twc3.py:137 | with dryrun, the primary instance is +100 and the temperature instance +200; without it, both are the requested instance |
| Config.GivenInstanceRaises | dbus_twc3.py:285 | as written, any `--instance` given on the command line makes the addition raise TypeError; the default 42 is offset |
| Config.ParseDecimal | dbus_twc3.py:265 | parsing the decimal text of an integer gives the integer back |
| Config.CorrectedInstanceOffsets | dbus_twc3.py:265 | with `type=int`, `--instance N` gives N, offset by 100 in dryrun, and `--instance 42` equals the default |
| Config.JoinSplit | dbus_twc3.py:281 | joining the pieces of `split(',')` with ',' gives the text back |
| Config.SplitPiecesFree | dbus_twc3.py:281 | no piece of `split(',')` contains a comma |
| Config.SplitJoin | dbus_twc3.py:281 | splitting a comma-join of comma-free hosts gives the hosts back |
| Config.CandidateHostsInOrder | dbus_twc3.py:281-286 | the candidates are the given hosts in order, an empty one standing for the default host |
| Config.DefaultCandidates | dbus_twc3.py:263 | the default `--ip` is the single default host |
| Startup.TryFromOutcome | dbus_twc3.py:281-293 | the loop starts on the first candidate that constructs, all earlier ones having refused the connection; it finds none iff every candidate refuses; otherwise it ends with the first other fault |
| Startup.ConstructedRefresh | dbus_twc3.py:65-123 | a construction succeeds only when the version fetch succeeds and the first `_lifetime()` completes with every counter converting; the state is then the refreshed registries with counter 0 |
| Startup.ConstructedState | dbus_twc3.py:55-123 | a constructed service has had a complete first refresh, and holds counter 0, the configured instances and label, and the health invariant |
| Startup.FirstFalsyAverageIsNull | dbus_twc3.py:112-123 | when the first snapshot's `avg_startup_temp` is 0, False or null, the constructed service's /History/AverageStartupTemperature is null |
| Startup.Attempts | dbus_twc3.py:281-286 | main makes one attempt per piece of `--ip` split at commas, in order, each on the host that piece names |
| Startup.MainTriesHostsInOrder | dbus_twc3.py:281-290 | for hosts joined by commas, main tries them in the given order, the empty one as the default host, and starts on a host only after every earlier one refused the connection |
| Startup.StartedHealthy | dbus_twc3.py:281-290 | the service main starts satisfies the health invariant |
| Startup.OtherFaultsAreFatal | dbus_twc3.py:281-293 | a fault other than a connection error on a candidate ends the loop, even when a later candidate would answer |
| Scenario.ChargingPhaseValues | dbus_twc3.py:203-205 | 10 A at 230 V on each phase gives 2300 W |
| Scenario.ChargingStatus | dbus_twc3.py:216-221 | the example vehicle is charging |
| Scenario.ChargingEnergy | dbus_twc3.py:213 | the example's 5000 Wh reads 5.0 kWh |
| Scenario.ChargingRestValues | dbus_twc3.py:206-224 | on the example, the statements up to /StartStop evaluate and `d['mcu_temp_c']` raises KeyError |
| Scenario.UpdateStopsAtMcu | dbus_twc3.py:203-224 | such an update publishes the phases, 6900 W, status 2 and 5.0 kWh, then raises KeyError('mcu_temp_c') |
| Scenario.ChargingCycleWithoutTemperatures | dbus_twc3.py:203-224 | the writes after the refresh raise on the example as given, after publishing the phases, total, status and energy |
| Scenario.ChargingCycleWithSparseLifetime | dbus_twc3.py:186-201 | the whole `_update` on the example raises KeyError('charge_starts') with the registries unchanged |
| Service.Twc3Service.constructor | dbus_twc3.py:120-122 | the object holds the created registries and a zero counter |
| Service.Twc3Service.Apply | dbus_twc3.py:186-231 | the assignments run in place, in order, and the registries end as `Exec` says |
| Service.Twc3Service.Lifetime | dbus_twc3.py:180-196 | `_lifetime` leaves the state of a slow cycle and returns the snapshot, or the fault the cycle raised |
| Service.Twc3Service.Update | dbus_twc3.py:198-245 | `_update` leaves the registries and fault of `UpdateEffect` and does not change the counter |
| Service.Twc3Service.SafeUpdate | dbus_twc3.py:165-178 | `_safe_update` returns true and leaves the state of `Health.FastCycle` |
| Service.Twc3Service.LifetimeUpdate | dbus_twc3.py:158-163 | `_lifetime_update` returns true and leaves the state of `Health.SlowCycle` |
| Service.Open | dbus_twc3.py:55-125 | construction on one host yields an object in the state `Startup.Construct` gives, or no object and its fault |
| Service.Connect | dbus_twc3.py:281-293 | the loop gives the outcome `Startup.Connect` describes, and a fresh service object exactly when it started one |

## Left out

- HTTP requests, timeouts and JSON decoding are not modelled. Each fetch is a parameter: a `Result` holding the decoded vitals, the raw lifetime text, or the version fields. `json.loads` is the `parse` parameter. The network is not modelled.
- VeDbusService, the bus connection, the service names it registers and the registration calls are not modelled. The registries are maps. On both services, the `/Mgmt/*` paths are left out, because they hold the script's file name, the Python version and the connection, which come from the runtime.
- Change signals on the bus, and bus clients reading values, are left out. They are foreign behaviour.
- The GLib timers and main loop are left out. Each callback is one method call, and the 5 s and 60 s cadence is not modelled.
- Logging, `time.sleep`, `thread.daemon` and the `log.info` line that reads back /Ac/Power and /Status are left out. They have no effect on the registries.
- argparse is left out, except for the type of `--instance`. Settings and candidate hosts are parameters.
- `_version()` is not modelled. Its decoded body is a parameter holding the serial, firmware and part numbers, and a missing key counts as a fault of that fetch.
- Floating point is modelled by exact reals. The rounding error of a float product or quotient is lost, and with it the binary representation that Python's `round(x, n)` sees.
- NaN and the infinities are not modelled. Python's JSON decoder accepts `NaN`, `Infinity` and `-Infinity` in the vitals body, and there `round()` of the phase powers and `int()` of a counter raise, while `round(d['grid_hz'], 1)` publishes NaN. A field is a real number or null here.
- JSON strings, arrays and objects in telemetry fields are not modelled. A field is null, a bool or a number, so `float('12')` on a string field is outside the model.
- The `else` branch of the display mirror is left out. It is unreachable behind `if True:`.
- Config.ParseInt: accepts an optional sign and ASCII digits only. Python's `int()` also allows surrounding whitespace, underscores between digits and non-ASCII digits.
- Startup.Construct: the answers of a host are per-attempt parameters. The model does not capture that a construction which failed after registering its service on the bus could leave that name taken for the next candidate.
- Health.Station: the counter is an unbounded natural, as Python's int is.

## Findings

| source | as written | input that shows it | evidently intended | confidence | as-written member | corrected member |
|---|---|---|---|---|---|---|
| dbus_twc3.py:265 | `--instance` is declared without `type=int`, so a value given on the command line stays a string. `args.instance + (100 if args.dryrun else 0)` at line 285 then raises TypeError (str + int), which main does not catch | `--instance 42`, with or without `--dryrun` | the text converted to an integer and then offset, as the option's help promises | high (not executed) | Config.GivenInstanceRaises | Config.CorrectedInstanceOffsets |
