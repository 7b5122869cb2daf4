# MineMonitor in Dafny

MineMonitor is a Home Assistant integration that polls a Bitcoin mining
pool's HTTP API (`/api/client/{address}`, `/api/network`, `/api/info`) and
exposes what it finds as sensors. This project models its core and proves
properties of the model:

- **The update coordinator** (`_async_update_data`, in both copies of the
  integration). One cycle fetches every configured address in order, then
  the network endpoint, then the info endpoint, and assembles the snapshot
  `{client, network, info}`. A non-200 reply leaves its section empty and
  the cycle continues. A timeout or a client/parse error ends the cycle with
  no snapshot. The `minemonitor` copy also compares each address's worker
  names with the previous snapshot and sends a "new workers" signal for each
  address that gained names. Each endpoint's reply is an input to the model
  (`Fetch.Reply`). Both coordinators are classes whose update method walks
  the address loop and is proved equal to a specification function
  (`Coordinator.Update`, `LegacyCoordinator.Update`).
- **The address services** (`add_btc_address` / `remove_btc_address`). They
  act on a config entry's address list, which is held in the class
  `AddressServices.ConfigEntries`. The services refuse:
  - an unknown entry;
  - a duplicate add;
  - removing an address that is absent;
  - removing the last address.
  Otherwise they append the address or remove its first occurrence.
- **The sensor platform** (`sensor.py`). It covers:
  - the H/s → TH/s conversion;
  - each sensor's value and availability as functions of the snapshot, the
    last update's success and the sensor's selector (type, address, worker
    index, description);
  - the enumeration of sensors that setup builds with nested loops;
  - the unique ids set in the sensor constructor, which are proved distinct.
- **The configuration flow** (`config_flow.py`). It covers:
  - comma-split-and-strip parsing of the address text;
  - the basic address check;
  - the order of validation and probing;
  - the mapping from exceptions to error codes;
  - the entry's `host:port` unique id;
  - the options step, whose address default is the stored list joined with
    `", "`.

Files:
- `json.dfy`: JSON values and Python's `float`.
- `snapshot.dfy`: client, worker, info and snapshot records.
- `fetch.dfy`: replies, endpoints and URLs.
- `coordinator.dfy` and `legacy_coordinator.dfy`: the two coordinators.
- `address_services.dfy`: the address services.
- `sensor.dfy` and `sensor_ids.dfy`: the sensor platform.
- `config_flow.dfy`: the configuration flow.
- `text.dfy`: integer rendering and string splitting.

Design decisions:
- JSON bodies are a `Json` datatype. `Null` stands for Python's `None`.
- A client record keeps its `"workers"` list apart from its other fields. A
  missing list behaves everywhere in the code like an empty one, so the two
  are one value here. The same holds for the info body's `"highScores"`.
- Python's `float(str)` is a parameter of type `FloatParser`. It returns the
  number a string denotes, or nothing where Python raises.
- The reply sequence is aligned with the configured address list. Replies
  after the one that ends a cycle are never consulted.
- A signal is modelled as `Coordinator.Event`, recorded in the order it is
  sent. Its address and added names are the ones the accompanying log line
  reports. The dispatched payload itself is only the entry id.
- A worker name that is a list or a dict cannot go into a Python set. Neither
  can a missing name (`KeyError`). Either makes the comparison raise. That
  exception is neither a timeout nor a client error, so it escapes the
  coordinator's handlers. The model records it as `WorkerNameError`.

Where the behaviour described for the system and the code differ, the model
follows the code:
- The code sends one signal per address that gained workers, inside the
  loop. It does not send one signal per cycle. A signal that was already sent
  stays sent when a later reply ends the cycle.
- The hash-rate conversion divides by 10^12 and does not round.
- The best-difficulty sensor of a worker is not rounded to an integer. A
  string value is converted with `float()` and returned unrounded, and a
  value that is not a string is returned as it is
  (custom_components/minemonitor/sensor.py:255-260).
- A worker without a `name` does not get a generated `worker_{idx}` name. In
  the sensor constructor the lookup raises `KeyError`
  (custom_components/minemonitor/sensor.py:203), so setup adds no sensors
  (`Sensor.SetupEntities`, `SensorIds.SetupFailsIffLookupFails`).
- The options step stores its result as entry options. The coordinator and
  the sensors read entry data. The model states what the options step
  returns and does not connect it to later cycles.

## Model

| member | source | states |
|---|---|---|
| Coordinator.BitcoinMiningUpdateCoordinator.AsyncUpdateData | custom_components/minemonitor/__init__.py:259-311 | the address loop, the network and info fetches and the exception handlers produce exactly the cycle `Update` specifies: outcome, endpoints requested in order, and signals sent |
| Coordinator.BitcoinMiningUpdateCoordinator.FetchClient | custom_components/minemonitor/__init__.py:270-288 | one iteration of the address loop records the request, stores a 200 body, signals gained worker names and aborts on a timeout, a client error or an uncomparable name, exactly as the step `ClientStep` specifies |
| Coordinator.BitcoinMiningUpdateCoordinator.constructor | custom_components/minemonitor/__init__.py:234-257 | the coordinator keeps host, port, address list and entry id as given |
| Coordinator.WorkerNames | custom_components/minemonitor/__init__.py:279-280 | the set of worker names exists iff every worker's name can be put in a set, and it holds exactly those names |
| Coordinator.EventsForReports | custom_components/minemonitor/__init__.py:278-285 | every signal carries the entry id and reports a configured address whose reply gained names, with exactly the gained names; there are at most as many signals as addresses, and none when no address gained a name |
| Coordinator.EventsAtAffectedPositions | custom_components/minemonitor/__init__.py:278-285 | from any address position on, the `k`-th signal reports the `k`-th later position whose reply gained names; those positions increase strictly, and a position is among them iff its reply gained names |
| Coordinator.OneSignalPerAffectedPosition | custom_components/minemonitor/__init__.py:278-285 | exactly one signal per address position whose reply gained names, in position order, and none for any other position |
| Coordinator.CycleStopsAtFirstFault | custom_components/minemonitor/__init__.py:270-311 | endpoints are requested in fetch order (addresses in configured order, then network, then info) up to and including the first that faults; the cycle fails iff that one faults, with its error; a successful cycle requested every endpoint |
| Coordinator.CycleEvents | custom_components/minemonitor/__init__.py:278-285 | the signals a cycle sent are the reference signals for exactly the addresses it reached |
| Coordinator.UpdateFailsIffFault | custom_components/minemonitor/__init__.py:306-311 | a cycle yields no snapshot iff some reply is a timeout or client error or some worker name cannot be compared; a non-200 reply never ends a cycle |
| Coordinator.UpdatedSnapshot | custom_components/minemonitor/__init__.py:261-306 | in a successful cycle the client keys are exactly the configured addresses answered with 200, hence a subset of them, each holding its last 200 body; network and info are their 200 bodies or stay `{}`; signals are one per affected address in address order |
| Coordinator.SignalsNeedNewNames | custom_components/minemonitor/__init__.py:278-285 | with no previous snapshot, or when no address gained a worker name, the cycle sends no signal and no name comparison ends it; losing workers signals nothing |
| Coordinator.PassIgnoresPrevious | custom_components/minemonitor/__init__.py:270-288 | when no name comparison raises, the address loop fetches and stores exactly what it would with no previous snapshot |
| Coordinator.DiffKeepsSnapshot | custom_components/minemonitor/__init__.py:276-285 | when no name comparison raises, the cycle's outcome and requests do not depend on the previous snapshot |
| Coordinator.AbortedPassIsFinal | custom_components/minemonitor/__init__.py:308-311 | once the address loop has aborted, later iterations change nothing |
| Coordinator.PassRequests | custom_components/minemonitor/__init__.py:270-272 | the address loop requests the client endpoints in configured order, stopping right after the first fault |
| Coordinator.PassEvents | custom_components/minemonitor/__init__.py:278-285 | the loop's signals are the reference signals for the addresses it reached |
| Coordinator.PassClients | custom_components/minemonitor/__init__.py:273-275 | after the loop, each client key is an address answered with 200, holding the last 200 body for it |
| Coordinator.SetupEntry | custom_components/minemonitor/__init__.py:209-214 | setup is not ready iff the first refresh failed, and otherwise starts with that refresh's snapshot |
| LegacyCoordinator.BitcoinMiningUpdateCoordinator.AsyncUpdateData | custom_components/__init__.py:255-297 | the cycle without the worker comparison produces exactly the outcome and request order `LegacyCoordinator.Update` specifies |
| LegacyCoordinator.BitcoinMiningUpdateCoordinator.constructor | custom_components/__init__.py:232-253 | the coordinator keeps host, port and address list as given |
| LegacyCoordinator.SameCycleAsMinemonitor | custom_components/__init__.py:255-297 | this copy's cycle ends exactly as the `minemonitor` copy's cycle does when that one has no previous snapshot |
| LegacyCoordinator.PassIsUncomparedPass | custom_components/__init__.py:266-274 | this copy's address loop equals the other copy's loop run without a previous snapshot, and it sends no signal |
| LegacyCoordinator.LegacyCycleStopsAtFirstAbort | custom_components/__init__.py:266-297 | the cycle requests a prefix of the fetch order; no endpoint before the last one requested times out or hits a client error; the cycle fails iff the last one requested does, with that endpoint's error; it fails iff any endpoint would; a non-200 reply never ends it; a successful cycle requested every endpoint |
| LegacyCoordinator.LegacyUpdatedSnapshot | custom_components/__init__.py:257-292 | client keys are exactly the configured addresses answered with 200, each with its last 200 body; network and info stay `{}` unless answered with 200 |
| LegacyCoordinator.AbortedPassIsFinal | custom_components/__init__.py:294-297 | once this copy's address loop has aborted, later iterations change nothing |
| Fetch.ClientUrlsDistinct | custom_components/minemonitor/__init__.py:249-271 | distinct addresses are fetched from distinct URLs under `http://{host}:{port}/api` |
| AddressServices.ConfigEntries.AddBtcAddress | custom_components/minemonitor/__init__.py:83-115 | an unknown or unloaded entry, or an address already listed, changes nothing; otherwise exactly that entry's list gets the address appended; lists stay non-empty |
| AddressServices.ConfigEntries.RemoveBtcAddress | custom_components/minemonitor/__init__.py:117-157 | an unknown entry, an absent address, or a removal that would empty the list changes nothing; otherwise exactly that entry's list loses the first occurrence; lists stay non-empty |
| AddressServices.ConfigEntries.constructor | custom_components/__init__.py:82-94 | the entries start with the given loaded ids and address lists |
| AddressServices.IndexOf | custom_components/minemonitor/__init__.py:141 | `list.index`: the position of the first occurrence |
| AddressServices.AddAppends | custom_components/__init__.py:97-110 | adding keeps the existing order as a prefix, contains the address, grows the list by one when it was absent, and adding twice equals adding once |
| AddressServices.RemoveFirstTakesOneCopy | custom_components/minemonitor/__init__.py:141 | `list.remove` shortens the list by one and takes exactly one copy of the address out |
| AddressServices.RemoveKeepsOne | custom_components/__init__.py:133-146 | removal never empties a non-empty list, leaves a list without the address unchanged, refuses to remove the only address, and otherwise takes one copy out |
| AddressServices.RemoveUndoesAdd | custom_components/minemonitor/__init__.py:98-152 | removing an address just added to a non-empty list that lacked it restores the list |
| AddressServices.ServicesKeepDistinct | custom_components/minemonitor/__init__.py:98-152 | both services keep a duplicate-free list duplicate-free, and a removal from a list of two or more leaves the address absent |
| Sensor.ConvertToThPerSecond | custom_components/minemonitor/sensor.py:28-33 | `None` maps to `None`; otherwise the result times 10^12 is the hash rate |
| Sensor.ConversionMonotone | custom_components/minemonitor/sensor.py:28-33 | the conversion is monotone non-decreasing |
| Sensor.InTeraHash | custom_components/minemonitor/sensor.py:262-266 | a value `float` accepts is converted to TH/s; any other value is passed through unchanged |
| Sensor.NativeValue | custom_components/minemonitor/sensor.py:237-238 | every sensor reports `None` while the coordinator has no data |
| Sensor.Available | custom_components/minemonitor/sensor.py:294-311 | false whenever the last update failed; after a success, a client sensor is available iff its address is a client key, a worker sensor iff its index is within the address's workers, network iff the network section is non-empty, info iff `highScores` is non-empty |
| Sensor.UnavailableHasNoValue | custom_components/minemonitor/sensor.py:235-311 | a sensor that is unavailable after a successful update reports `None` |
| Sensor.WorkerSensorValue | custom_components/minemonitor/sensor.py:245-268 | a worker sensor reports `None` out of range; a hash rate in TH/s, or raw when `float` fails; a string best difficulty as a number, or raw when it does not parse; other values raw |
| Sensor.ClientSensorValue | custom_components/minemonitor/sensor.py:240-243 | a client sensor reports `None` when its address has no record in `client`, otherwise the record's field exactly as the server sent it (the workers list, one element per worker, for `workers`), never converted whatever `float` would do |
| Sensor.NetworkSensorValue | custom_components/minemonitor/sensor.py:270-282 | `networkhashps` is reported in TH/s, or raw when `float` fails; other network keys raw |
| Sensor.InfoSensorValue | custom_components/minemonitor/sensor.py:284-289 | the info sensor reports the first high score's best difficulty, or `None` when there is none |
| Sensor.ConvertedKeysCarryTheUnit | custom_components/minemonitor/sensor.py:36-105 | exactly the converted keys (`hashRate`, `networkhashps`) carry the TH/s unit |
| Sensor.SetupEntities | custom_components/minemonitor/sensor.py:108-175 | when every worker of each non-empty configured address present in `client` has a `name`, the nested loops add exactly the specified sensor list; otherwise a sensor constructor raises `KeyError` and nothing is added |
| Sensor.AppendSensors | custom_components/minemonitor/sensor.py:121-131 | one description loop appends one sensor per description, in order, all for the same address, type and worker index |
| Sensor.AppendAddressSensors | custom_components/minemonitor/sensor.py:119-146 | an address present in the snapshot contributes its client sensors followed by each worker's sensors in worker order; if the address is non-empty and a worker has no `name`, the constructor's lookup raises `KeyError` instead |
| Sensor.EntitiesAreEnumerated | custom_components/minemonitor/sensor.py:118-173 | a sensor is created iff it is a client sensor of a configured address present in `client`, a worker sensor for an existing worker index of such an address, a network sensor when the network section is non-empty, or the info sensor when `highScores` is non-empty |
| Sensor.EntityCount | custom_components/minemonitor/sensor.py:118-173 | setup creates 2 client sensors plus 2 per worker for each configured address present in `client`, 4 network sensors iff the network section is non-empty, and 1 info sensor iff `highScores` is non-empty |
| Sensor.EnumeratedSensorsAvailable | custom_components/minemonitor/sensor.py:294-311 | every sensor setup creates is available after a successful update of the same snapshot, except client and worker sensors for an empty address |
| Sensor.WorkerSensorsMembers | custom_components/minemonitor/sensor.py:134-146 | the worker sensors of an address are exactly one per worker index and worker description |
| Sensor.ClientSensorsMembers | custom_components/minemonitor/sensor.py:118-146 | the client and worker sensors are exactly those of configured addresses present in `client` |
| Sensor.ForDescriptionsMembers | custom_components/minemonitor/sensor.py:121-131 | a sensor is built from a description list iff it has the selector and one of the descriptions |
| Sensor.WorkerSensorsLength | custom_components/minemonitor/sensor.py:135-146 | two worker sensors per worker |
| Sensor.ClientSensorsLength | custom_components/minemonitor/sensor.py:118-146 | the client and worker sensor count equals the independently defined count |
| SensorIds.Identify | custom_components/minemonitor/sensor.py:199-211 | only a worker sensor's name lookup can fail; network and info sensors always get an id and a name |
| SensorIds.IdOfEnumerated | custom_components/minemonitor/sensor.py:199-211 | every created sensor gets an id of the form `{entry_id}_{head}_{key}`, where the key holds no `_` |
| SensorIds.DecodeEnumerated | custom_components/minemonitor/sensor.py:199-211 | a created sensor's type, address and description can be read back from its id, and a worker sensor's id also holds its worker's name |
| SensorIds.SameLabelSameWorker | custom_components/minemonitor/sensor.py:135-146 | two worker sensors of one address whose workers render to the same name have the same worker index |
| SensorIds.UniqueIdsDistinct | custom_components/minemonitor/sensor.py:118-211 | when addresses contain no `_`, are not `network` or `info`, and each address's worker names render distinctly, every created sensor gets an id and distinct sensors get distinct ids |
| SensorIds.SetupFailsIffLookupFails | custom_components/minemonitor/sensor.py:118-211 | setup adds nothing exactly when some specified sensor's constructor fails its worker-name lookup; otherwise it adds the specified list |
| SensorIds.EntitiesNoRepeats | custom_components/minemonitor/sensor.py:118-173 | with no repeated configured address, setup never builds the same sensor twice |
| SensorIds.UniqueIdsAtDistinctPositions | custom_components/minemonitor/sensor.py:118-211 | with no repeated configured address, addresses free of `_` and other than `network`/`info`, and distinct worker names per address, sensors at two different positions of the setup list get two different ids |
| SensorIds.RepeatedAddressRepeatsSensors | custom_components/minemonitor/sensor.py:118-131 | configuring a present address twice builds its sensors twice, so the setup list holds the same sensor, and hence the same id, at two positions |
| SensorIds.KeysHaveNoSeparator | custom_components/minemonitor/sensor.py:36-105 | no client, worker or network description key contains `_` |
| ConfigFlow.ParseAddresses | custom_components/minemonitor/config_flow.py:45 | one field per comma-separated piece (commas + 1), each stripped and free of commas |
| ConfigFlow.ParseAfterField | custom_components/minemonitor/config_flow.py:45 | the first field of a parse is the stripped text before the first comma, and the rest is the parse of what follows |
| ConfigFlow.ParseAfterSpace | custom_components/minemonitor/config_flow.py:45 | leading whitespace does not change the parse |
| ConfigFlow.ParseUndoesDisplayJoin | custom_components/minemonitor/config_flow.py:129-140 | parsing a non-empty list joined with `", "` gives the list back when no element holds a comma or surrounding whitespace |
| ConfigFlow.OptionsKeepStoredList | custom_components/minemonitor/config_flow.py:124-140 | submitting the options form with its address default unchanged stores the same list again |
| ConfigFlow.Split | custom_components/minemonitor/config_flow.py:45 | `str.split(",")` gives commas + 1 fields, none holding a comma |
| ConfigFlow.JoinUndoesSplit | custom_components/minemonitor/config_flow.py:45 | joining the split fields with "," rebuilds the string |
| ConfigFlow.SplitAfterField | custom_components/minemonitor/config_flow.py:45 | splitting a text whose first comma follows `a` gives `a`, then the split of the rest |
| ConfigFlow.StripLeadingCuts | custom_components/minemonitor/config_flow.py:45 | `lstrip` keeps a suffix that does not start with whitespace and drops only whitespace |
| ConfigFlow.StripTrailingCuts | custom_components/minemonitor/config_flow.py:45 | `rstrip` keeps a prefix that does not end with whitespace and drops only whitespace |
| ConfigFlow.StripIsStripped | custom_components/minemonitor/config_flow.py:45 | `strip` leaves no whitespace at either end |
| ConfigFlow.StripCutsOnlyWhitespace | custom_components/minemonitor/config_flow.py:45 | `strip` gives a slice of its input, cutting only whitespace from either end |
| ConfigFlow.StripKeepsStripped | custom_components/minemonitor/config_flow.py:45 | `strip` leaves a stripped string unchanged |
| ConfigFlow.StripAfterSpace | custom_components/minemonitor/config_flow.py:45 | whitespace before a stripped text strips away |
| ConfigFlow.StripSkipsSpace | custom_components/minemonitor/config_flow.py:45 | a leading whitespace character does not change the stripped result |
| ConfigFlow.TestConnection | custom_components/minemonitor/config_flow.py:80-104 | the server is probed iff every address passes the check; otherwise `InvalidBTCAddress` is raised before any connection; when probed, the error is the probe's |
| ConfigFlow.ErrorCodesDistinct | custom_components/minemonitor/config_flow.py:57-63 | `CannotConnect`, `InvalidBTCAddress` and other exceptions map to distinct codes (`cannot_connect`, `invalid_btc_address`, `unknown`) |
| ConfigFlow.UniqueIdInjective | custom_components/minemonitor/config_flow.py:40 | two servers share the `host:port` unique id only if host and port are both equal |
| ConfigFlow.AsyncStepUser | custom_components/minemonitor/config_flow.py:31-77 | no input shows the empty form; an already-configured `host:port` (default port 3334) aborts; otherwise an entry titled `Mining Server at host:port` holds the parsed addresses when no error occurs, and the form shows that error's code when one does; a created entry holds at least one address, all passing the check, and both probes succeeded |
| ConfigFlow.CreatedEntriesHoldValidAddresses | custom_components/minemonitor/config_flow.py:45-56 | a created entry holds at least one address, all passing the check, and both probes succeeded |
| ConfigFlow.AsyncStepInit | custom_components/minemonitor/config_flow.py:122-152 | submitted text is re-parsed, while a list or a missing value passes through unchanged; with no input, the form shows the stored list joined with `", "` (stored text as is) and the stored scan interval, or 60 |
| Text.ParseNatToString | custom_components/minemonitor/config_flow.py:40 | reading back the decimal rendering of a number gives the number |
| Text.NatToStringInjective | custom_components/minemonitor/config_flow.py:40 | distinct naturals render as distinct digit strings |
| Text.IntToStringInjective | custom_components/minemonitor/config_flow.py:40 | distinct port numbers render differently |
| Text.SignOfRendering | custom_components/minemonitor/config_flow.py:40 | a rendering starts with `-` exactly for negative numbers |
| Text.RenderingAlphabet | custom_components/minemonitor/config_flow.py:40 | a rendered number contains only digits and `-` |
| Text.SplitLastOf | custom_components/minemonitor/config_flow.py:40 | splitting at the last separator undoes joining with it when the last part lacks it |

## Left out

- The sensor platform as written creates no sensors: custom_components/minemonitor/sensor.py:24 imports `MinemonitorUpdateCoordinator`, but the package defines only `BitcoinMiningUpdateCoordinator` (custom_components/minemonitor/__init__.py:231), so loading the platform raises `ImportError` and `async_setup_entry` never runs. Every `Sensor.*` and `SensorIds.*` member describes the platform as it would run if that import resolved, with the sensor's coordinator read as that class's `data` and `last_update_success`.
- The Home Assistant framework is not modelled. That covers the coordinator's timer and listeners, entity base classes, `DeviceInfo`, service registration and schemas, platform forwarding, config-entry reload after an add or remove, and unloading. `last_update_success`, the previous snapshot and the set of existing entries are inputs.
- HTTP and timing are not modelled: aiohttp sessions, the shared 10-second `async_timeout` and `await` scheduling. Each endpoint's reply in a cycle is an input (`Fetch.Reply`), and a body that fails to parse as JSON is a client error.
- `refresh_data_service` is not modelled. It only asks the framework for a refresh.
- Logging and delivery of the dispatcher signal are not modelled. The model records only that a signal was sent.
- Floating point is not modelled. Numbers are mathematical reals, and `float()` on strings is an abstract parser. Infinity and NaN are not represented.
- The two connectivity probes in `_test_connection` are network I/O. Their combined result is an input (`ConfigFlow.ProbeOutcome`).
- The `www/minemonitor-cards` front-end cards are not part of this model.
- The update interval (`scan_interval`) is modelled only as a value the forms carry. Scheduling is not modelled.
- Sensor.Available: requires that a successful last update comes with a snapshot. A sensor exists only after a first refresh has stored one. Without it the source would raise `AttributeError`.
- SensorIds.Identify: a worker name that is not a string is rendered through an abstract `show` function, because Python's `str()` of numbers and other values is not modelled. The distinct-id result assumes that rendered names are distinct within an address.
- SensorIds.UniqueIdsDistinct: proved only under its stated conditions, and for distinct sensor values; `SensorIds.UniqueIdsAtDistinctPositions` adds the list-position form. The source's ids can collide in four ways. An address can contain `_`. An address can equal `info` and have a worker named `highscore`, whose `bestDifficulty` sensor then shares the info sensor's id. An address can be configured twice, which the configuration flow accepts (`"a, a"`). Two workers of one address can have equal names. An address equal to `network` does not collide, but the condition excludes it because reading a sensor back from its id relies on it.
- Reply bodies are assumed to have the pool's schema, and the Python exceptions a malformed body raises are not modelled. A client body that is a JSON array makes `.get` raise `AttributeError` (custom_components/minemonitor/__init__.py:280), which the handlers at lines 308-311 do not catch. `"workers": null` makes iteration over `None` raise `TypeError`. A worker or high-score entry that is not an object makes the sensor lookups at custom_components/minemonitor/sensor.py:253 and 289 raise.
- Coordinator.Affected: worker names are compared as JSON values, so `true` and `1` are different names. Python's `True == 1` makes the source treat them as the same name at custom_components/minemonitor/__init__.py:279-282.
- Coordinator.Event: the dispatched payload is only the entry id. The address and the added names come from the log line.
