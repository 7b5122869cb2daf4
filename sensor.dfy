/** The sensor platform: which sensors a snapshot gives rise to, and the
    value and availability each sensor reports. A sensor's fields are set
    once by its constructor and never change, so a sensor is a value here;
    the coordinator's `data` and `last_update_success` are inputs. */
module Sensor {
  import opened Json
  import opened Snapshot

  /** Hashes per second in one TH/s. */
  const TeraHash: real := 1000000000000.0

  /** `convert_to_th_per_second`: H/s to TH/s, with no rounding; `None`
      stays `None`. */
  function ConvertToThPerSecond(hashrate: Option<real>): (r: Option<real>)
    ensures r.None? <==> hashrate.None?
    ensures r.Some? ==> r.value * TeraHash == hashrate.value
  {
    if hashrate.None? then None else Some(hashrate.value / TeraHash)
  }

  /** The conversion never reorders two hash rates. */
  lemma ConversionMonotone(a: real, b: real)
    requires a <= b
    ensures ConvertToThPerSecond(Some(a)).value <= ConvertToThPerSecond(Some(b)).value
  {
    var ca := ConvertToThPerSecond(Some(a)).value;
    var cb := ConvertToThPerSecond(Some(b)).value;
    assert ca * TeraHash <= cb * TeraHash;
  }

  /** The parts of a `SensorEntityDescription` the integration reads; icons
      and state classes only affect display. */
  datatype Description = Description(key: string, name: string, unit: Option<string>)

  const ClientSensorTypes: seq<Description> := [
    Description("bestDifficulty", "Best Difficulty", None),
    Description("workersCount", "Workers Count", None)
  ]

  const WorkerSensorTypes: seq<Description> := [
    Description("bestDifficulty", "Best Difficulty", None),
    Description("hashRate", "Hash Rate", Some("TH/s"))
  ]

  const NetworkSensorTypes: seq<Description> := [
    Description("blocks", "Blocks", None),
    Description("difficulty", "Network Difficulty", None),
    Description("networkhashps", "Network Hash Rate", Some("TH/s")),
    Description("pooledtx", "Pooled Transactions", None)
  ]

  const InfoSensorTypes: seq<Description> := [
    Description("highscore_bestDifficulty", "All-time Best Difficulty", None)
  ]

  /** The `sensor_type` strings "client", "worker", "network" and "info". */
  datatype SensorType = ClientSensor | WorkerSensor | NetworkSensor | InfoSensor

  datatype MinemonitorSensor = MinemonitorSensor(description: Description, address: Option<string>, sensorType: SensorType, workerIdx: Option<int>)
  {
    /** Python truthiness of `btc_address`: present and not empty. */
    predicate HasAddress()
    {
      address.Some? && address.value != ""
    }
  }

  /** `data["client"].get(address, {}).get("workers", [])`. */
  function ClientWorkers(d: Snapshot, address: string): seq<Worker>
  {
    if address in d.client then d.client[address].workers else []
  }

  /** `convert_to_th_per_second(float(value))`, falling back to the raw
      value where `float` raises. */
  function InTeraHash(value: Json, parse: FloatParser): (r: Json)
    ensures ToFloat(value, parse).Some? ==> r.Num? && r.x * TeraHash == ToFloat(value, parse).value
    ensures ToFloat(value, parse).None? ==> r == value
  {
    match ToFloat(value, parse)
    case Some(h) => Num(ConvertToThPerSecond(Some(h)).value)
    case None => value
  }

  /** A worker's value under `key`: a string best difficulty parsed as a
      number, a hash rate converted to TH/s, each kept raw when it does not
      parse; any other value as the server sent it. */
  function WorkerValue(w: Worker, key: string, parse: FloatParser): Json
  {
    var value := Get(w, key);
    if value.Str? && key == "bestDifficulty" then
      match parse(value.s)
      case Some(x) => Num(x)
      case None => value
    else if key == "hashRate" then InTeraHash(value, parse)
    else value
  }

  /** A network value: the network hash rate converted to TH/s, every other
      key raw. */
  function NetworkValue(network: map<string, Json>, key: string, parse: FloatParser): Json
  {
    var value := Get(network, key);
    if key == "networkhashps" then InTeraHash(value, parse) else value
  }

  /** `MinemonitorSensor.native_value`. */
  function NativeValue(data: Option<Snapshot>, s: MinemonitorSensor, parse: FloatParser): (r: Json)
    ensures data.None? ==> r == Null
  {
    if data.None? then Null
    else
      var d := data.value;
      var key := s.description.key;
      if s.sensorType == ClientSensor && s.HasAddress() then
        if s.address.value in d.client then ClientField(d.client[s.address.value], key) else Null
      else if s.sensorType == WorkerSensor && s.HasAddress() && s.workerIdx.Some? then
        var workers := ClientWorkers(d, s.address.value);
        if 0 <= s.workerIdx.value < |workers| then WorkerValue(workers[s.workerIdx.value], key, parse) else Null
      else if s.sensorType == NetworkSensor then
        NetworkValue(d.network, key, parse)
      else if s.sensorType == InfoSensor && key == "highscore_bestDifficulty" && |d.info.highScores| > 0 then
        Get(d.info.highScores[0], "bestDifficulty")
      else Null
  }

  /** `MinemonitorSensor.available`. Sensors exist only once a first
      refresh has stored a snapshot, so a successful last update always
      comes with one; the source would raise `AttributeError` otherwise. */
  function Available(lastUpdateSuccess: bool, data: Option<Snapshot>, s: MinemonitorSensor): (r: bool)
    requires lastUpdateSuccess ==> data.Some?
    ensures !lastUpdateSuccess ==> !r
    ensures lastUpdateSuccess && s.sensorType == ClientSensor && s.HasAddress() ==>
      (r <==> s.address.value in data.value.client)
    ensures lastUpdateSuccess && s.sensorType == WorkerSensor && s.HasAddress() && s.workerIdx.Some? ==>
      (r <==> s.address.value in data.value.client && 0 <= s.workerIdx.value < |data.value.client[s.address.value].workers|)
    ensures lastUpdateSuccess && s.sensorType == NetworkSensor ==> (r <==> |data.value.network| > 0)
    ensures lastUpdateSuccess && s.sensorType == InfoSensor ==> (r <==> |data.value.info.highScores| > 0)
  {
    if !lastUpdateSuccess then false
    else
      var d := data.value;
      if s.sensorType == ClientSensor && s.HasAddress() then s.address.value in d.client
      else if s.sensorType == WorkerSensor && s.HasAddress() && s.workerIdx.Some? then
        0 <= s.workerIdx.value < |ClientWorkers(d, s.address.value)|
      else if s.sensorType == NetworkSensor then |d.network| > 0
      else if s.sensorType == InfoSensor then |d.info.highScores| > 0
      else false
  }

  /** A sensor that is not available after a successful update reports no
      value. */
  lemma UnavailableHasNoValue(d: Snapshot, s: MinemonitorSensor, parse: FloatParser)
    requires !Available(true, Some(d), s)
    ensures NativeValue(Some(d), s, parse) == Null
  {
    if s.sensorType == NetworkSensor {
      assert Get(d.network, s.description.key) == Null;
    }
  }

  /** What a worker sensor reports: nothing when its index is out of range;
      otherwise the hash rate in TH/s (raw when `float` fails on it) and a
      string best difficulty as a number (raw when it does not parse). */
  lemma WorkerSensorValue(d: Snapshot, s: MinemonitorSensor, parse: FloatParser)
    requires s.sensorType == WorkerSensor && s.HasAddress() && s.workerIdx.Some?
    ensures var workers := ClientWorkers(d, s.address.value);
      var i := s.workerIdx.value;
      var r := NativeValue(Some(d), s, parse);
      && (!(0 <= i < |workers|) ==> r == Null)
      && (0 <= i < |workers| ==>
            var value := Get(workers[i], s.description.key);
            && (s.description.key == "hashRate" && ToFloat(value, parse).Some? ==>
                  r.Num? && r.x * TeraHash == ToFloat(value, parse).value)
            && (s.description.key == "hashRate" && ToFloat(value, parse).None? ==> r == value)
            && (s.description.key == "bestDifficulty" && value.Str? ==>
                  r == (if parse(value.s).Some? then Num(parse(value.s).value) else value))
            && (s.description.key != "hashRate" && !value.Str? ==> r == value))
  {
  }

  /** What a client sensor reports: `None` when its address has no record,
      otherwise the record's field as the server sent it. Unlike a worker's,
      a client value is never converted, so the float parser plays no part. */
  lemma ClientSensorValue(d: Snapshot, s: MinemonitorSensor, parse: FloatParser)
    requires s.sensorType == ClientSensor && s.HasAddress()
    ensures var a := s.address.value;
      var r := NativeValue(Some(d), s, parse);
      && (a !in d.client ==> r == Null)
      && (a in d.client && s.description.key != "workers" ==> r == Get(d.client[a].fields, s.description.key))
      && (a in d.client && s.description.key == "workers" ==> r.Arr? && |r.items| == |d.client[a].workers|)
      && (forall other: FloatParser :: NativeValue(Some(d), s, other) == r)
  {
  }

  /** What a network sensor reports: the network hash rate in TH/s (raw
      when `float` fails on it), any other key as the server sent it. */
  lemma NetworkSensorValue(d: Snapshot, s: MinemonitorSensor, parse: FloatParser)
    requires s.sensorType == NetworkSensor
    ensures var value := Get(d.network, s.description.key);
      var r := NativeValue(Some(d), s, parse);
      && (s.description.key == "networkhashps" && ToFloat(value, parse).Some? ==>
            r.Num? && r.x * TeraHash == ToFloat(value, parse).value)
      && (s.description.key == "networkhashps" && ToFloat(value, parse).None? ==> r == value)
      && (s.description.key != "networkhashps" ==> r == value)
  {
  }

  /** The info sensor reports the best difficulty of the first high score,
      and nothing when there is none. */
  lemma InfoSensorValue(d: Snapshot, s: MinemonitorSensor, parse: FloatParser)
    requires s.sensorType == InfoSensor && s.description == InfoSensorTypes[0]
    ensures NativeValue(Some(d), s, parse) ==
      if |d.info.highScores| > 0 then Get(d.info.highScores[0], "bestDifficulty") else Null
  {
  }

  /** Exactly the sensors that read a converted hash rate carry the TH/s
      unit. */
  lemma ConvertedKeysCarryTheUnit()
    ensures forall desc :: desc in WorkerSensorTypes ==> (desc.unit == Some("TH/s") <==> desc.key == "hashRate")
    ensures forall desc :: desc in NetworkSensorTypes ==> (desc.unit == Some("TH/s") <==> desc.key == "networkhashps")
  {
  }

  // Sensor enumeration (`async_setup_entry`)

  /** One sensor per description, all with the same selector. */
  function ForDescriptions(ds: seq<Description>, address: Option<string>, t: SensorType, idx: Option<int>): (r: seq<MinemonitorSensor>)
    ensures |r| == |ds|
    ensures forall j :: 0 <= j < |ds| ==> r[j] == MinemonitorSensor(ds[j], address, t, idx)
  {
    seq(|ds|, j requires 0 <= j < |ds| => MinemonitorSensor(ds[j], address, t, idx))
  }

  /** The worker sensors for the first `n` workers of an address. */
  function WorkerSensors(address: string, n: nat): seq<MinemonitorSensor>
  {
    if n == 0 then []
    else WorkerSensors(address, n - 1) + ForDescriptions(WorkerSensorTypes, Some(address), WorkerSensor, Some(n - 1))
  }

  /** The sensors of one address present in the snapshot. */
  function AddressSensors(address: string, c: Client): seq<MinemonitorSensor>
  {
    ForDescriptions(ClientSensorTypes, Some(address), ClientSensor, None) + WorkerSensors(address, |c.workers|)
  }

  /** The client and worker sensors, address by address in configured order. */
  function ClientSensors(addresses: seq<string>, client: map<string, Client>): seq<MinemonitorSensor>
  {
    if addresses == [] then []
    else
      var last := addresses[|addresses| - 1];
      ClientSensors(addresses[..|addresses| - 1], client) +
        (if last in client then AddressSensors(last, client[last]) else [])
  }

  function NetworkSensors(d: Snapshot): seq<MinemonitorSensor>
  {
    if |d.network| > 0 then ForDescriptions(NetworkSensorTypes, None, NetworkSensor, None) else []
  }

  function InfoSensors(d: Snapshot): seq<MinemonitorSensor>
  {
    if |d.info.highScores| > 0 then [MinemonitorSensor(InfoSensorTypes[0], None, InfoSensor, None)] else []
  }

  /** The sensor list `async_setup_entry` hands to Home Assistant. */
  function Entities(addresses: seq<string>, d: Snapshot): seq<MinemonitorSensor>
  {
    ClientSensors(addresses, d.client) + NetworkSensors(d) + InfoSensors(d)
  }

  /** Which sensors a snapshot should give rise to, stated sensor by sensor. */
  predicate Enumerated(addresses: seq<string>, d: Snapshot, s: MinemonitorSensor)
  {
    match s.sensorType
    case ClientSensor =>
      && s.address.Some? && s.address.value in addresses && s.address.value in d.client
      && s.workerIdx.None? && s.description in ClientSensorTypes
    case WorkerSensor =>
      && s.address.Some? && s.address.value in addresses && s.address.value in d.client
      && s.workerIdx.Some? && 0 <= s.workerIdx.value < |d.client[s.address.value].workers|
      && s.description in WorkerSensorTypes
    case NetworkSensor =>
      |d.network| > 0 && s.address.None? && s.workerIdx.None? && s.description in NetworkSensorTypes
    case InfoSensor =>
      |d.info.highScores| > 0 && s.address.None? && s.workerIdx.None? && s.description == InfoSensorTypes[0]
  }

  lemma {:induction false} WorkerSensorsMembers(address: string, n: nat, s: MinemonitorSensor)
    ensures s in WorkerSensors(address, n) <==>
      && s.address == Some(address) && s.sensorType == WorkerSensor
      && s.workerIdx.Some? && 0 <= s.workerIdx.value < n && s.description in WorkerSensorTypes
  {
    if n > 0 {
      WorkerSensorsMembers(address, n - 1, s);
      var last := ForDescriptions(WorkerSensorTypes, Some(address), WorkerSensor, Some(n - 1));
      assert s in last <==> (s.address == Some(address) && s.sensorType == WorkerSensor
                             && s.workerIdx == Some(n - 1) && s.description in WorkerSensorTypes) by {
        if s in last {
          var j :| 0 <= j < |last| && last[j] == s;
        }
        if s.address == Some(address) && s.sensorType == WorkerSensor && s.workerIdx == Some(n - 1) && s.description in WorkerSensorTypes {
          var j :| 0 <= j < |WorkerSensorTypes| && WorkerSensorTypes[j] == s.description;
          assert last[j] == s;
        }
      }
    }
  }

  lemma ForDescriptionsMembers(ds: seq<Description>, address: Option<string>, t: SensorType, idx: Option<int>, s: MinemonitorSensor)
    ensures s in ForDescriptions(ds, address, t, idx) <==>
      s.address == address && s.sensorType == t && s.workerIdx == idx && s.description in ds
  {
    var r := ForDescriptions(ds, address, t, idx);
    if s.address == address && s.sensorType == t && s.workerIdx == idx && s.description in ds {
      var j :| 0 <= j < |ds| && ds[j] == s.description;
      assert r[j] == s;
    }
  }

  lemma {:induction false} ClientSensorsMembers(addresses: seq<string>, client: map<string, Client>, s: MinemonitorSensor)
    ensures s in ClientSensors(addresses, client) <==>
      && s.address.Some? && s.address.value in addresses && s.address.value in client
      && ((s.sensorType == ClientSensor && s.workerIdx.None? && s.description in ClientSensorTypes)
          || (s.sensorType == WorkerSensor && s.workerIdx.Some?
              && 0 <= s.workerIdx.value < |client[s.address.value].workers|
              && s.description in WorkerSensorTypes))
  {
    if addresses != [] {
      var init := addresses[..|addresses| - 1];
      var last := addresses[|addresses| - 1];
      assert addresses == init + [last];
      ClientSensorsMembers(init, client, s);
      if last in client {
        ForDescriptionsMembers(ClientSensorTypes, Some(last), ClientSensor, None, s);
        WorkerSensorsMembers(last, |client[last].workers|, s);
      }
    }
  }

  /** Setup yields exactly the enumerated sensors: two client sensors and
      two per worker for each configured address present in the snapshot,
      the four network sensors when the network section is non-empty, the
      info sensor when there is a high score, and nothing else; in
      particular no sensor for an address the snapshot lacks. */
  lemma EntitiesAreEnumerated(addresses: seq<string>, d: Snapshot, s: MinemonitorSensor)
    ensures s in Entities(addresses, d) <==> Enumerated(addresses, d, s)
  {
    ClientSensorsMembers(addresses, d.client, s);
    if |d.network| > 0 {
      ForDescriptionsMembers(NetworkSensorTypes, None, NetworkSensor, None, s);
    }
  }

  /** Every sensor setup creates is available after a successful update of
      the same snapshot, except those of an empty-string address, which the
      source treats as having no address. */
  lemma EnumeratedSensorsAvailable(addresses: seq<string>, d: Snapshot, s: MinemonitorSensor)
    requires s in Entities(addresses, d)
    ensures Available(true, Some(d), s) <==> (s.address.None? || s.address.value != "")
  {
    EntitiesAreEnumerated(addresses, d, s);
  }

  /** The number of sensors setup creates, counted independently. */
  function ClientSensorCount(addresses: seq<string>, client: map<string, Client>): nat
  {
    if addresses == [] then 0
    else
      var last := addresses[|addresses| - 1];
      ClientSensorCount(addresses[..|addresses| - 1], client) +
        (if last in client then 2 + 2 * |client[last].workers| else 0)
  }

  lemma {:induction false} WorkerSensorsLength(address: string, n: nat)
    ensures |WorkerSensors(address, n)| == 2 * n
  {
    if n > 0 {
      WorkerSensorsLength(address, n - 1);
    }
  }

  lemma {:induction false} ClientSensorsLength(addresses: seq<string>, client: map<string, Client>)
    ensures |ClientSensors(addresses, client)| == ClientSensorCount(addresses, client)
  {
    if addresses != [] {
      var last := addresses[|addresses| - 1];
      ClientSensorsLength(addresses[..|addresses| - 1], client);
      if last in client {
        WorkerSensorsLength(last, |client[last].workers|);
      }
    }
  }

  /** Two client sensors plus two per worker for each configured address
      present in the snapshot, four network sensors iff the network section
      is non-empty, one info sensor iff there is a high score. */
  lemma EntityCount(addresses: seq<string>, d: Snapshot)
    ensures |Entities(addresses, d)| ==
      ClientSensorCount(addresses, d.client)
        + (if |d.network| > 0 then 4 else 0)
        + (if |d.info.highScores| > 0 then 1 else 0)
  {
    ClientSensorsLength(addresses, d.client);
  }

  lemma ForDescriptionsSnoc(ds: seq<Description>, j: nat, address: Option<string>, t: SensorType, idx: Option<int>)
    requires j < |ds|
    ensures ForDescriptions(ds[..j + 1], address, t, idx) ==
      ForDescriptions(ds[..j], address, t, idx) + [MinemonitorSensor(ds[j], address, t, idx)]
  {
  }

  /** One `for description in ...: entities.append(MinemonitorSensor(...))`
      loop of `async_setup_entry`. */
  method AppendSensors(entities: seq<MinemonitorSensor>, ds: seq<Description>, address: Option<string>, t: SensorType, idx: Option<int>)
    returns (r: seq<MinemonitorSensor>)
    ensures r == entities + ForDescriptions(ds, address, t, idx)
  {
    r := entities;
    for j := 0 to |ds|
      invariant r == entities + ForDescriptions(ds[..j], address, t, idx)
    {
      ForDescriptionsSnoc(ds, j, address, t, idx);
      r := r + [MinemonitorSensor(ds[j], address, t, idx)];
    }
    assert ds[..|ds|] == ds;
  }

  /** The constructor of a worker sensor of a non-empty address reads its
      worker's "name" and raises `KeyError` when the key is missing; an
      empty address skips that branch. */
  predicate WorkersNamed(address: string, c: Client)
  {
    address == "" || forall i :: 0 <= i < |c.workers| ==> "name" in c.workers[i]
  }

  /** No worker sensor constructor of a setup raises. */
  predicate AllWorkersNamed(addresses: seq<string>, d: Snapshot)
  {
    forall k :: 0 <= k < |addresses| && addresses[k] in d.client ==> WorkersNamed(addresses[k], d.client[addresses[k]])
  }

  /** What `async_setup_entry` hands to `async_add_entities`: the whole list,
      or nothing when a constructor raises before the call is reached. */
  function SetupOutcome(addresses: seq<string>, d: Snapshot): Option<seq<MinemonitorSensor>>
  {
    if AllWorkersNamed(addresses, d) then Some(Entities(addresses, d)) else None
  }

  /** The body of `async_setup_entry`'s address loop for an address present
      in the snapshot: its client sensors, then each worker's sensors, or
      `None` when a worker's constructor raises. The constructor of the
      worker's first description is the one that raises. */
  method AppendAddressSensors(entities: seq<MinemonitorSensor>, btcAddress: string, c: Client)
    returns (r: Option<seq<MinemonitorSensor>>)
    ensures r == if WorkersNamed(btcAddress, c) then Some(entities + AddressSensors(btcAddress, c)) else None
  {
    var built := AppendSensors(entities, ClientSensorTypes, Some(btcAddress), ClientSensor, None);
    ghost var withClient := built;
    for workerIdx := 0 to |c.workers|
      invariant built == withClient + WorkerSensors(btcAddress, workerIdx)
      invariant btcAddress == "" || forall i :: 0 <= i < workerIdx ==> "name" in c.workers[i]
    {
      if btcAddress != "" && "name" !in c.workers[workerIdx] {
        return None;
      }
      built := AppendSensors(built, WorkerSensorTypes, Some(btcAddress), WorkerSensor, Some(workerIdx));
    }
    assert WorkersNamed(btcAddress, c);
    assert built == entities + AddressSensors(btcAddress, c);
    return Some(built);
  }

  /** `async_setup_entry`: builds the sensor list with the source's nested
      loops over addresses, workers and descriptions, and adds it only when
      no constructor raised. */
  method SetupEntities(data: Snapshot, btcAddresses: seq<string>) returns (entities: Option<seq<MinemonitorSensor>>)
    ensures entities == SetupOutcome(btcAddresses, data)
  {
    var built := [];
    for i := 0 to |btcAddresses|
      invariant built == ClientSensors(btcAddresses[..i], data.client)
      invariant AllWorkersNamed(btcAddresses[..i], data)
    {
      var btcAddress := btcAddresses[i];
      assert btcAddresses[..i + 1][..i] == btcAddresses[..i];
      if btcAddress in data.client {
        var r := AppendAddressSensors(built, btcAddress, data.client[btcAddress]);
        if r.None? {
          assert !AllWorkersNamed(btcAddresses, data) by {
            assert btcAddresses[i] in data.client && !WorkersNamed(btcAddresses[i], data.client[btcAddresses[i]]);
          }
          return None;
        }
        built := r.value;
      }
      assert forall k :: 0 <= k < i ==> btcAddresses[..i + 1][k] == btcAddresses[..i][k];
    }
    assert btcAddresses[..|btcAddresses|] == btcAddresses;
    if |data.network| > 0 {
      built := AppendSensors(built, NetworkSensorTypes, None, NetworkSensor, None);
    }
    if |data.info.highScores| > 0 {
      built := built + [MinemonitorSensor(InfoSensorTypes[0], None, InfoSensor, None)];
    }
    assert AllWorkersNamed(btcAddresses, data);
    assert built == Entities(btcAddresses, data);
    entities := Some(built);
  }
}
