/** The unique id and display name each sensor's constructor sets, and when
    the ids of one setup are really unique. */
module SensorIds {
  import opened Json
  import opened Snapshot
  import opened Sensor
  import Text
  import AddressServices

  /** Python's `str()` on a JSON value that is not a string; its rendering
      of numbers, lists and dicts is not part of the model. */
  type Show = Json -> string

  /** What the constructor sets: an id and a name, nothing (a selector none
      of its branches matches), or the `KeyError`/`IndexError` the worker
      name lookup raises. */
  datatype Identity = Named(uniqueId: string, name: string) | Unnamed | LookupFails

  /** Python's `xs[i]`, where a negative index counts from the end. */
  function PyIndex<T>(xs: seq<T>, i: int): (r: Option<T>)
    ensures 0 <= i < |xs| ==> r == Some(xs[i])
    ensures r.None? <==> !(-|xs| <= i < |xs|)
  {
    if 0 <= i < |xs| then Some(xs[i])
    else if -|xs| <= i < 0 then Some(xs[|xs| + i])
    else None
  }

  /** `data["client"][address]["workers"][idx]["name"]`. */
  function WorkerNameAt(d: Snapshot, address: string, idx: int): Option<Json>
  {
    if address !in d.client then None
    else match PyIndex(d.client[address].workers, idx)
      case None => None
      case Some(w) => if "name" in w then Some(w["name"]) else None
  }

  /** An f-string's rendering of a value. */
  function Render(v: Json, show: Show): string
  {
    if v.Str? then v.s else show(v)
  }

  /** The unique id and name set in `MinemonitorSensor.__init__`. */
  function Identify(d: Snapshot, entryId: string, s: MinemonitorSensor, show: Show): (r: Identity)
    ensures r.LookupFails? ==> s.sensorType == WorkerSensor
    ensures s.sensorType == NetworkSensor || s.sensorType == InfoSensor ==> r.Named?
  {
    var key := s.description.key;
    if s.sensorType == ClientSensor && s.HasAddress() then
      Named(entryId + "_" + s.address.value + "_" + key, s.address.value + " " + s.description.name)
    else if s.sensorType == WorkerSensor && s.HasAddress() && s.workerIdx.Some? then
      match WorkerNameAt(d, s.address.value, s.workerIdx.value)
      case None => LookupFails
      case Some(n) =>
        var workerName := Render(n, show);
        Named(entryId + "_" + s.address.value + "_" + workerName + "_" + key,
              s.address.value + " " + workerName + " " + s.description.name)
    else if s.sensorType == NetworkSensor then
      Named(entryId + "_network_" + key, "Bitcoin Network " + s.description.name)
    else if s.sensorType == InfoSensor then
      Named(entryId + "_info_" + key, "MineMonitor " + s.description.name)
    else Unnamed
  }

  // Splitting at the separator '_'

  /** The text before the first '_' and, if there is one, the text after it. */
  function SplitFirst(t: string): (string, Option<string>)
  {
    if t == [] then ([], None)
    else if t[0] == '_' then ([], Some(t[1..]))
    else
      var (h, rest) := SplitFirst(t[1..]);
      ([t[0]] + h, rest)
  }

  lemma {:induction false} SplitFirstOf(x: string, y: string)
    requires '_' !in x
    ensures SplitFirst(x + "_" + y) == (x, Some(y))
  {
    if x != [] {
      assert (x + "_" + y)[1..] == x[1..] + "_" + y;
      SplitFirstOf(x[1..], y);
      assert x == [x[0]] + x[1..];
    }
  }

  lemma {:induction false} SplitFirstOfFree(x: string)
    requires '_' !in x
    ensures SplitFirst(x) == (x, None)
  {
    if x != [] {
      SplitFirstOfFree(x[1..]);
      assert x == [x[0]] + x[1..];
    }
  }

  // Uniqueness of the ids of one setup

  /** Addresses whose ids cannot be mistaken for one another or for the
      network and info ids: non-empty, free of '_', and neither "network"
      nor "info". */
  predicate SeparableAddresses(d: Snapshot)
  {
    forall a :: a in d.client ==> a != "" && '_' !in a && a != "network" && a != "info"
  }

  /** Every worker has a name, and no two workers of one address render
      their names alike. */
  predicate DistinctWorkerNames(d: Snapshot, show: Show)
  {
    forall a :: a in d.client ==>
      && (forall i :: 0 <= i < |d.client[a].workers| ==> "name" in d.client[a].workers[i])
      && (forall i, j :: 0 <= i < j < |d.client[a].workers| ==>
            Render(d.client[a].workers[i]["name"], show) != Render(d.client[a].workers[j]["name"], show))
  }

  /** The sensor's address, or "" when it has none. */
  function AddressOf(s: MinemonitorSensor): string
  {
    if s.address.Some? then s.address.value else ""
  }

  /** The rendered name of a worker sensor's worker, or "" when the lookup
      fails. */
  function WorkerLabel(d: Snapshot, s: MinemonitorSensor, show: Show): string
  {
    var n := if s.workerIdx.Some? then WorkerNameAt(d, AddressOf(s), s.workerIdx.value) else None;
    if n.Some? then Render(n.value, show) else ""
  }

  /** The part of an id between the entry id and the last '_'. */
  function IdHead(d: Snapshot, s: MinemonitorSensor, show: Show): string
  {
    match s.sensorType
    case ClientSensor => AddressOf(s)
    case WorkerSensor => AddressOf(s) + "_" + WorkerLabel(d, s, show)
    case NetworkSensor => "network"
    case InfoSensor => "info_highscore"
  }

  /** The part of an id after its last '_'. */
  function IdTail(s: MinemonitorSensor): string
  {
    if s.sensorType == InfoSensor then "bestDifficulty" else s.description.key
  }

  /** The first description in `ds` with the given key. */
  function KeyedDescription(ds: seq<Description>, key: string): Description
  {
    if ds == [] then Description(key, "", None)
    else if ds[0].key == key then ds[0]
    else KeyedDescription(ds[1..], key)
  }

  predicate DistinctKeys(ds: seq<Description>)
  {
    forall i, j :: 0 <= i < j < |ds| ==> ds[i].key != ds[j].key
  }

  lemma {:induction false} KeyedDescriptionFinds(ds: seq<Description>, desc: Description)
    requires desc in ds && DistinctKeys(ds)
    ensures KeyedDescription(ds, desc.key) == desc
  {
    if ds[0] != desc {
      assert desc in ds[1..];
      var j :| 0 <= j < |ds| && ds[j] == desc;
      assert ds[0].key != ds[j].key;
      KeyedDescriptionFinds(ds[1..], desc);
    }
  }

  /** Reads the selector back from an id's head, split at its first '_',
      and its tail. */
  function Decode(head: (string, Option<string>), tail: string): (SensorType, Option<string>, Description)
  {
    match head.1
    case None =>
      if head.0 == "network" then (NetworkSensor, None, KeyedDescription(NetworkSensorTypes, tail))
      else (ClientSensor, Some(head.0), KeyedDescription(ClientSensorTypes, tail))
    case Some(_) =>
      if head.0 == "info" then (InfoSensor, None, InfoSensorTypes[0])
      else (WorkerSensor, Some(head.0), KeyedDescription(WorkerSensorTypes, tail))
  }

  /** The keys of one description table are distinct and free of '_'. */
  predicate SeparableKeys(ds: seq<Description>)
  {
    DistinctKeys(ds) && forall i :: 0 <= i < |ds| ==> '_' !in ds[i].key
  }

  /** Keys of distinct lengths are distinct. */
  predicate SeparableKeyList(ks: seq<string>)
  {
    && (forall i, j :: 0 <= i < j < |ks| ==> |ks[i]| != |ks[j]|)
    && (forall i :: 0 <= i < |ks| ==> '_' !in ks[i])
  }

  lemma ClientKeyList(ks: seq<string>)
    requires ks == ["bestDifficulty", "workersCount"]
    ensures SeparableKeyList(ks)
  {
    assert '_' !in "bestDifficulty";
    assert '_' !in "workersCount";
  }

  lemma WorkerKeyList(ks: seq<string>)
    requires ks == ["bestDifficulty", "hashRate"]
    ensures SeparableKeyList(ks)
  {
    assert '_' !in "bestDifficulty";
    assert '_' !in "hashRate";
  }

  lemma NetworkKeyList(ks: seq<string>)
    requires ks == ["blocks", "difficulty", "networkhashps", "pooledtx"]
    ensures SeparableKeyList(ks)
  {
    assert '_' !in "blocks";
    assert '_' !in "difficulty";
    assert '_' !in "networkhashps";
    assert '_' !in "pooledtx";
  }

  /** A table whose keys form a separable list has separable keys. */
  lemma SeparableKeysOf(ds: seq<Description>, ks: seq<string>)
    requires |ds| == |ks| && SeparableKeyList(ks)
    requires forall i :: 0 <= i < |ds| ==> ds[i].key == ks[i]
    ensures SeparableKeys(ds)
  {
  }

  lemma ClientKeysSeparable()
    ensures SeparableKeys(ClientSensorTypes)
  {
    var ks := ["bestDifficulty", "workersCount"];
    ClientKeyList(ks);
    SeparableKeysOf(ClientSensorTypes, ks);
  }

  lemma WorkerKeysSeparable()
    ensures SeparableKeys(WorkerSensorTypes)
  {
    var ks := ["bestDifficulty", "hashRate"];
    WorkerKeyList(ks);
    SeparableKeysOf(WorkerSensorTypes, ks);
  }

  lemma NetworkKeysSeparable()
    ensures SeparableKeys(NetworkSensorTypes)
  {
    var ks := ["blocks", "difficulty", "networkhashps", "pooledtx"];
    NetworkKeyList(ks);
    SeparableKeysOf(NetworkSensorTypes, ks);
  }

  /** The description keys that can end an id contain no '_'. */
  lemma KeysHaveNoSeparator(desc: Description)
    requires desc in ClientSensorTypes || desc in WorkerSensorTypes || desc in NetworkSensorTypes
    ensures '_' !in desc.key
  {
    ClientKeysSeparable();
    WorkerKeysSeparable();
    NetworkKeysSeparable();
  }

  lemma IdOfEnumerated(addresses: seq<string>, d: Snapshot, entryId: string, show: Show, s: MinemonitorSensor)
    requires Enumerated(addresses, d, s)
    requires SeparableAddresses(d) && DistinctWorkerNames(d, show)
    ensures Identify(d, entryId, s, show).Named?
    ensures Identify(d, entryId, s, show).uniqueId == (entryId + "_") + (IdHead(d, s, show) + "_" + IdTail(s))
    ensures '_' !in IdTail(s)
  {
    match s.sensorType
    case ClientSensor => IdOfClient(addresses, d, entryId, show, s);
    case WorkerSensor => IdOfWorker(addresses, d, entryId, show, s);
    case NetworkSensor => IdOfNetwork(addresses, d, entryId, show, s);
    case InfoSensor => IdOfInfo(addresses, d, entryId, show, s);
  }

  lemma IdOfClient(addresses: seq<string>, d: Snapshot, entryId: string, show: Show, s: MinemonitorSensor)
    requires Enumerated(addresses, d, s) && s.sensorType == ClientSensor
    requires SeparableAddresses(d)
    ensures Identify(d, entryId, s, show).Named?
    ensures Identify(d, entryId, s, show).uniqueId == (entryId + "_") + (IdHead(d, s, show) + "_" + IdTail(s))
    ensures '_' !in IdTail(s)
  {
    KeysHaveNoSeparator(s.description);
    RegroupAddressed(entryId, s.address.value, s.description.key);
  }

  lemma IdOfWorker(addresses: seq<string>, d: Snapshot, entryId: string, show: Show, s: MinemonitorSensor)
    requires Enumerated(addresses, d, s) && s.sensorType == WorkerSensor
    requires SeparableAddresses(d) && DistinctWorkerNames(d, show)
    ensures Identify(d, entryId, s, show).Named?
    ensures Identify(d, entryId, s, show).uniqueId == (entryId + "_") + (IdHead(d, s, show) + "_" + IdTail(s))
    ensures '_' !in IdTail(s)
  {
    KeysHaveNoSeparator(s.description);
    var a := s.address.value;
    assert "name" in d.client[a].workers[s.workerIdx.value];
    RegroupWorker(entryId, a, WorkerLabel(d, s, show), s.description.key);
  }

  lemma IdOfNetwork(addresses: seq<string>, d: Snapshot, entryId: string, show: Show, s: MinemonitorSensor)
    requires Enumerated(addresses, d, s) && s.sensorType == NetworkSensor
    ensures Identify(d, entryId, s, show).Named?
    ensures Identify(d, entryId, s, show).uniqueId == (entryId + "_") + (IdHead(d, s, show) + "_" + IdTail(s))
    ensures '_' !in IdTail(s)
  {
    KeysHaveNoSeparator(s.description);
    assert "_network_" == "_" + "network" + "_";
    RegroupFixed(entryId, "network", s.description.key);
  }

  lemma IdOfInfo(addresses: seq<string>, d: Snapshot, entryId: string, show: Show, s: MinemonitorSensor)
    requires Enumerated(addresses, d, s) && s.sensorType == InfoSensor
    ensures Identify(d, entryId, s, show).Named?
    ensures Identify(d, entryId, s, show).uniqueId == (entryId + "_") + (IdHead(d, s, show) + "_" + IdTail(s))
    ensures '_' !in IdTail(s)
  {
    InfoKeyParts();
    assert "_info_" == "_" + "info" + "_";
    RegroupInfo(entryId, "info", "highscore", "bestDifficulty");
    assert '_' !in "bestDifficulty";
  }

  /** The info key is the head "highscore" and the tail "bestDifficulty". */
  lemma InfoKeyParts()
    ensures "highscore_bestDifficulty" == "highscore" + "_" + "bestDifficulty"
    ensures "info_highscore" == "info" + "_" + "highscore"
  {
  }

  // Regrouping the f-strings of the ids as entry id, head and tail

  lemma RegroupAddressed(e: string, a: string, k: string)
    ensures e + "_" + a + "_" + k == (e + "_") + (a + "_" + k)
  {
  }

  lemma RegroupWorker(e: string, a: string, n: string, k: string)
    ensures e + "_" + a + "_" + n + "_" + k == (e + "_") + ((a + "_" + n) + "_" + k)
  {
  }

  lemma RegroupFixed(e: string, a: string, k: string)
    ensures e + ("_" + a + "_") + k == (e + "_") + (a + "_" + k)
  {
  }

  lemma RegroupInfo(e: string, a: string, b: string, c: string)
    ensures e + ("_" + a + "_") + (b + "_" + c) == (e + "_") + ((a + "_" + b) + "_" + c)
  {
  }

  /** An enumerated sensor's id head and tail give its selector back. */
  lemma DecodeEnumerated(addresses: seq<string>, d: Snapshot, show: Show, s: MinemonitorSensor)
    requires Enumerated(addresses, d, s)
    requires SeparableAddresses(d) && DistinctWorkerNames(d, show)
    ensures Decode(SplitFirst(IdHead(d, s, show)), IdTail(s)) == (s.sensorType, s.address, s.description)
    ensures s.sensorType == WorkerSensor ==> SplitFirst(IdHead(d, s, show)).1 == Some(WorkerLabel(d, s, show))
  {
    match s.sensorType
    case ClientSensor => DecodeClient(addresses, d, show, s);
    case WorkerSensor => DecodeWorker(addresses, d, show, s);
    case NetworkSensor => DecodeNetwork(addresses, d, show, s);
    case InfoSensor => DecodeInfo(addresses, d, show, s);
  }

  lemma DecodeClient(addresses: seq<string>, d: Snapshot, show: Show, s: MinemonitorSensor)
    requires Enumerated(addresses, d, s) && s.sensorType == ClientSensor
    requires SeparableAddresses(d)
    ensures Decode(SplitFirst(IdHead(d, s, show)), IdTail(s)) == (s.sensorType, s.address, s.description)
  {
    SplitFirstOfFree(AddressOf(s));
    ClientKeysSeparable();
    KeyedDescriptionFinds(ClientSensorTypes, s.description);
  }

  lemma DecodeWorker(addresses: seq<string>, d: Snapshot, show: Show, s: MinemonitorSensor)
    requires Enumerated(addresses, d, s) && s.sensorType == WorkerSensor
    requires SeparableAddresses(d)
    ensures Decode(SplitFirst(IdHead(d, s, show)), IdTail(s)) == (s.sensorType, s.address, s.description)
    ensures SplitFirst(IdHead(d, s, show)).1 == Some(WorkerLabel(d, s, show))
  {
    SplitFirstOf(AddressOf(s), WorkerLabel(d, s, show));
    WorkerKeysSeparable();
    KeyedDescriptionFinds(WorkerSensorTypes, s.description);
  }

  lemma DecodeNetwork(addresses: seq<string>, d: Snapshot, show: Show, s: MinemonitorSensor)
    requires Enumerated(addresses, d, s) && s.sensorType == NetworkSensor
    ensures Decode(SplitFirst(IdHead(d, s, show)), IdTail(s)) == (s.sensorType, s.address, s.description)
  {
    assert '_' !in "network";
    SplitFirstOfFree("network");
    NetworkKeysSeparable();
    KeyedDescriptionFinds(NetworkSensorTypes, s.description);
  }

  lemma DecodeInfo(addresses: seq<string>, d: Snapshot, show: Show, s: MinemonitorSensor)
    requires Enumerated(addresses, d, s) && s.sensorType == InfoSensor
    ensures Decode(SplitFirst(IdHead(d, s, show)), IdTail(s)) == (s.sensorType, s.address, s.description)
  {
    assert "info_highscore" == "info" + "_" + "highscore";
    assert '_' !in "info";
    SplitFirstOf("info", "highscore");
  }

  /** Two workers of one address with the same rendered name are the same
      worker. */
  lemma SameLabelSameWorker(addresses: seq<string>, d: Snapshot, show: Show, s1: MinemonitorSensor, s2: MinemonitorSensor)
    requires s1 in Entities(addresses, d) && s2 in Entities(addresses, d)
    requires s1.sensorType == WorkerSensor && s2.sensorType == WorkerSensor && s1.address == s2.address
    requires DistinctWorkerNames(d, show)
    requires WorkerLabel(d, s1, show) == WorkerLabel(d, s2, show)
    ensures s1.workerIdx == s2.workerIdx
  {
    EntitiesAreEnumerated(addresses, d, s1);
    EntitiesAreEnumerated(addresses, d, s2);
    var a := s1.address.value;
    var i, j := s1.workerIdx.value, s2.workerIdx.value;
    var ws := d.client[a].workers;
    assert WorkerLabel(d, s1, show) == Render(ws[i]["name"], show);
    assert WorkerLabel(d, s2, show) == Render(ws[j]["name"], show);
  }

  /** Under separable addresses and distinct worker names, every sensor of
      one setup gets an id and no two of them share it. */
  lemma UniqueIdsDistinct(addresses: seq<string>, d: Snapshot, entryId: string, show: Show, s1: MinemonitorSensor, s2: MinemonitorSensor)
    requires s1 in Entities(addresses, d) && s2 in Entities(addresses, d)
    requires SeparableAddresses(d) && DistinctWorkerNames(d, show)
    ensures Identify(d, entryId, s1, show).Named? && Identify(d, entryId, s2, show).Named?
    ensures Identify(d, entryId, s1, show).uniqueId == Identify(d, entryId, s2, show).uniqueId ==> s1 == s2
  {
    EntitiesAreEnumerated(addresses, d, s1);
    EntitiesAreEnumerated(addresses, d, s2);
    IdOfEnumerated(addresses, d, entryId, show, s1);
    IdOfEnumerated(addresses, d, entryId, show, s2);
    var h1, t1 := IdHead(d, s1, show), IdTail(s1);
    var h2, t2 := IdHead(d, s2, show), IdTail(s2);
    if Identify(d, entryId, s1, show).uniqueId == Identify(d, entryId, s2, show).uniqueId {
      Text.CancelPrefix(entryId + "_", h1 + "_" + t1, h2 + "_" + t2);
      Text.SplitLastOf(h1, '_', t1);
      Text.SplitLastOf(h2, '_', t2);
      DecodeEnumerated(addresses, d, show, s1);
      DecodeEnumerated(addresses, d, show, s2);
      if s1.sensorType == WorkerSensor {
        SameLabelSameWorker(addresses, d, show, s1, s2);
      }
    }
  }

  // Setup that raises

  /** Setup adds nothing exactly when some sensor it enumerates is a worker
      sensor whose name lookup raises. */
  lemma SetupFailsIffLookupFails(addresses: seq<string>, d: Snapshot, entryId: string, show: Show)
    ensures SetupOutcome(addresses, d).None? <==>
      exists s :: s in Entities(addresses, d) && Identify(d, entryId, s, show).LookupFails?
    ensures SetupOutcome(addresses, d).Some? ==> SetupOutcome(addresses, d).value == Entities(addresses, d)
  {
    if !AllWorkersNamed(addresses, d) {
      var k :| 0 <= k < |addresses| && addresses[k] in d.client && !WorkersNamed(addresses[k], d.client[addresses[k]]);
      var a := addresses[k];
      var i :| 0 <= i < |d.client[a].workers| && "name" !in d.client[a].workers[i];
      var s := MinemonitorSensor(WorkerSensorTypes[0], Some(a), WorkerSensor, Some(i));
      assert Enumerated(addresses, d, s);
      EntitiesAreEnumerated(addresses, d, s);
      assert WorkerNameAt(d, a, i).None?;
    } else {
      forall s | s in Entities(addresses, d)
        ensures !Identify(d, entryId, s, show).LookupFails?
      {
        EntitiesAreEnumerated(addresses, d, s);
        if s.sensorType == WorkerSensor && s.HasAddress() {
          var a := s.address.value;
          var k :| 0 <= k < |addresses| && addresses[k] == a;
          assert WorkersNamed(addresses[k], d.client[addresses[k]]);
          assert WorkerNameAt(d, a, s.workerIdx.value).Some?;
        }
      }
    }
  }

  // Entities without repeats

  /** No sensor occurs twice in the list. */
  predicate NoRepeats(es: seq<MinemonitorSensor>)
  {
    forall i, j :: 0 <= i < j < |es| ==> es[i] != es[j]
  }

  lemma ConcatNoRepeats(a: seq<MinemonitorSensor>, b: seq<MinemonitorSensor>)
    requires NoRepeats(a) && NoRepeats(b)
    requires forall x :: x in a ==> x !in b
    ensures NoRepeats(a + b)
  {
    forall i, j | 0 <= i < j < |a + b|
      ensures (a + b)[i] != (a + b)[j]
    {
      if j < |a| {
        assert (a + b)[i] == a[i] && (a + b)[j] == a[j];
      } else if i >= |a| {
        assert (a + b)[i] == b[i - |a|] && (a + b)[j] == b[j - |a|];
      } else {
        assert (a + b)[i] == a[i] && a[i] in a;
        assert (a + b)[j] == b[j - |a|] && b[j - |a|] in b;
      }
    }
  }

  lemma ForDescriptionsNoRepeats(ds: seq<Description>, address: Option<string>, t: SensorType, idx: Option<int>)
    requires DistinctKeys(ds)
    ensures NoRepeats(ForDescriptions(ds, address, t, idx))
  {
    var r := ForDescriptions(ds, address, t, idx);
    forall i, j | 0 <= i < j < |r|
      ensures r[i] != r[j]
    {
      assert r[i].description.key == ds[i].key && r[j].description.key == ds[j].key;
    }
  }

  lemma {:induction false} WorkerSensorsNoRepeats(address: string, n: nat)
    ensures NoRepeats(WorkerSensors(address, n))
  {
    if n > 0 {
      WorkerSensorsNoRepeats(address, n - 1);
      WorkerKeysSeparable();
      var last := ForDescriptions(WorkerSensorTypes, Some(address), WorkerSensor, Some(n - 1));
      ForDescriptionsNoRepeats(WorkerSensorTypes, Some(address), WorkerSensor, Some(n - 1));
      forall x | x in WorkerSensors(address, n - 1)
        ensures x !in last
      {
        WorkerSensorsMembers(address, n - 1, x);
        ForDescriptionsMembers(WorkerSensorTypes, Some(address), WorkerSensor, Some(n - 1), x);
      }
      ConcatNoRepeats(WorkerSensors(address, n - 1), last);
    }
  }

  lemma AddressSensorsNoRepeats(address: string, c: Client)
    ensures NoRepeats(AddressSensors(address, c))
    ensures forall x :: x in AddressSensors(address, c) ==> x.address == Some(address)
  {
    var client := ForDescriptions(ClientSensorTypes, Some(address), ClientSensor, None);
    var workers := WorkerSensors(address, |c.workers|);
    ClientKeysSeparable();
    ForDescriptionsNoRepeats(ClientSensorTypes, Some(address), ClientSensor, None);
    WorkerSensorsNoRepeats(address, |c.workers|);
    forall x | x in client
      ensures x !in workers && x.address == Some(address)
    {
      ForDescriptionsMembers(ClientSensorTypes, Some(address), ClientSensor, None, x);
      WorkerSensorsMembers(address, |c.workers|, x);
    }
    forall x | x in workers
      ensures x.address == Some(address)
    {
      WorkerSensorsMembers(address, |c.workers|, x);
    }
    ConcatNoRepeats(client, workers);
  }

  lemma {:induction false} ClientSensorsNoRepeats(addresses: seq<string>, client: map<string, Client>)
    requires AddressServices.Distinct(addresses)
    ensures NoRepeats(ClientSensors(addresses, client))
  {
    if addresses != [] {
      var init := addresses[..|addresses| - 1];
      var last := addresses[|addresses| - 1];
      assert AddressServices.Distinct(init) by {
        assert forall i :: 0 <= i < |init| ==> init[i] == addresses[i];
      }
      ClientSensorsNoRepeats(init, client);
      if last in client {
        AddressSensorsNoRepeats(last, client[last]);
        assert last !in init by {
          forall k | 0 <= k < |init|
            ensures init[k] != last
          {
            assert init[k] == addresses[k];
          }
        }
        forall x | x in ClientSensors(init, client)
          ensures x !in AddressSensors(last, client[last])
        {
          ClientSensorsMembers(init, client, x);
        }
        ConcatNoRepeats(ClientSensors(init, client), AddressSensors(last, client[last]));
      }
    }
  }

  /** With no configured address repeated, setup enumerates no sensor
      twice. */
  lemma EntitiesNoRepeats(addresses: seq<string>, d: Snapshot)
    requires AddressServices.Distinct(addresses)
    ensures NoRepeats(Entities(addresses, d))
  {
    var cs, ns, inf := ClientSensors(addresses, d.client), NetworkSensors(d), InfoSensors(d);
    ClientSensorsNoRepeats(addresses, d.client);
    if |d.network| > 0 {
      NetworkKeysSeparable();
      ForDescriptionsNoRepeats(NetworkSensorTypes, None, NetworkSensor, None);
    }
    forall x | x in cs
      ensures x !in ns && x !in inf
    {
      ClientSensorsMembers(addresses, d.client, x);
      ForDescriptionsMembers(NetworkSensorTypes, None, NetworkSensor, None, x);
    }
    ConcatNoRepeats(cs, ns);
    forall x | x in cs + ns
      ensures x !in inf
    {
      if x in ns {
        ForDescriptionsMembers(NetworkSensorTypes, None, NetworkSensor, None, x);
      }
    }
    ConcatNoRepeats(cs + ns, inf);
  }

  /** With no configured address repeated, separable addresses and distinct
      worker names, the sensors at any two positions of the created list get
      distinct ids. */
  lemma UniqueIdsAtDistinctPositions(addresses: seq<string>, d: Snapshot, entryId: string, show: Show, i: int, j: int)
    requires AddressServices.Distinct(addresses) && SeparableAddresses(d) && DistinctWorkerNames(d, show)
    requires 0 <= i < j < |Entities(addresses, d)|
    ensures var es := Entities(addresses, d);
      && Identify(d, entryId, es[i], show).Named? && Identify(d, entryId, es[j], show).Named?
      && Identify(d, entryId, es[i], show).uniqueId != Identify(d, entryId, es[j], show).uniqueId
  {
    var es := Entities(addresses, d);
    EntitiesNoRepeats(addresses, d);
    UniqueIdsDistinct(addresses, d, entryId, show, es[i], es[j]);
  }

  /** A configured address given twice yields each of its sensors twice,
      so two created entities share one id. */
  lemma RepeatedAddressRepeatsSensors(a: string, d: Snapshot)
    requires a in d.client
    ensures var es := Entities([a, a], d);
      var n := |AddressSensors(a, d.client[a])|;
      0 < n && 2 * n <= |es| && es[0] == es[n]
  {
    var aa := [a, a];
    assert aa[..1] == [a] && [a][..0] == [];
    var s := AddressSensors(a, d.client[a]);
    assert ClientSensors([a], d.client) == s;
    assert ClientSensors(aa, d.client) == ClientSensors([a], d.client) + s;
    assert |ForDescriptions(ClientSensorTypes, Some(a), ClientSensor, None)| == 2;
    assert (s + s)[0] == s[0] == (s + s)[|s|];
  }
}
