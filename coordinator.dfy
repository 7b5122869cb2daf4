/** The update coordinator of the `minemonitor` package: one cycle fetches
    every configured address, then the network and info endpoints, builds
    the snapshot, and signals new workers by comparing each address's worker
    names with the previous snapshot. */
module Coordinator {
  import opened Json
  import opened Snapshot
  import opened Fetch

  const DefaultPort: int := 3334
  const DefaultScanInterval: int := 60

  /** One `async_dispatcher_send(hass, "minemonitor_new_workers", entry_id)`.
      The signal carries only the entry id; the address and the new names
      are those the accompanying log line reports. */
  datatype Event = NewWorkers(entryId: string, address: string, added: set<Json>)

  /** What a cycle leaves behind: its outcome, the endpoints it requested
      (in order) and the signals it sent before it finished or aborted. */
  datatype Cycle = Cycle(outcome: Outcome, requested: seq<Endpoint>, events: seq<Event>)

  /** `w["name"]` as an element of a Python set: `None` when the key is
      missing (`KeyError`) or the name is a list or dict (unhashable). */
  function WorkerName(w: Worker): Option<Json>
  {
    if "name" in w && !w["name"].Arr? && !w["name"].Obj? then Some(w["name"]) else None
  }

  /** `set(w["name"] for w in workers)`, or `None` when some name raises. */
  function WorkerNames(workers: seq<Worker>): (r: Option<set<Json>>)
    ensures r.Some? <==> forall i :: 0 <= i < |workers| ==> WorkerName(workers[i]).Some?
    ensures r.Some? ==> forall n :: n in r.value <==> exists i :: 0 <= i < |workers| && WorkerName(workers[i]) == Some(n)
  {
    if workers == [] then Some({})
    else
      var rest := WorkerNames(workers[1..]);
      match WorkerName(workers[0])
      case None => None
      case Some(n) =>
        if rest.None? then None
        else
          assert forall i :: 1 <= i < |workers| ==> workers[i] == workers[1..][i - 1];
          Some({n} + rest.value)
  }

  /** The comparison for `address` raises: a worker name in the previous or
      in the new record cannot be put in a set. */
  predicate NameFault(previous: Option<Snapshot>, address: string, r: Reply<Client>)
  {
    && r.Ok? && previous.Some? && address in previous.value.client
    && (WorkerNames(previous.value.client[address].workers).None? || WorkerNames(r.body.workers).None?)
  }

  /** The comparison for `address` finds worker names that were not there before. */
  predicate Affected(previous: Option<Snapshot>, address: string, r: Reply<Client>)
  {
    && r.Ok? && previous.Some? && address in previous.value.client
    && WorkerNames(previous.value.client[address].workers).Some?
    && WorkerNames(r.body.workers).Some?
    && WorkerNames(r.body.workers).value - WorkerNames(previous.value.client[address].workers).value != {}
  }

  /** The names an affected address gained. */
  function AddedNames(previous: Option<Snapshot>, address: string, r: Reply<Client>): set<Json>
    requires Affected(previous, address, r)
  {
    WorkerNames(r.body.workers).value - WorkerNames(previous.value.client[address].workers).value
  }

  /** Signal `e` reports the comparison at position `i` of the address loop. */
  predicate Reports(previous: Option<Snapshot>, addresses: seq<string>, replies: seq<Reply<Client>>, i: int, e: Event)
  {
    && 0 <= i < |addresses| && i < |replies| && addresses[i] == e.address
    && Affected(previous, addresses[i], replies[i]) && e.added == AddedNames(previous, addresses[i], replies[i])
  }

  /** Reference definition of the signals: one per affected address, in
      address order. */
  function EventsFor(previous: Option<Snapshot>, entryId: string, addresses: seq<string>, replies: seq<Reply<Client>>): seq<Event>
    requires |replies| == |addresses|
  {
    if addresses == [] then []
    else
      (if Affected(previous, addresses[0], replies[0])
       then [NewWorkers(entryId, addresses[0], AddedNames(previous, addresses[0], replies[0]))]
       else [])
      + EventsFor(previous, entryId, addresses[1..], replies[1..])
  }

  /** Every signal names the entry and reports a configured address whose
      reply gained worker names, with exactly the names gained; there is at
      most one per address position, and none when no address gained any. */
  lemma {:induction false} EventsForReports(previous: Option<Snapshot>, entryId: string, addresses: seq<string>, replies: seq<Reply<Client>>)
    requires |replies| == |addresses|
    ensures var es := EventsFor(previous, entryId, addresses, replies);
      && |es| <= |addresses|
      && (forall e :: e in es ==> e.entryId == entryId && e.added != {} && exists i :: Reports(previous, addresses, replies, i, e))
      && ((forall i :: 0 <= i < |addresses| ==> !Affected(previous, addresses[i], replies[i])) ==> es == [])
  {
    if addresses != [] {
      EventsForReports(previous, entryId, addresses[1..], replies[1..]);
      var tail := EventsFor(previous, entryId, addresses[1..], replies[1..]);
      forall e | e in tail
        ensures exists i :: Reports(previous, addresses, replies, i, e)
      {
        var j :| Reports(previous, addresses[1..], replies[1..], j, e);
        assert addresses[j + 1] == addresses[1..][j] && replies[j + 1] == replies[1..][j];
        assert Reports(previous, addresses, replies, j + 1, e);
      }
      if Affected(previous, addresses[0], replies[0]) {
        var e := NewWorkers(entryId, addresses[0], AddedNames(previous, addresses[0], replies[0]));
        assert Reports(previous, addresses, replies, 0, e);
      }
      if forall i :: 0 <= i < |addresses| ==> !Affected(previous, addresses[i], replies[i]) {
        assert forall i :: 0 <= i < |addresses[1..]| ==> addresses[1..][i] == addresses[i + 1] && replies[1..][i] == replies[i + 1];
      }
    }
  }

  /** The address positions whose reply gained worker names, from `from`
      on, in increasing order. */
  function AffectedPositions(previous: Option<Snapshot>, addresses: seq<string>, replies: seq<Reply<Client>>, from: nat): seq<nat>
    requires |replies| == |addresses| && from <= |addresses|
    decreases |addresses| - from
  {
    if from == |addresses| then []
    else
      (if Affected(previous, addresses[from], replies[from]) then [from] else [])
      + AffectedPositions(previous, addresses, replies, from + 1)
  }

  /** The signals for the addresses from position `from` on are one per
      position whose reply gained names, in position order: the `k`-th signal
      reports the `k`-th such position, and no position is reported twice. */
  lemma {:induction false} EventsAtAffectedPositions(previous: Option<Snapshot>, entryId: string, addresses: seq<string>, replies: seq<Reply<Client>>, from: nat)
    requires |replies| == |addresses| && from <= |addresses|
    ensures var es := EventsFor(previous, entryId, addresses[from..], replies[from..]);
      var pos := AffectedPositions(previous, addresses, replies, from);
      && |es| == |pos|
      && (forall k :: 0 <= k < |pos| ==> from <= pos[k] && es[k].entryId == entryId && Reports(previous, addresses, replies, pos[k], es[k]))
      && (forall k, l :: 0 <= k < l < |pos| ==> pos[k] < pos[l])
      && (forall i :: from <= i < |addresses| ==> (i in pos <==> Affected(previous, addresses[i], replies[i])))
    decreases |addresses| - from
  {
    if from < |addresses| {
      EventsAtAffectedPositions(previous, entryId, addresses, replies, from + 1);
      assert addresses[from..][1..] == addresses[from + 1..];
      assert replies[from..][1..] == replies[from + 1..];
      assert addresses[from..][0] == addresses[from] && replies[from..][0] == replies[from];
    }
  }

  /** One signal per address position whose reply gained worker names, and
      none for any other position. */
  lemma OneSignalPerAffectedPosition(previous: Option<Snapshot>, entryId: string, addresses: seq<string>, replies: seq<Reply<Client>>)
    requires |replies| == |addresses|
    ensures var es := EventsFor(previous, entryId, addresses, replies);
      var pos := AffectedPositions(previous, addresses, replies, 0);
      && |es| == |pos|
      && (forall k :: 0 <= k < |pos| ==> es[k].entryId == entryId && Reports(previous, addresses, replies, pos[k], es[k]))
      && (forall k, l :: 0 <= k < l < |pos| ==> pos[k] < pos[l])
      && (forall i :: 0 <= i < |addresses| ==> (i in pos <==> Affected(previous, addresses[i], replies[i])))
  {
    EventsAtAffectedPositions(previous, entryId, addresses, replies, 0);
    assert addresses[0..] == addresses && replies[0..] == replies;
  }

  /** How far the address loop has got. `error` is set once the cycle has
      aborted; nothing changes after that. */
  datatype Progress = Progress(client: map<string, Client>, requested: seq<Endpoint>, events: seq<Event>, error: Option<UpdateError>)

  /** One iteration of the address loop. */
  function ClientStep(p: Progress, previous: Option<Snapshot>, entryId: string, address: string, r: Reply<Client>): (q: Progress)
    requires p.error.None?
    ensures q.requested == p.requested + [ClientEndpoint(address)]
    ensures q.client == if r.Ok? then p.client[address := r.body] else p.client
    ensures q.error.None? <==> !r.Aborts() && !NameFault(previous, address, r)
    ensures r.Aborts() ==> q.error == Some(AbortError(r))
    ensures NameFault(previous, address, r) ==> q.error == Some(WorkerNameError)
    ensures q.events == p.events + if Affected(previous, address, r)
                                   then [NewWorkers(entryId, address, AddedNames(previous, address, r))] else []
  {
    var requested := p.requested + [ClientEndpoint(address)];
    match r
    case Timeout => p.(requested := requested, error := Some(TimeoutError))
    case ClientError => p.(requested := requested, error := Some(FetchError))
    case NotOk(_) => p.(requested := requested)
    case Ok(c) =>
      var client := p.client[address := c];
      if previous.Some? && address in previous.value.client then
        var current := WorkerNames(previous.value.client[address].workers);
        var found := WorkerNames(c.workers);
        if current.None? || found.None? then
          Progress(client, requested, p.events, Some(WorkerNameError))
        else if found.value - current.value != {} then
          Progress(client, requested, p.events + [NewWorkers(entryId, address, found.value - current.value)], None)
        else
          Progress(client, requested, p.events, None)
      else
        Progress(client, requested, p.events, None)
  }

  /** The address loop after its first `k` iterations. */
  function ClientPass(previous: Option<Snapshot>, entryId: string, addresses: seq<string>, replies: seq<Reply<Client>>, k: nat): Progress
    requires |replies| == |addresses| && k <= |addresses|
  {
    if k == 0 then Progress(map[], [], [], None)
    else
      var p := ClientPass(previous, entryId, addresses, replies, k - 1);
      if p.error.Some? then p else ClientStep(p, previous, entryId, addresses[k - 1], replies[k - 1])
  }

  /** Once the address loop has aborted, later iterations change nothing. */
  lemma {:induction false} AbortedPassIsFinal(previous: Option<Snapshot>, entryId: string, addresses: seq<string>, replies: seq<Reply<Client>>, k: nat, j: nat)
    requires |replies| == |addresses| && k <= j <= |addresses|
    requires ClientPass(previous, entryId, addresses, replies, k).error.Some?
    ensures ClientPass(previous, entryId, addresses, replies, j) == ClientPass(previous, entryId, addresses, replies, k)
  {
    if j > k {
      AbortedPassIsFinal(previous, entryId, addresses, replies, k, j - 1);
    }
  }

  /** A whole cycle of `_async_update_data`. */
  function Update(previous: Option<Snapshot>, entryId: string, addresses: seq<string>, rs: Replies): Cycle
    requires |rs.clients| == |addresses|
  {
    var p := ClientPass(previous, entryId, addresses, rs.clients, |addresses|);
    if p.error.Some? then Cycle(Failed(p.error.value), p.requested, p.events)
    else
      var afterNetwork := p.requested + [NetworkEndpoint];
      if rs.network.Aborts() then Cycle(Failed(AbortError(rs.network)), afterNetwork, p.events)
      else
        var network := if rs.network.Ok? then rs.network.body else map[];
        var afterInfo := afterNetwork + [InfoEndpoint];
        if rs.info.Aborts() then Cycle(Failed(AbortError(rs.info)), afterInfo, p.events)
        else
          var info := if rs.info.Ok? then rs.info.body else EmptyInfo;
          Cycle(Updated(Snapshot(p.client, network, info)), afterInfo, p.events)
  }

  // ---------------------------------------------------------------------
  // What a cycle does, stated without reference to the loop.
  // ---------------------------------------------------------------------

  /** The comparison or the request at address position `i` ends the cycle. */
  predicate Faults(previous: Option<Snapshot>, addresses: seq<string>, replies: seq<Reply<Client>>, i: int)
    requires 0 <= i < |addresses| && |replies| == |addresses|
  {
    replies[i].Aborts() || NameFault(previous, addresses[i], replies[i])
  }

  /** The error a fault at address position `i` turns into. */
  function FaultError(previous: Option<Snapshot>, addresses: seq<string>, replies: seq<Reply<Client>>, i: int): UpdateError
    requires 0 <= i < |addresses| && |replies| == |addresses|
    requires Faults(previous, addresses, replies, i)
  {
    if replies[i].Aborts() then AbortError(replies[i]) else WorkerNameError
  }

  /** The request at position `j` of `FetchOrder(addresses)` ends the cycle. */
  predicate EndpointFaults(previous: Option<Snapshot>, addresses: seq<string>, rs: Replies, j: int)
    requires |rs.clients| == |addresses| && 0 <= j < |addresses| + 2
  {
    if j < |addresses| then Faults(previous, addresses, rs.clients, j)
    else if j == |addresses| then rs.network.Aborts()
    else rs.info.Aborts()
  }

  function EndpointError(previous: Option<Snapshot>, addresses: seq<string>, rs: Replies, j: int): UpdateError
    requires |rs.clients| == |addresses| && 0 <= j < |addresses| + 2
    requires EndpointFaults(previous, addresses, rs, j)
  {
    if j < |addresses| then FaultError(previous, addresses, rs.clients, j)
    else if j == |addresses| then AbortError(rs.network)
    else AbortError(rs.info)
  }

  /** The body of the last 200 reply for `address` among the first `k`
      addresses, which is what `data["client"][address]` ends up holding. */
  function LastOk(addresses: seq<string>, replies: seq<Reply<Client>>, address: string, k: nat): (r: Option<Client>)
    requires |replies| == |addresses| && k <= |addresses|
    ensures r.Some? <==> exists i :: 0 <= i < k && addresses[i] == address && replies[i].Ok?
    ensures r.Some? ==> exists i :: 0 <= i < k && addresses[i] == address && replies[i] == Ok(r.value)
                                  && forall j :: i < j < k && addresses[j] == address ==> !replies[j].Ok?
  {
    if k == 0 then None
    else if addresses[k - 1] == address && replies[k - 1].Ok? then Some(replies[k - 1].body)
    else LastOk(addresses, replies, address, k - 1)
  }

  lemma {:induction false} EventsForSnoc(previous: Option<Snapshot>, entryId: string, addresses: seq<string>, replies: seq<Reply<Client>>, a: string, r: Reply<Client>)
    requires |replies| == |addresses|
    ensures EventsFor(previous, entryId, addresses + [a], replies + [r])
         == EventsFor(previous, entryId, addresses, replies)
            + (if Affected(previous, a, r) then [NewWorkers(entryId, a, AddedNames(previous, a, r))] else [])
  {
    if addresses != [] {
      assert (addresses + [a])[1..] == addresses[1..] + [a];
      assert (replies + [r])[1..] == replies[1..] + [r];
      EventsForSnoc(previous, entryId, addresses[1..], replies[1..], a, r);
    }
  }

  /** The address loop requests the client endpoints in order and stops
      right after the first one that faults. */
  lemma PassRequests(previous: Option<Snapshot>, entryId: string, addresses: seq<string>, replies: seq<Reply<Client>>, k: nat)
    requires |replies| == |addresses| && k <= |addresses|
    ensures var p := ClientPass(previous, entryId, addresses, replies, k);
      && |p.requested| <= k
      && p.requested == ClientEndpoints(addresses)[..|p.requested|]
      && (forall i :: 0 <= i < |p.requested| - 1 ==> !Faults(previous, addresses, replies, i))
      && (p.error.None? <==> |p.requested| == k && forall i :: 0 <= i < k ==> !Faults(previous, addresses, replies, i))
      && (p.error.Some? ==> |p.requested| >= 1 && Faults(previous, addresses, replies, |p.requested| - 1)
                            && p.error.value == FaultError(previous, addresses, replies, |p.requested| - 1))
  {
    PassPrefix(previous, entryId, addresses, replies, k);
    PassFaults(previous, entryId, addresses, replies, k);
  }

  /** The endpoints the address loop has requested are the first client
      endpoints, all `k` of them unless it aborted. */
  lemma {:induction false} PassPrefix(previous: Option<Snapshot>, entryId: string, addresses: seq<string>, replies: seq<Reply<Client>>, k: nat)
    requires |replies| == |addresses| && k <= |addresses|
    ensures var p := ClientPass(previous, entryId, addresses, replies, k);
      && |p.requested| <= k
      && p.requested == ClientEndpoints(addresses)[..|p.requested|]
      && (p.error.None? ==> |p.requested| == k)
      && (p.error.Some? ==> |p.requested| >= 1)
  {
    if k > 0 {
      PassPrefix(previous, entryId, addresses, replies, k - 1);
      var q := ClientPass(previous, entryId, addresses, replies, k - 1);
      if q.error.None? {
        var p := ClientStep(q, previous, entryId, addresses[k - 1], replies[k - 1]);
        assert ClientPass(previous, entryId, addresses, replies, k) == p;
        var eps := ClientEndpoints(addresses);
        assert eps[..k] == eps[..k - 1] + [ClientEndpoint(addresses[k - 1])];
      }
    }
  }

  /** No address before the last one requested faulted; the loop aborted
      exactly when the last one requested faulted, with that fault's error. */
  lemma {:induction false} PassFaults(previous: Option<Snapshot>, entryId: string, addresses: seq<string>, replies: seq<Reply<Client>>, k: nat)
    requires |replies| == |addresses| && k <= |addresses|
    ensures var p := ClientPass(previous, entryId, addresses, replies, k);
      && |p.requested| <= k
      && (forall i :: 0 <= i < |p.requested| - 1 ==> !Faults(previous, addresses, replies, i))
      && (p.error.None? <==> |p.requested| == k && forall i :: 0 <= i < k ==> !Faults(previous, addresses, replies, i))
      && (p.error.Some? ==> |p.requested| >= 1 && Faults(previous, addresses, replies, |p.requested| - 1)
                            && p.error.value == FaultError(previous, addresses, replies, |p.requested| - 1))
  {
    PassLength(previous, entryId, addresses, replies, k);
    if k > 0 {
      PassFaults(previous, entryId, addresses, replies, k - 1);
      PassLength(previous, entryId, addresses, replies, k - 1);
      var q := ClientPass(previous, entryId, addresses, replies, k - 1);
      if q.error.None? {
        var p := ClientStep(q, previous, entryId, addresses[k - 1], replies[k - 1]);
        assert ClientPass(previous, entryId, addresses, replies, k) == p;
        assert |p.requested| == k;
        assert p.error.None? <==> !Faults(previous, addresses, replies, k - 1);
      } else {
        assert Faults(previous, addresses, replies, |q.requested| - 1);
      }
    }
  }

  lemma {:induction false} PassLength(previous: Option<Snapshot>, entryId: string, addresses: seq<string>, replies: seq<Reply<Client>>, k: nat)
    requires |replies| == |addresses| && k <= |addresses|
    ensures var p := ClientPass(previous, entryId, addresses, replies, k);
      |p.requested| <= k && (p.error.None? ==> |p.requested| == k)
  {
    if k > 0 {
      PassLength(previous, entryId, addresses, replies, k - 1);
    }
  }

  /** The reference signals of the first `k` addresses extend those of the
      first `k - 1` by the signal for address `k - 1`, if any. */
  lemma EventsForPrefix(previous: Option<Snapshot>, entryId: string, addresses: seq<string>, replies: seq<Reply<Client>>, k: nat)
    requires |replies| == |addresses| && 0 < k <= |addresses|
    ensures var a, r := addresses[k - 1], replies[k - 1];
      EventsFor(previous, entryId, addresses[..k], replies[..k])
        == EventsFor(previous, entryId, addresses[..k - 1], replies[..k - 1])
           + (if Affected(previous, a, r) then [NewWorkers(entryId, a, AddedNames(previous, a, r))] else [])
  {
    var a, r := addresses[k - 1], replies[k - 1];
    assert addresses[..k] == addresses[..k - 1] + [a];
    assert replies[..k] == replies[..k - 1] + [r];
    EventsForSnoc(previous, entryId, addresses[..k - 1], replies[..k - 1], a, r);
  }

  /** The signals sent by the address loop are the reference signals of
      the addresses it has requested. */
  lemma {:induction false} PassEvents(previous: Option<Snapshot>, entryId: string, addresses: seq<string>, replies: seq<Reply<Client>>, k: nat)
    requires |replies| == |addresses| && k <= |addresses|
    ensures var p := ClientPass(previous, entryId, addresses, replies, k);
      |p.requested| <= k &&
      p.events == EventsFor(previous, entryId, addresses[..|p.requested|], replies[..|p.requested|])
  {
    PassLength(previous, entryId, addresses, replies, k);
    if k > 0 {
      PassEvents(previous, entryId, addresses, replies, k - 1);
      PassLength(previous, entryId, addresses, replies, k - 1);
      var q := ClientPass(previous, entryId, addresses, replies, k - 1);
      if q.error.None? {
        var p := ClientStep(q, previous, entryId, addresses[k - 1], replies[k - 1]);
        assert ClientPass(previous, entryId, addresses, replies, k) == p;
        EventsForPrefix(previous, entryId, addresses, replies, k);
      }
    }
  }


  /** While no fault has occurred, the client section holds, for each
      address, the body of its last 200 reply, and nothing else. */
  lemma {:induction false} PassClients(previous: Option<Snapshot>, entryId: string, addresses: seq<string>, replies: seq<Reply<Client>>, k: nat)
    requires |replies| == |addresses| && k <= |addresses|
    ensures var p := ClientPass(previous, entryId, addresses, replies, k);
      p.error.None? ==>
        forall a :: (a in p.client <==> LastOk(addresses, replies, a, k).Some?)
                 && (a in p.client ==> p.client[a] == LastOk(addresses, replies, a, k).value)
  {
    if k > 0 {
      PassClients(previous, entryId, addresses, replies, k - 1);
      var q := ClientPass(previous, entryId, addresses, replies, k - 1);
      if q.error.None? {
        var p := ClientStep(q, previous, entryId, addresses[k - 1], replies[k - 1]);
        assert ClientPass(previous, entryId, addresses, replies, k) == p;
        forall a
          ensures (a in p.client <==> LastOk(addresses, replies, a, k).Some?)
          ensures a in p.client ==> p.client[a] == LastOk(addresses, replies, a, k).value
        {
          if a != addresses[k - 1] || !replies[k - 1].Ok? {
            assert LastOk(addresses, replies, a, k) == LastOk(addresses, replies, a, k - 1);
          }
        }
      }
    }
  }

  /** A cycle requests the endpoints in fetch order (addresses in configured
      order, then network, then info) up to and including the first one that
      faults; it fails exactly when one faults, with that endpoint's error. */
  lemma CycleStopsAtFirstFault(previous: Option<Snapshot>, entryId: string, addresses: seq<string>, rs: Replies)
    requires |rs.clients| == |addresses|
    ensures var c := Update(previous, entryId, addresses, rs);
      var n := |c.requested|;
      && 1 <= n <= |addresses| + 2
      && c.requested == FetchOrder(addresses)[..n]
      && (forall j :: 0 <= j < n - 1 ==> !EndpointFaults(previous, addresses, rs, j))
      && (c.outcome.Failed? <==> EndpointFaults(previous, addresses, rs, n - 1))
      && (c.outcome.Failed? ==> c.outcome.error == EndpointError(previous, addresses, rs, n - 1))
      && (c.outcome.Updated? ==> n == |addresses| + 2)
  {
    var p := ClientPass(previous, entryId, addresses, rs.clients, |addresses|);
    PassRequests(previous, entryId, addresses, rs.clients, |addresses|);
    FetchOrderPrefixes(addresses, |p.requested|);
    if p.error.Some? {
      PassAbortedCycle(previous, entryId, addresses, rs);
    } else {
      PassCompletedCycle(previous, entryId, addresses, rs);
    }
  }

  /** The first requests of the fetch order are client requests, followed by
      the network and then the info request. */
  lemma FetchOrderPrefixes(addresses: seq<string>, n: nat)
    requires n <= |addresses|
    ensures FetchOrder(addresses)[..n] == ClientEndpoints(addresses)[..n]
    ensures FetchOrder(addresses)[..|addresses|] == ClientEndpoints(addresses)
    ensures FetchOrder(addresses)[..|addresses| + 1] == ClientEndpoints(addresses) + [NetworkEndpoint]
    ensures FetchOrder(addresses)[..|addresses| + 2] == ClientEndpoints(addresses) + [NetworkEndpoint, InfoEndpoint]
  {
    var eps := ClientEndpoints(addresses);
    assert FetchOrder(addresses)[..|addresses|] == eps;
    assert FetchOrder(addresses)[..|addresses| + 1] == eps + [NetworkEndpoint];
  }

  /** A cycle whose address loop aborted ends there, with the loop's error. */
  lemma PassAbortedCycle(previous: Option<Snapshot>, entryId: string, addresses: seq<string>, rs: Replies)
    requires |rs.clients| == |addresses|
    requires ClientPass(previous, entryId, addresses, rs.clients, |addresses|).error.Some?
    ensures var p := ClientPass(previous, entryId, addresses, rs.clients, |addresses|);
      Update(previous, entryId, addresses, rs) == Cycle(Failed(p.error.value), p.requested, p.events)
    ensures var p := ClientPass(previous, entryId, addresses, rs.clients, |addresses|);
      forall j :: 0 <= j < |p.requested| && j < |addresses| ==>
        EndpointFaults(previous, addresses, rs, j) == Faults(previous, addresses, rs.clients, j)
  {
  }

  /** A cycle whose address loop completed goes on to the network and info
      requests, failing at the first of them that aborts. */
  lemma PassCompletedCycle(previous: Option<Snapshot>, entryId: string, addresses: seq<string>, rs: Replies)
    requires |rs.clients| == |addresses|
    requires ClientPass(previous, entryId, addresses, rs.clients, |addresses|).error.None?
    ensures var p := ClientPass(previous, entryId, addresses, rs.clients, |addresses|);
      var c := Update(previous, entryId, addresses, rs);
      && (rs.network.Aborts() ==> c == Cycle(Failed(AbortError(rs.network)), p.requested + [NetworkEndpoint], p.events))
      && (!rs.network.Aborts() && rs.info.Aborts() ==>
            c == Cycle(Failed(AbortError(rs.info)), p.requested + [NetworkEndpoint, InfoEndpoint], p.events))
      && (!rs.network.Aborts() && !rs.info.Aborts() ==>
            var network := if rs.network.Ok? then rs.network.body else map[];
            var info := if rs.info.Ok? then rs.info.body else EmptyInfo;
            c == Cycle(Updated(Snapshot(p.client, network, info)), p.requested + [NetworkEndpoint, InfoEndpoint], p.events))
    ensures forall j :: 0 <= j < |addresses| ==>
      EndpointFaults(previous, addresses, rs, j) == Faults(previous, addresses, rs.clients, j)
  {
  }

  /** The signals a cycle sends are the reference signals of the addresses
      it requested before it finished or aborted. */
  lemma CycleEvents(previous: Option<Snapshot>, entryId: string, addresses: seq<string>, rs: Replies)
    requires |rs.clients| == |addresses|
    ensures var c := Update(previous, entryId, addresses, rs);
      var m := if |c.requested| < |addresses| then |c.requested| else |addresses|;
      c.events == EventsFor(previous, entryId, addresses[..m], rs.clients[..m])
  {
    var p := ClientPass(previous, entryId, addresses, rs.clients, |addresses|);
    PassEvents(previous, entryId, addresses, rs.clients, |addresses|);
    PassLength(previous, entryId, addresses, rs.clients, |addresses|);
    var c := Update(previous, entryId, addresses, rs);
    assert c.events == p.events;
    if p.error.None? {
      assert |c.requested| >= |addresses|;
    } else {
      assert c.requested == p.requested;
    }
  }

  /** A cycle yields no snapshot exactly when some endpoint's reply is a
      timeout or a client error, or some worker name cannot be compared; a
      non-200 reply never ends the cycle. */
  lemma UpdateFailsIffFault(previous: Option<Snapshot>, entryId: string, addresses: seq<string>, rs: Replies)
    requires |rs.clients| == |addresses|
    ensures Update(previous, entryId, addresses, rs).outcome.Failed?
        <==> (|| (exists i :: 0 <= i < |addresses| && (rs.clients[i].Aborts() || NameFault(previous, addresses[i], rs.clients[i])))
              || rs.network.Aborts() || rs.info.Aborts())
  {
    CycleStopsAtFirstFault(previous, entryId, addresses, rs);
    var c := Update(previous, entryId, addresses, rs);
    if exists i :: 0 <= i < |addresses| && (rs.clients[i].Aborts() || NameFault(previous, addresses[i], rs.clients[i])) {
      var i :| 0 <= i < |addresses| && (rs.clients[i].Aborts() || NameFault(previous, addresses[i], rs.clients[i]));
      assert EndpointFaults(previous, addresses, rs, i);
    }
    if rs.network.Aborts() {
      assert EndpointFaults(previous, addresses, rs, |addresses|);
    }
    if rs.info.Aborts() {
      assert EndpointFaults(previous, addresses, rs, |addresses| + 1);
    }
  }

  /** After a completed address loop the client section holds exactly the
      addresses answered with 200, each with its last 200 body. */
  lemma CompletedPassClients(previous: Option<Snapshot>, entryId: string, addresses: seq<string>, replies: seq<Reply<Client>>)
    requires |replies| == |addresses|
    requires ClientPass(previous, entryId, addresses, replies, |addresses|).error.None?
    ensures var p := ClientPass(previous, entryId, addresses, replies, |addresses|);
      && (forall a :: a in p.client <==> exists i :: 0 <= i < |addresses| && addresses[i] == a && replies[i].Ok?)
      && (forall a :: a in p.client ==> p.client[a] == LastOk(addresses, replies, a, |addresses|).value)
      && p.client.Keys <= set a | a in addresses
  {
    PassClients(previous, entryId, addresses, replies, |addresses|);
  }

  /** A completed address loop requested every client endpoint and sent the
      reference signals for all addresses. */
  lemma CompletedPassRequestsAndEvents(previous: Option<Snapshot>, entryId: string, addresses: seq<string>, replies: seq<Reply<Client>>)
    requires |replies| == |addresses|
    requires ClientPass(previous, entryId, addresses, replies, |addresses|).error.None?
    ensures var p := ClientPass(previous, entryId, addresses, replies, |addresses|);
      p.requested == ClientEndpoints(addresses) && p.events == EventsFor(previous, entryId, addresses, replies)
  {
    PassPrefix(previous, entryId, addresses, replies, |addresses|);
    PassEvents(previous, entryId, addresses, replies, |addresses|);
    assert addresses[..|addresses|] == addresses && replies[..|addresses|] == replies;
  }

  /** The snapshot of a successful cycle: its client keys are exactly the
      configured addresses that were answered with 200, each holding its
      (last) 200 body; network and info are their 200 bodies or stay empty;
      every endpoint was requested, and the signals are one per affected
      address in address order. */
  lemma UpdatedSnapshot(previous: Option<Snapshot>, entryId: string, addresses: seq<string>, rs: Replies)
    requires |rs.clients| == |addresses|
    ensures var c := Update(previous, entryId, addresses, rs);
      c.outcome.Updated? ==>
        var s := c.outcome.snapshot;
        && c.requested == FetchOrder(addresses)
        && (forall a :: a in s.client <==> exists i :: 0 <= i < |addresses| && addresses[i] == a && rs.clients[i].Ok?)
        && (forall a :: a in s.client ==> s.client[a] == LastOk(addresses, rs.clients, a, |addresses|).value)
        && s.client.Keys <= set a | a in addresses
        && s.network == (if rs.network.Ok? then rs.network.body else map[])
        && s.info == (if rs.info.Ok? then rs.info.body else EmptyInfo)
        && c.events == EventsFor(previous, entryId, addresses, rs.clients)
  {
    var p := ClientPass(previous, entryId, addresses, rs.clients, |addresses|);
    if p.error.None? {
      PassCompletedCycle(previous, entryId, addresses, rs);
      CompletedPassClients(previous, entryId, addresses, rs.clients);
      CompletedPassRequestsAndEvents(previous, entryId, addresses, rs.clients);
      FetchOrderPrefixes(addresses, |addresses|);
    } else {
      PassAbortedCycle(previous, entryId, addresses, rs);
    }
  }


  /** Without a previous snapshot nothing is compared: no signal is sent and
      no worker name can end the cycle. The comparison only signals
      addresses that gained a worker name; losing workers signals nothing. */
  lemma SignalsNeedNewNames(previous: Option<Snapshot>, entryId: string, addresses: seq<string>, rs: Replies)
    requires |rs.clients| == |addresses|
    requires previous.None? || forall i :: 0 <= i < |addresses| && rs.clients[i].Ok? && addresses[i] in previous.value.client ==>
      (var before := WorkerNames(previous.value.client[addresses[i]].workers);
       var after := WorkerNames(rs.clients[i].body.workers);
       before.Some? && after.Some? && after.value <= before.value)
    ensures Update(previous, entryId, addresses, rs).events == []
    ensures Update(previous, entryId, addresses, rs).outcome != Failed(WorkerNameError)
  {
    UpdateFailsIffFault(previous, entryId, addresses, rs);
    CycleStopsAtFirstFault(previous, entryId, addresses, rs);
    CycleEvents(previous, entryId, addresses, rs);
    var c := Update(previous, entryId, addresses, rs);
    var m := if |c.requested| < |addresses| then |c.requested| else |addresses|;
    assert forall i :: 0 <= i < m ==> !Affected(previous, addresses[..m][i], rs.clients[..m][i]);
    EventsForReports(previous, entryId, addresses[..m], rs.clients[..m]);
    assert forall i :: 0 <= i < |addresses| ==> !NameFault(previous, addresses[i], rs.clients[i]);
  }

  /** The comparison never changes what is fetched or what the snapshot
      holds: without name faults a cycle ends as it would with no previous
      snapshot at all. */
  lemma {:induction false} PassIgnoresPrevious(previous: Option<Snapshot>, entryId: string, addresses: seq<string>, replies: seq<Reply<Client>>, k: nat)
    requires |replies| == |addresses| && k <= |addresses|
    requires forall i :: 0 <= i < k ==> !NameFault(previous, addresses[i], replies[i])
    ensures ClientPass(previous, entryId, addresses, replies, k).(events := []) == ClientPass(None, entryId, addresses, replies, k)
  {
    if k > 0 {
      PassIgnoresPrevious(previous, entryId, addresses, replies, k - 1);
    }
  }

  lemma DiffKeepsSnapshot(previous: Option<Snapshot>, entryId: string, addresses: seq<string>, rs: Replies)
    requires |rs.clients| == |addresses|
    requires forall i :: 0 <= i < |addresses| ==> !NameFault(previous, addresses[i], rs.clients[i])
    ensures Update(previous, entryId, addresses, rs).outcome == Update(None, entryId, addresses, rs).outcome
    ensures Update(previous, entryId, addresses, rs).requested == Update(None, entryId, addresses, rs).requested
  {
    PassIgnoresPrevious(previous, entryId, addresses, rs.clients, |addresses|);
  }

  /** `async_setup_entry`'s first refresh: a failed first cycle makes the
      entry not ready; otherwise the coordinator starts with its snapshot. */
  datatype SetupResult = NotReady | Ready(data: Snapshot)

  function SetupEntry(firstRefresh: Outcome): (r: SetupResult)
    ensures r.NotReady? <==> firstRefresh.Failed?
    ensures r.Ready? ==> r.data == firstRefresh.snapshot
  {
    match firstRefresh
    case Failed(_) => NotReady
    case Updated(s) => Ready(s)
  }

  /** The coordinator's configuration. `data` and `last_update_success`
      belong to the framework's coordinator and are inputs here. */
  class BitcoinMiningUpdateCoordinator {
    const host: string
    const port: int
    const btcAddresses: seq<string>
    const entryId: string

    constructor (host: string, port: int, btcAddresses: seq<string>, entryId: string)
      ensures this.host == host && this.port == port
      ensures this.btcAddresses == btcAddresses && this.entryId == entryId
    {
      this.host := host;
      this.port := port;
      this.btcAddresses := btcAddresses;
      this.entryId := entryId;
    }

    /** One iteration of `_async_update_data`'s address loop: records the
        request, stores a 200 body, compares worker names with the previous
        snapshot and signals gained names; a timeout, a client error or a
        name that cannot be compared aborts the cycle. */
    method FetchClient(previous: Option<Snapshot>, address: string, reply: Reply<Client>,
                       client0: map<string, Client>, requested0: seq<Endpoint>, events0: seq<Event>)
      returns (client: map<string, Client>, requested: seq<Endpoint>, events: seq<Event>, error: Option<UpdateError>)
      ensures Progress(client, requested, events, error)
           == ClientStep(Progress(client0, requested0, events0, None), previous, entryId, address, reply)
    {
      client, events, error := client0, events0, None;
      requested := requested0 + [ClientEndpoint(address)];
      match reply {
        case Ok(clientData) =>
          client := client[address := clientData];
          if previous.Some? && address in previous.value.client {
            var currentWorkers := WorkerNames(previous.value.client[address].workers);
            var newWorkers := WorkerNames(clientData.workers);
            if currentWorkers.None? || newWorkers.None? {
              error := Some(WorkerNameError);
              return;
            }
            if newWorkers.value - currentWorkers.value != {} {
              events := events + [NewWorkers(entryId, address, newWorkers.value - currentWorkers.value)];
            }
          }
        case NotOk(_) =>
        case Timeout =>
          error := Some(TimeoutError);
        case ClientError =>
          error := Some(FetchError);
      }
    }

    /** `_async_update_data`, given the previous snapshot (`self.data`) and
        the reply each endpoint gives in this cycle. */
    method AsyncUpdateData(previous: Option<Snapshot>, replies: Replies) returns (cycle: Cycle)
      requires |replies.clients| == |btcAddresses|
      ensures cycle == Update(previous, entryId, btcAddresses, replies)
    {
      var client: map<string, Client> := map[];
      var network: map<string, Json> := map[];
      var info := EmptyInfo;
      var requested: seq<Endpoint> := [];
      var events: seq<Event> := [];
      var i := 0;
      while i < |btcAddresses|
        invariant 0 <= i <= |btcAddresses|
        invariant ClientPass(previous, entryId, btcAddresses, replies.clients, i) == Progress(client, requested, events, None)
      {
        var error;
        client, requested, events, error := FetchClient(previous, btcAddresses[i], replies.clients[i], client, requested, events);
        assert ClientPass(previous, entryId, btcAddresses, replies.clients, i + 1) == Progress(client, requested, events, error);
        if error.Some? {
          AbortedPassIsFinal(previous, entryId, btcAddresses, replies.clients, i + 1, |btcAddresses|);
          PassAbortedCycle(previous, entryId, btcAddresses, replies);
          return Cycle(Failed(error.value), requested, events);
        }
        i := i + 1;
      }
      PassCompletedCycle(previous, entryId, btcAddresses, replies);

      requested := requested + [NetworkEndpoint];
      match replies.network {
        case Ok(body) => network := body;
        case NotOk(_) =>
        case Timeout => return Cycle(Failed(TimeoutError), requested, events);
        case ClientError => return Cycle(Failed(FetchError), requested, events);
      }

      requested := requested + [InfoEndpoint];
      match replies.info {
        case Ok(body) => info := body;
        case NotOk(_) =>
        case Timeout => return Cycle(Failed(TimeoutError), requested, events);
        case ClientError => return Cycle(Failed(FetchError), requested, events);
      }

      cycle := Cycle(Updated(Snapshot(client, network, info)), requested, events);
    }
  }
}
