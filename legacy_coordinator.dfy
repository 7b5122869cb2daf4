/** The older copy of the coordinator at the top of `custom_components`:
    the same cycle without the new-worker comparison and without an entry id. */
module LegacyCoordinator {
  import opened Json
  import opened Snapshot
  import opened Fetch
  import Coordinator

  /** How far the address loop has got; `error` is set once it aborted. */
  datatype Progress = Progress(client: map<string, Client>, requested: seq<Endpoint>, error: Option<UpdateError>)

  /** The address loop after its first `k` iterations. */
  function ClientPass(addresses: seq<string>, replies: seq<Reply<Client>>, k: nat): Progress
    requires |replies| == |addresses| && k <= |addresses|
  {
    if k == 0 then Progress(map[], [], None)
    else
      var p := ClientPass(addresses, replies, k - 1);
      if p.error.Some? then p
      else
        var requested := p.requested + [ClientEndpoint(addresses[k - 1])];
        match replies[k - 1]
        case Ok(c) => Progress(p.client[addresses[k - 1] := c], requested, None)
        case NotOk(_) => p.(requested := requested)
        case Timeout => p.(requested := requested, error := Some(TimeoutError))
        case ClientError => p.(requested := requested, error := Some(FetchError))
  }

  lemma {:induction false} AbortedPassIsFinal(addresses: seq<string>, replies: seq<Reply<Client>>, k: nat, j: nat)
    requires |replies| == |addresses| && k <= j <= |addresses|
    requires ClientPass(addresses, replies, k).error.Some?
    ensures ClientPass(addresses, replies, j) == ClientPass(addresses, replies, k)
  {
    if j > k {
      AbortedPassIsFinal(addresses, replies, k, j - 1);
    }
  }

  /** A whole cycle: the outcome and the endpoints requested, in order. */
  function Update(addresses: seq<string>, rs: Replies): (Outcome, seq<Endpoint>)
    requires |rs.clients| == |addresses|
  {
    var p := ClientPass(addresses, rs.clients, |addresses|);
    if p.error.Some? then (Failed(p.error.value), p.requested)
    else
      var afterNetwork := p.requested + [NetworkEndpoint];
      if rs.network.Aborts() then (Failed(AbortError(rs.network)), afterNetwork)
      else
        var network := if rs.network.Ok? then rs.network.body else map[];
        var afterInfo := afterNetwork + [InfoEndpoint];
        if rs.info.Aborts() then (Failed(AbortError(rs.info)), afterInfo)
        else
          var info := if rs.info.Ok? then rs.info.body else EmptyInfo;
          (Updated(Snapshot(p.client, network, info)), afterInfo)
  }

  /** The address loop of this copy is the other copy's loop run without a
      previous snapshot. */
  lemma {:induction false} PassIsUncomparedPass(entryId: string, addresses: seq<string>, replies: seq<Reply<Client>>, k: nat)
    requires |replies| == |addresses| && k <= |addresses|
    ensures var p := ClientPass(addresses, replies, k);
      var q := Coordinator.ClientPass(None, entryId, addresses, replies, k);
      p.client == q.client && p.requested == q.requested && p.error == q.error && q.events == []
  {
    if k > 0 {
      PassIsUncomparedPass(entryId, addresses, replies, k - 1);
    }
  }

  /** This copy's cycle ends exactly as the `minemonitor` copy's cycle does
      when that one has no previous snapshot to compare with; together with
      `Coordinator.DiffKeepsSnapshot`, the two copies build the same
      snapshot whenever no worker name raises. */
  lemma SameCycleAsMinemonitor(entryId: string, addresses: seq<string>, rs: Replies)
    requires |rs.clients| == |addresses|
    ensures var c := Coordinator.Update(None, entryId, addresses, rs);
      Update(addresses, rs) == (c.outcome, c.requested) && c.events == []
  {
    PassIsUncomparedPass(entryId, addresses, rs.clients, |addresses|);
  }

  /** The request at position `j` of `FetchOrder(addresses)` times out or
      fails with a client error. */
  predicate EndpointAborts(addresses: seq<string>, rs: Replies, j: int)
    requires |rs.clients| == |addresses| && 0 <= j < |addresses| + 2
  {
    if j < |addresses| then rs.clients[j].Aborts()
    else if j == |addresses| then rs.network.Aborts()
    else rs.info.Aborts()
  }

  /** The error an aborting request at position `j` turns into. */
  function EndpointAbortError(addresses: seq<string>, rs: Replies, j: int): UpdateError
    requires |rs.clients| == |addresses| && 0 <= j < |addresses| + 2
    requires EndpointAborts(addresses, rs, j)
  {
    if j < |addresses| then AbortError(rs.clients[j])
    else if j == |addresses| then AbortError(rs.network)
    else AbortError(rs.info)
  }

  /** A cycle of this copy requests the endpoints in fetch order up to and
      including the first timeout or client error, and fails exactly when
      the last one requested aborts, with that request's error; a non-200
      reply never ends it, and a successful cycle requested every endpoint. */
  lemma LegacyCycleStopsAtFirstAbort(addresses: seq<string>, rs: Replies)
    requires |rs.clients| == |addresses|
    ensures var (outcome, requested) := Update(addresses, rs);
      var n := |requested|;
      && 1 <= n <= |addresses| + 2
      && requested == FetchOrder(addresses)[..n]
      && (forall j :: 0 <= j < n - 1 ==> !EndpointAborts(addresses, rs, j))
      && (outcome.Failed? <==> EndpointAborts(addresses, rs, n - 1))
      && (outcome.Failed? ==> outcome.error == EndpointAbortError(addresses, rs, n - 1))
      && (outcome.Failed? <==> (|| (exists i :: 0 <= i < |addresses| && rs.clients[i].Aborts())
                                || rs.network.Aborts() || rs.info.Aborts()))
      && (outcome.Updated? ==> requested == FetchOrder(addresses))
      && outcome != Failed(WorkerNameError)
  {
    SameCycleAsMinemonitor("", addresses, rs);
    Coordinator.CycleStopsAtFirstFault(None, "", addresses, rs);
    Coordinator.UpdateFailsIffFault(None, "", addresses, rs);
    var c := Coordinator.Update(None, "", addresses, rs);
    assert forall j :: 0 <= j < |addresses| + 2 ==>
      Coordinator.EndpointFaults(None, addresses, rs, j) == EndpointAborts(addresses, rs, j);
    if c.outcome.Failed? {
      var n := |c.requested|;
      assert Coordinator.EndpointFaults(None, addresses, rs, n - 1);
    } else {
      assert FetchOrder(addresses)[..|addresses| + 2] == FetchOrder(addresses);
    }
  }


  /** The snapshot of a successful cycle: client keys are exactly the
      configured addresses answered with 200 (so a subset of the configured
      addresses), each with its last 200 body; network and info keep `{}`
      unless their endpoint answered 200. */
  lemma LegacyUpdatedSnapshot(addresses: seq<string>, rs: Replies)
    requires |rs.clients| == |addresses|
    ensures var (outcome, _) := Update(addresses, rs);
      outcome.Updated? ==>
        var s := outcome.snapshot;
        && (forall a :: a in s.client <==> exists i :: 0 <= i < |addresses| && addresses[i] == a && rs.clients[i].Ok?)
        && (forall a :: a in s.client ==> s.client[a] == Coordinator.LastOk(addresses, rs.clients, a, |addresses|).value)
        && s.network == (if rs.network.Ok? then rs.network.body else map[])
        && s.info == (if rs.info.Ok? then rs.info.body else EmptyInfo)
  {
    SameCycleAsMinemonitor("", addresses, rs);
    Coordinator.UpdatedSnapshot(None, "", addresses, rs);
  }

  /** The coordinator's configuration (this copy has no entry id). */
  class BitcoinMiningUpdateCoordinator {
    const host: string
    const port: int
    const btcAddresses: seq<string>

    constructor (host: string, port: int, btcAddresses: seq<string>)
      ensures this.host == host && this.port == port && this.btcAddresses == btcAddresses
    {
      this.host := host;
      this.port := port;
      this.btcAddresses := btcAddresses;
    }

    /** `_async_update_data` given the reply each endpoint gives in this cycle. */
    method AsyncUpdateData(replies: Replies) returns (outcome: Outcome, requested: seq<Endpoint>)
      requires |replies.clients| == |btcAddresses|
      ensures (outcome, requested) == Update(btcAddresses, replies)
    {
      var client: map<string, Client> := map[];
      var network: map<string, Json> := map[];
      var info := EmptyInfo;
      requested := [];
      var i := 0;
      while i < |btcAddresses|
        invariant 0 <= i <= |btcAddresses|
        invariant ClientPass(btcAddresses, replies.clients, i) == Progress(client, requested, None)
      {
        var address := btcAddresses[i];
        requested := requested + [ClientEndpoint(address)];
        match replies.clients[i] {
          case Ok(clientData) =>
            client := client[address := clientData];
          case NotOk(_) =>
          case Timeout =>
            AbortedPassIsFinal(btcAddresses, replies.clients, i + 1, |btcAddresses|);
            return Failed(TimeoutError), requested;
          case ClientError =>
            AbortedPassIsFinal(btcAddresses, replies.clients, i + 1, |btcAddresses|);
            return Failed(FetchError), requested;
        }
        i := i + 1;
      }

      requested := requested + [NetworkEndpoint];
      match replies.network {
        case Ok(body) => network := body;
        case NotOk(_) =>
        case Timeout => return Failed(TimeoutError), requested;
        case ClientError => return Failed(FetchError), requested;
      }

      requested := requested + [InfoEndpoint];
      match replies.info {
        case Ok(body) => info := body;
        case NotOk(_) =>
        case Timeout => return Failed(TimeoutError), requested;
        case ClientError => return Failed(FetchError), requested;
      }

      outcome := Updated(Snapshot(client, network, info));
    }
  }
}
