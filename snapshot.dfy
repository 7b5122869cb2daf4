/** The snapshot one update cycle produces: `{client, network, info}`. */
module Snapshot {
  import opened Json

  /** One element of a client record's "workers" list, as the server sends it. */
  type Worker = map<string, Json>

  /** The body of `/api/client/{address}`. The "workers" list is held apart
      from the other keys; a record without that key behaves everywhere in
      the integration like one whose list is empty, so both are `[]`. */
  datatype Client = Client(fields: map<string, Json>, workers: seq<Worker>)

  /** `client.get(key)` on the record as the server sent it: the workers
      list under "workers", every other key from `fields`. */
  function ClientField(c: Client, key: string): (r: Json)
    ensures key != "workers" ==> r == Get(c.fields, key)
    ensures key == "workers" ==> r.Arr? && |r.items| == |c.workers|
  {
    if key == "workers" then Arr(seq(|c.workers|, i requires 0 <= i < |c.workers| => Obj(c.workers[i])))
    else Get(c.fields, key)
  }

  /** The body of `/api/info`. Only its "highScores" list is read; a missing
      list and an empty one are read alike, so both are `[]`. */
  datatype Info = Info(highScores: seq<map<string, Json>>)

  /** `{"client": {...}, "network": {...}, "info": {...}}`. */
  datatype Snapshot = Snapshot(client: map<string, Client>, network: map<string, Json>, info: Info)

  /** The `{}` an info section keeps when its endpoint does not answer 200. */
  const EmptyInfo: Info := Info([])
}
