/**
 * The session bookkeeping both receivers share, src/loggings/loggings.ts and
 * src/core/loggings.ts: connection ids, client sockets, the effects on the
 * outside world, and the loop of `server_cleanup` that ends every client.
 */
module Sessions {

  /** A connection id (`crypto.randomUUID()`). */
  type Id = string

  /** An opaque handle for a client socket. */
  datatype Socket = Socket(handle: nat)

  /** What a receiver does to the outside world, in order. */
  datatype Event =
    | Ack(id: Id)          // `client.write("awk")`
    | EndSocket(id: Id)    // `sock.end()`
    | CloseServer          // `server.close()`
    | EndLogStream         // `log_stream.end()`
    | UnlinkSocketFile     // `fs.unlinkSync(UNIX_SOCK_PATH)`
    | WriteAfterEnd        // `log_stream.write` after `end()`: the stream emits an `error` no one listens to

  /**
   * The loop of `server_cleanup` over `clients.entries()`: ends and deletes one
   * client at a time until the map is empty. `ended` lists each client once,
   * in the order it was ended.
   */
  method DrainClients(clients: map<Id, Socket>) returns (ended: seq<Id>)
    ensures |ended| == |clients| && (forall k :: 0 <= k < |ended| ==> ended[k] in clients)
    ensures forall j, k :: 0 <= j < k < |ended| ==> ended[j] != ended[k]
  {
    var rest := clients;
    ended := [];
    while rest != map[]
      invariant Draining(clients, rest, ended)
      decreases |rest|
    {
      var id :| id in rest;
      DrainStep(clients, rest, ended, id);
      ended := ended + [id];
      rest := rest - {id};
    }
  }

  /**
   * Part way through the cleanup loop: `ended` lists distinct ids of `all`,
   * none of them still in `rest`, and together they account for all of it.
   */
  ghost predicate Draining(all: map<Id, Socket>, rest: map<Id, Socket>, ended: seq<Id>)
  {
    && rest.Keys <= all.Keys
    && |ended| + |rest| == |all|
    && (forall k :: 0 <= k < |ended| ==> ended[k] in all && ended[k] !in rest)
    && (forall j, k :: 0 <= j < k < |ended| ==> ended[j] != ended[k])
  }

  /** Ending one more remaining client keeps `Draining`. */
  lemma DrainStep(all: map<Id, Socket>, rest: map<Id, Socket>, ended: seq<Id>, id: Id)
    requires Draining(all, rest, ended) && id in rest
    ensures Draining(all, rest - {id}, ended + [id])
  {
    assert |rest - {id}| == |rest| - 1;
  }

  /** One `EndSocket` event per id, in the same order. */
  function EndEvents(ids: seq<Id>): (es: seq<Event>)
    ensures |es| == |ids| && forall k :: 0 <= k < |ids| ==> es[k] == EndSocket(ids[k])
  {
    if ids == [] then [] else EndEvents(ids[..|ids| - 1]) + [EndSocket(ids[|ids| - 1])]
  }
}
