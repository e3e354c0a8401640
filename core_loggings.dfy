/**
 * The older log receiver of src/core/loggings.ts: the session map, and the
 * per-connection reassembly that writes only whole lines to the log stream
 * and keeps the partial last line for the next chunk.
 */
module CoreLoggings {
  import opened Wrappers
  import opened Bytes
  import opened Sessions

  /**
   * The search for the last newline in `client_data` as written: `i` starts
   * at the last index and is incremented. `fuel` bounds the number of loop
   * tests; `None` means the loop is still running when it runs out.
   */
  function ScanAsWritten(data: seq<Byte>, i: int, fuel: nat): (r: Option<int>)
    decreases fuel
  {
    if fuel == 0 then None
    else if i < 0 then Some(-1)
    else if i < |data| && data[i] == NL then Some(i)
    else ScanAsWritten(data, i + 1, fuel - 1)
  }

  /** An empty chunk, or one ending with a newline, ends the scan at once with the last newline. */
  lemma ScanEnds(data: seq<Byte>, fuel: nat)
    requires fuel >= 1 && (data == [] || data[|data| - 1] == NL)
    ensures ScanAsWritten(data, |data| - 1, fuel) == Some(LastNewlineIndex(data))
  {
  }

  /** From an index with no newline at or after it, the scan never ends. */
  lemma {:induction false} ScanDiverges(data: seq<Byte>, i: int, fuel: nat)
    requires i >= 0 && forall j :: i <= j < |data| ==> data[j] != NL
    ensures ScanAsWritten(data, i, fuel) == None
    decreases fuel
  {
    if fuel > 0 {
      ScanDiverges(data, i + 1, fuel - 1);
    }
  }

  /** Any other chunk makes the scan run forever, whatever newlines it holds before its last byte. */
  lemma ScanHangs(data: seq<Byte>, fuel: nat)
    requires data != [] && data[|data| - 1] != NL
    ensures ScanAsWritten(data, |data| - 1, fuel) == None
  {
    ScanDiverges(data, |data| - 1, fuel);
  }

  /** The chunk `A\nB` holds a newline at index 1, yet the scan as written never finds it. */
  lemma PartialLineHangs(fuel: nat)
    ensures ScanAsWritten([65, NL, 66], 2, fuel) == None
    ensures LastNewlineIndex([65, NL, 66]) == 1
  {
    ScanHangs([65, NL, 66], fuel);
    assert [65, NL, 66][..2] == [65, NL];
  }

  /**
   * The closure `client_data(client)` returns, with its own residue `buff`.
   * `received` is every chunk handed to it and `written` every message it
   * wrote to the log stream, in order.
   */
  class Reassembler {
    var buff: seq<Byte>
    ghost var received: seq<Byte>
    ghost var written: seq<seq<Byte>>

    /**
     * No byte is lost, duplicated or reordered: the messages followed by the
     * residue are the chunks; every message is whole lines, and the residue
     * is the partial line after them.
     */
    ghost predicate Valid()
      reads this
    {
      Reassembled(written, buff, received)
    }

    /** `let buff = Buffer.from("")`: a fresh, empty residue for each connection. */
    constructor ()
      ensures Valid() && buff == [] && received == [] && written == []
    {
      buff := [];
      received := [];
      written := [];
    }

    /**
     * One chunk: when it holds a newline, the residue and the chunk up to its
     * last newline are written as one message and the rest of the chunk is
     * kept; otherwise nothing is written and the chunk joins the residue.
     */
    method Data(data: seq<Byte>) returns (message: Option<seq<Byte>>)
      requires Valid()
      modifies this
      ensures Valid() && received == old(received) + data
      ensures message.Some? <==> NL in data
      ensures message.Some? ==> message.value == old(buff) + data[..LastNewlineIndex(data) + 1]
                                && buff == data[LastNewlineIndex(data) + 1..]
                                && written == old(written) + [message.value]
      ensures message.None? ==> buff == old(buff) + data && written == old(written)
    {
      var lastNl := LastNewline(data);
      HasNewline(data);
      if lastNl != -1 {
        var m := WriteUpTo(data, lastNl);
        message := Some(m);
      } else {
        Keep(data);
        message := None;
      }
    }

    /** The newline branch: `buff ++ data[0..last_nl]` is written and the rest of the chunk kept. */
    method WriteUpTo(data: seq<Byte>, lastNl: int) returns (m: seq<Byte>)
      requires Valid() && lastNl == LastNewlineIndex(data) && lastNl != -1
      modifies this
      ensures Valid() && received == old(received) + data
      ensures m == old(buff) + data[..lastNl + 1] && buff == data[lastNl + 1..] && written == old(written) + [m]
    {
      m := buff + data[..lastNl + 1];
      WriteStep(written, buff, received, data);
      written := written + [m];
      buff := data[lastNl + 1..];
      received := received + data;
    }

    /** The other branch: the chunk joins the residue. */
    method Keep(data: seq<Byte>)
      requires Valid() && LastNewlineIndex(data) == -1
      modifies this
      ensures Valid() && received == old(received) + data
      ensures buff == old(buff) + data && written == old(written)
    {
      KeepStep(written, buff, received, data);
      buff := buff + data;
      received := received + data;
    }
  }

  /**
   * No byte is lost, duplicated or reordered: the messages followed by the
   * residue are the chunks; every message is whole lines, and the residue
   * is the partial line after them.
   */
  ghost predicate Reassembled(written: seq<seq<Byte>>, buff: seq<Byte>, received: seq<Byte>)
  {
    Flatten(written) + buff == received && NL !in buff && AllLines(written)
  }

  /** A message of whole lines: it is not empty and its last byte is a newline. */
  predicate EndsLine(m: seq<Byte>)
  {
    m != [] && m[|m| - 1] == NL
  }

  /** Every message written is whole lines. */
  predicate AllLines(ms: seq<seq<Byte>>)
  {
    ms == [] || (AllLines(ms[..|ms| - 1]) && EndsLine(ms[|ms| - 1]))
  }

  /** `AllLines`, message by message. */
  lemma {:induction false} AllLinesAt(ms: seq<seq<Byte>>, k: nat)
    requires AllLines(ms) && k < |ms|
    ensures EndsLine(ms[k])
    decreases |ms|
  {
    if k < |ms| - 1 {
      AllLinesAt(ms[..|ms| - 1], k);
    }
  }

  /** A chunk holding a newline: the residue and the chunk up to its last newline go out as one message. */
  lemma WriteStep(written: seq<seq<Byte>>, buff: seq<Byte>, received: seq<Byte>, data: seq<Byte>)
    requires Reassembled(written, buff, received) && LastNewlineIndex(data) != -1
    ensures var last := LastNewlineIndex(data);
      Reassembled(written + [buff + data[..last + 1]], data[last + 1..], received + data)
  {
    var last := LastNewlineIndex(data);
    var line, rest := data[..last + 1], data[last + 1..];
    CutAtLastNewline(data);
    WriteLine(written, buff, received, line, rest);
    LineEnds(buff, line);
    assert (written + [buff + line])[..|written|] == written;
  }

  /** Cutting a chunk after its last newline: the two parts make the chunk, the first ends a line, the second holds none. */
  lemma CutAtLastNewline(data: seq<Byte>)
    requires LastNewlineIndex(data) != -1
    ensures var last := LastNewlineIndex(data);
      && data[..last + 1] + data[last + 1..] == data
      && EndsLine(data[..last + 1])
      && NL !in data[last + 1..]
  {
    var last := LastNewlineIndex(data);
    var rest := data[last + 1..];
    forall j | 0 <= j < |rest|
      ensures rest[j] != NL
    {
      assert rest[j] == data[last + 1 + j];
    }
  }

  /** The residue followed by a line ends that line. */
  lemma LineEnds(buff: seq<Byte>, line: seq<Byte>)
    requires EndsLine(line)
    ensures EndsLine(buff + line)
  {
    assert (buff + line)[|buff + line| - 1] == line[|line| - 1];
  }

  /** A chunk without a newline joins the residue. */
  lemma KeepStep(written: seq<seq<Byte>>, buff: seq<Byte>, received: seq<Byte>, data: seq<Byte>)
    requires Reassembled(written, buff, received) && LastNewlineIndex(data) == -1
    ensures Reassembled(written, buff + data, received + data)
  {
    HasNewline(data);
    assert Flatten(written) + (buff + data) == (Flatten(written) + buff) + data;
  }

  /** Writing the residue and a line of the chunk, and keeping the rest, accounts for every byte received. */
  lemma WriteLine(written: seq<seq<Byte>>, buff: seq<Byte>, received: seq<Byte>, line: seq<Byte>, rest: seq<Byte>)
    requires Flatten(written) + buff == received
    ensures Flatten(written + [buff + line]) + rest == received + (line + rest)
  {
    FlattenSnoc(written, buff + line);
    assert (Flatten(written) + (buff + line)) + rest == (Flatten(written) + buff) + (line + rest);
  }

  /** A chunk holds a newline exactly when it has a last one. */
  lemma HasNewline(data: seq<Byte>)
    ensures NL in data <==> LastNewlineIndex(data) != -1
  {
    if LastNewlineIndex(data) == -1 {
      forall j | 0 <= j < |data|
        ensures data[j] != NL
      {
      }
    }
  }

  /**
   * The receiver of src/core/loggings.ts. `clients` is the session map;
   * `writes` is what went to the log stream, in order; `events` is what the
   * receiver did to sockets, the server and the socket file, in order.
   */
  class Loggings {
    var clients: map<Id, Socket>
    var writes: seq<seq<Byte>>
    var events: seq<Event>

    /** The constructor's state: no clients, nothing written. */
    constructor ()
      ensures clients == map[] && writes == [] && events == []
    {
      clients := map[];
      writes := [];
      events := [];
    }

    /**
     * `server_conn`: registers the connection under `id`, gives it its own
     * reassembler, and acknowledges it.
     */
    method ServerConn(id: Id, client: Socket) returns (r: Reassembler)
      modifies this
      ensures fresh(r) && r.Valid() && r.buff == [] && r.received == []
      ensures clients == old(clients)[id := client]
      ensures events == old(events) + [Ack(id)]
      ensures writes == old(writes)
    {
      clients := clients[id := client];
      r := new Reassembler();
      events := events + [Ack(id)];
    }

    /** A `data` event of the connection `r` belongs to: its message, if any, goes to the log stream. */
    method ClientData(r: Reassembler, data: seq<Byte>)
      requires r.Valid()
      modifies this, r
      ensures r.Valid() && r.received == old(r.received) + data
      ensures NL in data ==> && writes == old(writes) + [old(r.buff) + data[..LastNewlineIndex(data) + 1]]
                             && r.buff == data[LastNewlineIndex(data) + 1..]
      ensures NL !in data ==> writes == old(writes) && r.buff == old(r.buff) + data
      ensures clients == old(clients) && events == old(events)
    {
      var message := r.Data(data);
      if message.Some? {
        writes := writes + [message.value];
      }
    }

    /** `client_end(uuid)`: forgets that one connection; its residue is never written. */
    method ClientEnd(id: Id)
      modifies this
      ensures clients == old(clients) - {id}
      ensures writes == old(writes) && events == old(events)
    {
      clients := clients - {id};
    }

    /**
     * `server_cleanup`: closes the server, ends and forgets every client, and
     * removes the socket file when it exists. `ended` lists the clients in the
     * order their sockets were ended.
     */
    method ServerCleanup(socketFileExists: bool) returns (ended: seq<Id>)
      modifies this
      ensures clients == map[] && writes == old(writes)
      ensures |ended| == |old(clients)| && (forall k :: 0 <= k < |ended| ==> ended[k] in old(clients))
      ensures forall j, k :: 0 <= j < k < |ended| ==> ended[j] != ended[k]
      ensures events == old(events) + [CloseServer] + EndEvents(ended) + (if socketFileExists then [UnlinkSocketFile] else [])
    {
      events := events + [CloseServer];
      ended := DrainClients(clients);
      events := events + EndEvents(ended);
      clients := map[];
      if socketFileExists {
        events := events + [UnlinkSocketFile];
      }
    }
  }

  /**
   * Across the chunks of one connection, the messages written are whole lines
   * and, followed by the residue, give back every byte received in order.
   */
  lemma ReassemblyLossless(r: Reassembler)
    requires r.Valid()
    ensures Flatten(r.written) + r.buff == r.received
    ensures CountNewlines(Flatten(r.written)) == CountNewlines(r.received)
    ensures forall k :: 0 <= k < |r.written| ==> EndsLine(r.written[k])
  {
    CountNewlinesAppend(Flatten(r.written), r.buff);
    forall k | 0 <= k < |r.written|
      ensures EndsLine(r.written[k])
    {
      AllLinesAt(r.written, k);
    }
  }
}
