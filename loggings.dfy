/**
 * The log-shipping daemon of src/loggings/loggings.ts: the batching transform
 * that every client's bytes are written into, and the session bookkeeping with
 * its idle-shutdown timer.
 */
module LoggingsDaemon {
  import opened Wrappers
  import opened Bytes
  import opened Sessions

  /** `loggings_timeout_ms`: the idle window, never shorter than 2000 ms nor than the batch timeout. */
  function IdleWindow(batchTimeoutMs: int): (w: int)
    ensures w >= 2000 && w >= batchTimeoutMs
    ensures w == 2000 || w == batchTimeoutMs
  {
    if batchTimeoutMs > 2000 then batchTimeoutMs else 2000
  }

  /** The most newlines `buffer_count` can hold between two chunks. */
  function CountBound(maxBatch: int): nat
  {
    if maxBatch >= 1 then maxBatch else 1
  }

  /** A batch ends with a newline and holds the batch size in newlines, less `credit`. */
  ghost predicate FullBatch(maxBatch: int, credit: nat, b: seq<Byte>)
  {
    b != [] && b[|b| - 1] == NL && CountNewlines(b) == maxBatch - credit
  }

  /**
   * With a batch size of at least 1, every batch of one `transform` call is
   * full; the first one is short by the `stale0` newlines a timeout flush
   * already handed on.
   */
  ghost predicate Batched(maxBatch: int, stale0: nat, batches: seq<seq<Byte>>)
  {
    maxBatch >= 1 && batches != [] ==>
      && Batched(maxBatch, stale0, batches[..|batches| - 1])
      && FullBatch(maxBatch, if |batches| == 1 then stale0 else 0, batches[|batches| - 1])
  }

  /** `Batched`, batch by batch. */
  lemma {:induction false} BatchedAll(maxBatch: int, stale0: nat, batches: seq<seq<Byte>>)
    requires maxBatch >= 1
    ensures Batched(maxBatch, stale0, batches) <==>
      forall k :: 0 <= k < |batches| ==> FullBatch(maxBatch, if k == 0 then stale0 else 0, batches[k])
    decreases |batches|
  {
    if batches != [] {
      var init := batches[..|batches| - 1];
      BatchedAll(maxBatch, stale0, init);
      assert forall k :: 0 <= k < |init| ==> init[k] == batches[k];
    }
  }

  /** The variables of the scan loop: batches pushed so far, `buffer`, `buffer_count` and `start`. */
  datatype ScanState = ScanState(batches: seq<seq<Byte>>, buffer: seq<Byte>, count: nat, start: nat)

  /** One turn of the scan loop, at byte `i` of the chunk. */
  function ScanByte(maxBatch: int, chunk: seq<Byte>, st: ScanState, i: nat): (r: ScanState)
    requires st.start <= i < |chunk|
    ensures r.start <= i + 1
  {
    var c := st.count + (if chunk[i] == NL then 1 else 0);
    if c >= maxBatch then ScanState(st.batches + [st.buffer + chunk[st.start..i + 1]], [], 0, i + 1)
    else ScanState(st.batches, st.buffer, c, st.start)
  }

  /** The state of the scan loop after the first `i` bytes of the chunk. */
  function ScanUpTo(maxBatch: int, chunk: seq<Byte>, buffer0: seq<Byte>, count0: nat, i: nat): (r: ScanState)
    requires i <= |chunk|
    ensures r.start <= i
  {
    if i == 0 then ScanState([], buffer0, count0, 0)
    else ScanByte(maxBatch, chunk, ScanUpTo(maxBatch, chunk, buffer0, count0, i - 1), i - 1)
  }

  /**
   * What the scan loop keeps true at byte `i`: the batches and `buffer` are the
   * old buffer and the chunk up to `start`; `count` is the newlines of
   * `buffer` and of the chunk from `start` to `i`, plus the stale ones.
   */
  ghost predicate ScanInv(maxBatch: int, buffer0: seq<Byte>, stale0: nat, chunk: seq<Byte>,
                          batches: seq<seq<Byte>>, buffer: seq<Byte>, count: nat, stale: nat, start: nat, i: nat)
  {
    && start <= i <= |chunk|
    && Flatten(batches) + buffer == buffer0 + chunk[..start]
    && count == CountNewlines(buffer) + CountNewlines(chunk[start..i]) + stale
    && count < CountBound(maxBatch)
    && (|batches| > 0 ==> |buffer| == 0 && stale == 0)
    && (|batches| == 0 ==> start == 0 && stale == stale0)
    && Batched(maxBatch, stale0, batches)
  }

  lemma ScanKeep(maxBatch: int, buffer0: seq<Byte>, stale0: nat, chunk: seq<Byte>,
                 batches: seq<seq<Byte>>, buffer: seq<Byte>, count: nat, stale: nat, start: nat, i: nat)
    requires ScanInv(maxBatch, buffer0, stale0, chunk, batches, buffer, count, stale, start, i) && i < |chunk|
    requires count + (if chunk[i] == NL then 1 else 0) < maxBatch
    ensures ScanInv(maxBatch, buffer0, stale0, chunk, batches, buffer,
                    count + (if chunk[i] == NL then 1 else 0), stale, start, i + 1)
  {
    assert chunk[start..i + 1] == chunk[start..i] + [chunk[i]];
    CountNewlinesAppend(chunk[start..i], [chunk[i]]);
  }

  lemma PushBytes(done: seq<Byte>, buffer: seq<Byte>, buffer0: seq<Byte>, chunk: seq<Byte>, start: nat, i: nat)
    requires start <= i < |chunk|
    requires done + buffer == buffer0 + chunk[..start]
    ensures done + (buffer + chunk[start..i + 1]) == buffer0 + chunk[..i + 1]
  {
    assert chunk[..i + 1] == chunk[..start] + chunk[start..i + 1];
    assert done + buffer + chunk[start..i + 1] == done + (buffer + chunk[start..i + 1]);
  }

  lemma PushCount(buffer: seq<Byte>, chunk: seq<Byte>, start: nat, i: nat)
    requires start <= i < |chunk|
    ensures var batch := buffer + chunk[start..i + 1];
      && batch != [] && batch[|batch| - 1] == chunk[i]
      && CountNewlines(batch) == CountNewlines(buffer) + CountNewlines(chunk[start..i]) + (if chunk[i] == NL then 1 else 0)
  {
    assert chunk[start..i + 1] == chunk[start..i] + [chunk[i]];
    CountNewlinesAppend(chunk[start..i], [chunk[i]]);
    CountNewlinesAppend(buffer, chunk[start..i + 1]);
  }

  lemma BatchedSnoc(maxBatch: int, stale0: nat, batches: seq<seq<Byte>>, b: seq<Byte>)
    requires Batched(maxBatch, stale0, batches)
    requires maxBatch >= 1 ==> FullBatch(maxBatch, if batches == [] then stale0 else 0, b)
    ensures Batched(maxBatch, stale0, batches + [b])
  {
    assert (batches + [b])[..|batches|] == batches;
  }

  lemma ScanPush(maxBatch: int, buffer0: seq<Byte>, stale0: nat, chunk: seq<Byte>,
                 batches: seq<seq<Byte>>, buffer: seq<Byte>, count: nat, stale: nat, start: nat, i: nat)
    requires ScanInv(maxBatch, buffer0, stale0, chunk, batches, buffer, count, stale, start, i) && i < |chunk|
    requires count + (if chunk[i] == NL then 1 else 0) >= maxBatch
    ensures ScanInv(maxBatch, buffer0, stale0, chunk, batches + [buffer + chunk[start..i + 1]], [], 0, 0, i + 1, i + 1)
  {
    var batch := buffer + chunk[start..i + 1];
    FlattenSnoc(batches, batch);
    PushBytes(Flatten(batches), buffer, buffer0, chunk, start, i);
    PushCount(buffer, chunk, start, i);
    BatchedSnoc(maxBatch, stale0, batches, batch);
    assert CountNewlines(chunk[i + 1..i + 1]) == 0;
  }

  lemma PendingCount(buffer: seq<Byte>, chunk: seq<Byte>, start: nat, count: nat, stale: nat)
    requires start <= |chunk|
    requires count == CountNewlines(buffer) + CountNewlines(chunk[start..|chunk|]) + stale
    ensures count == CountNewlines(buffer + chunk[start..]) + stale
  {
    assert chunk[start..|chunk|] == chunk[start..];
    CountNewlinesAppend(buffer, chunk[start..]);
  }

  lemma PendingBytes(done: seq<Byte>, buffer: seq<Byte>, buffer0: seq<Byte>, chunk: seq<Byte>, start: nat)
    requires start <= |chunk|
    requires done + buffer == buffer0 + chunk[..start]
    ensures done + (buffer + chunk[start..]) == buffer0 + chunk
  {
    assert chunk == chunk[..start] + chunk[start..];
    assert done + buffer + chunk[start..] == done + (buffer + chunk[start..]);
  }

  /** `ScanInv` for a state of the scan loop; the stale newlines count only until the first batch. */
  ghost predicate Scanned(maxBatch: int, buffer0: seq<Byte>, stale0: nat, chunk: seq<Byte>, st: ScanState, i: nat)
  {
    ScanInv(maxBatch, buffer0, stale0, chunk, st.batches, st.buffer, st.count,
            if st.batches == [] then stale0 else 0, st.start, i)
  }

  /** `ScanInv` holds before the first byte. */
  lemma ScanStartInv(maxBatch: int, buffer0: seq<Byte>, stale0: nat, chunk: seq<Byte>, count0: nat)
    requires count0 == CountNewlines(buffer0) + stale0 && count0 < CountBound(maxBatch)
    ensures Scanned(maxBatch, buffer0, stale0, chunk, ScanState([], buffer0, count0, 0), 0)
  {
    assert chunk[..0] == [] && chunk[0..0] == [];
  }

  /** One turn of the scan loop keeps `ScanInv`. */
  lemma ScanByteInv(maxBatch: int, buffer0: seq<Byte>, stale0: nat, chunk: seq<Byte>, prev: ScanState, i: nat)
    requires i < |chunk| && Scanned(maxBatch, buffer0, stale0, chunk, prev, i)
    ensures Scanned(maxBatch, buffer0, stale0, chunk, ScanByte(maxBatch, chunk, prev, i), i + 1)
  {
    var stale := if prev.batches == [] then stale0 else 0;
    if prev.count + (if chunk[i] == NL then 1 else 0) >= maxBatch {
      ScanPush(maxBatch, buffer0, stale0, chunk, prev.batches, prev.buffer, prev.count, stale, prev.start, i);
    } else {
      ScanKeep(maxBatch, buffer0, stale0, chunk, prev.batches, prev.buffer, prev.count, stale, prev.start, i);
    }
  }

  /** The scan loop keeps `ScanInv` at every byte. */
  lemma {:induction false} ScanUpToInv(maxBatch: int, chunk: seq<Byte>, buffer0: seq<Byte>, count0: nat, stale0: nat, i: nat)
    requires i <= |chunk|
    requires count0 == CountNewlines(buffer0) + stale0 && count0 < CountBound(maxBatch)
    ensures Scanned(maxBatch, buffer0, stale0, chunk, ScanUpTo(maxBatch, chunk, buffer0, count0, i), i)
  {
    if i == 0 {
      ScanStartInv(maxBatch, buffer0, stale0, chunk, count0);
    } else {
      ScanUpToInv(maxBatch, chunk, buffer0, count0, stale0, i - 1);
      ScanByteInv(maxBatch, buffer0, stale0, chunk, ScanUpTo(maxBatch, chunk, buffer0, count0, i - 1), i - 1);
    }
  }

  /** Where the scan loop ends, the batches and the buffer with the chunk's tail joined account for every byte. */
  lemma ScanResult(maxBatch: int, chunk: seq<Byte>, buffer0: seq<Byte>, count0: nat, stale0: nat,
                   batches: seq<seq<Byte>>, buffer: seq<Byte>, count: nat, start: nat)
    requires count0 == CountNewlines(buffer0) + stale0 && count0 < CountBound(maxBatch)
    requires ScanState(batches, buffer, count, start) == ScanUpTo(maxBatch, chunk, buffer0, count0, |chunk|)
    ensures Flatten(batches) + (buffer + chunk[start..]) == buffer0 + chunk
    ensures count == CountNewlines(buffer + chunk[start..]) + (if batches == [] then stale0 else 0)
    ensures count < CountBound(maxBatch)
    ensures Batched(maxBatch, stale0, batches)
    ensures batches == [] ==> buffer + chunk[start..] == buffer0 + chunk
  {
    var stale := if batches == [] then stale0 else 0;
    ScanUpToInv(maxBatch, chunk, buffer0, count0, stale0, |chunk|);
    PendingCount(buffer, chunk, start, count, stale);
    PendingBytes(Flatten(batches), buffer, buffer0, chunk, start);
  }

  /**
   * The `while (i < chunk.length)` loop of `transform(chunk)` over the
   * closure's `buffer` and `buffer_count`: counts newlines and cuts a batch
   * every time the count reaches the batch size. The batches come back in the
   * order the source pushes them.
   */
  method ScanLoop(maxBatch: int, buffer0: seq<Byte>, count0: nat, chunk: seq<Byte>)
    returns (batches: seq<seq<Byte>>, buffer: seq<Byte>, count: nat, start: nat)
    ensures ScanState(batches, buffer, count, start) == ScanUpTo(maxBatch, chunk, buffer0, count0, |chunk|)
  {
    batches, buffer, count := [], buffer0, count0;
    start := 0;
    var i := 0;
    while i < |chunk|
      invariant i <= |chunk|
      invariant ScanState(batches, buffer, count, start) == ScanUpTo(maxBatch, chunk, buffer0, count0, i)
    {
      ghost var st := ScanState(batches, buffer, count, start);
      if chunk[i] == NL {
        count := count + 1;
      }
      if count >= maxBatch {
        var batch;
        if |buffer| == 0 {
          batch := chunk[start..i + 1];
          assert batch == buffer + chunk[start..i + 1];
        } else {
          batch := buffer + chunk[start..i + 1];
          buffer := [];
        }
        batches := batches + [batch];
        count := 0;
        start := i + 1;
      }
      assert ScanState(batches, buffer, count, start) == ScanByte(maxBatch, chunk, st, i);
      i := i + 1;
    }
  }

  /**
   * The scan of `transform(chunk)`: the loop, then what follows the last
   * batch joins `buffer`. `stale0` is the part of `count0` a timeout flush
   * has already handed on.
   */
  method ScanChunk(maxBatch: int, buffer0: seq<Byte>, count0: nat, ghost stale0: nat, chunk: seq<Byte>)
    returns (batches: seq<seq<Byte>>, buffer: seq<Byte>, count: nat)
    requires count0 == CountNewlines(buffer0) + stale0 && count0 < CountBound(maxBatch)
    ensures Flatten(batches) + buffer == buffer0 + chunk
    ensures count == CountNewlines(buffer) + (if batches == [] then stale0 else 0) && count < CountBound(maxBatch)
    ensures Batched(maxBatch, stale0, batches)
    ensures batches == [] ==> buffer == buffer0 + chunk
  {
    var start;
    batches, buffer, count, start := ScanLoop(maxBatch, buffer0, count0, chunk);
    ScanResult(maxBatch, chunk, buffer0, count0, stale0, batches, buffer, count, start);
    if start < |chunk| {
      buffer := buffer + chunk[start..];
    } else {
      assert buffer + chunk[start..] == buffer;
    }
  }

  /**
   * The transform stream built by `batch_transform_stream`. `buffer` and
   * `bufferCount` are the closure's `buffer` and `buffer_count`, `pushed` is
   * everything handed on with `this.push`, in order, and `timerArmed` says
   * whether `batch_timeout` is pending. `received` is every chunk written into
   * the stream, joined; `stale` is the number of newlines a timeout flush has
   * already handed on although `buffer_count` still counts them.
   */
  class BatchStream {
    const maxBatch: int
    var buffer: seq<Byte>
    var bufferCount: nat
    var pushed: seq<seq<Byte>>
    var timerArmed: bool
    ghost var received: seq<Byte>
    ghost var stale: nat

    /** No byte lost, duplicated or reordered; the counter tracks the newlines not yet batched. */
    ghost predicate Valid()
      reads this
    {
      StreamInv(pushed, buffer, received, bufferCount, stale, maxBatch)
    }

    constructor (maxBatch: int)
      ensures Valid() && this.maxBatch == maxBatch
      ensures buffer == [] && bufferCount == 0 && pushed == [] && !timerArmed
      ensures received == [] && stale == 0
    {
      this.maxBatch := maxBatch;
      buffer, bufferCount, pushed, timerArmed := [], 0, [], false;
      received, stale := [], 0;
    }

    /**
     * `transform(chunk)`: clears the batch timer, runs the scan loop, and
     * re-arms the timer.
     */
    method Transform(chunk: seq<Byte>)
      requires Valid()
      modifies this
      ensures Valid() && timerArmed
      ensures received == old(received) + chunk
      ensures |old(pushed)| <= |pushed| && pushed[..|old(pushed)|] == old(pushed)
      ensures Flatten(pushed[|old(pushed)|..]) + buffer == old(buffer) + chunk
      ensures Batched(maxBatch, old(stale), pushed[|old(pushed)|..])
      ensures |pushed| == |old(pushed)| ==> buffer == old(buffer) + chunk && stale == old(stale)
      ensures |pushed| > |old(pushed)| ==> stale == 0
    {
      timerArmed := false;
      var batches, rest, count := ScanChunk(maxBatch, buffer, bufferCount, stale, chunk);
      AppendBatches(pushed, batches, rest, buffer, chunk);
      assert (pushed + batches)[..|pushed|] == pushed && (pushed + batches)[|pushed|..] == batches;
      pushed := pushed + batches;
      buffer := rest;
      bufferCount := count;
      stale := if batches == [] then stale else 0;
      received := received + chunk;
      timerArmed := true;
    }

    /**
     * The `batch_timeout` callback: pushes `buffer` up to and including its last
     * newline (nothing when there is none) and keeps the partial line after it.
     * `buffer_count` is left as it was.
     */
    method TimeoutFires()
      requires Valid() && timerArmed
      modifies this
      ensures Valid() && !timerArmed
      ensures |pushed| == |old(pushed)| + 1 && pushed[..|old(pushed)|] == old(pushed)
      ensures pushed[|pushed| - 1] + buffer == old(buffer)
      ensures var b := pushed[|pushed| - 1]; b == [] || b[|b| - 1] == NL
      ensures NL !in buffer
      ensures bufferCount == old(bufferCount) && received == old(received)
    {
      var lastNl := LastNewline(buffer);
      TimeoutStep(pushed, buffer, received, bufferCount, stale, maxBatch);
      SplitAtLastNewline(buffer);
      var batch, rest := buffer[..lastNl + 1], buffer[lastNl + 1..];
      assert (pushed + [batch])[..|pushed|] == pushed && (pushed + [batch])[|pushed|] == batch;
      stale := stale + CountNewlines(batch);
      pushed, buffer, timerArmed := pushed + [batch], rest, false;
    }
  }

  /**
   * A stream fed chunk after chunk with no timeout flush in between: the
   * pushed batches and `buffer` are the bytes received, and `buffer_count`
   * is exactly the number of newlines in `buffer`.
   */
  method TransformAll(maxBatch: int, chunks: seq<seq<Byte>>) returns (pushed: seq<seq<Byte>>, buffer: seq<Byte>, count: nat)
    ensures Flatten(pushed) + buffer == Flatten(chunks)
    ensures count == CountNewlines(buffer)
  {
    var s := new BatchStream(maxBatch);
    var i := 0;
    while i < |chunks|
      invariant 0 <= i <= |chunks|
      invariant s.Valid() && s.stale == 0 && s.received == Flatten(chunks[..i])
    {
      s.Transform(chunks[i]);
      FlattenTake(chunks, i);
      i := i + 1;
    }
    assert chunks[..i] == chunks;
    pushed, buffer, count := s.pushed, s.buffer, s.bufferCount;
  }

  /**
   * The state of a batching stream: what was pushed, then `buffer`, is what
   * was received, and `count` is the newlines of `buffer` plus `stale`, below
   * the batch size.
   */
  ghost predicate StreamInv(pushed: seq<seq<Byte>>, buffer: seq<Byte>, received: seq<Byte>,
                            count: nat, stale: nat, maxBatch: int)
  {
    && Flatten(pushed) + buffer == received
    && count == CountNewlines(buffer) + stale
    && count < CountBound(maxBatch)
  }

  /** Cutting a buffer after its last newline leaves no newline behind it. */
  lemma SplitAtLastNewline(buf: seq<Byte>)
    ensures var k := LastNewlineIndex(buf);
      && buf[..k + 1] + buf[k + 1..] == buf
      && NL !in buf[k + 1..]
      && CountNewlines(buf) == CountNewlines(buf[..k + 1]) + CountNewlines(buf[k + 1..])
      && (k == -1 || buf[..k + 1][k] == NL)
  {
    var k := LastNewlineIndex(buf);
    CutCounts(buf, k + 1);
    NoNewlineAfter(buf, k);
    if k >= 0 {
      assert buf[..k + 1][k] == buf[k];
    }
  }

  /** A cut keeps every byte and every newline. */
  lemma CutCounts(buf: seq<Byte>, n: nat)
    requires n <= |buf|
    ensures buf[..n] + buf[n..] == buf
    ensures CountNewlines(buf) == CountNewlines(buf[..n]) + CountNewlines(buf[n..])
  {
    assert buf[..n] + buf[n..] == buf;
    CountNewlinesAppend(buf[..n], buf[n..]);
  }

  lemma NoNewlineAfter(buf: seq<Byte>, k: int)
    requires -1 <= k < |buf| && forall j :: k < j < |buf| ==> buf[j] != NL
    ensures NL !in buf[k + 1..]
  {
    var rest := buf[k + 1..];
    forall j | 0 <= j < |rest|
      ensures rest[j] != NL
    {
      assert rest[j] == buf[k + 1 + j];
    }
  }

  /** New batches and buffer that account for old buffer and chunk extend what was received by the chunk. */
  lemma AppendBatches(before: seq<seq<Byte>>, after: seq<seq<Byte>>, buf: seq<Byte>, oldBuf: seq<Byte>, chunk: seq<Byte>)
    requires Flatten(after) + buf == oldBuf + chunk
    ensures Flatten(before + after) + buf == (Flatten(before) + oldBuf) + chunk
  {
    FlattenAppend(before, after);
    assert Flatten(before) + Flatten(after) + buf == Flatten(before) + (Flatten(after) + buf);
    assert Flatten(before) + (oldBuf + chunk) == (Flatten(before) + oldBuf) + chunk;
  }

  /** Pushing a prefix of the buffer and keeping the rest leaves the received bytes as they were. */
  lemma PushPrefix(pushed: seq<seq<Byte>>, buffer: seq<Byte>, k: int)
    requires -1 <= k < |buffer|
    ensures Flatten(pushed + [buffer[..k + 1]]) + buffer[k + 1..] == Flatten(pushed) + buffer
  {
    var batch, rest := buffer[..k + 1], buffer[k + 1..];
    FlattenSnoc(pushed, batch);
    assert batch + rest == buffer;
    assert Flatten(pushed) + batch + rest == Flatten(pushed) + (batch + rest);
  }

  /** The timeout flush keeps the stream's state consistent, moving its flushed newlines to `stale`. */
  lemma TimeoutStep(pushed: seq<seq<Byte>>, buffer: seq<Byte>, received: seq<Byte>,
                    count: nat, stale: nat, maxBatch: int)
    requires StreamInv(pushed, buffer, received, count, stale, maxBatch)
    ensures var k := LastNewlineIndex(buffer); var batch := buffer[..k + 1];
      StreamInv(pushed + [batch], buffer[k + 1..], received, count, stale + CountNewlines(batch), maxBatch)
  {
    var k := LastNewlineIndex(buffer);
    SplitAtLastNewline(buffer);
    PushPrefix(pushed, buffer, k);
  }

  /**
   * Batches of exactly `m` newlines each, followed by fewer than `m` newlines,
   * split the input in only one way: so many batches as `m` divides into the
   * input's newlines, and the rest kept back. With 25 lines and a batch size of
   * 20, one batch goes out and 5 lines wait for the timeout.
   */
  lemma {:induction false} BatchesDetermined(batches: seq<seq<Byte>>, rest: seq<Byte>, m: int)
    requires m >= 1
    requires forall k :: 0 <= k < |batches| ==> CountNewlines(batches[k]) == m
    requires CountNewlines(rest) < m
    ensures |batches| == CountNewlines(Flatten(batches) + rest) / m
    ensures CountNewlines(rest) == CountNewlines(Flatten(batches) + rest) % m
  {
    CountNewlinesAppend(Flatten(batches), rest);
    BatchNewlines(batches, m);
    DivMod(|batches|, CountNewlines(rest), m);
  }

  /** Batches of `m` newlines each hold `m` newlines per batch between them. */
  lemma {:induction false} BatchNewlines(batches: seq<seq<Byte>>, m: int)
    requires forall k :: 0 <= k < |batches| ==> CountNewlines(batches[k]) == m
    ensures CountNewlines(Flatten(batches)) == |batches| * m
    decreases |batches|
  {
    if batches != [] {
      var init := batches[..|batches| - 1];
      assert forall k :: 0 <= k < |init| ==> init[k] == batches[k];
      BatchNewlines(init, m);
      CountNewlinesAppend(Flatten(init), batches[|batches| - 1]);
      assert Flatten(batches) == Flatten(init) + batches[|batches| - 1];
      MulSucc(|init|, m);
    }
  }

  lemma MulSucc(a: int, m: int)
    ensures (a + 1) * m == a * m + m
  {
  }

  lemma MulAtLeast(k: int, m: int)
    requires k >= 1 && m >= 1
    ensures k * m >= m
  {
  }

  /** Euclidean division has one quotient and one remainder. */
  lemma DivMod(q: nat, r: nat, m: int)
    requires 0 <= r < m
    ensures (q * m + r) / m == q && (q * m + r) % m == r
  {
    var x := q * m + r;
    var q', r' := x / m, x % m;
    assert q' * m + r' == x;
    assert (q - q') * m == r' - r;
    assert (q' - q) * m == r - r';
    if q > q' {
      MulAtLeast(q - q', m);
    } else if q < q' {
      MulAtLeast(q' - q, m);
    }
  }

  /** The timer a handle still holds, if any: what overwriting the handle leaves pending. */
  function Pending(timer: Option<int>): (r: seq<int>)
    ensures |r| <= 1 && forall d :: d in r <==> timer == Some(d)
  {
    if timer.Some? then [timer.value] else []
  }

  /**
   * The daemon. `clients` is the session map; `timer` is the delay of the
   * idle-shutdown timer held in `loggings_timeout`, or `None` once cleared or
   * fired; `orphaned` holds the delays of the timers still pending whose handle
   * `server_timeout` overwrote, which no `clearTimeout` reaches any more;
   * `closed` records that `server_cleanup` has run; `events` is what the daemon
   * has done to sockets, the server and the socket file, in order.
   */
  class Loggings {
    const batchMaxSize: int
    const batchTimeoutMs: int
    const loggingsTimeoutMs: int
    const stream: BatchStream
    var clients: map<Id, Socket>
    var timer: Option<int>
    var orphaned: seq<int>
    var closed: bool
    var events: seq<Event>

    /**
     * The idle discipline: while the daemon is open, the shutdown timer it
     * holds is armed exactly when no client is connected.
     */
    ghost predicate Valid()
      reads this, stream
    {
      && Wellformed()
      && (clients != map[] ==> timer == None)
      && (clients == map[] && !closed ==> timer.Some?)
    }

    /** The stream and the constants as the constructor set them up. */
    ghost predicate Wellformed()
      reads this, stream
    {
      && stream.Valid() && stream.maxBatch == batchMaxSize
      && loggingsTimeoutMs == IdleWindow(batchTimeoutMs)
    }

    /** The constructor: an empty session map and the idle timer armed once with the idle window. */
    constructor (batchMaxSize: int := 20, batchTimeoutMs: int := 100)
      ensures Valid() && fresh(stream)
      ensures this.batchMaxSize == batchMaxSize && this.batchTimeoutMs == batchTimeoutMs
      ensures loggingsTimeoutMs == IdleWindow(batchTimeoutMs)
      ensures clients == map[] && timer == Some(loggingsTimeoutMs) && orphaned == [] && !closed && events == []
      ensures stream.buffer == [] && stream.pushed == [] && stream.received == []
    {
      this.batchMaxSize := batchMaxSize;
      this.batchTimeoutMs := batchTimeoutMs;
      loggingsTimeoutMs := IdleWindow(batchTimeoutMs);
      stream := new BatchStream(batchMaxSize);
      clients := map[];
      closed := false;
      events := [];
      orphaned := [];
      timer := Some(IdleWindow(batchTimeoutMs));
    }

    /**
     * `server_timeout(delay)`: arms a new idle timer with `delay` and holds its
     * handle. A timer still pending under the old handle is not cleared: it
     * becomes an orphan and fires all the same.
     */
    method ServerTimeout(delay: int)
      modifies this
      ensures timer == Some(delay)
      ensures orphaned == old(orphaned) + Pending(old(timer))
      ensures clients == old(clients) && closed == old(closed) && events == old(events)
    {
      orphaned := orphaned + Pending(timer);
      timer := Some(delay);
    }

    /** `server_conn`: clears the idle timer, registers the connection and acknowledges it. */
    method ServerConn(id: Id, client: Socket)
      requires Valid() && !closed
      modifies this
      ensures Valid()
      ensures timer == None
      ensures clients == old(clients)[id := client]
      ensures events == old(events) + [Ack(id)]
      ensures closed == old(closed) && orphaned == old(orphaned)
    {
      timer := None;
      clients := clients[id := client];
      assert id in clients;
      events := events + [Ack(id)];
    }

    /**
     * The `data` handler: the chunk goes into the batching stream. Once
     * `server_cleanup` has ended the stream, the write fails with an `error`
     * event and the stream takes nothing.
     */
    method ClientData(data: seq<Byte>)
      requires Valid()
      modifies this, stream
      ensures Valid()
      ensures !closed ==> stream.received == old(stream.received) + data && events == old(events)
      ensures !closed ==> && |old(stream.pushed)| <= |stream.pushed| && stream.pushed[..|old(stream.pushed)|] == old(stream.pushed)
                          && Flatten(stream.pushed[|old(stream.pushed)|..]) + stream.buffer == old(stream.buffer) + data
                          && Batched(stream.maxBatch, old(stream.stale), stream.pushed[|old(stream.pushed)|..])
      ensures closed ==> && stream.received == old(stream.received) && stream.pushed == old(stream.pushed)
                         && stream.buffer == old(stream.buffer) && events == old(events) + [WriteAfterEnd]
      ensures clients == old(clients) && timer == old(timer) && orphaned == old(orphaned) && closed == old(closed)
    {
      if closed {
        events := events + [WriteAfterEnd];
      } else {
        stream.Transform(data);
      }
    }

    /** `client_error(uuid)`: forgets that one connection; the last one leaving re-arms the idle window. */
    method ClientError(id: Id)
      requires Valid()
      modifies this
      ensures Valid()
      ensures clients == old(clients) - {id}
      ensures clients == map[] ==> timer == Some(loggingsTimeoutMs) && orphaned == old(orphaned) + Pending(old(timer))
      ensures clients != map[] ==> timer == old(timer) && orphaned == old(orphaned)
      ensures old(clients) == map[] && !closed ==> |orphaned| == |old(orphaned)| + 1
      ensures events == old(events) && closed == old(closed)
    {
      clients := clients - {id};
      if |clients| == 0 {
        ServerTimeout(loggingsTimeoutMs);
      }
    }

    /** `client_end(uuid)`: as `client_error`, but re-arms with the literal 2000 ms. */
    method ClientEnd(id: Id)
      requires Valid()
      modifies this
      ensures Valid()
      ensures clients == old(clients) - {id}
      ensures clients == map[] ==> timer == Some(2000) && orphaned == old(orphaned) + Pending(old(timer))
      ensures clients != map[] ==> timer == old(timer) && orphaned == old(orphaned)
      ensures old(clients) == map[] && !closed ==> |orphaned| == |old(orphaned)| + 1
      ensures events == old(events) && closed == old(closed)
    {
      clients := clients - {id};
      if |clients| == 0 {
        ServerTimeout(2000);
      }
    }

    /**
     * `server_cleanup`: closes the server, ends the log stream, ends and
     * forgets every client, and removes the socket file when it exists.
     * `ended` lists the clients in the order their sockets were ended.
     */
    method ServerCleanup(socketFileExists: bool) returns (ended: seq<Id>)
      requires Wellformed()
      modifies this
      ensures Valid() && closed
      ensures clients == map[] && timer == old(timer) && orphaned == old(orphaned)
      ensures |ended| == |old(clients)| && (forall k :: 0 <= k < |ended| ==> ended[k] in old(clients))
      ensures forall j, k :: 0 <= j < k < |ended| ==> ended[j] != ended[k]
      ensures events == old(events) + [CloseServer, EndLogStream] + EndEvents(ended)
        + (if socketFileExists then [UnlinkSocketFile] else [])
    {
      events := events + [CloseServer, EndLogStream];
      ended := DrainClients(clients);
      events := events + EndEvents(ended);
      clients := map[];
      if socketFileExists {
        events := events + [UnlinkSocketFile];
      }
      closed := true;
    }

    /** The idle timer the daemon holds fires: `server_cleanup` runs. */
    method TimerFires(socketFileExists: bool) returns (ended: seq<Id>)
      requires Valid() && timer.Some?
      modifies this
      ensures Valid() && closed && clients == map[] && timer == None && orphaned == old(orphaned)
      ensures old(clients) == map[] && ended == []
      ensures events == old(events) + [CloseServer, EndLogStream]
        + (if socketFileExists then [UnlinkSocketFile] else [])
    {
      timer := None;
      ended := ServerCleanup(socketFileExists);
    }

    /**
     * An orphaned timer fires: `server_cleanup` runs whatever clients are
     * connected, and ends every one of them.
     */
    method OrphanFires(k: nat, socketFileExists: bool) returns (ended: seq<Id>)
      requires Wellformed() && k < |orphaned|
      modifies this
      ensures Valid() && closed && clients == map[] && timer == old(timer)
      ensures orphaned == old(orphaned[..k] + orphaned[k + 1..])
      ensures |ended| == |old(clients)| && (forall j :: 0 <= j < |ended| ==> ended[j] in old(clients))
      ensures forall i, j :: 0 <= i < j < |ended| ==> ended[i] != ended[j]
      ensures events == old(events) + [CloseServer, EndLogStream] + EndEvents(ended)
        + (if socketFileExists then [UnlinkSocketFile] else [])
    {
      orphaned := orphaned[..k] + orphaned[k + 1..];
      ended := ServerCleanup(socketFileExists);
    }

    /** The `SIGINT` handler: clears the idle timer it holds, then `server_cleanup`. */
    method Interrupt(socketFileExists: bool) returns (ended: seq<Id>)
      requires Valid()
      modifies this
      ensures Valid() && closed && clients == map[] && timer == None && orphaned == old(orphaned)
      ensures |ended| == |old(clients)| && (forall k :: 0 <= k < |ended| ==> ended[k] in old(clients))
      ensures forall j, k :: 0 <= j < k < |ended| ==> ended[j] != ended[k]
      ensures events == old(events) + [CloseServer, EndLogStream] + EndEvents(ended)
        + (if socketFileExists then [UnlinkSocketFile] else [])
    {
      timer := None;
      ended := ServerCleanup(socketFileExists);
    }
  }

  /**
   * One connection that runs both `client_error` and `client_end`, then a
   * second connection: the first re-arm's timer is orphaned, `server_conn`
   * cannot clear it, and when it fires it ends the second client.
   */
  method DoubleRearm(a: Id, b: Id, s: Socket) returns (ended: seq<Id>)
    ensures ended == [b]
  {
    var d := new Loggings();
    d.ServerConn(a, s);
    assert d.clients == map[a := s] && d.orphaned == [];
    d.ClientError(a);
    assert d.clients == map[] && d.timer.Some? && d.orphaned == [];
    d.ClientEnd(a);
    assert |d.orphaned| == 1;
    d.ServerConn(b, s);
    assert d.clients == map[b := s] && |d.clients| == 1;
    ended := d.OrphanFires(0, false);
  }
}
