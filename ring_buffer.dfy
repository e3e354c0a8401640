/** The fixed-capacity circular queue of src/buffer/ring-buffer.ts. */
module RingBuffers {
  import opened Wrappers

  /** `k` reduced modulo `n`, for the range the cursors of a ring buffer can reach. */
  function Wrap(k: nat, n: nat): (r: nat)
    requires 0 < n && k < 2 * n
    ensures r < n
    ensures k < n ==> r == k
    ensures n <= k ==> r + n == k
  {
    if k < n then k else k - n
  }

  /** The source's `(cursor + 1) % size` is the next slot round the ring. */
  lemma NextSlot(k: nat, n: nat)
    requires k < n
    ensures (k + 1) % n == Wrap(k + 1, n)
  {
    if k + 1 == n {
      assert (k + 1) % n == 0;
    }
  }

  /**
   * The layout of a ring buffer's slots: `items` sit oldest first from slot
   * `head` on, wrapping round the end of the array, `tail` is the slot after the
   * newest item, and every other slot is empty.
   */
  ghost predicate Layout<T>(slots: seq<Option<T>>, head: nat, tail: nat, items: seq<T>)
  {
    var n := |slots|;
    && 0 < n && head < n && tail < n && |items| <= n
    && tail == Wrap(head + |items|, n)
    && (forall i :: 0 <= i < |items| ==> slots[Wrap(head + i, n)] == Some(items[i]))
    && (forall j :: 0 <= j < n && Wrap(j + n - head, n) >= |items| ==> slots[j] == None)
  }

  lemma LayoutEmpty<T>(slots: seq<Option<T>>)
    requires 0 < |slots| && forall j :: 0 <= j < |slots| ==> slots[j] == None
    ensures Layout(slots, 0, 0, [])
  {
  }

  /** Writing into the free slot at `tail` appends an item. */
  lemma LayoutPush<T>(slots: seq<Option<T>>, head: nat, tail: nat, items: seq<T>, x: T)
    requires Layout(slots, head, tail, items) && |items| < |slots|
    ensures Layout(slots[tail := Some(x)], head, Wrap(tail + 1, |slots|), items + [x])
  {
    var n, s', items' := |slots|, slots[tail := Some(x)], items + [x];
    forall i | 0 <= i < |items'|
      ensures s'[Wrap(head + i, n)] == Some(items'[i])
    {
      if i < |items| {
        assert Wrap(head + i, n) != tail;
      }
    }
    forall j | 0 <= j < n && Wrap(j + n - head, n) >= |items'|
      ensures s'[j] == None
    {
      assert j != tail;
    }
  }

  /** On a full buffer, writing at `tail` (which is `head`) and moving `head` on replaces the oldest item. */
  lemma LayoutOverwrite<T>(slots: seq<Option<T>>, head: nat, tail: nat, items: seq<T>, x: T)
    requires Layout(slots, head, tail, items) && |items| == |slots|
    ensures Layout(slots[tail := Some(x)], Wrap(head + 1, |slots|), Wrap(tail + 1, |slots|), items[1..] + [x])
  {
    var n, s', h', items' := |slots|, slots[tail := Some(x)], Wrap(head + 1, |slots|), items[1..] + [x];
    assert tail == head;
    forall i | 0 <= i < |items'|
      ensures s'[Wrap(h' + i, n)] == Some(items'[i])
    {
      if i < n - 1 {
        assert Wrap(h' + i, n) == Wrap(head + (i + 1), n);
        assert Wrap(h' + i, n) != tail;
        assert items'[i] == items[i + 1];
      } else {
        assert Wrap(h' + i, n) == tail;
      }
    }
  }

  /** Emptying the slot at `head` and moving `head` on removes the oldest item. */
  lemma LayoutPop<T>(slots: seq<Option<T>>, head: nat, tail: nat, items: seq<T>)
    requires Layout(slots, head, tail, items) && 0 < |items|
    ensures Layout(slots[head := None], Wrap(head + 1, |slots|), tail, items[1..])
  {
    var n, s', h', items' := |slots|, slots[head := None], Wrap(head + 1, |slots|), items[1..];
    forall i | 0 <= i < |items'|
      ensures s'[Wrap(h' + i, n)] == Some(items'[i])
    {
      assert Wrap(h' + i, n) == Wrap(head + (i + 1), n);
      assert Wrap(h' + i, n) != head;
    }
    forall j | 0 <= j < n && Wrap(j + n - h', n) >= |items'|
      ensures s'[j] == None
    {
      if j != head {
        assert Wrap(j + n - head, n) >= |items|;
      }
    }
  }

  /** An empty buffer has every slot free, so its cursors can go back to slot 0. */
  lemma LayoutReset<T>(slots: seq<Option<T>>, head: nat, tail: nat)
    requires Layout(slots, head, tail, [])
    ensures Layout(slots, 0, 0, [])
  {
    forall j | 0 <= j < |slots|
      ensures slots[j] == None
    {
      assert Wrap(j + |slots| - head, |slots|) >= 0;
    }
  }

  /** The slot at `head` holds the oldest item. */
  lemma LayoutFront<T>(slots: seq<Option<T>>, head: nat, tail: nat, items: seq<T>)
    requires Layout(slots, head, tail, items) && 0 < |items|
    ensures slots[head] == Some(items[0])
  {
    assert Wrap(head + 0, |slots|) == head;
  }

  /** `enqueue` on the slots: a push into a free slot, or an overwrite of the oldest item when full. */
  lemma LayoutEnqueue<T>(slots: seq<Option<T>>, head: nat, tail: nat, items: seq<T>, x: T,
                         slots': seq<Option<T>>, head': nat, tail': nat, items': seq<T>)
    requires Layout(slots, head, tail, items)
    requires slots' == slots[tail := Some(x)] && tail' == Wrap(tail + 1, |slots|)
    requires |items| < |slots| ==> head' == head && items' == items + [x]
    requires |items| == |slots| ==> head' == Wrap(head + 1, |slots|) && items' == items[1..] + [x]
    ensures Layout(slots', head', tail', items')
  {
    if |items| < |slots| {
      LayoutPush(slots, head, tail, items, x);
    } else {
      LayoutOverwrite(slots, head, tail, items, x);
    }
  }

  /** `LayoutPop`, for a given new state. */
  lemma LayoutPopTo<T>(slots: seq<Option<T>>, head: nat, tail: nat, items: seq<T>, slots': seq<Option<T>>, head': nat)
    requires Layout(slots, head, tail, items) && 0 < |items|
    requires slots' == slots[head := None] && head' == Wrap(head + 1, |slots|)
    ensures Layout(slots', head', tail, items[1..])
  {
    LayoutPop(slots, head, tail, items);
  }

  /** `dequeue` on the slots: the oldest item leaves, and an emptied buffer goes back to slot 0. */
  lemma LayoutDequeue<T>(slots: seq<Option<T>>, head: nat, tail: nat, items: seq<T>,
                         slots': seq<Option<T>>, head': nat, tail': nat)
    requires Layout(slots, head, tail, items) && 0 < |items|
    requires slots' == slots[head := None]
    requires |items| == 1 ==> head' == 0 && tail' == 0
    requires |items| > 1 ==> head' == Wrap(head + 1, |slots|) && tail' == tail
    ensures Layout(slots', head', tail', items[1..])
  {
    LayoutPop(slots, head, tail, items);
    if |items| == 1 {
      LayoutReset(slots', Wrap(head + 1, |slots|), tail);
    }
  }

  /** Moving the front of `rest` to the end of `done` keeps their concatenation. */
  lemma MoveFront<T>(done: seq<T>, rest: seq<T>)
    requires rest != []
    ensures done + rest == (done + [rest[0]]) + rest[1..]
  {
    assert rest == [rest[0]] + rest[1..];
  }

  /**
   * A circular queue over an array of `size` slots. `head` is the slot of the
   * oldest item, `tail` the first free slot and `count` the number of items; an
   * empty slot holds `None` (JavaScript's `undefined`). The ghost field `Contents`
   * is the abstract queue, oldest item first.
   */
  class RingBuffer<T> {
    ghost var Contents: seq<T>

    const size: nat
    const buffer: array<Option<T>>
    var head: nat
    var tail: nat
    var count: nat

    /** The object invariant: the slots hold `Contents`, and an empty buffer has both cursors at 0. */
    ghost predicate Valid()
      reads this, buffer
    {
      && buffer.Length == size
      && Layout(buffer[..], head, tail, Contents)
      && count == |Contents|
      && (count == 0 ==> head == 0 && tail == 0)
    }

    /** Builds an empty buffer; the source's constructor, for a size it accepts. */
    constructor Init(size: nat)
      requires 0 < size
      ensures Valid() && fresh(buffer)
      ensures this.size == size && Contents == []
    {
      this.size := size;
      buffer := new Option<T>[size](_ => None);
      head, tail, count := 0, 0, 0;
      Contents := [];
    }

    /** `new RingBuffer(size)`: throws for `size <= 0`, otherwise an empty buffer of that capacity. */
    static method Create(size: int) returns (r: Result<RingBuffer<T>, string>)
      ensures r.Failure? <==> size <= 0
      ensures r.Success? ==> fresh(r.value) && fresh(r.value.buffer) && r.value.Valid()
      ensures r.Success? ==> r.value.size == size && r.value.Contents == []
    {
      if size <= 0 {
        return Failure("RingBuffer(size) must be greater than zero.");
      }
      var b := new RingBuffer<T>.Init(size);
      return Success(b);
    }

    /** The `count` getter: the number of items held. */
    function Count(): (c: nat)
      requires Valid()
      reads this, buffer
      ensures c == |Contents| && c <= size
    {
      count
    }

    /** The `is_full` getter: holds exactly when the buffer holds `size` items. */
    function IsFull(): (full: bool)
      requires Valid()
      reads this, buffer
      ensures full <==> |Contents| == size
    {
      count == size
    }

    /** `peek`: the oldest item, or `undefined` when the buffer is empty. */
    function Peek(): (r: Option<T>)
      requires Valid()
      reads this, buffer
      ensures r == if Contents == [] then None else Some(Contents[0])
    {
      if count == 0 then None else buffer[head]
    }

    /**
     * `enqueue`: appends `data`. On a full buffer the oldest item is dropped
     * first and `false` reports that an item was overwritten.
     */
    method Enqueue(data: T) returns (safe: bool)
      requires Valid()
      modifies this, buffer
      ensures Valid()
      ensures safe <==> old(|Contents|) < size
      ensures Contents == if safe then old(Contents) + [data] else old(Contents)[1..] + [data]
    {
      ghost var slots, h0, t0, items := buffer[..], head, tail, Contents;
      safe := true;
      if count == size {
        NextSlot(head, size);
        head := (head + 1) % size;
        safe := false;
      }
      buffer[tail] := Some(data);
      assert buffer[..] == slots[t0 := Some(data)];
      NextSlot(tail, size);
      tail := (tail + 1) % size;
      if count < size {
        count := count + 1;
      }
      if safe {
        Contents := items + [data];
      } else {
        Contents := items[1..] + [data];
      }
      LayoutEnqueue(slots, h0, t0, items, data, buffer[..], head, tail, Contents);
    }

    /**
     * `dequeue`: removes and returns the oldest item. An empty buffer yields
     * `undefined` and is left as it was. When the last item leaves, both
     * cursors go back to slot 0.
     */
    method Dequeue() returns (r: Option<T>)
      requires Valid()
      modifies this, buffer
      ensures Valid()
      ensures old(Contents) == [] ==> r == None && Contents == [] && head == old(head) && tail == old(tail)
      ensures old(Contents) == [] ==> buffer[..] == old(buffer[..])
      ensures old(Contents) != [] ==> r == Some(old(Contents)[0]) && Contents == old(Contents)[1..]
      ensures Contents == [] ==> head == 0 && tail == 0
    {
      if count == 0 {
        return None;
      }
      ghost var slots, h0, t0, items := buffer[..], head, tail, Contents;
      LayoutFront(slots, head, tail, Contents);
      r := buffer[head];
      buffer[head] := None;
      NextSlot(head, size);
      head := (head + 1) % size;
      count := count - 1;
      Contents := Contents[1..];
      if count == 0 {
        head := 0;
        tail := 0;
      }
      assert buffer[..] == slots[h0 := None];
      LayoutDequeue(slots, h0, t0, items, buffer[..], head, tail);
    }

    /** `[Symbol.iterator]`: the items oldest first, leaving the buffer untouched. */
    method Items() returns (items: seq<T>)
      requires Valid()
      ensures items == Contents
    {
      items := [];
      if count == 0 {
        return;
      }
      var cur := head;
      var remaining := count;
      while remaining > 0
        invariant 0 <= remaining <= count
        invariant cur == Wrap(head + (count - remaining), size)
        invariant items == Contents[..count - remaining]
      {
        assert buffer[..][cur] == Some(Contents[count - remaining]);
        var data := buffer[cur];
        items := items + [data.value];
        NextSlot(cur, size);
        cur := (cur + 1) % size;
        remaining := remaining - 1;
      }
    }

    /**
     * `flush`, drained to the end: yields every item oldest first and empties the
     * buffer. `counts[k]` is the `count` a consumer sees while it holds the `k`-th
     * item, since the source decrements only after the `yield` returns.
     */
    method Flush() returns (items: seq<T>, counts: seq<nat>)
      requires Valid()
      modifies this, buffer
      ensures Valid()
      ensures items == old(Contents) && Contents == []
      ensures head == 0 && tail == 0
      ensures |counts| == |items|
      ensures forall k :: 0 <= k < |counts| ==> counts[k] == |items| - k
    {
      items, counts := [], [];
      if count == 0 {
        return;
      }
      ghost var all, n := Contents, count;
      while count > 0
        invariant buffer.Length == size
        invariant Layout(buffer[..], head, tail, Contents) && count == |Contents|
        invariant |items| + count == n && |counts| == |items|
        invariant all == items + Contents
        invariant forall k :: 0 <= k < |counts| ==> counts[k] == n - k
      {
        ghost var slots, h0, t0, rest := buffer[..], head, tail, Contents;
        LayoutFront(slots, head, tail, Contents);
        var data := buffer[head];
        buffer[head] := None;
        NextSlot(head, size);
        head := (head + 1) % size;
        MoveFront(items, rest);
        items, counts := items + [data.value], counts + [count];
        count := count - 1;
        Contents := Contents[1..];
        assert buffer[..] == slots[h0 := None];
        LayoutPopTo(slots, h0, t0, rest, buffer[..], head);
      }
      assert items + [] == items;
      LayoutReset(buffer[..], head, tail);
      head := 0;
      tail := 0;
    }
  }
}
