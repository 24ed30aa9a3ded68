/** The split virtqueue of the driver, against a device that may rewrite the shared
    descriptor table and the used ring at any time. */
module VirtQueues {
  import opened Words
  import opened Slots
  import opened QueueState
  import opened QueueHistory
  import Bitmap

  datatype VirtioError =
    | InvalidParameter
    | BufferTooSmall
    | InvalidDescriptor
    | NotReady
    | Transport

  datatype UsedElem = UsedElem(id: u32, len: u32)

  /** The used ring as the driver happens to read it. The driver reads each location
      once per call, so an arbitrary value covers every device write in between. */
  datatype UsedRing = UsedRing(idx: u16, ring: seq<UsedElem>)

  predicate WellSized(used: UsedRing) {
    |used.ring| == MAX_QUEUE_SIZE
  }

  /** The fields `add_descriptor` works on, and the slot it wrote last. */
  datatype Cursor = Cursor(shadow: seq<Descriptor>, desc: seq<Descriptor>, freeHead: u16, inUse: u32, last: u16)

  /** Where `add` stands after `k` descriptors. */
  ghost predicate Reached(c: Cursor, v: View, desc: seq<Descriptor>, bufs: seq<Buf>, readable: nat, k: nat) {
    && c.shadow == Filled(v.shadow, v.free, bufs, readable, k)
    && c.desc == Filled(desc, v.free, bufs, readable, k)
    && c.inUse == Taken(v.inUse, v.free, k)
    && c.freeHead == NextFree(v, k)
    && (0 < k <= |v.free| ==> c.last == v.free[k - 1])
  }

  /** One of the two loops of `add`: `add_descriptor` for each buffer from `k0` to `k1`,
      on the fields it changes. It never finds its index out of range. */
  method AddDescriptors(bufs: seq<Buf>, ghost readable: nat, k0: nat, k1: nat, flags: Flags, cursor0: Cursor,
                        ghost v: View, ghost desc: seq<Descriptor>)
    returns (cursor: Cursor)
    requires |v.shadow| == MAX_QUEUE_SIZE && |desc| == |v.loc| <= MAX_QUEUE_SIZE
    requires FreeSlots(v.free, v.loc) && Threaded(v)
    requires k0 <= k1 <= |bufs| <= |v.free|
    requires flags.next && (k0 < k1 ==> if flags.write then readable <= k0 else k1 <= readable)
    requires Reached(cursor0, v, desc, bufs, readable, k0)
    ensures Reached(cursor, v, desc, bufs, readable, k1)
  {
    cursor := cursor0;
    for k := k0 to k1
      invariant Reached(cursor, v, desc, bufs, readable, k)
    {
      NextFreeIsFree(v, k);
      assert v.loc[v.free[k]] == Free(k);
      FilledElsewhere(v.shadow, v.free, bufs, readable, v.loc, k, v.free[k]);
      var index := cursor.freeHead;
      if index >= |cursor.desc| {
        assert false;
      } else {
        cursor := Cursor(Programmed(cursor.shadow, index, bufs[k], flags),
                         Programmed(cursor.desc, index, bufs[k], flags),
                         cursor.shadow[index].next,
                         Bitmap.Set(cursor.inUse, index),
                         index);
      }
    }
  }

  /** What `add` needs to know about a view it may post to. */
  lemma OfferFacts(v: View, p: Posting)
    requires Consistent(v) && 0 < |p.Bufs()| <= |v.free|
    ensures v.freeHead == v.free[0] < |v.loc| && v.free[0] !in v.chains
    ensures FreeSlots(v.free, v.loc) && Threaded(v) && |v.shadow| == MAX_QUEUE_SIZE
    ensures 0 < |v.loc| <= MAX_QUEUE_SIZE && v.numUsed + |v.free| == |v.loc| && v.posted.Keys == v.chains.Keys
    ensures Consistent(Posted(v, p))
  {
    PostedIsConsistent(v, p);
    TakeKeepsPartition(v.free, v.chains, v.loc, |p.Bufs()|);
  }

  lemma LogAdd(log: seq<Event>, h: nat, p: Posting)
    requires Legal(log) && h !in Outstanding(log)
    ensures Legal(log + [Added(h, p)])
    ensures Outstanding(log + [Added(h, p)]) == Outstanding(log)[h := p]
  {
  }

  lemma WrappingCounts(n: nat)
    ensures WrappingInc16(n % TWO_16) == (n + 1) % TWO_16
  {
  }

  lemma LogReturn(log: seq<Event>, h: nat, p: Posting, len: u32)
    requires Legal(log) && h in Outstanding(log) && Outstanding(log)[h] == p
    requires len <= SaturatedLength(p.Bufs())
    ensures Legal(log + [Returned(h, p, len)])
    ensures Outstanding(log + [Returned(h, p, len)]) == Outstanding(log) - {h}
  {
  }

  /** The fields `recycle_descriptors` works on, and the buffers it has collected. */
  datatype Reap = Reap(numUsed: u16, inUse: u32, isHead: u32, len: u32, g2h: seq<Buf>, h2g: seq<Buf>)

  /** Where `recycle_descriptors` stands after `k` slots of chain `head`. */
  ghost predicate Reaped(r: Reap, r0: Reap, v: View, head: nat, k: nat)
    requires head in v.chains && head in v.posted && k <= |v.posted[head].Bufs()|
  {
    var c, p := v.chains[head], v.posted[head];
    && r.numUsed == v.numUsed - k
    && r.inUse == Cleared(v.inUse, c, k)
    && r.isHead == Cleared(v.isHead, c, k)
    && r.len == SaturatedLength(p.Bufs()[..k])
    && r.g2h == r0.g2h + FirstG2h(p, k)
    && r.h2g == r0.h2g + FirstH2g(p, k)
  }

  /** One more slot of the chain. */
  lemma ReapStep(v: View, head: nat, k: nat)
    requires Consistent(v) && head in v.chains && k < |v.chains[head]|
    ensures head in v.posted && |v.chains[head]| == |v.posted[head].Bufs()|
    ensures v.chains[head][k] < |v.loc| && k < v.numUsed && (k + 1 < |v.chains[head]| ==> k + 1 < v.numUsed)
    ensures Bitmap.Has(Cleared(v.inUse, v.chains[head], k), v.chains[head][k])
    ensures HoldsAt(v.chains[head][k], v.posted[head].Bufs()[k], k, |v.chains[head]|, |v.posted[head].g2h|, v.shadow)
    ensures k + 1 < |v.chains[head]| ==> v.shadow[v.chains[head][k]].next == v.chains[head][k + 1]
  {
    var c := v.chains[head];
    assert ChainSlots(head, c, v.loc) && RecordedAt(v, head);
    ChainFits(v.free, v.chains, v.loc, head);
    assert v.loc[c[k]] == InChain(head, k);
    InChainPrefix(v, head, k, c[k]);
    ClearedBits(v.inUse, c, k);
    assert k + 1 < |c| ==> Follows(c, k + 1, v.shadow);
  }

  /** The first `k` buffers of a posting, by direction. */
  ghost function FirstG2h(p: Posting, k: nat): seq<Buf> {
    if k <= |p.g2h| then p.g2h[..k] else p.g2h
  }

  ghost function FirstH2g(p: Posting, k: nat): seq<Buf> {
    if k <= |p.g2h| then [] else if k <= |p.Bufs()| then p.h2g[..k - |p.g2h|] else p.h2g
  }

  /** Collecting the buffer at position `k` extends the right one of the two lists. */
  lemma CollectStep(p: Posting, k: nat)
    requires k < |p.Bufs()|
    ensures SaturatedLength(p.Bufs()[..k + 1]) == SaturatingAdd32(SaturatedLength(p.Bufs()[..k]), p.Bufs()[k].len)
    ensures k < |p.g2h| ==> FirstG2h(p, k + 1) == FirstG2h(p, k) + [p.Bufs()[k]] && FirstH2g(p, k + 1) == FirstH2g(p, k)
    ensures k >= |p.g2h| ==> FirstG2h(p, k + 1) == FirstG2h(p, k)
                             && FirstH2g(p, k + 1) == FirstH2g(p, k) + [p.Bufs()[k]]
  {
    assert p.Bufs()[..k + 1][..k] == p.Bufs()[..k];
  }

  lemma AppendOne(a: seq<Buf>, b: seq<Buf>, x: Buf)
    ensures (a + b) + [x] == a + (b + [x])
  {
  }

  /** What one turn of the loop of `recycle_descriptors` does with slot `index`. */
  function Collect(r: Reap, index: nat, d: Descriptor): Reap
    requires 0 < r.numUsed && index < MAX_QUEUE_SIZE
  {
    Reap(r.numUsed - 1, Bitmap.Clear(r.inUse, index), Bitmap.Clear(r.isHead, index),
         SaturatingAdd32(r.len, d.len),
         if d.flags.write then r.g2h else r.g2h + [Buf(d.addr, d.len)],
         if d.flags.write then r.h2g + [Buf(d.addr, d.len)] else r.h2g)
  }

  lemma CollectKeepsReaped(r: Reap, r0: Reap, v: View, head: nat, k: nat)
    requires head in v.chains && head in v.posted && k < |v.chains[head]| == |v.posted[head].Bufs()|
    requires v.chains[head][k] < MAX_QUEUE_SIZE && 0 < r.numUsed
    requires HoldsAt(v.chains[head][k], v.posted[head].Bufs()[k], k, |v.chains[head]|, |v.posted[head].g2h|, v.shadow)
    requires Reaped(r, r0, v, head, k)
    ensures Reaped(Collect(r, v.chains[head][k], v.shadow[v.chains[head][k]]), r0, v, head, k + 1)
  {
    var p := v.posted[head];
    CollectStep(p, k);
    AppendOne(r0.g2h, FirstG2h(p, k), p.Bufs()[k]);
    AppendOne(r0.h2g, FirstH2g(p, k), p.Bufs()[k]);
  }

  /** The loop of `recycle_descriptors`, on the fields it changes. Both error exits of
      the loop are dead: the chain is walked to its end. */
  method ReapChain(head: u16, size: nat, shadow: seq<Descriptor>, reap0: Reap, ghost v: View)
    returns (reap: Reap, tail: u16)
    requires Consistent(v) && v.shadow == shadow && |v.loc| == size
    requires head in v.chains
    requires head in v.posted && Reaped(reap0, reap0, v, head, 0)
    ensures v.chains[head] != [] && tail == v.chains[head][|v.chains[head]| - 1]
    ensures Reaped(reap, reap0, v, head, |v.posted[head].Bufs()|)
  {
    var index := head;
    reap := reap0;
    ghost var k, c := 0, v.chains[head];
    assert ChainSlots(head, c, v.loc);
    ReapStep(v, head, 0);
    tail := head;
    while reap.numUsed > 0
      invariant 0 <= k < |c| == |v.posted[head].Bufs()| && index == c[k]
      invariant reap.numUsed == v.numUsed - k > 0
      invariant Reaped(reap, reap0, v, head, k)
    {
      ReapStep(v, head, k);
      CollectKeepsReaped(reap, reap0, v, head, k);
      if index >= size || !Bitmap.Has(reap.inUse, index) {
        assert false;
      }
      var d := shadow[index];
      reap := Collect(reap, index, d);
      k := k + 1;
      if d.flags.next {
        if reap.numUsed == 0 {
          assert false;
        }
        index := d.next;
      } else {
        tail := index;
        return;
      }
    }
    assert false;
  }

  /** What an outstanding posting says about its chain. */
  lemma HeldChain(v: View, head: nat)
    requires Consistent(v) && head in v.posted
    ensures head in v.chains && |v.chains[head]| == |v.posted[head].Bufs()| > 0
    ensures |v.chains[head]| == |v.posted[head].Bufs()| <= v.numUsed && head < |v.loc|
    ensures v.chains[head][|v.chains[head]| - 1] < |v.loc|
  {
    assert RecordedAt(v, head) && ChainSlots(head, v.chains[head], v.loc);
    ChainFits(v.free, v.chains, v.loc, head);
  }

  /** `recycle_descriptors` before it stores its results. */
  method Recycle(head: u16, size: nat, shadow: seq<Descriptor>, reap0: Reap, ghost v: View)
    returns (reap: Reap, tail: u16)
    requires Consistent(v) && v.shadow == shadow && |v.loc| == size
    requires head in v.posted && head in v.chains && v.chains[head] != []
    requires reap0.numUsed == v.numUsed && reap0.inUse == v.inUse && reap0.isHead == v.isHead && reap0.len == 0
    ensures tail == v.chains[head][|v.chains[head]| - 1]
    ensures reap.numUsed == v.numUsed - |v.chains[head]|
    ensures reap.inUse == Cleared(v.inUse, v.chains[head], |v.chains[head]|)
    ensures reap.isHead == Cleared(v.isHead, v.chains[head], |v.chains[head]|)
    ensures reap.len == SaturatedLength(v.posted[head].Bufs())
    ensures reap.g2h == reap0.g2h + v.posted[head].g2h && reap.h2g == reap0.h2g + v.posted[head].h2g
  {
    hide Consistent;
    HeldChain(v, head);
    assert reap0.g2h + [] == reap0.g2h && reap0.h2g + [] == reap0.h2g;
    reap, tail := ReapChain(head, size, shadow, reap0, v);
    assert v.posted[head].Bufs()[..|v.posted[head].Bufs()|] == v.posted[head].Bufs();
  }

  class VirtQueue {
    const queueSize: u16
    var numUsed: u16
    var freeHead: u16
    var availIdx: u16
    var lastUsedIdx: u16
    var shadow: seq<Descriptor>
    var inUse: u32
    var isHead: u32

    // Shared with the device, which may write it at any time.
    var desc: seq<Descriptor>
    var availRing: seq<u16>
    var availShared: u16

    ghost var view: View
    ghost var log: seq<Event>

    /** Of the shared tables this says only how long they are, so no device write can
        break it. */
    ghost predicate Valid()
      reads this
    {
      && 0 < queueSize <= MAX_QUEUE_SIZE && IsPowerOfTwo(queueSize)
      && queueSize == |view.loc| == |desc|
      && |availRing| == MAX_QUEUE_SIZE
      && Shows(view)
      && Consistent(view)
      && Legal(log)
      && Counted()
    }

    /** The counters count what the history records: the buffers in flight, and the chains
        returned, modulo 2^16. */
    ghost predicate Counted()
      reads this
    {
      numUsed == InFlight(log) && lastUsedIdx == Returns(log) % TWO_16
    }

    /** The driver's fields are those of `v`. */
    ghost predicate Shows(v: View)
      reads this
    {
      && v.numUsed == numUsed
      && v.freeHead == freeHead
      && v.shadow == shadow
      && v.inUse == inUse
      && v.isHead == isHead
      && v.posted == Outstanding(log)
    }

    constructor (size: u16)
      requires 0 < size <= MAX_QUEUE_SIZE && IsPowerOfTwo(size)
      ensures Valid()
      ensures queueSize == size && log == [] && view.free == Identity(size) && availIdx == 0 && lastUsedIdx == 0
    {
      queueSize := size;
      numUsed, freeHead, availIdx, lastUsedIdx := 0, 0, 0, 0;
      inUse, isHead := 0, 0;
      desc := seq(size, _ => Descriptor(0, 0, Flags(false, false), 0));
      availRing := seq(MAX_QUEUE_SIZE, _ => 0);
      availShared := 0;
      log := [];
      shadow := seq(MAX_QUEUE_SIZE, _ => Descriptor(0, 0, Flags(false, false), 0));
      new;
      for i := 0 to queueSize - 1
        modifies this`desc, this`shadow
        invariant |shadow| == MAX_QUEUE_SIZE && |desc| == queueSize
        invariant forall k | 0 <= k < i :: shadow[k].next == k + 1
      {
        desc := desc[i := desc[i].(next := i + 1)];
        shadow := shadow[i := shadow[i].(next := i + 1)];
      }
      InitialIsConsistent(queueSize, shadow);
      view := Initial(queueSize, shadow);
    }

    /** Create a queue, unless its size is unusable or an access to the transport fails: reading
        the greatest size, or one of the writes of the three addresses. */
    static method New(maxSize: Option<u16>, addresses: seq<bool>, size: u16)
      returns (r: Result<VirtQueue, VirtioError>)
      ensures r.Ok? <==> IsPowerOfTwo(size) && maxSize.Some? && size <= maxSize.value && size <= MAX_QUEUE_SIZE
                         && false !in addresses
      ensures r.Err? ==>
                r.error == if IsPowerOfTwo(size) && (maxSize.None? || size <= Min(maxSize.value, MAX_QUEUE_SIZE))
                           then Transport else InvalidParameter
      ensures r.Ok? ==> fresh(r.value) && r.value.Valid() && r.value.queueSize == size && r.value.log == []
    {
      if !IsPowerOfTwo(size) {
        return Err(InvalidParameter);
      }
      if maxSize.None? {
        return Err(Transport);
      }
      if maxSize.value < size || size > MAX_QUEUE_SIZE {
        return Err(InvalidParameter);
      }
      if false in addresses {
        return Err(Transport);
      }
      var q := new VirtQueue(size);
      r := Ok(q);
    }

    /** The number of free descriptors. */
    method AvailableDesc() returns (n: nat)
      requires Valid()
      ensures n == |view.free|
    {
      n := queueSize - numUsed;
    }

    method CanPop(used: UsedRing) returns (b: bool)
      ensures b <==> lastUsedIdx != used.idx
    {
      b := lastUsedIdx != used.idx;
    }

    /** Clear the NEXT flag of the last descriptor, in the shadow first, and count and
        mark the chain. */
    method CloseChain(cursor: Cursor, n: nat, head: u16)
      requires cursor.last < |cursor.shadow| && cursor.last < |cursor.desc|
      requires numUsed + n < TWO_16 && head < MAX_QUEUE_SIZE
      modifies this`shadow, this`desc, this`freeHead, this`inUse, this`numUsed, this`isHead
      ensures shadow == Ended(cursor.shadow, cursor.last)
      ensures desc == cursor.desc[cursor.last := cursor.desc[cursor.last].(flags := shadow[cursor.last].flags)]
      ensures freeHead == cursor.freeHead && inUse == cursor.inUse
      ensures numUsed == old(numUsed) + n && isHead == Bitmap.Set(old(isHead), head)
    {
      shadow := Ended(cursor.shadow, cursor.last);
      desc := cursor.desc[cursor.last := cursor.desc[cursor.last].(flags := shadow[cursor.last].flags)];
      freeHead, inUse := cursor.freeHead, cursor.inUse;
      numUsed := numUsed + n;
      isHead := Bitmap.Set(isHead, head);
    }

    /** Put a chain head into the available ring. */
    method Publish(head: u16)
      requires 0 < queueSize <= |availRing|
      modifies this`availRing, this`availIdx, this`availShared
      ensures availRing == old(availRing)[RingSlot(old(availIdx), queueSize) := head]
      ensures availShared == availIdx == WrappingInc16(old(availIdx))
    {
      availRing := availRing[RingSlot(availIdx, queueSize) := head];
      availIdx := WrappingInc16(availIdx);
      availShared := availIdx;
    }

    /** The writes of `add` once its arguments are accepted. */
    method Post(bufs: seq<Buf>, readable: nat, ghost v: View) returns (head: u16)
      requires |v.shadow| == MAX_QUEUE_SIZE && |desc| == |v.loc| == queueSize && 0 < queueSize <= MAX_QUEUE_SIZE
      requires |availRing| == MAX_QUEUE_SIZE && numUsed + |bufs| <= queueSize
      requires shadow == v.shadow && inUse == v.inUse && freeHead == v.freeHead
      requires FreeSlots(v.free, v.loc) && Threaded(v)
      requires 0 < |bufs| <= |v.free| && readable <= |bufs|
      modifies this`shadow, this`desc, this`freeHead, this`inUse, this`numUsed, this`isHead
      modifies this`availRing, this`availIdx, this`availShared
      ensures head == v.free[0] < MAX_QUEUE_SIZE
      ensures shadow == Offered(v.shadow, v.free, bufs, readable)
      ensures desc == Offered(old(desc), v.free, bufs, readable)
      ensures freeHead == NextFree(v, |bufs|) && inUse == Taken(v.inUse, v.free, |bufs|)
      ensures numUsed == old(numUsed) + |bufs| && isHead == Bitmap.Set(old(isHead), head)
      ensures availRing == old(availRing)[RingSlot(old(availIdx), queueSize) := head]
      ensures availShared == availIdx == WrappingInc16(old(availIdx))
    {
      LastFlags(v.shadow, desc, v.free, v.loc, bufs, readable);
      assert v.loc[v.free[0]] == Free(0);
      head := freeHead;
      var cursor := Cursor(shadow, desc, freeHead, inUse, freeHead);
      cursor := AddDescriptors(bufs, readable, 0, readable, Flags(true, false), cursor, v, desc);
      cursor := AddDescriptors(bufs, readable, readable, |bufs|, Flags(true, true), cursor, v, desc);
      CloseChain(cursor, |bufs|, head);
      Publish(head);
    }

    /** `add` once its arguments are accepted. */
    method Accept(g2h: seq<Buf>, h2g: seq<Buf>, ghost p: Posting) returns (head: u16)
      requires Valid()
      requires p == Posting(g2h, h2g) && 0 < |p.Bufs()| <= |view.free|
      modifies this
      ensures Valid() && lastUsedIdx == old(lastUsedIdx)
      ensures head == old(view).free[0] && log == old(log) + [Added(head, p)]
      ensures view == Posted(old(view), p) && head !in old(view).posted
      ensures desc == Offered(old(desc), old(view).free, p.Bufs(), |g2h|)
      ensures availShared == availIdx == WrappingInc16(old(availIdx))
      ensures availRing == old(availRing)[RingSlot(old(availIdx), queueSize) := head]
    {
      hide Consistent, InFlight, Returns, Outstanding, Legal, FreeSlots, Threaded;
      OfferFacts(view, p);
      head := Post(g2h + h2g, |g2h|, view);
      LogAdd(log, head, p);
      CountOne(log, Added(head, p));
      log := log + [Added(head, p)];
      view := Posted(view, p);
    }

    /** Add DMA buffers to the virtqueue, return the head of their chain. */
    method Add(g2h: seq<Buf>, h2g: seq<Buf>) returns (r: Result<u16, VirtioError>)
      requires Valid()
      modifies this
      ensures Valid() && lastUsedIdx == old(lastUsedIdx)
      ensures r.Err? <==> g2h + h2g == [] || |g2h + h2g| > |old(view).free|
      ensures r.Err? <==> g2h + h2g == [] || InFlight(old(log)) + |g2h + h2g| > queueSize
      ensures r.Err? ==> r.error == if g2h + h2g == [] then InvalidParameter else BufferTooSmall
      ensures r.Err? ==> unchanged(this)
      ensures r.Ok? ==> r.value == old(view).free[0] && log == old(log) + [Added(r.value, Posting(g2h, h2g))]
      ensures r.Ok? ==> view == Posted(old(view), Posting(g2h, h2g))
      ensures r.Ok? ==> r.value !in old(view).posted && view.posted == old(view).posted[r.value := Posting(g2h, h2g)]
      ensures r.Ok? ==> Holds(old(view).free[..|g2h + h2g|], g2h + h2g, |g2h|, desc)
      ensures r.Ok? ==> availShared == availIdx == WrappingInc16(old(availIdx))
      ensures r.Ok? ==> availRing == old(availRing)[RingSlot(old(availIdx), queueSize) := r.value]
    {
      if g2h == [] && h2g == [] {
        return Err(InvalidParameter);
      }
      if |g2h| + |h2g| + numUsed > queueSize {
        return Err(BufferTooSmall);
      }
      OfferHolds(desc, view.free, g2h + h2g, |g2h|, view.loc);
      var head := Accept(g2h, h2g, Posting(g2h, h2g));
      r := Ok(head);
    }

    /** Push the chain of `head` in front of the free list and collect its buffers. */
    method RecycleDescriptors(head: u16, g2h: seq<Buf>, h2g: seq<Buf>, ghost v: View) returns (reap: Reap)
      requires Consistent(v) && Shows(v) && |v.loc| == queueSize
      requires head in v.posted && head in v.chains && v.chains[head] != []
      modifies this`numUsed, this`inUse, this`isHead, this`freeHead, this`shadow, this`desc
      ensures numUsed == v.numUsed - |v.chains[head]| && freeHead == head
      ensures shadow == Relinked(v.shadow, v.chains[head][|v.chains[head]| - 1], old(freeHead))
      ensures desc == Relinked(old(desc), v.chains[head][|v.chains[head]| - 1], old(freeHead))
      ensures inUse == Cleared(v.inUse, v.chains[head], |v.chains[head]|)
      ensures isHead == Cleared(v.isHead, v.chains[head], |v.chains[head]|)
      ensures reap.len == SaturatedLength(v.posted[head].Bufs())
      ensures reap.g2h == g2h + v.posted[head].g2h && reap.h2g == h2g + v.posted[head].h2g
    {
      hide Consistent;
      var tail;
      reap, tail := Recycle(head, queueSize, shadow, Reap(numUsed, inUse, isHead, 0, g2h, h2g), v);
      numUsed, inUse, isHead := reap.numUsed, reap.inUse, reap.isHead;
      shadow := Relinked(shadow, tail, freeHead);
      desc := Relinked(desc, tail, freeHead);
      freeHead := head;
    }

    /** `pop_used` once the used element names an outstanding chain. */
    method Reclaim(head: u16, len: u32, g2h: seq<Buf>, h2g: seq<Buf>, ghost p: Posting) returns (n: u32, reap: Reap)
      requires Valid()
      requires head in view.posted && p == view.posted[head]
      modifies this
      ensures Valid()
      ensures n == Min(len, SaturatedLength(p.Bufs()))
      ensures reap.g2h == g2h + p.g2h && reap.h2g == h2g + p.h2g
      ensures head in old(view).chains && old(view).chains[head] != []
      ensures view == Recycled(old(view), head)
      ensures log == old(log) + [Returned(head, p, n)]
      ensures lastUsedIdx == WrappingInc16(old(lastUsedIdx))
      ensures availIdx == old(availIdx) && availShared == old(availShared) && availRing == old(availRing)
    {
      hide Consistent, Legal, SaturatedLength, Cleared, GiveLoc, InFlight, Returns, Outstanding, WrappingInc16;
      WrappingCounts(Returns(log));
      HeldChain(view, head);
      RecycledIsConsistent(view, head);
      reap := RecycleDescriptors(head, g2h, h2g, view);
      lastUsedIdx := WrappingInc16(lastUsedIdx);
      n := Min(len, reap.len);
      LogReturn(log, head, p, n);
      CountOne(log, Returned(head, p, n));
      log := log + [Returned(head, p, n)];
      view := Recycled(view, head);
    }

    /** Take a completed chain from the used ring; its buffers are appended to the
        given lists, and the length the device reports is cut to their total. */
    method PopUsed(used: UsedRing, g2h0: seq<Buf>, h2g0: seq<Buf>)
      returns (r: Result<u32, VirtioError>, g2h: seq<Buf>, h2g: seq<Buf>, ghost head: u16)
      requires Valid() && WellSized(used)
      modifies this
      ensures Valid() && head == NamedHead(used, old(lastUsedIdx))
      ensures r.Ok? <==> old(lastUsedIdx) != used.idx && head in old(view).posted
      ensures r.Err? ==> r.error == if old(lastUsedIdx) == used.idx then NotReady else InvalidDescriptor
      ensures r.Err? ==> unchanged(this) && g2h == g2h0 && h2g == h2g0
      ensures r.Ok? ==>
                var p := old(view).posted[head];
                && r.value == Min(NamedElem(used, old(lastUsedIdx)).len, SaturatedLength(p.Bufs()))
                && g2h == g2h0 + p.g2h && h2g == h2g0 + p.h2g
                && log == old(log) + [Returned(head, p, r.value)]
                && head in old(view).chains && old(view).chains[head] != []
                && view == Recycled(old(view), head) && view.posted == old(view).posted - {head}
      ensures r.Ok? ==> lastUsedIdx == WrappingInc16(old(lastUsedIdx))
      ensures availIdx == old(availIdx) && availShared == old(availShared) && availRing == old(availRing)
    {
      g2h, h2g, head := g2h0, h2g0, NamedHead(used, lastUsedIdx);
      var ready := CanPop(used);
      if !ready {
        return Err(NotReady), g2h, h2g, head;
      }
      var elem := used.ring[RingSlot(lastUsedIdx, queueSize)];
      var index := Low16(elem.id);
      BitmapsAcceptHeads(view, index);
      if index >= queueSize || !Bitmap.Has(inUse, index) || !Bitmap.Has(isHead, index) {
        return Err(InvalidDescriptor), g2h, h2g, head;
      }
      var n, reap := Reclaim(index, elem.len, g2h0, h2g0, view.posted[index]);
      r, g2h, h2g := Ok(n), reap.g2h, reap.h2g;
    }

    /** The used element a driver at `idx` reads next. */
    function NamedElem(used: UsedRing, idx: u16): UsedElem
      requires WellSized(used) && 0 < queueSize <= MAX_QUEUE_SIZE
    {
      used.ring[RingSlot(idx, queueSize)]
    }

    /** The head it names: its id cut to 16 bits. */
    function NamedHead(used: UsedRing, idx: u16): u16
      requires WellSized(used) && 0 < queueSize <= MAX_QUEUE_SIZE
    {
      Low16(NamedElem(used, idx).id)
    }

    /** The device writes what it likes into the memory it shares with the driver. */
    method DeviceWrites(desc': seq<Descriptor>, availRing': seq<u16>, availShared': u16)
      requires Valid()
      requires |desc'| == |desc| && |availRing'| == |availRing|
      modifies this`desc, this`availRing, this`availShared
      ensures Valid()
    {
      desc, availRing, availShared := desc', availRing', availShared';
    }
  }

  /** One thing that may happen to a queue. */
  datatype Step =
    | DriverAdds(g2h: seq<Buf>, h2g: seq<Buf>)
    | DriverPops(used: UsedRing)
    | DeviceOverwrites(desc: seq<Descriptor>, availRing: seq<u16>, availShared: u16)

  /** The answer the driver's caller gets. */
  datatype Answer =
    | Head(head: Result<u16, VirtioError>)
    | Buffers(len: Result<u32, VirtioError>, g2h: seq<Buf>, h2g: seq<Buf>)
    | Silent

  /** What an add is answered on a queue with this history, and what is recorded: the buffers
      must fit beside those in flight, and get a head of their own. */
  ghost predicate AddRecords(size: nat, log: seq<Event>, p: Posting, answer: Answer, es: seq<Event>) {
    if p.Bufs() == [] then answer == Head(Err(InvalidParameter)) && es == []
    else if InFlight(log) + |p.Bufs()| > size then answer == Head(Err(BufferTooSmall)) && es == []
    else answer.Head? && answer.head.Ok? && es == [Added(answer.head.value, p)]
  }

  /** The element a pop reads: the one at the number of chains returned so far. */
  function ElemAt(size: nat, n: nat, used: UsedRing): UsedElem
    requires WellSized(used) && 0 < size <= MAX_QUEUE_SIZE
  {
    used.ring[RingSlot(n % TWO_16, size)]
  }

  /** What a pop is answered: nothing while the ring has nothing new, an error unless the id
      names a chain the device holds, and else the buffers of that very chain. */
  ghost predicate PopRecords(size: nat, log: seq<Event>, used: UsedRing, answer: Answer, es: seq<Event>)
    requires WellSized(used) && 0 < size <= MAX_QUEUE_SIZE
  {
    var elem := ElemAt(size, Returns(log), used);
    var h := Low16(elem.id);
    if Returns(log) % TWO_16 == used.idx then answer == Buffers(Err(NotReady), [], []) && es == []
    else if h !in Outstanding(log) then answer == Buffers(Err(InvalidDescriptor), [], []) && es == []
    else
      var p := Outstanding(log)[h];
      var n := Min(elem.len, SaturatedLength(p.Bufs()));
      answer == Buffers(Ok(n), p.g2h, p.h2g) && es == [Returned(h, p, n)]
  }

  /** What a step is answered and what the history records for it, by the history so far. */
  ghost predicate Records(size: nat, log: seq<Event>, step: Step, answer: Answer, es: seq<Event>)
    requires step.DriverPops? ==> WellSized(step.used)
    requires 0 < size <= MAX_QUEUE_SIZE
  {
    match step
    case DriverAdds(g2h, h2g) => AddRecords(size, log, Posting(g2h, h2g), answer, es)
    case DriverPops(used) => PopRecords(size, log, used, answer, es)
    case DeviceOverwrites(_, _, _) => answer == Silent && es == []
  }

  ghost function Concat(ess: seq<seq<Event>>): seq<Event> {
    if ess == [] then [] else Concat(ess[..|ess| - 1]) + ess[|ess| - 1]
  }

  method Perform(q: VirtQueue, step: Step) returns (answer: Answer, ghost es: seq<Event>)
    requires q.Valid()
    requires step.DriverPops? ==> WellSized(step.used)
    modifies q
    ensures q.Valid()
    ensures Records(q.queueSize, old(q.log), step, answer, es) && q.log == old(q.log) + es
  {
    hide Consistent, Legal, Posted, Recycled, Holds, InFlight, Returns, Outstanding, SaturatedLength;
    match step {
      case DriverAdds(g2h, h2g) =>
        var r := q.Add(g2h, h2g);
        answer := Head(r);
        es := if r.Ok? then [Added(r.value, Posting(g2h, h2g))] else [];
      case DriverPops(used) =>
        ghost var posted := q.view.posted;
        var r, g2h, h2g, head := q.PopUsed(used, [], []);
        answer := Buffers(r, g2h, h2g);
        es := if r.Ok? then [Returned(head, posted[head], r.value)] else [];
        assert r.Ok? ==> posted[head] == Posting(g2h, h2g);
      case DeviceOverwrites(desc, availRing, availShared) =>
        if |desc| == |q.desc| && |availRing| == |q.availRing| {
          q.DeviceWrites(desc, availRing, availShared);
        }
        answer := Silent;
        es := [];
    }
  }

  /** Any interleaving of driver calls and device writes, from a fresh queue: the
      successful calls, in order, form a legal history. */
  method Run(size: u16, steps: seq<Step>) returns (q: VirtQueue, answers: seq<Answer>, ghost ess: seq<seq<Event>>)
    requires 0 < size <= MAX_QUEUE_SIZE && IsPowerOfTwo(size)
    requires forall i | 0 <= i < |steps| && steps[i].DriverPops? :: WellSized(steps[i].used)
    ensures q.Valid() && |answers| == |ess| == |steps|
    ensures forall i | 0 <= i < |steps| :: Records(size, Concat(ess[..i]), steps[i], answers[i], ess[i])
    ensures q.queueSize == size && q.log == Concat(ess)
    ensures Legal(Concat(ess)) && Consistent(q.view)
  {
    hide Consistent, Records;
    q := new VirtQueue(size);
    answers, ess := [], [];
    for i := 0 to |steps|
      invariant q.Valid() && q.queueSize == size && |answers| == |ess| == i && fresh(q)
      invariant forall j | 0 <= j < i :: Records(size, Concat(ess[..j]), steps[j], answers[j], ess[j])
      invariant q.log == Concat(ess)
    {
      var answer;
      ghost var es;
      answer, es := Perform(q, steps[i]);
      ghost var before := ess;
      answers, ess := answers + [answer], ess + [es];
      assert forall j | 0 <= j <= i :: ess[..j] == before[..j];
      assert before[..i] == before;
    }
  }
}
