/** The driver's private view of one virtqueue as a value, the two changes `add` and
    `pop_used` make to it, and the proof that both keep it consistent. */
module QueueState {
  import opened Words
  import opened Slots
  import Bitmap

  const MAX_QUEUE_SIZE: nat := 32

  /** The driver's fields, with where each slot is and what each chain was given. */
  datatype View = View(
    numUsed: int, freeHead: int, shadow: seq<Descriptor>, inUse: u32, isHead: u32,
    free: seq<nat>, chains: Chains, loc: seq<Loc>, posted: map<nat, Posting>)

  ghost predicate Threaded(v: View) {
    && (|v.free| > 0 ==> v.freeHead == v.free[0])
    && Linked(v.free, v.shadow)
    && forall h | h in v.chains :: Linked(v.chains[h], v.shadow)
  }

  ghost predicate RecordedAt(v: View, h: nat)
    requires h in v.chains
  {
    h in v.posted && Holds(v.chains[h], v.posted[h].Bufs(), |v.posted[h].g2h|, v.shadow)
  }

  ghost predicate Recorded(v: View) {
    && v.chains.Keys == v.posted.Keys
    && forall h | h in v.chains :: RecordedAt(v, h)
  }

  ghost predicate Tracked(inUse: u32, isHead: u32, chains: Chains, loc: seq<Loc>) {
    && (forall i: nat :: Bitmap.Has(inUse, i) <==> i < |loc| && loc[i].InChain?)
    && (forall i: nat :: Bitmap.Has(isHead, i) <==> i in chains)
  }

  /** The free list and the chains partition the slots and are threaded through the
      shadow; every chain holds what it was posted with; the bitmaps and the counter
      say which slots are on a chain. */
  ghost predicate Consistent(v: View) {
    && |v.shadow| == MAX_QUEUE_SIZE
    && 0 < |v.loc| <= MAX_QUEUE_SIZE
    && v.numUsed + |v.free| == |v.loc|
    && Partition(v.free, v.chains, v.loc)
    && Threaded(v)
    && Recorded(v)
    && Tracked(v.inUse, v.isHead, v.chains, v.loc)
  }

  /** `num_used` counts the bits of `in_use`. */
  lemma NumUsedCountsInUse(v: View)
    requires Consistent(v)
    ensures v.numUsed == |set i: nat | i < MAX_QUEUE_SIZE && Bitmap.Has(v.inUse, i)|
  {
    ChainedCardinality(v.free, v.chains, v.loc);
    assert (set i: nat | i < MAX_QUEUE_SIZE && Bitmap.Has(v.inUse, i)) == ChainedSlots(v.loc);
  }

  // ---------- a fresh queue ----------

  ghost function Identity(n: nat): seq<nat> {
    seq(n, i requires 0 <= i < n => i)
  }

  ghost function AllFree(n: nat): seq<Loc> {
    seq(n, i requires 0 <= i < n => Free(i))
  }

  ghost function Initial(n: nat, shadow: seq<Descriptor>): View {
    View(0, 0, shadow, 0, 0, Identity(n), map[], AllFree(n), map[])
  }

  /** All slots free, each linked to the next one. */
  lemma InitialIsConsistent(n: nat, shadow: seq<Descriptor>)
    requires 0 < n <= MAX_QUEUE_SIZE == |shadow|
    requires forall k | 0 <= k < n - 1 :: shadow[k].next == k + 1
    ensures Consistent(Initial(n, shadow))
  {
  }

  // ---------- add ----------

  /** One descriptor programmed: everything but its `next` link. */
  function Programmed(table: seq<Descriptor>, i: nat, buf: Buf, flags: Flags): (r: seq<Descriptor>)
    ensures |r| == |table|
  {
    if i < |table| then table[i := Descriptor(buf.addr, buf.len, flags, table[i].next)] else table
  }

  /** A table after the first `k` of `bufs` went into the first `k` slots of `free`. */
  ghost function Filled(table: seq<Descriptor>, free: seq<nat>, bufs: seq<Buf>, readable: nat, k: nat)
    : (r: seq<Descriptor>)
    ensures |r| == |table|
  {
    if k == 0 || k > |free| || k > |bufs| then table
    else Programmed(Filled(table, free, bufs, readable, k - 1), free[k - 1], bufs[k - 1],
                    Flags(true, k - 1 >= readable))
  }

  /** The entry of a slot, with its NEXT flag cleared. */
  function Ended(table: seq<Descriptor>, last: nat): (r: seq<Descriptor>)
    ensures |r| == |table|
  {
    if last < |table| then table[last := table[last].(flags := table[last].flags.(next := false))] else table
  }

  /** A table after the whole of `bufs` was filled in and its last entry ended. */
  ghost function Offered(table: seq<Descriptor>, free: seq<nat>, bufs: seq<Buf>, readable: nat)
    : (r: seq<Descriptor>)
    requires 0 < |bufs| <= |free|
    ensures |r| == |table|
  {
    Ended(Filled(table, free, bufs, readable, |bufs|), free[|bufs| - 1])
  }

  /** The `in_use` bitmap after the first `k` slots of `free` were taken. */
  ghost function Taken(inUse: u32, free: seq<nat>, k: nat): u32 {
    if k == 0 || k > |free| || free[k - 1] >= MAX_QUEUE_SIZE then inUse
    else Bitmap.Set(Taken(inUse, free, k - 1), free[k - 1])
  }

  /** The free-list head after `k` slots were taken: the link of the last one. */
  ghost function NextFree(v: View, k: nat): int {
    if 0 < k <= |v.free| && v.free[k - 1] < |v.shadow| then v.shadow[v.free[k - 1]].next else v.freeHead
  }

  lemma NextFreeIsFree(v: View, k: nat)
    requires Threaded(v) && k < |v.free|
    ensures NextFree(v, k) == v.free[k]
  {
    assert k > 0 ==> Follows(v.free, k, v.shadow);
  }

  /** What `add` makes of a view. */
  ghost function Posted(v: View, p: Posting): View
    requires 0 < |p.Bufs()| <= |v.free| && v.free[0] < MAX_QUEUE_SIZE
  {
    var n, head := |p.Bufs()|, v.free[0];
    View(v.numUsed + n, NextFree(v, n), Offered(v.shadow, v.free, p.Bufs(), |p.g2h|),
         Taken(v.inUse, v.free, n), Bitmap.Set(v.isHead, head),
         v.free[n..], v.chains[head := v.free[..n]], TakeLoc(v.loc, head, n), v.posted[head := p])
  }

  lemma {:induction false} FilledElsewhere(table: seq<Descriptor>, free: seq<nat>, bufs: seq<Buf>, readable: nat,
                                           loc: seq<Loc>, k: nat, i: nat)
    requires k <= |bufs| <= |free|
    requires FreeSlots(free, loc) && |loc| <= |table|
    requires i < |table| && (i < |loc| ==> loc[i].InChain? || loc[i].pos >= k)
    ensures Filled(table, free, bufs, readable, k)[i] == table[i]
  {
    if k > 0 {
      FilledElsewhere(table, free, bufs, readable, loc, k - 1, i);
      assert loc[free[k - 1]] == Free(k - 1);
    }
  }

  lemma {:induction false} FilledAt(table: seq<Descriptor>, free: seq<nat>, bufs: seq<Buf>, readable: nat,
                                    loc: seq<Loc>, k: nat, j: nat)
    requires j < k <= |bufs| <= |free|
    requires FreeSlots(free, loc) && |loc| <= |table|
    ensures free[j] < |table|
    ensures Filled(table, free, bufs, readable, k)[free[j]]
            == Descriptor(bufs[j].addr, bufs[j].len, Flags(true, j >= readable), table[free[j]].next)
  {
    assert loc[free[j]] == Free(j) && loc[free[k - 1]] == Free(k - 1);
    if j == k - 1 {
      FilledElsewhere(table, free, bufs, readable, loc, k - 1, free[j]);
    } else {
      FilledAt(table, free, bufs, readable, loc, k - 1, j);
    }
  }

  /** The last entry carries the same flags in both tables. */
  lemma LastFlags(before: seq<Descriptor>, shared: seq<Descriptor>, free: seq<nat>, loc: seq<Loc>,
                  bufs: seq<Buf>, readable: nat)
    requires 0 < |bufs| <= |free| && FreeSlots(free, loc)
    requires |loc| <= |before| && |loc| <= |shared|
    ensures free[|bufs| - 1] < |loc|
    ensures Filled(before, free, bufs, readable, |bufs|)[free[|bufs| - 1]].flags
            == Filled(shared, free, bufs, readable, |bufs|)[free[|bufs| - 1]].flags
  {
  }

  lemma OfferedAt(table: seq<Descriptor>, free: seq<nat>, bufs: seq<Buf>, readable: nat, loc: seq<Loc>, k: nat)
    requires k < |bufs| <= |free|
    requires FreeSlots(free, loc) && |loc| <= |table|
    ensures free[k] < |table|
    ensures Offered(table, free, bufs, readable)[free[k]]
            == Descriptor(bufs[k].addr, bufs[k].len, Flags(k < |bufs| - 1, k >= readable), table[free[k]].next)
  {
    FilledAt(table, free, bufs, readable, loc, |bufs|, k);
    assert loc[free[k]] == Free(k) && loc[free[|bufs| - 1]] == Free(|bufs| - 1);
  }

  lemma OfferedElsewhere(table: seq<Descriptor>, free: seq<nat>, bufs: seq<Buf>, readable: nat,
                         loc: seq<Loc>, i: nat)
    requires 0 < |bufs| <= |free|
    requires FreeSlots(free, loc) && |loc| <= |table|
    requires i < |table| && (i < |loc| ==> loc[i].InChain? || loc[i].pos >= |bufs|)
    ensures Offered(table, free, bufs, readable)[i] == table[i]
  {
    FilledElsewhere(table, free, bufs, readable, loc, |bufs|, i);
    assert loc[free[|bufs| - 1]] == Free(|bufs| - 1);
  }

  /** The slots an offer took hold the buffers. */
  lemma OfferHolds(table: seq<Descriptor>, free: seq<nat>, bufs: seq<Buf>, readable: nat, loc: seq<Loc>)
    requires 0 < |bufs| <= |free|
    requires FreeSlots(free, loc) && |loc| <= |table|
    ensures Holds(free[..|bufs|], bufs, readable, Offered(table, free, bufs, readable))
  {
    forall k | 0 <= k < |bufs|
      ensures HoldsAt(free[k], bufs[k], k, |bufs|, readable, Offered(table, free, bufs, readable))
    {
      OfferedAt(table, free, bufs, readable, loc, k);
    }
  }

  /** No `next` link changes in an offer. */
  lemma OfferKeepsLinks(table: seq<Descriptor>, free: seq<nat>, chains: Chains, bufs: seq<Buf>, readable: nat,
                        loc: seq<Loc>, i: nat)
    requires 0 < |bufs| <= |free|
    requires Partition(free, chains, loc) && |loc| <= |table|
    requires i < |table|
    ensures Offered(table, free, bufs, readable)[i].next == table[i].next
  {
    if i < |loc| && loc[i].Free? && loc[i].pos < |bufs| {
      assert Placed(i, free, chains, loc);
      OfferedAt(table, free, bufs, readable, loc, loc[i].pos);
    } else {
      OfferedElsewhere(table, free, bufs, readable, loc, i);
    }
  }

  /** A run of slots that was linked in one table is linked in any table with the same links. */
  lemma LinksKept(slots: seq<nat>, before: seq<Descriptor>, after: seq<Descriptor>)
    requires Linked(slots, before) && |before| == |after|
    requires forall i | 0 <= i < |before| :: after[i].next == before[i].next
    ensures Linked(slots, after)
  {
    forall k | 0 < k < |slots|
      ensures Follows(slots, k, after)
    {
      assert Follows(slots, k, before);
    }
  }

  lemma LinkedParts(slots: seq<nat>, n: nat, table: seq<Descriptor>)
    requires Linked(slots, table) && n <= |slots|
    ensures Linked(slots[..n], table) && Linked(slots[n..], table)
  {
    forall k | 0 < k < n
      ensures Follows(slots[..n], k, table)
    {
      assert Follows(slots, k, table);
    }
    forall k | 0 < k < |slots[n..]|
      ensures Follows(slots[n..], k, table)
    {
      assert Follows(slots, n + k, table);
    }
  }

  /** Cutting an offered run of slots off the free list leaves both parts threaded. */
  lemma PostedIsThreaded(v: View, p: Posting)
    requires Consistent(v)
    requires 0 < |p.Bufs()| <= |v.free|
    ensures Threaded(Posted(v, p))
  {
    var v' := Posted(v, p);
    if |p.Bufs()| < |v.free| {
      NextFreeIsFree(v, |p.Bufs()|);
    }
    forall i | 0 <= i < |v.shadow|
      ensures v'.shadow[i].next == v.shadow[i].next
    {
      OfferKeepsLinks(v.shadow, v.free, v.chains, p.Bufs(), |p.g2h|, v.loc, i);
    }
    LinksKept(v.free, v.shadow, v'.shadow);
    LinkedParts(v.free, |p.Bufs()|, v'.shadow);
    forall h | h in v.chains
      ensures Linked(v.chains[h], v'.shadow)
    {
      LinksKept(v.chains[h], v.shadow, v'.shadow);
    }
  }

  /** The new chain holds its buffers; the other chains still hold theirs. */
  lemma PostedIsRecorded(v: View, p: Posting)
    requires Partition(v.free, v.chains, v.loc) && |v.loc| <= MAX_QUEUE_SIZE && |v.loc| <= |v.shadow|
    requires Recorded(v)
    requires 0 < |p.Bufs()| <= |v.free|
    ensures Recorded(Posted(v, p))
  {
    var v', head := Posted(v, p), v.free[0];
    OfferHolds(v.shadow, v.free, p.Bufs(), |p.g2h|, v.loc);
    assert v.loc[head] == Free(0);
    assert head in v.chains ==> ChainSlots(head, v.chains[head], v.loc);
    assert RecordedAt(v', head);
    forall h | h in v.chains
      ensures RecordedAt(v', h)
    {
      assert RecordedAt(v, h) && ChainSlots(h, v.chains[h], v.loc);
      KeptHolding(v, v'.shadow, p, h);
    }
  }

  lemma KeptHolding(v: View, shadow: seq<Descriptor>, p: Posting, h: nat)
    requires 0 < |p.Bufs()| <= |v.free|
    requires FreeSlots(v.free, v.loc) && |v.loc| <= |v.shadow|
    requires h in v.chains && ChainSlots(h, v.chains[h], v.loc) && RecordedAt(v, h)
    requires shadow == Offered(v.shadow, v.free, p.Bufs(), |p.g2h|)
    ensures Holds(v.chains[h], v.posted[h].Bufs(), |v.posted[h].g2h|, shadow)
  {
    var c, bufs := v.chains[h], v.posted[h].Bufs();
    forall k | 0 <= k < |c|
      ensures HoldsAt(c[k], bufs[k], k, |c|, |v.posted[h].g2h|, shadow)
    {
      assert HoldsAt(c[k], bufs[k], k, |c|, |v.posted[h].g2h|, v.shadow);
      assert v.loc[c[k]] == InChain(h, k);
      OfferedElsewhere(v.shadow, v.free, p.Bufs(), |p.g2h|, v.loc, c[k]);
    }
  }

  lemma {:induction false} TakenBits(inUse: u32, free: seq<nat>, k: nat)
    requires k <= |free|
    requires forall i | 0 <= i < |free| :: free[i] < MAX_QUEUE_SIZE
    ensures forall i: nat :: Bitmap.Has(Taken(inUse, free, k), i) <==> Bitmap.Has(inUse, i) || i in free[..k]
  {
    if k > 0 {
      TakenBits(inUse, free, k - 1);
      assert free[..k] == free[..k - 1] + [free[k - 1]];
    }
  }

  /** Marking the new chain in both bitmaps. */
  lemma PostedIsTracked(v: View, n: nat)
    requires Consistent(v) && 0 < n <= |v.free|
    ensures Tracked(Taken(v.inUse, v.free, n), Bitmap.Set(v.isHead, v.free[0]),
                    v.chains[v.free[0] := v.free[..n]], TakeLoc(v.loc, v.free[0], n))
  {
    TakenBits(v.inUse, v.free, n);
    var loc' := TakeLoc(v.loc, v.free[0], n);
    forall i: nat
      ensures Bitmap.Has(Taken(v.inUse, v.free, n), i) <==> i < |loc'| && loc'[i].InChain?
    {
      if i < |v.loc| {
        InPrefix(v.free, v.chains, v.loc, n, i);
      } else {
        assert i !in v.free[..n];
      }
    }
  }

  lemma InPrefix(free: seq<nat>, chains: Chains, loc: seq<Loc>, n: nat, i: nat)
    requires Partition(free, chains, loc) && n <= |free| && i < |loc|
    ensures i in free[..n] <==> loc[i].Free? && loc[i].pos < n
  {
    assert Placed(i, free, chains, loc);
    if loc[i].Free? && loc[i].pos < n {
      assert free[..n][loc[i].pos] == i;
    }
    if i in free[..n] {
      var k :| 0 <= k < n && free[..n][k] == i;
      assert loc[free[k]] == Free(k);
    }
  }

  /** `add` keeps the view consistent. */
  lemma PostedIsConsistent(v: View, p: Posting)
    requires Consistent(v)
    requires 0 < |p.Bufs()| <= |v.free|
    ensures Consistent(Posted(v, p))
  {
    TakeKeepsPartition(v.free, v.chains, v.loc, |p.Bufs()|);
    PostedIsThreaded(v, p);
    PostedIsRecorded(v, p);
    PostedIsTracked(v, |p.Bufs()|);
  }

  // ---------- pop_used ----------

  /** A bitmap after the first `k` slots of `chain` were cleared. */
  ghost function Cleared(bits: u32, chain: seq<nat>, k: nat): u32 {
    if k == 0 || k > |chain| || chain[k - 1] >= MAX_QUEUE_SIZE then bits
    else Bitmap.Clear(Cleared(bits, chain, k - 1), chain[k - 1])
  }

  /** The tail of a chain linked to the free list. */
  function Relinked(table: seq<Descriptor>, tail: nat, next: u16): (r: seq<Descriptor>)
    ensures |r| == |table|
  {
    if tail < |table| then table[tail := table[tail].(next := next)] else table
  }

  /** What `recycle_descriptors` makes of a view. */
  ghost function Recycled(v: View, head: nat): View
    requires head in v.chains && |v.chains[head]| > 0 && 0 <= v.freeHead < TWO_16
  {
    var c := v.chains[head];
    View(v.numUsed - |c|, head, Relinked(v.shadow, c[|c| - 1], v.freeHead),
         Cleared(v.inUse, c, |c|), Cleared(v.isHead, c, |c|),
         c + v.free, v.chains - {head}, GiveLoc(v.loc, head, |c|), v.posted - {head})
  }

  lemma RelinkedFollows(c: seq<nat>, free: seq<nat>, loc: seq<Loc>, head: nat,
                        shadow: seq<Descriptor>, freeHead: u16, k: nat)
    requires FreeSlots(free, loc) && ChainSlots(head, c, loc) && |loc| <= |shadow|
    requires Linked(c, shadow) && Linked(free, shadow)
    requires |free| > 0 ==> freeHead == free[0]
    requires 0 < k < |c + free|
    ensures Follows(c + free, k, Relinked(shadow, c[|c| - 1], freeHead))
  {
    var n := |c|;
    assert loc[c[n - 1]] == InChain(head, n - 1);
    if k < n {
      assert Follows(c, k, shadow);
      assert loc[c[k - 1]] == InChain(head, k - 1);
      assert (c + free)[k - 1] == c[k - 1] && (c + free)[k] == c[k];
    } else if k == n {
      assert (c + free)[n - 1] == c[n - 1] && (c + free)[n] == free[0];
    } else {
      assert Follows(free, k - n, shadow);
      assert loc[free[k - n - 1]] == Free(k - n - 1);
      assert (c + free)[k - 1] == free[k - n - 1] && (c + free)[k] == free[k - n];
    }
  }

  /** Recycling one chain leaves the entries of the others alone. */
  lemma RelinkedElsewhere(v: View, head: nat, h: nat, k: nat)
    requires |v.loc| <= |v.shadow| && 0 <= v.freeHead < TWO_16
    requires head in v.chains && ChainSlots(head, v.chains[head], v.loc)
    requires h in v.chains && ChainSlots(h, v.chains[h], v.loc) && h != head
    requires k < |v.chains[h]|
    ensures v.chains[h][k] < |v.loc|
    ensures Recycled(v, head).shadow[v.chains[h][k]] == v.shadow[v.chains[h][k]]
  {
  }

  lemma RelinkedKeepsLinks(v: View, head: nat, h: nat)
    requires |v.loc| <= |v.shadow| && 0 <= v.freeHead < TWO_16
    requires head in v.chains && ChainSlots(head, v.chains[head], v.loc)
    requires h in v.chains && ChainSlots(h, v.chains[h], v.loc) && h != head
    requires Linked(v.chains[h], v.shadow)
    ensures Linked(v.chains[h], Recycled(v, head).shadow)
  {
    forall k | 0 < k < |v.chains[h]|
      ensures Follows(v.chains[h], k, Recycled(v, head).shadow)
    {
      assert Follows(v.chains[h], k, v.shadow);
      RelinkedElsewhere(v, head, h, k - 1);
    }
  }

  lemma RecycledIsThreaded(v: View, head: nat)
    requires Partition(v.free, v.chains, v.loc) && |v.loc| <= |v.shadow|
    requires head in v.chains && |v.chains[head]| > 0
    requires Threaded(v) && 0 <= v.freeHead < TWO_16
    ensures Threaded(Recycled(v, head))
  {
    var v' := Recycled(v, head);
    assert ChainSlots(head, v.chains[head], v.loc);
    forall k | 0 < k < |v'.free|
      ensures Follows(v'.free, k, v'.shadow)
    {
      RelinkedFollows(v.chains[head], v.free, v.loc, head, v.shadow, v.freeHead, k);
    }
    forall h | h in v'.chains
      ensures Linked(v'.chains[h], v'.shadow)
    {
      assert ChainSlots(h, v.chains[h], v.loc);
      RelinkedKeepsLinks(v, head, h);
    }
  }

  lemma RecycledIsRecorded(v: View, head: nat)
    requires Partition(v.free, v.chains, v.loc) && |v.loc| <= |v.shadow|
    requires head in v.chains && |v.chains[head]| > 0
    requires Recorded(v) && 0 <= v.freeHead < TWO_16
    ensures Recorded(Recycled(v, head))
  {
    var v' := Recycled(v, head);
    assert ChainSlots(head, v.chains[head], v.loc);
    forall h | h in v'.chains
      ensures RecordedAt(v', h)
    {
      assert RecordedAt(v, h) && ChainSlots(h, v.chains[h], v.loc);
      var c, bufs := v.chains[h], v.posted[h].Bufs();
      forall k | 0 <= k < |c|
        ensures HoldsAt(c[k], bufs[k], k, |c|, |v.posted[h].g2h|, v'.shadow)
      {
        assert HoldsAt(c[k], bufs[k], k, |c|, |v.posted[h].g2h|, v.shadow);
        RelinkedElsewhere(v, head, h, k);
      }
    }
  }

  lemma {:induction false} ClearedBits(bits: u32, chain: seq<nat>, k: nat)
    requires k <= |chain|
    requires forall i | 0 <= i < |chain| :: chain[i] < MAX_QUEUE_SIZE
    ensures forall i: nat :: Bitmap.Has(Cleared(bits, chain, k), i) <==> Bitmap.Has(bits, i) && i !in chain[..k]
  {
    if k > 0 {
      ClearedBits(bits, chain, k - 1);
      assert chain[..k] == chain[..k - 1] + [chain[k - 1]];
    }
  }

  lemma InChainPrefix(v: View, head: nat, n: nat, i: nat)
    requires Partition(v.free, v.chains, v.loc) && head in v.chains && n <= |v.chains[head]| && i < |v.loc|
    ensures i in v.chains[head][..n] <==> v.loc[i].InChain? && v.loc[i].head == head && v.loc[i].pos < n
  {
    var c := v.chains[head];
    assert ChainSlots(head, c, v.loc) && Placed(i, v.free, v.chains, v.loc);
    if v.loc[i].InChain? && v.loc[i].head == head && v.loc[i].pos < n {
      assert c[..n][v.loc[i].pos] == i;
    }
    if i in c[..n] {
      var k :| 0 <= k < n && c[..n][k] == i;
      assert v.loc[c[k]] == InChain(head, k);
    }
  }

  lemma RecycledIsTracked(v: View, head: nat)
    requires Partition(v.free, v.chains, v.loc) && |v.loc| <= MAX_QUEUE_SIZE
    requires head in v.chains && |v.chains[head]| > 0
    requires Tracked(v.inUse, v.isHead, v.chains, v.loc)
    ensures var c := v.chains[head];
            Tracked(Cleared(v.inUse, c, |c|), Cleared(v.isHead, c, |c|), v.chains - {head}, GiveLoc(v.loc, head, |c|))
  {
    var c := v.chains[head];
    assert ChainSlots(head, c, v.loc);
    ClearedBits(v.inUse, c, |c|);
    ClearedBits(v.isHead, c, |c|);
    assert c[..|c|] == c;
    forall i: nat
      ensures i in c <==> i < |v.loc| && v.loc[i].InChain? && v.loc[i].head == head
    {
      if i < |v.loc| {
        InChainPrefix(v, head, |c|, i);
        assert Placed(i, v.free, v.chains, v.loc);
      }
    }
    forall i: nat
      ensures Bitmap.Has(Cleared(v.isHead, c, |c|), i) <==> i in v.chains - {head}
    {
      if i in v.chains && i in c {
        assert ChainSlots(i, v.chains[i], v.loc);
        assert v.loc[i] == InChain(i, 0);
      }
    }
  }

  /** `pop_used` keeps the view consistent. */
  lemma RecycledIsConsistent(v: View, head: nat)
    requires Consistent(v) && 0 <= v.freeHead < TWO_16
    requires head in v.chains
    ensures |v.chains[head]| > 0 && Consistent(Recycled(v, head))
  {
    assert ChainSlots(head, v.chains[head], v.loc);
    GiveKeepsPartition(v.free, v.chains, v.loc, head);
    RecycledIsThreaded(v, head);
    RecycledIsRecorded(v, head);
    RecycledIsTracked(v, head);
  }

  /** A head is accepted by the two bitmaps exactly when it is outstanding. */
  lemma BitmapsAcceptHeads(v: View, head: nat)
    requires Consistent(v)
    ensures Bitmap.Has(v.inUse, head) && Bitmap.Has(v.isHead, head) <==> head in v.posted
  {
  }
}
