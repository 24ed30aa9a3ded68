/** How the slots of one descriptor table are divided between the free list and
    the outstanding chains, and how both are threaded through the `next` links. */
module Slots {
  import opened Words

  datatype Buf = Buf(addr: nat, len: u32)
  datatype Flags = Flags(next: bool, write: bool)

  /** What the driver programs into one descriptor, in the shared table and in its
      private shadow alike. */
  datatype Descriptor = Descriptor(addr: nat, len: u32, flags: Flags, next: u16)

  /** The buffers one call of `add` offers to the device. */
  datatype Posting = Posting(g2h: seq<Buf>, h2g: seq<Buf>) {
    function Bufs(): seq<Buf> {
      g2h + h2g
    }
  }

  /** Where a slot is: at a position of the free list or of a chain. */
  datatype Loc = Free(pos: nat) | InChain(head: nat, pos: nat)

  type Chains = map<nat, seq<nat>>

  ghost predicate FreeSlots(free: seq<nat>, loc: seq<Loc>) {
    forall k | 0 <= k < |free| :: free[k] < |loc| && loc[free[k]] == Free(k)
  }

  ghost predicate ChainSlots(h: nat, chain: seq<nat>, loc: seq<Loc>) {
    && |chain| > 0
    && chain[0] == h
    && forall k | 0 <= k < |chain| :: chain[k] < |loc| && loc[chain[k]] == InChain(h, k)
  }

  ghost predicate Placed(i: nat, free: seq<nat>, chains: Chains, loc: seq<Loc>)
    requires i < |loc|
  {
    match loc[i]
    case Free(k) => k < |free| && free[k] == i
    case InChain(h, k) => h in chains && k < |chains[h]| && chains[h][k] == i
  }

  /** The free list and the chains partition the slots below `|loc|`. */
  ghost predicate Partition(free: seq<nat>, chains: Chains, loc: seq<Loc>) {
    && FreeSlots(free, loc)
    && (forall h | h in chains :: ChainSlots(h, chains[h], loc))
    && (forall i | 0 <= i < |loc| :: Placed(i, free, chains, loc))
  }

  /** Slot `k - 1` of the run links to slot `k`. */
  ghost predicate Follows(slots: seq<nat>, k: nat, table: seq<Descriptor>)
    requires 0 < k < |slots|
  {
    slots[k - 1] < |table| && table[slots[k - 1]].next == slots[k]
  }

  /** Each slot's `next` names the following slot; the last link dangles. */
  ghost predicate Linked(slots: seq<nat>, table: seq<Descriptor>) {
    forall k | 0 < k < |slots| :: Follows(slots, k, table)
  }

  /** Slot `i` holds `buf`, whose position in its chain is `k` of `n`. */
  ghost predicate HoldsAt(i: nat, buf: Buf, k: nat, n: nat, readable: nat, table: seq<Descriptor>) {
    && i < |table|
    && Buf(table[i].addr, table[i].len) == buf
    && table[i].flags == Flags(k < n - 1, k >= readable)
  }

  /** The table entries along `chain` hold the buffers `bufs`, in order; the first
      `readable` of them are for the device to read. */
  ghost predicate Holds(chain: seq<nat>, bufs: seq<Buf>, readable: nat, table: seq<Descriptor>) {
    && |chain| == |bufs| > 0
    && forall k | 0 <= k < |chain| :: HoldsAt(chain[k], bufs[k], k, |chain|, readable, table)
  }

  /** The sum of the buffer lengths, as `u32::saturating_add` computes it. */
  function SaturatedLength(bufs: seq<Buf>): u32 {
    if bufs == [] then 0
    else SaturatingAdd32(SaturatedLength(bufs[..|bufs| - 1]), bufs[|bufs| - 1].len)
  }

  function TotalLength(bufs: seq<Buf>): nat {
    if bufs == [] then 0 else TotalLength(bufs[..|bufs| - 1]) + bufs[|bufs| - 1].len
  }

  /** Saturation only ever caps the true total. */
  lemma {:induction false} SaturatedLengthIsCappedTotal(bufs: seq<Buf>)
    ensures SaturatedLength(bufs) == Min(TotalLength(bufs), TWO_32 - 1)
  {
    if bufs != [] {
      SaturatedLengthIsCappedTotal(bufs[..|bufs| - 1]);
    }
  }

  /** `loc` after the first `n` free slots became a chain. */
  ghost function TakeLoc(loc: seq<Loc>, head: nat, n: nat): (r: seq<Loc>)
    ensures |r| == |loc|
    ensures forall i | 0 <= i < |loc| ::
              r[i] == match loc[i]
                      case Free(k) => if k < n then InChain(head, k) else Free(k - n)
                      case InChain(_, _) => loc[i]
  {
    seq(|loc|, i requires 0 <= i < |loc| =>
      match loc[i]
      case Free(k) => if k < n then InChain(head, k) else Free(k - n)
      case InChain(_, _) => loc[i])
  }

  /** `loc` after chain `head` of length `n` was pushed in front of the free list. */
  ghost function GiveLoc(loc: seq<Loc>, head: nat, n: nat): (r: seq<Loc>)
    ensures |r| == |loc|
    ensures forall i | 0 <= i < |loc| ::
              r[i] == match loc[i]
                      case Free(k) => Free(k + n)
                      case InChain(h, k) => if h == head then Free(k) else loc[i]
  {
    seq(|loc|, i requires 0 <= i < |loc| =>
      match loc[i]
      case Free(k) => Free(k + n)
      case InChain(h, k) => if h == head then Free(k) else loc[i])
  }

  lemma TakeKeepsPartition(free: seq<nat>, chains: Chains, loc: seq<Loc>, n: nat)
    requires Partition(free, chains, loc)
    requires 0 < n <= |free|
    ensures free[0] !in chains
    ensures Partition(free[n..], chains[free[0] := free[..n]], TakeLoc(loc, free[0], n))
  {
    var head, loc' := free[0], TakeLoc(loc, free[0], n);
    var chains' := chains[head := free[..n]];
    assert loc[head] == Free(0);
    assert head in chains ==> ChainSlots(head, chains[head], loc);
    forall h | h in chains'
      ensures ChainSlots(h, chains'[h], loc')
    {
      if h != head {
        assert ChainSlots(h, chains[h], loc);
      }
    }
    forall i | 0 <= i < |loc|
      ensures Placed(i, free[n..], chains', loc')
    {
      assert Placed(i, free, chains, loc);
    }
  }

  lemma GivePlaces(free: seq<nat>, chains: Chains, loc: seq<Loc>, head: nat, i: nat)
    requires head in chains && ChainSlots(head, chains[head], loc)
    requires i < |loc| && Placed(i, free, chains, loc)
    ensures Placed(i, chains[head] + free, chains - {head}, GiveLoc(loc, head, |chains[head]|))
  {
  }

  lemma GiveFrees(free: seq<nat>, chain: seq<nat>, loc: seq<Loc>, head: nat)
    requires FreeSlots(free, loc) && ChainSlots(head, chain, loc)
    ensures FreeSlots(chain + free, GiveLoc(loc, head, |chain|))
  {
  }

  lemma GiveKeepsPartition(free: seq<nat>, chains: Chains, loc: seq<Loc>, head: nat)
    requires Partition(free, chains, loc)
    requires head in chains
    ensures Partition(chains[head] + free, chains - {head}, GiveLoc(loc, head, |chains[head]|))
  {
    var loc' := GiveLoc(loc, head, |chains[head]|);
    var chains' := chains - {head};
    GiveFrees(free, chains[head], loc, head);
    forall h | h in chains'
      ensures ChainSlots(h, chains'[h], loc')
    {
      assert ChainSlots(h, chains[h], loc);
    }
    forall i | 0 <= i < |loc|
      ensures Placed(i, chains[head] + free, chains', loc')
    {
      GivePlaces(free, chains, loc, head, i);
    }
  }

  lemma ChainAndFreeDistinct(free: seq<nat>, chains: Chains, loc: seq<Loc>, head: nat)
    requires Partition(free, chains, loc)
    requires head in chains
    ensures Injective(chains[head] + free)
    ensures forall i | 0 <= i < |chains[head] + free| :: (chains[head] + free)[i] < |loc|
  {
  }

  /** A chain and the free list share no slot, so both fit in the table. */
  lemma ChainFits(free: seq<nat>, chains: Chains, loc: seq<Loc>, head: nat)
    requires Partition(free, chains, loc)
    requires head in chains
    ensures |chains[head]| + |free| <= |loc|
  {
    ChainAndFreeDistinct(free, chains, loc, head);
    InjectiveBound(chains[head] + free, |loc|);
  }

  /** The slots that lie on some chain. */
  ghost function ChainedSlots(loc: seq<Loc>): set<nat> {
    set i | 0 <= i < |loc| && loc[i].InChain?
  }

  /** The chained slots are exactly the slots that are not free. */
  lemma ChainedCardinality(free: seq<nat>, chains: Chains, loc: seq<Loc>)
    requires Partition(free, chains, loc)
    ensures |ChainedSlots(loc)| == |loc| - |free|
  {
    forall i, j | 0 <= i < j < |free|
      ensures free[i] != free[j]
    {
      assert loc[free[i]] == Free(i) && loc[free[j]] == Free(j);
    }
    InjectiveCardinality(free);
    var chained, freed := ChainedSlots(loc), Elements(free);
    assert chained !! freed;
    forall i: nat | i < |loc|
      ensures i in chained + freed
    {
      assert Placed(i, free, chains, loc);
    }
    assert chained + freed == Below(|loc|);
  }
}
