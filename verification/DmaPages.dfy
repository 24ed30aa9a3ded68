/** The page allocator behind the driver's DMA memory, and who owns each buffer. */
module DmaPages {
  import opened Words
  import opened Slots

  const PAGE_SIZE: nat := 0x1000

  function Bytes(pages: nat): nat {
    pages * 0x1000
  }

  /** Align a size up to a page. */
  function AlignUp(size: nat): (r: nat)
    ensures size <= r < size + PAGE_SIZE && r % PAGE_SIZE == 0
  {
    size - size % PAGE_SIZE + (if size % PAGE_SIZE != 0 then PAGE_SIZE else 0)
  }

  predicate Apart(a: nat, m: nat, b: nat, n: nat) {
    a + m <= b || b + n <= a
  }

  /** The run of `n` bytes at `a` is apart from the live allocations. */
  predicate Vacant(live: map<nat, nat>, a: nat, n: nat) {
    a !in live && forall b | b in live :: Apart(a, n, b, live[b])
  }

  /** Hands out runs of pages that are not in use, and takes them back. */
  class PageAllocator {
    /** The live allocations: first address and number of bytes. */
    var live: map<nat, nat>

    constructor ()
      ensures live == map[]
    {
      live := map[];
    }

    /** The run of pages `place` offers, if it is apart from the live ones. */
    method AllocPages(pages: nat, place: Option<nat>) returns (r: Option<nat>)
      requires pages > 0
      modifies this
      ensures r == if place.Some? && Vacant(old(live), place.value, Bytes(pages)) then place else None
      ensures live == if r.Some? then old(live)[r.value := Bytes(pages)] else old(live)
    {
      if place.Some? && Vacant(live, place.value, Bytes(pages)) {
        live := live[place.value := Bytes(pages)];
        r := place;
      } else {
        r := None;
      }
    }

    /** Freeing what is not live, or another size than was allocated, is an error of
        the caller. */
    method FreePages(addr: nat, pages: nat)
      requires addr in live && live[addr] == Bytes(pages)
      modifies this
      ensures live == old(live) - {addr}
    {
      live := live - {addr};
    }
  }

  datatype Region = Region(addr: nat, size: nat)

  /** A chain of one of the driver's queues. */
  datatype Place = Place(queue: nat, head: nat)

  type Postings = seq<map<nat, Posting>>

  ghost function Put(posted: Postings, i: nat, h: nat, p: Posting): Postings
    requires i < |posted|
  {
    var m: map<nat, Posting> := posted[i][h := p];
    posted[i := m]
  }

  ghost function Take(posted: Postings, i: nat, h: nat): Postings
    requires i < |posted|
  {
    posted[i := posted[i] - {h}]
  }

  /** How many chains each queue holds. */
  ghost function Lens(posted: Postings): seq<nat> {
    seq(|posted|, i requires 0 <= i < |posted| => |posted[i]|)
  }

  lemma LensAt(posted: Postings, i: nat)
    requires i < |posted|
    ensures |Lens(posted)| == |posted| && Lens(posted)[i] == |posted[i]|
  {
  }

  lemma LensQueue(posted: Postings)
    ensures Lens(posted + [map[]]) == Lens(posted) + [0]
  {
  }

  lemma LensPut(posted: Postings, i: nat, h: nat, p: Posting)
    requires i < |posted| && h !in posted[i]
    ensures |Lens(posted)| == |posted| && Lens(posted)[i] == |posted[i]|
    ensures Lens(Put(posted, i, h, p)) == Lens(posted)[i := Lens(posted)[i] + 1]
  {
  }

  lemma LensTake(posted: Postings, i: nat, h: nat)
    requires i < |posted| && h in posted[i]
    ensures |Lens(posted)| == |posted| && Lens(posted)[i] == |posted[i]| > 0
    ensures Lens(Take(posted, i, h)) == Lens(posted)[i := Lens(posted)[i] - 1]
  {
    assert (posted[i] - {h})[h := posted[i][h]] == posted[i];
  }

  /** Receive queues are given one page for the device to write, transmit queues one buffer
      for it to read. */
  ghost predicate OneBuffer(queue: nat, p: Posting) {
    if queue % 2 == 0 then p.g2h == [] && |p.h2g| == 1 && p.h2g[0].len == PAGE_SIZE
    else |p.g2h| == 1 && p.h2g == [] && p.g2h[0].len > 0
  }

  function TheBuffer(p: Posting): Buf {
    if p.g2h != [] then p.g2h[0] else if p.h2g != [] then p.h2g[0] else Buf(0, 0)
  }

  /** The one buffer of a posting lies inside a live allocation and is on no other chain. */
  ghost predicate OwnedAt(at: Place, p: Posting, owner: map<nat, Place>, dma: map<nat, Region>) {
    && OneBuffer(at.queue, p)
    && var b := TheBuffer(p);
       && b.addr in owner && owner[b.addr] == at
       && b.addr in dma && b.len <= dma[b.addr].size
  }

  ghost predicate Outstands(a: nat, at: Place, posted: Postings) {
    && at.queue < |posted|
    && at.head in posted[at.queue]
    && TheBuffer(posted[at.queue][at.head]).addr == a
  }

  /** `owner` says for exactly the buffers the device holds which chain holds them. */
  ghost predicate Owned(posted: Postings, owner: map<nat, Place>, dma: map<nat, Region>) {
    && (forall i, h | 0 <= i < |posted| && h in posted[i] :: OwnedAt(Place(i, h), posted[i][h], owner, dma))
    && (forall a | a in owner :: Outstands(a, owner[a], posted))
  }

  /** The driver's table and the allocator agree, and live regions do not overlap. */
  ghost predicate Backed(dma: map<nat, Region>, live: map<nat, nat>) {
    && dma.Keys == live.Keys
    && (forall a | a in dma :: dma[a].addr == a && dma[a].size == live[a] && dma[a].size % PAGE_SIZE == 0)
    && (forall a, b | a in live && b in live && a != b :: Apart(a, live[a], b, live[b]))
  }

  /** No two buffers the device holds share a byte, and none of them is freed memory. */
  lemma HeldBuffersApart(posted: Postings, owner: map<nat, Place>, dma: map<nat, Region>, live: map<nat, nat>,
                         i: nat, h: nat, j: nat, g: nat)
    requires Owned(posted, owner, dma) && Backed(dma, live)
    requires i < |posted| && h in posted[i] && j < |posted| && g in posted[j]
    requires Place(i, h) != Place(j, g)
    ensures OneBuffer(i, posted[i][h]) && OneBuffer(j, posted[j][g])
    ensures var b, c := TheBuffer(posted[i][h]), TheBuffer(posted[j][g]);
            b.addr in live && c.addr in live && Apart(b.addr, b.len, c.addr, c.len)
  {
    assert OwnedAt(Place(i, h), posted[i][h], owner, dma);
    assert OwnedAt(Place(j, g), posted[j][g], owner, dma);
  }

  lemma OwnedAfterPost(posted: Postings, owner: map<nat, Place>, dma: map<nat, Region>,
                       i: nat, h: nat, p: Posting)
    requires Owned(posted, owner, dma)
    requires i < |posted| && h !in posted[i]
    requires OneBuffer(i, p)
    requires TheBuffer(p).addr in dma && TheBuffer(p).addr !in owner && TheBuffer(p).len <= dma[TheBuffer(p).addr].size
    ensures Owned(Put(posted, i, h, p), owner[TheBuffer(p).addr := Place(i, h)], dma)
  {
    var posted', owner' := Put(posted, i, h, p), owner[TheBuffer(p).addr := Place(i, h)];
    forall j, g | 0 <= j < |posted'| && g in posted'[j]
      ensures OwnedAt(Place(j, g), posted'[j][g], owner', dma)
    {
      if Place(j, g) != Place(i, h) {
        assert OwnedAt(Place(j, g), posted[j][g], owner, dma);
      }
    }
    forall a | a in owner'
      ensures Outstands(a, owner'[a], posted')
    {
      if a in owner {
        assert Outstands(a, owner[a], posted);
      }
    }
  }

  lemma OwnedAfterReturn(posted: Postings, owner: map<nat, Place>, dma: map<nat, Region>, i: nat, h: nat)
    requires Owned(posted, owner, dma)
    requires i < |posted| && h in posted[i]
    ensures OwnedAt(Place(i, h), posted[i][h], owner, dma)
    ensures Owned(Take(posted, i, h), owner - {TheBuffer(posted[i][h]).addr}, dma)
  {
    var posted', addr := Take(posted, i, h), TheBuffer(posted[i][h]).addr;
    assert OwnedAt(Place(i, h), posted[i][h], owner, dma);
    forall j, g | 0 <= j < |posted'| && g in posted'[j]
      ensures OwnedAt(Place(j, g), posted'[j][g], owner - {addr}, dma)
    {
      OtherStaysOwned(Place(j, g), posted[j][g], owner, dma, addr);
    }
    forall a | a in owner - {addr}
      ensures Outstands(a, owner[a], posted')
    {
      assert Outstands(a, owner[a], posted);
      assert owner[a] != Place(i, h);
    }
  }

  lemma OtherStaysOwned(at: Place, p: Posting, owner: map<nat, Place>, dma: map<nat, Region>, addr: nat)
    requires OwnedAt(at, p, owner, dma)
    requires addr in owner ==> owner[addr] != at
    ensures OwnedAt(at, p, owner - {addr}, dma)
  {
  }

  lemma OwnedAfterAlloc(posted: Postings, owner: map<nat, Place>, dma: map<nat, Region>, a: nat, r: Region)
    requires Owned(posted, owner, dma) && a !in dma
    ensures Owned(posted, owner, dma[a := r]) && a !in owner
  {
  }

  lemma OwnedAfterFree(posted: Postings, owner: map<nat, Place>, dma: map<nat, Region>, a: nat)
    requires Owned(posted, owner, dma) && a !in owner
    ensures Owned(posted, owner, dma - {a})
  {
  }

  lemma WholePages(size: nat)
    requires size % PAGE_SIZE == 0
    ensures Bytes(size / PAGE_SIZE) == size
  {
  }

  lemma BackedAfterAlloc(dma: map<nat, Region>, live: map<nat, nat>, a: nat, size: nat)
    requires Backed(dma, live) && Vacant(live, a, size) && size % PAGE_SIZE == 0
    ensures a !in dma && Backed(dma[a := Region(a, size)], live[a := size])
  {
  }

  /** An entry of the table is one live allocation, and may be freed as such. */
  lemma BackedAfterFree(dma: map<nat, Region>, live: map<nat, nat>, a: nat)
    requires Backed(dma, live) && a in dma
    ensures a in live && dma[a].addr == a && live[a] == Bytes(dma[a].size / PAGE_SIZE)
    ensures Backed(dma - {a}, live - {a})
  {
  }

  /** A new queue holds nothing. */
  lemma OwnedAfterQueue(posted: Postings, owner: map<nat, Place>, dma: map<nat, Region>)
    requires Owned(posted, owner, dma)
    ensures Owned(posted + [map[]], owner, dma)
  {
  }
}
