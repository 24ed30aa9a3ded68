/** The virtio console driver: which memory it lends to the device, and when it takes
    that memory back. */
module VirtioSerial {
  import opened Words
  import opened Slots
  import opened QueueState
  import opened QueueHistory
  import opened VirtQueues
  import opened DmaPages
  import opened ConsoleWorld
  import Bitmap

  const RX_QUEUE_PREFILL_NUM: nat := 16
  const DEFAULT_BUF_SIZE: nat := 0x1000
  const CONTROL_RECEIVEQ: nat := 2
  const CONTROL_TRANSMITQ: nat := 3
  const NUM_QUEUES: nat := 6

  datatype SerialError =
    | Virtio(error: VirtioError)
    | BadParameter
    | OutOfResource
    | Device
    | Timeout
    | PortNotAvailable(port: u32)
    | PortAlreadyUsed(used: u32)
    | NoData
    | NoQueue // where the source panics: the port's queue index is out of range

  /** The receive queue of a port: its number is cut to 16 bits, and the sum saturates. */
  function PortQueueIndex(port: u32): (i: u16)
    ensures i < NUM_QUEUES <==> port % TWO_16 <= 1
    ensures i < NUM_QUEUES ==> i % 2 == 0
    ensures i == CONTROL_RECEIVEQ <==> port != 0 && port % TWO_16 == 0
    ensures port < MAX_PORT_SUPPORTED ==> i + 1 < NUM_QUEUES && i != CONTROL_RECEIVEQ
  {
    if port == 0 then 0 else Min(2 + Min(2 * (port % TWO_16), TWO_16 - 1), TWO_16 - 1)
  }

  /** The queue is there, is no control queue, and no supported port but this one has it. */
  ghost predicate OwnQueue(port: u32) {
    && PortQueueIndex(port) < NUM_QUEUES && PortQueueIndex(port) != CONTROL_RECEIVEQ
    && forall other: u32 | other < MAX_PORT_SUPPORTED && other != port :: PortQueueIndex(other) != PortQueueIndex(port)
  }

  /** Exactly the supported ports have a queue of their own. */
  lemma OwnQueueExactly(port: u32)
    ensures OwnQueue(port) <==> port < MAX_PORT_SUPPORTED
  {
    assert PortQueueIndex(0) == 0 && PortQueueIndex(1) == 4;
    if port >= MAX_PORT_SUPPORTED && port % TWO_16 == 1 {
      assert PortQueueIndex(port) == PortQueueIndex(1);
    }
  }

  /** Port 0x1_0000 gets the control queue, and port 0x1_0001 that of port 1. */
  lemma AliasedPorts()
    ensures PortQueueIndex(0x1_0000) == CONTROL_RECEIVEQ
    ensures PortQueueIndex(0x1_0001) == PortQueueIndex(1)
  {
  }

  /** The ports connected after a control message, whether or not answering it works. */
  function PortsAfter(msg: seq<byte>, maxNrPorts: u32, connected: set<u32>): set<u32> {
    if |msg| < 8 then connected
    else
      var port: u32 := Le32(msg[0], msg[1], msg[2], msg[3]);
      if port >= maxNrPorts || port >= MAX_PORT_SUPPORTED then connected
      else match EventOf(Le16(msg[4], msg[5]))
        case DeviceRemove => connected - {port}
        case PortOpen => if Le16(msg[6], msg[7]) == 1 then connected + {port} else connected
        case _ => connected
  }

  /** The ports are among those the driver has queues for. */
  ghost predicate Supported(ports: set<u32>) {
    forall port | port in ports :: port < MAX_PORT_SUPPORTED
  }

  lemma PortsStaySupported(msg: seq<byte>, maxNrPorts: u32, connected: set<u32>)
    requires Supported(connected)
    ensures Supported(PortsAfter(msg, maxNrPorts, connected))
  {
  }

  /** The device completes what it is sent, and holds no more receive buffers than the driver
      counts. */
  ghost predicate Level(lens: seq<nat>, prefill: seq<nat>) {
    && |lens| == NUM_QUEUES && |prefill| == 3
    && lens[1] == lens[3] == lens[5] == 0
    && lens[0] <= prefill[0] <= QUEUE_SIZE && lens[2] <= prefill[1] <= QUEUE_SIZE
    && lens[4] <= prefill[2] <= QUEUE_SIZE
  }

  ghost predicate AllZero(s: seq<nat>) {
    forall k | 0 <= k < |s| :: s[k] == 0
  }

  /** A control message as it goes over the wire. */
  function ControlBytes(id: u32, event: u16, value: u16): (s: seq<byte>)
    ensures |s| == 8
  {
    Bytes32(id) + Bytes16(event) + Bytes16(value)
  }

  /** The counter of a receive queue after it was topped up. */
  function Refilled(prefill: seq<nat>, k: nat): seq<nat>
    requires k < |prefill|
  {
    if prefill[k] > RX_QUEUE_PREFILL_NUM / 2 then prefill else prefill[k := RX_QUEUE_PREFILL_NUM]
  }

  type PortData = map<u32, seq<seq<byte>>>

  predicate HasData(queues: PortData, port: u32) {
    port in queues && queues[port] != []
  }

  /** Without the oldest data of a port. */
  function Popped(queues: PortData, port: u32): (r: PortData)
    requires HasData(queues, port)
    ensures r.Keys == queues.Keys && queues[port] == [queues[port][0]] + r[port]
  {
    queues[port := queues[port][1..]]
  }

  /** The memory held after a call: a refused add leaves what was allocated for it behind, and
      nothing else does. */
  ghost predicate Kept<T>(r: Result<T, SerialError>, was: set<nat>, now: set<nat>) {
    if r.Err? && r.error == Virtio(BufferTooSmall) then exists a :: a !in was && now == was + {a}
    else now == was
  }

  lemma NothingKept<T>(r: Result<T, SerialError>, was: set<nat>)
    requires r.Ok? || r.error != Virtio(BufferTooSmall)
    ensures Kept(r, was, was)
  {
  }

  lemma KeptWithout<T>(r: Result<T, SerialError>, was: set<nat>, addr: nat, now: set<nat>)
    requires addr !in was && Kept(r, was + {addr}, now)
    ensures Kept(r, was, now - {addr}) && was <= now - {addr} && addr in now
    ensures r.Ok? ==> now - {addr} == was
  {
    if r.Err? && r.error == Virtio(BufferTooSmall) {
      var a :| a !in was + {addr} && now == was + {addr} + {a};
      assert now - {addr} == was + {a};
    } else {
      assert now - {addr} == was;
    }
  }

  /** Since `was` the queue was offered one buffer of `len` bytes to read, and returned one. */
  ghost predicate SentAndAnswered(was: seq<Event>, log: seq<Event>, len: nat) {
    && |log| == |was| + 2 && log[..|was|] == was
    && log[|was|].Added? && log[|was|].posting.h2g == []
    && |log[|was|].posting.g2h| == 1 && log[|was|].posting.g2h[0].len == len
    && log[|was| + 1].Returned?
  }

  lemma SendAndAnswer(was: seq<Event>, h: nat, b: Buf, e: Event)
    requires e.Returned?
    ensures SentAndAnswered(was, was + [Added(h, Posting([b], []))] + [e], b.len)
  {
  }

  /** What a completed chain gives back. */
  lemma ReturnFacts(posted: Postings, owner: map<nat, Place>, dma: map<nat, Region>, i: nat, h: nat)
    requires Owned(posted, owner, dma) && i < |posted| && h in posted[i]
    ensures OneBuffer(i, posted[i][h])
    ensures var b := TheBuffer(posted[i][h]);
            && b.addr in owner && b.addr in dma && b.len <= dma[b.addr].size
            && SaturatedLength(posted[i][h].Bufs()) == b.len
            && Owned(Take(posted, i, h), owner - {b.addr}, dma)
  {
    OwnedAfterReturn(posted, owner, dma, i, h);
    assert posted[i][h].Bufs() == [TheBuffer(posted[i][h])];
  }

  /** The queue is sound, of the driver's size, and holds just these chains, of one buffer each. */
  ghost predicate QueueHolds(q: VirtQueue, chains: map<nat, Posting>)
    reads q
  {
    q.Valid() && q.view.posted == chains && q.queueSize == QUEUE_SIZE && Singles(q.log)
  }

  lemma SizeIsPower()
    ensures IsPowerOfTwo(QUEUE_SIZE)
  {
  }

  lemma FreshQueue(q: VirtQueue)
    requires q.Valid() && q.log == [] && q.queueSize == QUEUE_SIZE
    ensures QueueHolds(q, map[])
  {
    hide Consistent, Legal;
  }

  /** Adds one buffer: it is refused exactly if every slot of the queue is on a chain. */
  method AddOne(q: VirtQueue, ghost chains: map<nat, Posting>, g2h: seq<Buf>, h2g: seq<Buf>)
    returns (r: Result<u16, VirtioError>)
    requires QueueHolds(q, chains) && |g2h + h2g| == 1
    modifies q
    ensures r.Err? <==> |chains| >= QUEUE_SIZE
    ensures r.Err? ==> r.error == BufferTooSmall && QueueHolds(q, chains) && q.log == old(q.log)
    ensures r.Ok? ==> r.value !in chains && QueueHolds(q, chains[r.value := Posting(g2h, h2g)])
                      && q.log == old(q.log) + [Added(r.value, Posting(g2h, h2g))]
  {
    hide Consistent, Legal, Posted, Holds, InFlight, Outstanding;
    InFlightCountsHeads(q.log);
    r := q.Add(g2h, h2g);
  }

  /** The bitmap of heads shows the chains. */
  lemma HeadsAreBits(q: VirtQueue, chains: map<nat, Posting>)
    requires QueueHolds(q, chains)
    ensures forall h: nat :: Bitmap.Has(q.isHead, h) <==> h in chains
    ensures q.isHead == 0 <==> |chains| == 0
  {
    hide Legal;
    assert q.view.chains.Keys == q.view.posted.Keys;
    if q.isHead != 0 {
      LowestIsHeld(q.isHead);
      assert LowestBit(q.isHead) in chains;
    }
    if |chains| != 0 {
      var h :| h in chains;
      assert Bitmap.Has(q.isHead, h);
      ZeroHasNone(q.isHead, h);
    }
  }

  /** The ring completes a chain of queue `i`. */
  ghost predicate CompletesFor(i: nat, q: VirtQueue, used: Ring)
    reads q
  {
    Completes(i, used, q.lastUsedIdx, q.isHead)
  }

  /** Takes one completed buffer from a queue. */
  method PopOne(ghost i: nat, q: VirtQueue, ghost chains: map<nat, Posting>, used: Ring)
    returns (r: Result<u32, VirtioError>, g2h: seq<Buf>, h2g: seq<Buf>, ghost head: nat)
    requires QueueHolds(q, chains)
    modifies q
    ensures r.Err? ==> r.error == NotReady || r.error == InvalidDescriptor
    ensures r.Err? ==> QueueHolds(q, chains) && q.log == old(q.log) && g2h == h2g == []
    ensures old(CompletesFor(i, q, used)) ==> r.Ok?
    ensures r.Ok? ==> head in chains && chains[head] == Posting(g2h, h2g) && QueueHolds(q, chains - {head})
                      && r.value <= SaturatedLength(g2h + h2g)
                      && (old(CompletesFor(i, q, used)) && i % 2 == 0 && SaturatedLength(g2h + h2g) > 0 ==> r.value > 0)
                      && q.log == old(q.log) + [Returned(head, Posting(g2h, h2g), r.value)]
  {
    hide Consistent, Legal, Recycled, SaturatedLength, InFlight, Outstanding;
    HeadsAreBits(q, chains);
    r, g2h, h2g, head := q.PopUsed(used, [], []);
    if r.Ok? {
      assert chains[head] == Posting(g2h, h2g);
      SinglePosting(old(q.log), head);
    }
  }

  class VirtioSerial {
    const world: World
    const allocator: PageAllocator
    /** How many questions the world has answered. */
    var clock: nat
    var queues: seq<VirtQueue>
    var dmaAllocation: map<nat, Region>
    var prefill: seq<nat>
    var maxNrPorts: u32
    var connectedPorts: set<u32>
    var allocatedPorts: set<u32>
    var receiveQueues: PortData

    ghost var posted: Postings
    ghost var owner: map<nat, Place>
    ghost var rings: Option<nat>
    /** How many chains each queue holds. */
    ghost var held: seq<nat>

    ghost predicate QueuesValid()
      reads this`queues, this`posted, queues
    {
      && |posted| == |queues|
      && (forall i | 0 <= i < |queues| :: QueueHolds(queues[i], posted[i]))
      && (forall i, j | 0 <= i < j < |queues| :: queues[i] != queues[j])
    }

    /** Every buffer on a queue is live memory on no other chain; the memory of the rings
        is live and on no chain. */
    ghost predicate Valid()
      reads this`queues, this`dmaAllocation, this`posted, this`held, this`owner, this`rings, queues, allocator
    {
      && |posted| == |queues| == |held| && held == Lens(posted)
      && QueuesValid()
      && Owned(posted, owner, dmaAllocation)
      && Backed(dmaAllocation, allocator.live)
      && (rings.Some? ==> rings.value in dmaAllocation && rings.value !in owner)
    }

    /** The memory that the driver holds and the device does not. */
    ghost function Mine(): (s: set<nat>)
      reads this`dmaAllocation, this`owner, this`rings
      ensures forall a: nat :: a in s <==> a in dmaAllocation && a !in owner && rings != Some(a)
    {
      dmaAllocation.Keys - owner.Keys - (if rings.Some? then {rings.value} else {})
    }

    constructor (world: World, allocator: PageAllocator)
      requires allocator.live == map[]
      ensures Valid() && this.world == world && this.allocator == allocator
      ensures queues == [] && prefill == [] && rings.None? && receiveQueues == map[]
      ensures Mine() == {} && connectedPorts == allocatedPorts == {}
    {
      this.world, this.allocator, clock := world, allocator, 0;
      queues, dmaAllocation, prefill, maxNrPorts := [], map[], [], 0;
      connectedPorts, allocatedPorts, receiveQueues := {}, {}, map[];
      posted, held, owner, rings := [], [], map[], None;
    }

    /** All that the world has answered so far is good. */
    ghost predicate Served()
      reads this`clock
    {
      Good(world, clock)
    }

    /** As long as the world serves well the queues are level. */
    ghost predicate Steady()
      reads this`held, this`prefill, this`clock
    {
      Served() ==> Level(held, prefill)
    }

    /** Whether an access works. */
    method Access() returns (ok: bool)
      modifies this`clock
      ensures ok == world.works(old(clock))
      ensures Served() ==> old(Served()) && ok
      ensures old(Steady()) ==> Steady()
    {
      hide Good;
      if Good(world, clock + 1) {
        GoodNext(world, clock);
      }
      ok, clock := world.works(clock), clock + 1;
    }

    /** Whether what is waited for comes before the timer runs out. */
    method Wait() returns (ok: bool)
      modifies this`clock
      ensures ok == world.ends(old(clock))
      ensures Served() ==> old(Served()) && ok
      ensures old(Steady()) ==> Steady()
    {
      hide Good;
      if Good(world, clock + 1) {
        GoodNext(world, clock);
      }
      ok, clock := world.ends(clock), clock + 1;
    }

    /** What memory lent to the device holds. */
    method DeviceBytes(n: nat) returns (s: seq<byte>)
      modifies this`clock
      ensures s == Fit(world.bytes(old(clock), n), n)
      ensures Served() ==> old(Served())
      ensures old(Steady()) ==> Steady()
      ensures Served() && n >= 8 && world.ports == Some(maxNrPorts) ==> Proper(s, maxNrPorts)
    {
      hide Good;
      if Good(world, clock + 1) {
        GoodBytes(world, clock, n);
      }
      s, clock := Fit(world.bytes(clock, n), n), clock + 1;
    }

    /** Whether queue `i` has something new. */
    method CanPop(i: nat) returns (more: bool)
      requires Valid() && i < |queues|
      modifies this`clock
      ensures Served() ==> old(Served()) && (more ==> held[i] > 0)
      ensures old(Steady()) ==> Steady()
    {
      hide Good, Owned, Backed, Lens, QueueHolds;
      var q := queues[i];
      var used := world.looks(clock, q.lastUsedIdx, q.isHead);
      HeadsAreBits(q, posted[i]);
      LensAt(posted, i);
      if Good(world, clock + 1) {
        GoodLooks(world, clock, q.lastUsedIdx, q.isHead);
      }
      clock := clock + 1;
      more := q.CanPop(used);
    }

    method AllocateDmaMemory(size: nat) returns (r: Option<Region>)
      requires Valid() && size > 0
      modifies this`dmaAllocation, this`clock, allocator
      ensures Valid()
      ensures Served() ==> old(Served()) && r.Some?
      ensures r.None? ==> dmaAllocation == old(dmaAllocation)
      ensures r.Some? ==> r.value.addr !in old(dmaAllocation) && r.value.size == AlignUp(size)
      ensures r.Some? ==> dmaAllocation == old(dmaAllocation)[r.value.addr := r.value]
      ensures r.Some? ==> r.value.addr in Mine()
    {
      hide QueueHolds, Owned, Backed, Lens, Good;
      var dmaSize := AlignUp(size);
      WholePages(dmaSize);
      var place := world.places(clock, allocator.live, Bytes(dmaSize / PAGE_SIZE));
      if Good(world, clock + 1) {
        GoodPlaces(world, clock, allocator.live, Bytes(dmaSize / PAGE_SIZE));
      }
      clock := clock + 1;
      var addr := allocator.AllocPages(dmaSize / PAGE_SIZE, place);
      if addr.None? {
        return None;
      }
      BackedAfterAlloc(dmaAllocation, old(allocator.live), addr.value, dmaSize);
      OwnedAfterAlloc(posted, owner, dmaAllocation, addr.value, Region(addr.value, dmaSize));
      dmaAllocation := dmaAllocation[addr.value := Region(addr.value, dmaSize)];
      r := Some(Region(addr.value, dmaSize));
    }

    /** Give memory back. The caller must not pass memory the device still holds. */
    method FreeDmaMemory(addr: nat) returns (r: Option<nat>)
      requires Valid()
      requires addr !in owner && rings != Some(addr)
      modifies this`dmaAllocation, allocator
      ensures Valid()
      ensures r == if addr in old(dmaAllocation) then Some(addr) else None
      ensures dmaAllocation == old(dmaAllocation) - {addr} && Mine() == old(Mine()) - {addr}
    {
      hide QueueHolds, Owned, Backed, Lens;
      if addr !in dmaAllocation {
        return None;
      }
      var record := dmaAllocation[addr];
      OwnedAfterFree(posted, owner, dmaAllocation, addr);
      BackedAfterFree(dmaAllocation, allocator.live, addr);
      allocator.FreePages(record.addr, record.size / PAGE_SIZE);
      dmaAllocation := dmaAllocation - {addr};
      r := Some(addr);
    }

    /** Put one buffer on queue `i`. */
    method AddTo(i: nat, g2h: seq<Buf>, h2g: seq<Buf>) returns (r: Result<u16, VirtioError>)
      requires Valid() && i < |queues|
      requires OneBuffer(i, Posting(g2h, h2g))
      requires TheBuffer(Posting(g2h, h2g)).addr in Mine()
      requires TheBuffer(Posting(g2h, h2g)).len <= dmaAllocation[TheBuffer(Posting(g2h, h2g)).addr].size
      modifies this`posted, this`held, this`owner, queues[i]
      ensures Valid()
      ensures r.Err? <==> old(held)[i] >= QUEUE_SIZE
      ensures r.Ok? ==> held == old(held)[i := old(held)[i] + 1]
      ensures r.Err? ==> r.error == BufferTooSmall && posted == old(posted) && held == old(held) && owner == old(owner)
      ensures r.Ok? ==> r.value !in old(posted)[i] && posted == Put(old(posted), i, r.value, Posting(g2h, h2g))
      ensures r.Ok? ==> owner == old(owner)[TheBuffer(Posting(g2h, h2g)).addr := Place(i, r.value)]
      ensures queues[i].log == if r.Ok? then old(queues[i].log) + [Added(r.value, Posting(g2h, h2g))]
                               else old(queues[i].log)
    {
      hide QueueHolds, Owned, Backed, Lens;
      ghost var p := Posting(g2h, h2g);
      LensAt(posted, i);
      r := AddOne(queues[i], posted[i], g2h, h2g);
      if r.Ok? {
        LensPut(posted, i, r.value, p);
        held := held[i := held[i] + 1];
        OwnedAfterPost(posted, owner, dmaAllocation, i, r.value, p);
        posted := Put(posted, i, r.value, p);
        owner := owner[TheBuffer(p).addr := Place(i, r.value)];
      }
    }

    /** The ring of queue `i` as a pop reads it. */
    method NextRing(i: nat) returns (used: Ring)
      requires Valid() && i < |queues|
      modifies this`clock
      ensures Served() ==> old(Served())
      ensures Served() && held[i] > 0 ==> CompletesFor(i, queues[i], used)
    {
      hide Good, Owned, Backed, Lens, QueueHolds, Completes;
      var q := queues[i];
      used := world.pops(clock, i, q.lastUsedIdx, q.isHead);
      HeadsAreBits(q, posted[i]);
      LensAt(posted, i);
      if Good(world, clock + 1) {
        GoodPops(world, clock, i, q.lastUsedIdx, q.isHead);
      }
      clock := clock + 1;
    }

    /** Take one completed buffer from queue `i`; it is the driver's again. */
    method PopFrom(i: nat)
      returns (r: Result<u32, VirtioError>, g2h: seq<Buf>, h2g: seq<Buf>, ghost head: nat)
      requires Valid() && i < |queues|
      modifies this`posted, this`held, this`owner, this`clock, queues[i]
      ensures Valid()
      ensures Served() ==> old(Served())
      ensures Served() && old(held)[i] > 0 ==> r.Ok? && (i % 2 == 0 ==> r.value > 0)
      ensures r.Ok? ==> old(held)[i] > 0
      ensures r.Ok? ==> held == old(held)[i := old(held)[i] - 1]
      ensures r.Err? ==> posted == old(posted) && held == old(held) && owner == old(owner) && g2h == h2g == []
      ensures r.Err? ==> r.error == NotReady || r.error == InvalidDescriptor
      ensures r.Ok? ==>
                && OneBuffer(i, Posting(g2h, h2g))
                && head in old(posted)[i] && old(posted)[i][head] == Posting(g2h, h2g)
                && posted == Take(old(posted), i, head)
      ensures r.Ok? ==>
                var b := TheBuffer(Posting(g2h, h2g));
                && b.addr in old(owner) && owner == old(owner) - {b.addr}
                && b.addr in Mine() && b.len <= dmaAllocation[b.addr].size
                && r.value <= b.len
      ensures queues[i].log == if r.Ok? then old(queues[i].log) + [Returned(head, Posting(g2h, h2g), r.value)]
                               else old(queues[i].log)
    {
      hide QueueHolds, Owned, Backed, Lens, SaturatedLength, Good, CompletesFor;
      var used := NextRing(i);
      r, g2h, h2g, head := PopOne(i, queues[i], posted[i], used);
      if r.Ok? {
        ReturnFacts(posted, owner, dmaAllocation, i, head);
        LensTake(posted, i, head);
        held := held[i := held[i] - 1];
        posted := Take(posted, i, head);
        owner := owner - {TheBuffer(Posting(g2h, h2g)).addr};
      }
    }

    /** The transmit queues of the ports are no other queues, and two. */
    lemma TransmitQueuesApart()
      requires Valid() && |queues| == NUM_QUEUES
      ensures queues[1] !in [queues[0], queues[2], queues[3], queues[4], queues[5]]
      ensures queues[5] !in [queues[0], queues[1], queues[2], queues[3], queues[4]]
    {
    }

    lemma HeldPerQueue()
      requires Valid()
      ensures |queues| == |posted| == |held|
    {
    }

    ghost predicate Ready()
      reads this`queues, this`prefill, this`maxNrPorts, this`dmaAllocation, this`posted, this`held, this`owner
      reads this`rings, queues, allocator
    {
      && Valid() && |queues| == |posted| == |held| == NUM_QUEUES && |prefill| == 3 && rings.Some?
      && world.ports == Some(maxNrPorts)
    }

    /** A new queue, unless the device refuses it. */
    method NewQueue() returns (r: Result<VirtQueue, SerialError>)
      modifies this`clock
      ensures Served() ==> old(Served()) && r.Ok?
      ensures r.Ok? ==> fresh(r.value) && QueueHolds(r.value, map[]) && r.value.log == []
    {
      hide QueueHolds, VirtQueue.Valid, Good;
      var selected := Access();
      if !selected {
        return Err(Virtio(Transport));
      }
      if Good(world, clock + 1) {
        GoodNext(world, clock);
      }
      var maxSize := world.maxSize(clock);
      clock := clock + 1;
      var written := Access();
      SizeIsPower();
      var created := VirtQueue.New(maxSize, [written], QUEUE_SIZE);
      if created.Err? {
        return Err(Virtio(created.error));
      }
      var enabled := Access();
      if !enabled {
        return Err(Virtio(Transport));
      }
      FreshQueue(created.value);
      r := Ok(created.value);
    }

    /** Create queue `|queues|`, unless the device refuses it. */
    method CreateQueue() returns (r: Result<(), SerialError>)
      requires Valid()
      modifies this`queues, this`posted, this`held, this`clock
      ensures Valid()
      ensures Served() ==> old(Served()) && r.Ok?
      ensures r.Err? ==> queues == old(queues) && posted == old(posted) && held == old(held)
      ensures r.Ok? ==> held == old(held) + [0]
      ensures r.Ok? ==> |queues| == |posted| == |old(queues)| + 1 && queues[..|old(queues)|] == old(queues)
      ensures r.Ok? ==> fresh(queues[|old(queues)|]) && queues[|old(queues)|].log == []
    {
      hide QueueHolds, Owned, Backed, Lens;
      var created := NewQueue();
      if created.Err? {
        return Err(created.error);
      }
      OwnedAfterQueue(posted, owner, dmaAllocation);
      LensQueue(posted);
      queues := queues + [created.value];
      posted, held := posted + [map[]], held + [0];
      r := Ok(());
    }

    /** Allocate the memory of the rings. */
    method AllocateRings() returns (r: Result<(), SerialError>)
      requires Valid() && rings.None?
      modifies this`dmaAllocation, this`rings, this`clock, allocator
      ensures Valid()
      ensures Served() ==> old(Served()) && r.Ok?
      ensures r.Ok? ==> rings.Some? && Mine() == old(Mine())
    {
      hide Good, QueueHolds, QueuesValid, Owned, Backed, Lens;
      var dma := AllocateDmaMemory(NUM_QUEUES * 0x2000);
      if dma.None? {
        return Err(OutOfResource);
      }
      rings := Some(dma.value.addr);
      r := Ok(());
    }

    /** The first `n` queues are there, and empty. */
    ghost predicate Started(n: nat)
      reads this`queues, this`prefill, this`dmaAllocation, this`posted, this`held, this`owner, this`rings
      reads queues, allocator
    {
      && Valid() && |queues| == |posted| == |held| == n && |prefill| == (n + 1) / 2 && rings.Some?
      && AllZero(held) && AllZero(prefill) && forall k | 0 <= k < n :: queues[k].log == []
    }

    lemma StartedAll()
      requires Started(NUM_QUEUES) && world.ports == Some(maxNrPorts)
      ensures Ready() && Steady() && queues[1].log == queues[5].log == []
    {
      hide VirtioSerial.Valid, Good;
    }

    /** One turn of creating the queues. */
    method AddQueue(i: nat) returns (r: Result<(), SerialError>)
      requires Started(i)
      modifies this`queues, this`prefill, this`posted, this`held, this`clock
      ensures Valid()
      ensures Served() ==> old(Served()) && r.Ok?
      ensures r.Ok? ==> Started(i + 1) && queues[..i] == old(queues) && fresh(queues[i])
    {
      hide Good, VirtioSerial.Valid;
      ghost var before := queues;
      r := CreateQueue();
      if r.Err? {
        return;
      }
      HeldPerQueue();
      assert forall k | 0 <= k < i :: queues[k] == queues[..i][k] == before[k];
      if i % 2 == 0 {
        prefill := prefill + [0];
      }
    }

    /** Allocate the memory of the rings and create the queues. */
    method InitQueues() returns (r: Result<(), SerialError>)
      requires Valid() && queues == [] && prefill == [] && rings.None? && world.ports == Some(maxNrPorts)
      modifies this`queues, this`prefill, this`posted, this`held, this`dmaAllocation, this`rings, this`clock, allocator
      ensures Valid()
      ensures Served() ==> old(Served()) && r.Ok?
      ensures r.Ok? ==> Ready() && Steady() && fresh(queues)
      ensures r.Ok? ==> Mine() == old(Mine())
      ensures r.Ok? ==> queues[1].log == queues[5].log == []
    {
      hide Good, VirtioSerial.Valid, Mine, Level;
      r := AllocateRings();
      if r.Err? {
        return;
      }
      HeldPerQueue();
      for i := 0 to NUM_QUEUES
        modifies this`queues, this`prefill, this`posted, this`held, this`clock
        invariant Started(i) && (Served() ==> old(Served()))
        invariant fresh(queues) && Mine() == old(Mine())
      {
        hide VirtioSerial.Started;
        r := AddQueue(i);
        if r.Err? {
          return;
        }
        assert queues == queues[..i] + [queues[i]];
      }
      StartedAll();
      r := Ok(());
    }

    /** Lend `len` bytes to the device on transmit queue `i`. */
    method LendOut(i: nat, len: nat) returns (r: Result<Buf, SerialError>, ghost head: nat)
      requires Ready() && i < NUM_QUEUES && i % 2 == 1
      requires 0 < len < TWO_32
      modifies this`posted, this`held, this`owner, this`dmaAllocation, this`clock, queues[i], allocator
      ensures Ready()
      ensures held[CONTROL_RECEIVEQ] == old(held)[CONTROL_RECEIVEQ]
      ensures Kept(r, old(Mine()), Mine())
      ensures r.Err? ==> r.error == OutOfResource || r.error == Virtio(BufferTooSmall)
      ensures Served() ==> old(Served()) && r != Err(OutOfResource)
      ensures r == Err(Virtio(BufferTooSmall)) ==> old(held)[i] >= QUEUE_SIZE
      ensures r.Err? ==> held == old(held)
      ensures r.Ok? ==> held == old(held)[i := old(held)[i] + 1]
      ensures r.Ok? ==> r.value.len == len
                        && queues[i].log == old(queues[i].log) + [Added(head, Posting([r.value], []))]
    {
      hide Good, QueueHolds, QueuesValid, Owned, Backed, Lens;
      head := 0;
      var dma := AllocateDmaMemory(len);
      if dma.None? {
        return Err(OutOfResource), 0;
      }
      var b := Buf(dma.value.addr, len);
      var added := AddTo(i, [b], []);
      if added.Err? {
        assert dma.value.addr !in old(Mine()) && Mine() == old(Mine()) + {dma.value.addr};
        return Err(Virtio(added.error)), 0;
      }
      return Ok(b), added.value;
    }

    /** Take back and free whatever transmit queue `i` completes, be it an earlier buffer. */
    method FreeCompleted(i: nat) returns (r: Result<(), SerialError>, ghost e: Event)
      requires Ready() && i < NUM_QUEUES && i % 2 == 1
      modifies this`posted, this`held, this`owner, this`dmaAllocation, this`clock, queues[i], allocator
      ensures Ready()
      ensures held[CONTROL_RECEIVEQ] == old(held)[CONTROL_RECEIVEQ]
      ensures Mine() == old(Mine())
      ensures Served() ==> old(Served()) && (old(held)[i] > 0 ==> r.Ok?)
      ensures r.Ok? ==> old(held)[i] > 0
      ensures r.Ok? ==> held == old(held)[i := old(held)[i] - 1]
      ensures r.Err? ==> r.error == Virtio(NotReady) || r.error == Virtio(InvalidDescriptor)
      ensures r.Ok? ==> e.Returned? && queues[i].log == old(queues[i].log) + [e]
    {
      hide Good, QueueHolds, QueuesValid, Owned, Backed, Lens;
      e := Added(0, Posting([], []));
      var popped, g2h, h2g, head := PopFrom(i);
      if popped.Err? {
        return Err(Virtio(popped.error)), e;
      }
      e := Returned(head, Posting(g2h, h2g), popped.value);
      var freed := FreeDmaMemory(g2h[0].addr);
      if freed.None? {
        assert false;
      }
      r := Ok(());
    }

    /** Tell the device, and wait for it if there is a timer. */
    method KickAndWait(timed: bool) returns (r: Result<(), SerialError>)
      modifies this`clock
      ensures Served() ==> old(Served()) && r.Ok?
      ensures r.Err? ==> r.error != Virtio(BufferTooSmall)
      ensures !timed ==> r != Err(BadParameter) && r != Err(Timeout)
    {
      hide Good;
      var kicked := Access();
      if !kicked {
        return Err(Virtio(Transport));
      }
      if timed {
        var armed := Access();
        if !armed {
          return Err(BadParameter);
        }
        var ended := Wait();
        if !ended {
          return Err(Timeout);
        }
      }
      r := Ok(());
    }

    /** Lend `len` bytes to the device on transmit queue `i` and wait for a completion, with a
        timer if `timed`; what it completes is freed. Of the failures only a refused add leaks,
        and one allocation. */
    method Transmit(i: nat, len: nat, timed: bool) returns (r: Result<nat, SerialError>)
      requires Ready() && Steady() && i < NUM_QUEUES && i % 2 == 1
      requires 0 < len < TWO_32
      modifies this`posted, this`held, this`owner, this`dmaAllocation, this`clock, queues[i], allocator
      ensures Ready() && Steady()
      ensures Served() ==> old(Served()) && r.Ok?
      ensures held[CONTROL_RECEIVEQ] == old(held)[CONTROL_RECEIVEQ]
      ensures Kept(r, old(Mine()), Mine())
      ensures !timed ==> r != Err(BadParameter) && r != Err(Timeout)
      ensures r.Ok? ==> r.value == len && SentAndAnswered(old(queues[i].log), queues[i].log, len)
    {
      hide Good, VirtioSerial.Valid, Mine, SentAndAnswered;
      ghost var was, head, e := queues[i].log, 0, Added(0, Posting([], []));
      var lent: Result<Buf, SerialError>;
      lent, head := LendOut(i, len);
      if lent.Err? {
        return Err(lent.error);
      }
      var waited := KickAndWait(timed);
      if waited.Err? {
        return Err(waited.error);
      }
      var done: Result<(), SerialError>;
      done, e := FreeCompleted(i);
      if done.Err? {
        return Err(done.error);
      }
      assert Served() ==> held == old(held);
      SendAndAnswer(was, head, lent.value, e);
      r := Ok(len);
    }

    method SendControl(data: seq<byte>) returns (r: Result<nat, SerialError>)
      requires Ready() && Steady() && 0 < |data| < TWO_32
      modifies this`posted, this`held, this`owner, this`dmaAllocation, this`clock, queues[CONTROL_TRANSMITQ], allocator
      ensures Ready() && Steady()
      ensures Served() ==> old(Served()) && r.Ok?
      ensures held[CONTROL_RECEIVEQ] == old(held)[CONTROL_RECEIVEQ]
      ensures Kept(r, old(Mine()), Mine())
      ensures r.Ok? ==> SentAndAnswered(old(queues[CONTROL_TRANSMITQ].log), queues[CONTROL_TRANSMITQ].log, |data|)
    {
      hide Good, VirtioSerial.Valid, Mine, SentAndAnswered;
      r := Transmit(CONTROL_TRANSMITQ, |data|, true);
    }

    method Enqueue(data: seq<byte>, port: u32) returns (r: Result<nat, SerialError>)
      requires Ready() && Steady()
      modifies this`posted, this`held, this`owner, this`dmaAllocation, this`clock, allocator
      modifies queues[1], queues[5]
      ensures Ready() && Steady()
      ensures Served() ==> old(Served()) && (r.Ok? || r == Err(BadParameter))
      ensures r == Err(BadParameter) <==> data == [] || |data| >= TWO_32 || port >= MAX_PORT_SUPPORTED
      ensures r.Ok? ==> r.value == |data|
      ensures Kept(r, old(Mine()), Mine())
      ensures r.Ok? && port == 0 ==> SentAndAnswered(old(queues[1].log), queues[1].log, |data|)
      ensures r.Ok? && port == 1 ==> SentAndAnswered(old(queues[5].log), queues[5].log, |data|)
      ensures port != 0 || r == Err(BadParameter) ==> queues[1].log == old(queues[1].log)
      ensures port != 1 || r == Err(BadParameter) ==> queues[5].log == old(queues[5].log)
    {
      hide Good, VirtioSerial.Valid, Mine, SentAndAnswered;
      TransmitQueuesApart();
      assert PortQueueIndex(0) == 0 && PortQueueIndex(1) == 4;
      if data == [] || |data| > TWO_32 - 1 {
        return Err(BadParameter);
      }
      if port >= MAX_PORT_SUPPORTED {
        return Err(BadParameter);
      }
      r := Transmit(PortQueueIndex(port) + 1, |data|, false);
    }

    /** Lend one more receive buffer to the device on queue `i`. */
    method LendBuffer(i: nat) returns (r: Result<(), SerialError>)
      requires Ready() && i < NUM_QUEUES && i % 2 == 0
      modifies this`posted, this`held, this`owner, this`dmaAllocation, this`clock, queues[i], allocator
      ensures Ready()
      ensures i != CONTROL_RECEIVEQ ==> held[CONTROL_RECEIVEQ] == old(held)[CONTROL_RECEIVEQ]
      ensures Kept(r, old(Mine()), Mine())
      ensures r.Err? ==> r.error == OutOfResource || r.error == Virtio(BufferTooSmall)
      ensures Served() ==> old(Served()) && r != Err(OutOfResource)
      ensures r == Err(Virtio(BufferTooSmall)) ==> old(held)[i] >= QUEUE_SIZE
      ensures r.Err? ==> held == old(held)
      ensures r.Ok? ==> held == old(held)[i := old(held)[i] + 1]
    {
      hide Good, QueueHolds, QueuesValid, Owned, Backed, Lens;
      var dma := AllocateDmaMemory(DEFAULT_BUF_SIZE);
      if dma.None? {
        return Err(OutOfResource);
      }
      var added := AddTo(i, [], [Buf(dma.value.addr, DEFAULT_BUF_SIZE)]);
      if added.Err? {
        assert dma.value.addr !in old(Mine()) && Mine() == old(Mine()) + {dma.value.addr};
        return Err(Virtio(added.error));
      }
      r := Ok(());
    }

    method FillControlQueue() returns (r: Result<(), SerialError>)
      requires Ready() && Steady()
      modifies this`posted, this`held, this`owner, this`dmaAllocation, this`prefill, this`clock, allocator
      modifies queues[CONTROL_RECEIVEQ]
      ensures Ready() && Steady()
      ensures Served() ==> old(Served()) && r.Ok?
      ensures Kept(r, old(Mine()), Mine())
      ensures r.Ok? ==> prefill == Refilled(old(prefill), 1)
    {
      hide Good, VirtioSerial.Valid, Mine;
      if prefill[1] > RX_QUEUE_PREFILL_NUM / 2 {
        return Ok(());
      }
      while prefill[1] < RX_QUEUE_PREFILL_NUM
        invariant Ready() && Steady() && (Served() ==> old(Served()))
        invariant Mine() == old(Mine())
        invariant prefill[1] <= RX_QUEUE_PREFILL_NUM && prefill == old(prefill)[1 := prefill[1]]
        decreases RX_QUEUE_PREFILL_NUM - prefill[1]
      {
        var lent := LendBuffer(CONTROL_RECEIVEQ);
        if lent.Err? {
          return lent;
        }
        prefill := prefill[1 := prefill[1] + 1];
      }
      var kicked := Access();
      r := if kicked then Ok(()) else Err(Virtio(Transport));
    }

    method FillPortQueue(port: u32) returns (r: Result<(), SerialError>)
      requires Ready() && Steady() && PortQueueIndex(port) < NUM_QUEUES
      modifies this`posted, this`held, this`owner, this`dmaAllocation, this`prefill, this`clock, allocator
      modifies queues[PortQueueIndex(port)]
      ensures Ready() && Steady()
      ensures Served() ==> old(Served()) && r.Ok?
      ensures PortQueueIndex(port) != CONTROL_RECEIVEQ ==>
                held[CONTROL_RECEIVEQ] == old(held)[CONTROL_RECEIVEQ]
      ensures Kept(r, old(Mine()), Mine())
      ensures r.Err? ==> !r.error.NoData? && !r.error.NoQueue? && !r.error.BadParameter?
      ensures r.Ok? ==> prefill == Refilled(old(prefill), PortQueueIndex(port) / 2)
    {
      hide Good, VirtioSerial.Valid, Mine;
      var i := PortQueueIndex(port);
      var prefillNr := prefill[i / 2];
      if prefillNr > RX_QUEUE_PREFILL_NUM / 2 {
        return Ok(());
      }
      while prefillNr < RX_QUEUE_PREFILL_NUM
        invariant Ready() && (Served() ==> old(Served()))
        invariant Served() ==> Level(held, prefill[i / 2 := prefillNr])
        invariant i != CONTROL_RECEIVEQ ==> held[CONTROL_RECEIVEQ] == old(held)[CONTROL_RECEIVEQ]
        invariant Mine() == old(Mine())
        invariant prefillNr <= RX_QUEUE_PREFILL_NUM && prefill == old(prefill)
      {
        var lent := LendBuffer(i);
        if lent.Err? {
          return lent;
        }
        prefillNr := prefillNr + 1;
      }
      prefill := prefill[i / 2 := prefillNr];
      var kicked := Access();
      r := if kicked then Ok(()) else Err(Virtio(Transport));
    }

    /** Act on one control message; the queue it came from is left alone. */
    method HandleControlMsg(msg: seq<byte>) returns (r: Result<(), SerialError>)
      requires Ready() && Steady()
      modifies this`posted, this`held, this`owner, this`dmaAllocation, this`prefill, this`connectedPorts, this`clock
      modifies queues[0], queues[3], queues[4], allocator
      ensures Ready() && Steady()
      ensures Served() ==> old(Served()) && (Proper(msg, maxNrPorts) ==> r.Ok?)
      ensures held[CONTROL_RECEIVEQ] == old(held)[CONTROL_RECEIVEQ]
      ensures Kept(r, old(Mine()), Mine())
      ensures !Proper(msg, maxNrPorts) ==> r == Err(BadParameter)
      ensures connectedPorts == PortsAfter(msg, maxNrPorts, old(connectedPorts))
    {
      hide Good, VirtioSerial.Valid, Mine, ControlBytes;
      if |msg| < 8 {
        return Err(BadParameter);
      }
      var port: u32 := Le32(msg[0], msg[1], msg[2], msg[3]);
      var event := EventOf(Le16(msg[4], msg[5]));
      var val := Le16(msg[6], msg[7]);
      if port >= maxNrPorts || port >= MAX_PORT_SUPPORTED {
        return Err(BadParameter);
      }
      match event {
        case DeviceAdd =>
          r := FillPortQueue(port);
          if r.Err? {
            return;
          }
          var sent := SendControl(ControlBytes(port, 3, 1));
          r := if sent.Ok? then Ok(()) else Err(sent.error);
        case DeviceRemove =>
          connectedPorts := connectedPorts - {port};
          r := Ok(());
        case PortOpen =>
          r := Ok(());
          if val == 1 {
            connectedPorts := connectedPorts + {port};
            var sent := SendControl(ControlBytes(port, 6, 1));
            r := if sent.Ok? then Ok(()) else Err(sent.error);
          }
        case Ignored =>
          r := Ok(());
        case Unknown =>
          r := Err(BadParameter);
      }
    }

    /** Take the buffer of one control message back: its address and the bytes to look at. */
    method TakeMessage() returns (r: Result<nat, SerialError>, len: nat)
      requires Ready() && Steady()
      modifies this`posted, this`held, this`owner, this`clock, queues[CONTROL_RECEIVEQ]
      ensures Ready() && Steady()
      ensures Served() ==> old(Served()) && (old(held)[CONTROL_RECEIVEQ] > 0 ==> r.Ok?)
      ensures r.Err? ==> Mine() == old(Mine()) && r.error != Virtio(BufferTooSmall)
      ensures r.Ok? ==> len == DEFAULT_BUF_SIZE
      ensures r.Ok? ==> held[CONTROL_RECEIVEQ] < old(held)[CONTROL_RECEIVEQ]
      ensures r.Ok? ==> r.value !in old(Mine()) && Mine() == old(Mine()) + {r.value}
    {
      hide Good, QueueHolds, QueuesValid, Owned, Backed, Lens;
      len := 0;
      var popped, g2h, h2g, head := PopFrom(CONTROL_RECEIVEQ);
      if popped.Err? {
        return Err(Virtio(popped.error)), 0;
      }
      r, len := Ok(h2g[0].addr), Min(h2g[0].len, dmaAllocation[h2g[0].addr].size);
    }

    /** Act on a control message taken back and free its buffer, unless it fails and `eager` is
        not set. */
    method FinishMessage(addr: nat, len: nat, eager: bool) returns (r: Result<(), SerialError>)
      requires Ready() && Steady() && addr in Mine()
      modifies this`posted, this`held, this`owner, this`dmaAllocation, this`prefill, this`connectedPorts, this`clock
      modifies queues[0], queues[3], queues[4], allocator
      ensures Ready() && Steady()
      ensures Served() ==> old(Served()) && (len >= 8 ==> r.Ok?)
      ensures held[CONTROL_RECEIVEQ] == old(held)[CONTROL_RECEIVEQ]
      ensures old(Mine()) - {addr} <= Mine()
      ensures eager || r.Ok? ==> Kept(r, old(Mine()) - {addr}, Mine())
      ensures Supported(old(connectedPorts)) ==> Supported(connectedPorts)
    {
      hide Good, VirtioSerial.Valid, Mine, VirtioSerial.Steady, PortsAfter, Supported, Kept, Proper;
      var msg := DeviceBytes(len);
      if Supported(connectedPorts) {
        PortsStaySupported(msg, maxNrPorts, connectedPorts);
      }
      r := HandleControlMsg(msg);
      assert old(Mine()) - {addr} + {addr} == old(Mine());
      KeptWithout(r, old(Mine()) - {addr}, addr, Mine());
      if r.Ok? || eager {
        var freed := FreeDmaMemory(addr);
        if freed.None? {
          assert false;
        }
      }
    }

    /** Take one control message and act on it. `eager` frees its buffer before the
        outcome is looked at, otherwise a failure keeps the buffer allocated. */
    method RecvOneControl(eager: bool) returns (r: Result<(), SerialError>)
      requires Ready() && Steady()
      modifies this`posted, this`held, this`owner, this`dmaAllocation, this`prefill, this`connectedPorts, this`clock
      modifies queues[0], queues[2], queues[3], queues[4], allocator
      ensures Ready() && Steady()
      ensures Served() ==> old(Served()) && (old(held)[CONTROL_RECEIVEQ] > 0 ==> r.Ok?)
      ensures old(Mine()) <= Mine()
      ensures eager || r.Ok? ==> Kept(r, old(Mine()), Mine())
      ensures r.Ok? ==> held[CONTROL_RECEIVEQ] < old(held)[CONTROL_RECEIVEQ]
      ensures Supported(old(connectedPorts)) ==> Supported(connectedPorts)
    {
      hide Good, VirtioSerial.Valid, Mine, VirtioSerial.Steady, Supported, Kept;
      var taken, len := TakeMessage();
      if taken.Err? {
        r := Err(taken.error);
        NothingKept(r, Mine());
        return;
      }
      assert Mine() - {taken.value} == old(Mine());
      r := FinishMessage(taken.value, len, eager);
    }

    /** Drain the control queue; at start-up (`eager`) after waiting for a message. Every turn
        takes a buffer the device held, so however the device moves its index the loop ends. */
    method RecvControl(eager: bool) returns (r: Result<(), SerialError>)
      requires Ready() && Steady()
      modifies this`posted, this`held, this`owner, this`dmaAllocation, this`prefill, this`connectedPorts, this`clock
      modifies queues[0], queues[2], queues[3], queues[4], allocator
      ensures Ready()
      ensures queues[1].log == old(queues[1].log) && queues[5].log == old(queues[5].log)
      ensures Steady()
      ensures Served() ==> old(Served()) && r.Ok?
      ensures old(Mine()) <= Mine()
      ensures r.Ok? ==> Mine() == old(Mine())
      ensures Supported(old(connectedPorts)) ==> Supported(connectedPorts)
    {
      hide Good, VirtioSerial.Valid, Mine, VirtioSerial.Steady, Supported;
      TransmitQueuesApart();
      if eager {
        var armed := Access();
        if !armed {
          return Err(BadParameter);
        }
        var ended := Wait();
        if !ended {
          return Err(Timeout);
        }
      }
      while true
        invariant Ready() && Steady() && (Served() ==> old(Served()))
        invariant queues[1].log == old(queues[1].log) && queues[5].log == old(queues[5].log)
        invariant Supported(old(connectedPorts)) ==> Supported(connectedPorts)
        invariant Mine() == old(Mine())
        decreases held[CONTROL_RECEIVEQ]
      {
        var more := CanPop(CONTROL_RECEIVEQ);
        if !more {
          return Ok(());
        }
        r := RecvOneControl(eager);
        if r.Err? {
          return;
        }
      }
    }

    method PortQueuePush(port: u32, buf: seq<byte>) returns (r: Result<(), SerialError>)
      modifies this`receiveQueues
      ensures r == if buf == [] || port in old(receiveQueues) then Ok(()) else Err(BadParameter)
      ensures receiveQueues == if buf == [] || r.Err? then old(receiveQueues)
                               else old(receiveQueues)[port := old(receiveQueues)[port] + [buf]]
    {
      if buf == [] {
        return Ok(());
      }
      if port !in receiveQueues {
        return Err(BadParameter);
      }
      receiveQueues := receiveQueues[port := receiveQueues[port] + [buf]];
      r := Ok(());
    }

    /** Hand the data of a completed receive buffer to its port and free the buffer. On
        the early exits the buffer stays allocated and is not the device's. */
    method ReceiveData(port: u32, h2g: seq<Buf>, len: u32) returns (r: Result<(), SerialError>)
      requires Ready() && |h2g| == 1 && h2g[0].addr in Mine() && len <= h2g[0].len <= dmaAllocation[h2g[0].addr].size
      modifies this`dmaAllocation, this`receiveQueues, this`clock, allocator
      ensures Ready()
      ensures Served() ==> old(Served())
      ensures old(Steady()) ==> Steady()
      ensures r.Ok? <==> len > 0 && port in old(receiveQueues)
      ensures r.Ok? ==> var data := Fit(world.bytes(old(clock), len), len);
                        receiveQueues == old(receiveQueues)[port := old(receiveQueues)[port] + [data]]
      ensures r.Ok? ==> dmaAllocation == old(dmaAllocation) - {h2g[0].addr} && Mine() == old(Mine()) - {h2g[0].addr}
      ensures r.Err? ==> dmaAllocation == old(dmaAllocation) && receiveQueues == old(receiveQueues)
      ensures r.Err? ==> r.error == BadParameter
    {
      hide Good, QueueHolds, QueuesValid, Owned, Backed, Lens;
      var remaining := len;
      var buffer := h2g[0];
      if remaining == 0 {
        return Err(BadParameter);
      }
      var record := dmaAllocation[buffer.addr];
      var safeLen := Min(buffer.len, record.size);
      var usedLen := Min(Min(len, buffer.len), safeLen);
      var data := DeviceBytes(usedLen);
      if remaining < usedLen {
        return Err(BadParameter);
      }
      r := PortQueuePush(port, data);
      if r.Err? {
        return;
      }
      var freed := FreeDmaMemory(buffer.addr);
      if freed.None? {
        assert false;
      }
    }

    /** Take one completed receive buffer of queue `i` back, and count it. */
    method TakeReceived(i: nat) returns (r: Result<u32, SerialError>, b: Buf)
      requires Ready() && Steady() && i < NUM_QUEUES && i % 2 == 0
      modifies this`posted, this`held, this`owner, this`prefill, this`clock, queues[i]
      ensures Ready() && Steady()
      ensures Served() ==> old(Served()) && (old(held)[i] > 0 ==> r.Ok? && r.value > 0)
      ensures old(Mine()) <= Mine()
      ensures r.Err? ==> r.error.Virtio? || r.error == Device
      ensures r.Ok? ==> b.addr !in old(Mine()) && Mine() == old(Mine()) + {b.addr}
      ensures r.Ok? ==> b.addr in dmaAllocation && r.value <= b.len <= dmaAllocation[b.addr].size
    {
      hide Good, QueueHolds, QueuesValid, Owned, Backed, Lens;
      b := Buf(0, 0);
      var len, g2h, h2g, head := PopFrom(i);
      if len.Err? {
        return Err(Virtio(len.error)), b;
      }
      b := h2g[0];
      if prefill[i / 2] < |h2g| {
        return Err(Device), b;
      }
      prefill := prefill[i / 2 := prefill[i / 2] - |h2g|];
      r := Ok(len.value);
    }

    method PopUsedRx(port: u32) returns (r: Result<(), SerialError>)
      requires Ready() && Steady() && PortQueueIndex(port) < NUM_QUEUES
      modifies this`posted, this`held, this`owner, this`dmaAllocation, this`prefill, this`receiveQueues, this`clock
      modifies queues[PortQueueIndex(port)], allocator
      ensures Ready() && Steady()
      ensures Served() ==> old(Served())
      ensures Served() && old(held)[PortQueueIndex(port)] > 0 ==>
                r.Ok? || (r == Err(BadParameter) && port !in old(receiveQueues))
      ensures receiveQueues.Keys == old(receiveQueues).Keys
      ensures old(Mine()) <= Mine()
      ensures r.Ok? ==> Mine() == old(Mine())
      ensures r.Err? ==> !r.error.NoData? && !r.error.NoQueue?
    {
      hide Good, VirtioSerial.Valid, Mine, VirtioSerial.Steady, PortQueueIndex;
      var taken, b := TakeReceived(PortQueueIndex(port));
      if taken.Err? {
        return Err(taken.error);
      }
      r := ReceiveData(port, [b], taken.value);
      if r.Err? {
        return;
      }
      assert Mine() == old(Mine());
      r := FillPortQueue(port);
    }

    method PortQueuePop(port: u32) returns (r: Option<seq<byte>>)
      modifies this`receiveQueues
      ensures r.Some? <==> HasData(old(receiveQueues), port)
      ensures r.Some? ==> r.value == old(receiveQueues)[port][0] && receiveQueues == Popped(old(receiveQueues), port)
      ensures r.None? ==> receiveQueues == old(receiveQueues)
    {
      if port !in receiveQueues || receiveQueues[port] == [] {
        return None;
      }
      r := Some(receiveQueues[port][0]);
      receiveQueues := receiveQueues[port := receiveQueues[port][1..]];
    }

    method Dequeue(port: u32) returns (r: Result<seq<byte>, SerialError>)
      requires Ready() && Steady()
      modifies this`posted, this`held, this`owner, this`dmaAllocation, this`prefill, this`receiveQueues, this`clock
      modifies queues[0], queues[2], queues[4], allocator
      ensures Ready()
      ensures queues[1].log == old(queues[1].log) && queues[5].log == old(queues[5].log)
      ensures Steady()
      ensures Served() ==> old(Served())
      ensures Served() && r.Err? ==>
                r.error == NoData || r.error == NoQueue || (r.error == BadParameter && port !in old(receiveQueues))
      ensures receiveQueues.Keys == old(receiveQueues).Keys
      ensures old(Mine()) <= Mine()
      ensures r.Ok? || r == Err(NoData) || r == Err(NoQueue) ==> Mine() == old(Mine())
      ensures r == Err(NoQueue) <==> !HasData(old(receiveQueues), port) && PortQueueIndex(port) >= NUM_QUEUES
      ensures HasData(old(receiveQueues), port) ==>
                r == Ok(old(receiveQueues)[port][0]) && receiveQueues == Popped(old(receiveQueues), port)
    {
      hide Good, VirtioSerial.Valid, Mine;
      TransmitQueuesApart();
      var data := PortQueuePop(port);
      if data.Some? {
        return Ok(data.value);
      }
      if PortQueueIndex(port) >= NUM_QUEUES {
        return Err(NoQueue);
      }
      var more := CanPop(PortQueueIndex(port));
      if !more {
        return Err(NoData);
      }
      var popped := PopUsedRx(port);
      if popped.Err? {
        return Err(popped.error);
      }
      data := PortQueuePop(port);
      r := if data.Some? then Ok(data.value) else Err(NoData);
    }

    method AllocatePort(id: u32) returns (r: Result<(), SerialError>)
      modifies this`receiveQueues, this`allocatedPorts
      ensures r.Ok? <==> id <= MAX_PORT_SUPPORTED && id in connectedPorts && id !in old(allocatedPorts)
      ensures r == Err(BadParameter) <==> id > MAX_PORT_SUPPORTED
      ensures allocatedPorts == if r.Ok? then old(allocatedPorts) + {id} else old(allocatedPorts)
      ensures receiveQueues == if id <= MAX_PORT_SUPPORTED then old(receiveQueues)[id := []] else old(receiveQueues)
    {
      if id > MAX_PORT_SUPPORTED {
        return Err(BadParameter);
      }
      receiveQueues := receiveQueues[id := []];
      if id !in connectedPorts {
        return Err(PortNotAvailable(id));
      }
      if id in allocatedPorts {
        return Err(PortAlreadyUsed(id));
      }
      allocatedPorts := allocatedPorts + {id};
      r := Ok(());
    }

    /** Closing a port drops its data, even when it is not connected. */
    method FreePort(id: u32) returns (r: Result<(), SerialError>)
      modifies this`receiveQueues, this`allocatedPorts
      ensures r.Ok? <==> id <= MAX_PORT_SUPPORTED && id in connectedPorts
      ensures r == Err(BadParameter) <==> id > MAX_PORT_SUPPORTED
      ensures allocatedPorts == if r.Ok? then old(allocatedPorts) - {id} else old(allocatedPorts)
      ensures receiveQueues == if id <= MAX_PORT_SUPPORTED then old(receiveQueues) - {id} else old(receiveQueues)
    {
      if id > MAX_PORT_SUPPORTED {
        return Err(BadParameter);
      }
      receiveQueues := receiveQueues - {id};
      if id !in connectedPorts {
        return Err(PortNotAvailable(id));
      }
      allocatedPorts := allocatedPorts - {id};
      r := Ok(());
    }

    /** Set the notifications up, tell the device that the driver is there, and hear what its
        ports are. */
    method InitControl() returns (r: Result<(), SerialError>)
      requires Ready() && Steady()
      modifies this`posted, this`held, this`owner, this`dmaAllocation, this`prefill, this`connectedPorts, this`clock
      modifies queues[0], queues[2], queues[3], queues[4], allocator
      ensures Ready()
      ensures queues[1].log == old(queues[1].log) && queues[5].log == old(queues[5].log)
      ensures Steady()
      ensures Served() ==> old(Served()) && r.Ok?
      ensures r.Ok? ==> Mine() == old(Mine())
      ensures Supported(old(connectedPorts)) ==> Supported(connectedPorts)
    {
      hide Good, VirtioSerial.Valid, Mine, ControlBytes, Supported;
      TransmitQueuesApart();
      var notified := Access();
      if !notified {
        return Err(Device);
      }
      r := FillControlQueue();
      if r.Err? {
        return;
      }
      var ready := ControlBytes(0, 0, 1);
      var sent := SendControl(ready);
      if sent.Err? {
        return Err(sent.error);
      }
      r := RecvControl(true);
    }

    /** Bring the device up. */
    method Init() returns (r: Result<(), SerialError>)
      requires Valid() && queues == [] && prefill == [] && rings.None?
      modifies this, allocator
      ensures Valid()
      ensures Served() ==> old(Served()) && r.Ok?
      ensures r.Ok? ==> Ready() && Steady() && fresh(queues)
      ensures r.Ok? ==> Mine() == old(Mine())
      ensures Supported(old(connectedPorts)) ==> Supported(connectedPorts)
      ensures allocatedPorts == old(allocatedPorts) && receiveQueues == old(receiveQueues)
      ensures r.Ok? ==> queues[1].log == queues[5].log == []
    {
      hide Good, VirtioSerial.Valid, Mine, Supported, VirtioSerial.Steady;
      var status := Access();
      if !status {
        return Err(Device);
      }
      GoodHasPorts(world, clock);
      if world.ports.None? {
        return Err(Virtio(Transport));
      }
      maxNrPorts := world.ports.value;
      r := InitQueues();
      if r.Err? {
        return;
      }
      r := InitControl();
    }
  }
}
