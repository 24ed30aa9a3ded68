/** What the virtio console driver asks of the world: the device behind the registers, the used
    rings and the shared memory, the timer and the page allocator. */
module ConsoleWorld {
  import opened Words
  import opened QueueState
  import opened VirtQueues
  import opened DmaPages
  import opened Bits
  import Bitmap

  const MAX_PORT_SUPPORTED: nat := 2
  const QUEUE_SIZE: u16 := 16

  datatype ControlEvent = DeviceAdd | DeviceRemove | PortOpen | Ignored | Unknown

  function EventOf(value: nat): ControlEvent {
    match value
    case 1 => DeviceAdd
    case 2 => DeviceRemove
    case 4 => Ignored
    case 5 => Ignored
    case 6 => PortOpen
    case 7 => Ignored
    case _ => Unknown
  }

  /** A control message the driver knows, about a port there is. */
  predicate Proper(msg: seq<byte>, maxNrPorts: u32) {
    && |msg| >= 8
    && Le32(msg[0], msg[1], msg[2], msg[3]) < Min(maxNrPorts, MAX_PORT_SUPPORTED)
    && !EventOf(Le16(msg[4], msg[5])).Unknown?
  }

  function NoElems(): (ring: seq<UsedElem>)
    ensures |ring| == MAX_QUEUE_SIZE
  {
    seq(MAX_QUEUE_SIZE, _ => UsedElem(0, 0))
  }

  type Ring = used: UsedRing | WellSized(used) witness UsedRing(0, seq(MAX_QUEUE_SIZE, _ => UsedElem(0, 0)))

  /** What the world answers to the question asked `k`-th. A used ring may depend on the queue,
      on where the driver stands in it and on the heads on chains, a place in memory on what is
      allocated. */
  datatype World = World(
    ports: Option<u32>,
    maxSize: nat -> Option<u16>,
    works: nat -> bool,
    ends: nat -> bool,
    looks: (nat, u16, u32) -> Ring,
    pops: (nat, nat, u16, u32) -> Ring,
    bytes: (nat, nat) -> seq<byte>,
    places: (nat, map<nat, nat>, nat) -> Option<nat>)

  /** `n` bytes of what memory lent to the device holds. */
  function Fit(s: seq<byte>, n: nat): (r: seq<byte>)
    ensures |r| == n
  {
    if |s| >= n then s[..n] else s + seq(n - |s|, _ => 0)
  }

  function LowestBit(x: nat): nat
    requires x > 0
  {
    if x % 2 == 1 then 0 else LowestBit(x / 2) + 1
  }

  lemma {:induction false} LowestBitIsSet(x: nat, w: nat)
    requires 0 < x < Pow2(w)
    ensures LowestBit(x) < w && Bit(x, LowestBit(x))
  {
    if x % 2 == 0 {
      LowestBitIsSet(x / 2, w - 1);
    }
  }

  lemma LowestIsHeld(heads: u32)
    requires heads != 0
    ensures Bitmap.Has(heads, LowestBit(heads))
  {
    hide Pow2, Bit, LowestBit, Bitmap.Has;
    Word32Size();
    LowestBitIsSet(heads, 32);
    Bitmap.HasIsBit(heads, LowestBit(heads));
  }

  lemma HeldBelow(heads: u32, h: nat)
    requires Bitmap.Has(heads, h)
    ensures h < 32
  {
  }

  lemma ZeroHasNone(heads: u32, h: nat)
    requires Bitmap.Has(heads, h)
    ensures heads != 0
  {
    Bitmap.HasIsBit(heads, h);
    ZeroBits(h);
  }

  /** The ring of queue `i` has something new and names a head on a chain; on a receive queue
      the device has written something. */
  predicate Completes(i: nat, used: Ring, last: u16, heads: u32) {
    var elem := used.ring[RingSlot(last, QUEUE_SIZE)];
    used.idx != last && Bitmap.Has(heads, Low16(elem.id)) && (i % 2 == 0 ==> elem.len > 0)
  }

  predicate Granted(place: Option<nat>, live: map<nat, nat>, n: nat) {
    place.Some? && Vacant(live, place.value, n)
  }

  /** The `k`-th answer is good, whatever it is asked for: accesses work, waits end in time, the
      device completes just what it holds and sends proper messages, there is memory. */
  ghost predicate GoodAt(w: World, k: nat)
    requires w.ports.Some?
  {
    && w.works(k) && w.ends(k)
    && w.maxSize(k).Some? && w.maxSize(k).value >= QUEUE_SIZE
    && (forall last: u16 :: w.looks(k, last, 0).idx == last)
    && (forall i: nat, last: u16, heads: u32 | heads != 0 :: Completes(i, w.pops(k, i, last, heads), last, heads))
    && (forall n: nat | n >= 8 :: Proper(Fit(w.bytes(k, n), n), w.ports.value))
    && (forall live: map<nat, nat>, n: nat | n > 0 :: Granted(w.places(k, live, n), live, n))
  }

  /** The device has ports, and the first `n` answers are good. */
  ghost predicate Good(w: World, n: nat) {
    w.ports.Some? && w.ports.value > 0 && forall k | 0 <= k < n :: GoodAt(w, k)
  }

  lemma GoodHasPorts(w: World, k: nat)
    ensures Good(w, k) ==> w.ports.Some?
  {
  }

  lemma GoodNext(w: World, k: nat)
    requires Good(w, k + 1)
    ensures Good(w, k) && w.works(k) && w.ends(k) && w.maxSize(k).Some? && w.maxSize(k).value >= QUEUE_SIZE
  {
    assert GoodAt(w, k);
  }

  lemma GoodLooks(w: World, k: nat, last: u16, heads: u32)
    requires Good(w, k + 1)
    ensures Good(w, k) && (heads == 0 ==> w.looks(k, last, heads).idx == last)
  {
    assert GoodAt(w, k);
  }

  lemma GoodPops(w: World, k: nat, i: nat, last: u16, heads: u32)
    requires Good(w, k + 1)
    ensures Good(w, k) && (heads != 0 ==> Completes(i, w.pops(k, i, last, heads), last, heads))
  {
    assert GoodAt(w, k);
  }

  lemma GoodBytes(w: World, k: nat, n: nat)
    requires Good(w, k + 1)
    ensures Good(w, k) && (n >= 8 ==> Proper(Fit(w.bytes(k, n), n), w.ports.value))
  {
    assert GoodAt(w, k);
  }

  lemma GoodPlaces(w: World, k: nat, live: map<nat, nat>, n: nat)
    requires Good(w, k + 1) && n > 0
    ensures Good(w, k) && Granted(w.places(k, live, n), live, n)
  {
    assert GoodAt(w, k);
  }

  // ---------- there are good worlds ----------

  /** An address behind all that is allocated. */
  ghost function Top(live: map<nat, nat>): (a: nat)
    ensures forall b | b in live :: b + live[b] < a
  {
    if live == map[] then 0
    else
      var b :| b in live;
      var rest := live - {b};
      assert forall c | c in live :: c == b || (c in rest && rest[c] == live[c]);
      Max(Top(rest), b + live[b] + 1)
  }

  /** The ring of a device that completes the chain of the lowest head. */
  function Completing(last: u16, heads: u32): Ring {
    var id := if heads == 0 then 0 else Low16(LowestBit(heads) % TWO_32);
    UsedRing(WrappingInc16(last), seq(MAX_QUEUE_SIZE, _ => UsedElem(id, 1)))
  }

  lemma CompletingCompletes(i: nat, last: u16, heads: u32)
    requires heads != 0
    ensures Completes(i, Completing(last, heads), last, heads)
  {
    hide LowestBit, RingSlot, Bitmap.Has;
    LowestIsHeld(heads);
    HeldBelow(heads, LowestBit(heads));
    assert Low16(Low16(LowestBit(heads) % TWO_32)) == LowestBit(heads);
  }

  function Quiet(last: u16): Ring {
    UsedRing(last, NoElems())
  }

  /** A device with one port, which has nothing to say. */
  ghost function Kind(): World {
    World(Some(1), _ => Some(QUEUE_SIZE), _ => true, _ => true,
          (k, last, heads) => Quiet(last), (k, i, last, heads) => Completing(last, heads),
          (k, n) => [0, 0, 0, 0, 4, 0], (k, live, n) => Some(Top(live)))
  }

  lemma SampleIsProper(n: nat)
    requires n >= 8
    ensures Proper(Fit([0, 0, 0, 0, 4, 0], n), 1)
  {
  }

  lemma TopIsVacant(live: map<nat, nat>, n: nat)
    ensures Granted(Some(Top(live)), live, n)
  {
  }

  lemma KindIsGoodAt(k: nat)
    ensures Kind().ports.Some? && GoodAt(Kind(), k)
  {
    hide Completes, Completing, Proper, Fit, Granted, Top;
    forall i: nat, last: u16, heads: u32 | heads != 0
      ensures Completes(i, Kind().pops(k, i, last, heads), last, heads)
    {
      CompletingCompletes(i, last, heads);
    }
    forall n: nat | n >= 8
      ensures Proper(Fit(Kind().bytes(k, n), n), 1)
    {
      SampleIsProper(n);
    }
    forall live: map<nat, nat>, n: nat | n > 0
      ensures Granted(Kind().places(k, live, n), live, n)
    {
      TopIsVacant(live, n);
    }
  }

  lemma KindHasPort()
    ensures Kind().ports == Some(1)
  {
  }

  /** Nothing that is asked of a good world is impossible. */
  lemma KindIsGood(n: nat)
    ensures Good(Kind(), n)
  {
    hide GoodAt, Kind;
    KindHasPort();
    forall k: nat | k < n
      ensures GoodAt(Kind(), k)
    {
      KindIsGoodAt(k);
    }
  }
}
