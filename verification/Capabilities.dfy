/** The walk along the capability list of a virtio PCI device, against an arbitrary device. */
module Capabilities {
  import opened Words
  import opened Bits
  import opened Mmio
  import opened PciBars
  import opened Intervals

  const CAP_LEN: u8 := 0x10
  const CYCLE_LEN: nat := 0x10
  const COMMON_CONFIGURATION_REGISTERS_OFFSET: u32 := 0x38
  const MAX_BARS_INDEX: u8 := 5
  const VIRTIO_CAPABILITIES_SPECIFIC: u8 := 0x09
  const MSIX_CAPABILITY_ID: u8 := 0x11
  const MSIX_MAX_VECTORS: u16 := 0x800
  const MAX_CAP_TYPE: nat := 6
  const MMIO_LOW_LIMIT: u64 := 0x10_0000

  const COMMON: nat := 1
  const NOTIFY: nat := 2
  const ISR: nat := 3
  const DEVICE: nat := 4
  const PCI: nat := 5

  datatype TransportError = InvalidParameter | VirtioUnsupportedDevice | IoError

  /** How long the device-specific structure has to be, for the devices known. */
  function DeviceLength(deviceId: u16): Option<u32> {
    match deviceId
    case 0x1041 => Some(12)
    case 0x1042 => Some(60)
    case 0x1043 => Some(12)
    case 0x1045 => Some(8)
    case 0x1048 => Some(36)
    case 0x1050 => Some(16)
    case 0x1052 => Some(294)
    case 0x1053 => Some(8)
    case _ => None
  }

  // ---------- memory regions ----------

  /** The region stays clear of RAM and of the low 1 MiB. */
  ghost predicate Safe(region: Range, ram: seq<Range>) {
    && region.End() < TWO_64 && MMIO_LOW_LIMIT <= region.base
    && forall i | 0 <= i < |ram| :: ram[i].End() < TWO_64 && Disjoint(region, ram[i])
  }

  method RegionOverlapsPrivateDram(base: u64, length: u64, ram: seq<Range>) returns (hit: bool)
    ensures hit <==> !Safe(Range(base, length), ram)
  {
    if base + length >= TWO_64 || base < MMIO_LOW_LIMIT {
      return true;
    }
    var i := 0;
    while i < |ram|
      invariant 0 <= i <= |ram|
      invariant forall k | 0 <= k < i :: ram[k].End() < TWO_64 && Disjoint(Range(base, length), ram[k])
    {
      if ram[i].End() >= TWO_64 || (base < ram[i].End() && base + length > ram[i].base) {
        return true;
      }
      i := i + 1;
    }
    hit := false;
  }

  method NewMemoryRegion(base: u64, length: u64, ram: seq<Range>) returns (r: Option<Range>)
    ensures r.Some? <==> Safe(Range(base, length), ram)
    ensures r.Some? ==> r.value == Range(base, length)
  {
    if base + length >= TWO_64 {
      return None;
    }
    var hit := RegionOverlapsPrivateDram(base, length, ram);
    r := if hit then None else Some(Range(base, length));
  }

  // ---------- what the walk records ----------

  class CheckRegionOverlap {
    var flag: seq<bool>
    const interval: array<Interval>

    ghost predicate Valid()
      reads this, interval
    {
      |flag| == interval.Length == MAX_CAP_TYPE
    }

    constructor ()
      ensures Valid() && fresh(interval)
      ensures flag == [false, false, false, false, false, false]
      ensures interval[..] == [ZERO, ZERO, ZERO, ZERO, ZERO, ZERO]
    {
      flag := [false, false, false, false, false, false];
      interval := new Interval[MAX_CAP_TYPE](_ => ZERO);
    }

    method SetRegion(index: nat, base: u64, length: u64) returns (r: Result<(), TransportError>)
      requires Valid() && base + length < TWO_64
      modifies this`flag, interval
      ensures Valid()
      ensures r.Ok? <==> index < MAX_CAP_TYPE
      ensures r.Ok? ==> flag == old(flag)[index := true]
                        && interval[..] == old(interval[..])[index := Interval(base, base + length)]
      ensures r.Err? ==> r.error == TransportError.InvalidParameter
                         && flag == old(flag) && interval[..] == old(interval[..])
    {
      if index >= MAX_CAP_TYPE {
        return Err(TransportError.InvalidParameter);
      }
      flag := flag[index := true];
      interval[index] := Interval(base, base + length);
      r := Ok(());
    }
  }

  const ZERO: Interval := Interval(0, 0)

  // ---------- what the device says ----------

  /** What one virtio capability says. */
  datatype Structure = Structure(cfgType: u8, bar: u8, offset: u32, length: u32)

  /** What is read of a capability behind its id: a virtio structure, with the multiplier that
      follows a notify structure; the control word and twice the table word of MSI-X; nothing. */
  datatype Content =
    | Virtio(s: Structure, multiplier: u32)
    | Msix(control: u16, first: u32, second: u32)
    | Other

  /** One capability of the list. */
  datatype Visit = Visit(pointer: u8, id: u8, content: Content)

  /** What a capability is judged by: the recorded registers, the device and RAM. */
  datatype Env = Env(bars: seq<Bar>, deviceId: u16, ram: seq<Range>)

  /** The sums the walk checks before it uses an address. */
  predicate Adds(address: u64, offset: u32, length: u32) {
    if address / TWO_32 != 0 then
      address + offset < TWO_64 && address + offset + length < TWO_64
    else
      address + offset < TWO_32 && offset + length < TWO_32 && address + offset + length < TWO_32
  }

  function Address(env: Env, bar: nat): u64 {
    if bar < |env.bars| then env.bars[bar].address else 0
  }

  /** Where a structure lies. */
  function Place(env: Env, s: Structure): Range {
    Range(Address(env, s.bar) + s.offset, s.length)
  }

  /** Where the vector table lies. */
  function Table(env: Env, control: u16, first: u32, second: u32): Range {
    Range(Address(env, first % 8) + (second - second % 8), (control % 0x800 + 1) * 16)
  }

  /** The structure is usable as what it says it is. */
  ghost predicate Sound(env: Env, pointer: u8, s: Structure) {
    match s.cfgType
    case 1 =>
      Address(env, s.bar) != 0 && s.length >= COMMON_CONFIGURATION_REGISTERS_OFFSET && Safe(Place(env, s), env.ram)
    case 2 =>
      pointer != 0x100 - CAP_LEN && Address(env, s.bar) != 0 && s.length >= 4 && Safe(Place(env, s), env.ram)
    case 4 =>
      && DeviceLength(env.deviceId).Some? && s.length >= DeviceLength(env.deviceId).value
      && Address(env, s.bar) != 0 && Safe(Place(env, s), env.ram)
    case _ => true
  }

  ghost predicate GoodStructure(env: Env, pointer: u8, s: Structure) {
    && pointer % 4 == 0 && s.bar <= MAX_BARS_INDEX
    && Adds(Address(env, s.bar), s.offset, s.length)
    && Sound(env, pointer, s)
  }

  ghost predicate Accepted(env: Env, v: Visit) {
    match v.content
    case Virtio(s, _) => GoodStructure(env, v.pointer, s)
    case Msix(control, first, second) => first % 8 < BARS && Safe(Table(env, control, first, second), env.ram)
    case Other => true
  }

  /** The id tells what kind of capability it is. */
  predicate Typed(v: Visit) {
    match v.content
    case Virtio(_, _) => v.id == VIRTIO_CAPABILITIES_SPECIFIC
    case Msix(_, _, _) => v.id == MSIX_CAPABILITY_ID
    case Other => v.id != VIRTIO_CAPABILITIES_SPECIFIC && v.id != MSIX_CAPABILITY_ID
  }

  /** The accesses made for a capability behind its id: those after a test that fails are not
      made any more. */
  ghost function Body(env: Env, v: Visit): seq<Access> {
    match v.content
    case Virtio(s, multiplier) =>
      if v.pointer % 4 != 0 then []
      else Parts(v.pointer, s) + (if s.cfgType == NOTIFY && GoodStructure(env, v.pointer, s)
                                  then [Read(v.pointer + CAP_LEN, multiplier)] else [])
    case Msix(control, first, second) => MsixReads(v.pointer, control, first, second)
    case Other => []
  }

  ghost function MsixReads(pointer: u8, control: u16, first: u32, second: u32): seq<Access> {
    [Read(pointer + 2, control), Read(pointer + 4, first)]
    + (if first % 8 < BARS then [Read(pointer + 4, second)] else [])
  }

  /** The reads of the four parts of a structure. */
  ghost function Parts(pointer: u8, s: Structure): seq<Access> {
    [Read(pointer + 3, s.cfgType), Read(pointer + 4, s.bar), Read(pointer + 8, s.offset), Read(pointer + 12, s.length)]
  }

  /** Where the link to the capability after these is read. */
  function LinkAt(visits: seq<Visit>): nat {
    if visits == [] then 0x34 else visits[|visits| - 1].pointer + 1
  }

  /** The accesses of a walk along these capabilities, each reached by the link before it. */
  ghost function Passed(env: Env, visits: seq<Visit>): seq<Access> {
    if visits == [] then []
    else
      var front, v := visits[..|visits| - 1], visits[|visits| - 1];
      Passed(env, front) + [Read(LinkAt(front), v.pointer), Read(v.pointer, v.id)] + Body(env, v)
  }

  lemma PassedOne(env: Env, visits: seq<Visit>, v: Visit)
    ensures Passed(env, visits + [v])
            == Passed(env, visits) + [Read(LinkAt(visits), v.pointer), Read(v.pointer, v.id)] + Body(env, v)
  {
    assert (visits + [v])[..|visits|] == visits;
  }

  ghost predicate AllAccepted(env: Env, visits: seq<Visit>) {
    forall i | 0 <= i < |visits| :: Accepted(env, visits[i])
  }

  predicate InRange(pointer: u8) {
    0 < pointer <= 0xFF - CAP_LEN + 1
  }

  /** Distinct pointers, each leaving room for a capability, and ids that tell their kind. */
  ghost predicate Distinct(visits: seq<Visit>) {
    && (forall i | 0 <= i < |visits| :: InRange(visits[i].pointer) && Typed(visits[i]))
    && (forall i, j | 0 <= i < j < |visits| :: visits[i].pointer != visits[j].pointer)
  }

  predicate Met(visits: seq<Visit>, pointer: u8) {
    exists i | 0 <= i < |visits| :: visits[i].pointer == pointer
  }

  /** What a walk that met `visits`, and `last` as its last link, comes to. It goes on exactly as
      long as links are in range and new and capabilities are accepted, up to sixteen. */
  ghost predicate Outcome(env: Env, visits: seq<Visit>, last: u8, seen: seq<Access>, r: Result<(), TransportError>) {
    match r
    case Ok(_) =>
      && |visits| < CYCLE_LEN && AllAccepted(env, visits) && !InRange(last)
      && seen == Passed(env, visits) + [Read(LinkAt(visits), last)]
    case Err(InvalidParameter) =>
      || (|visits| == CYCLE_LEN && AllAccepted(env, visits) && seen == Passed(env, visits))
      || (visits != [] && AllAccepted(env, visits[..|visits| - 1]) && !Accepted(env, visits[|visits| - 1])
          && seen == Passed(env, visits))
      || (AllAccepted(env, visits) && InRange(last) && Met(visits, last)
          && seen == Passed(env, visits) + [Read(LinkAt(visits), last)])
    case Err(IoError) => EndsInFailure(seen)
    case Err(VirtioUnsupportedDevice) => false
  }

  // ---------- what the walk gathers ----------

  /** The regions kept, the entries recorded beside them and what else a walk keeps. */
  datatype Found = Found(
    flag: seq<bool>, interval: seq<Interval>, common: Range, notify: Range, device: Range,
    multiplier: u32, table: Range, vectors: nat)

  function Nothing(): Found {
    Found([false, false, false, false, false, false], [ZERO, ZERO, ZERO, ZERO, ZERO, ZERO],
          Range(0, 0), Range(0, 0), Range(0, 0), 0, Range(0, 0), 0)
  }

  /** `region`, or the structure found if it is of the given type. */
  function Latest(region: Range, kind: nat, cfgType: u8, found: Range): Range {
    if cfgType == kind then found else region
  }

  /** The entries with that of the structure found, if its type is one that is recorded. */
  function Noted(interval: seq<Interval>, cfgType: u8, found: Range): seq<Interval> {
    if 1 <= cfgType <= 5 && |interval| == MAX_CAP_TYPE && found.End() < TWO_64
    then interval[cfgType as int := Interval(found.base, found.End())] else interval
  }

  function Flagged(flag: seq<bool>, cfgType: u8): seq<bool> {
    if 1 <= cfgType <= 5 && |flag| == MAX_CAP_TYPE then flag[cfgType as int := true] else flag
  }

  /** What accepting one more capability makes of it. */
  function With(env: Env, f: Found, v: Visit): Found {
    match v.content
    case Virtio(s, multiplier) =>
      var at := Place(env, s);
      Found(Flagged(f.flag, s.cfgType), Noted(f.interval, s.cfgType, at),
            Latest(f.common, COMMON, s.cfgType, at), Latest(f.notify, NOTIFY, s.cfgType, at),
            Latest(f.device, DEVICE, s.cfgType, at),
            if s.cfgType == NOTIFY then multiplier else f.multiplier, f.table, f.vectors)
    case Msix(control, first, second) =>
      f.(table := Table(env, control, first, second), vectors := control % 0x800 + 1)
    case Other => f
  }

  function Gathered(env: Env, visits: seq<Visit>): Found {
    if visits == [] then Nothing() else With(env, Gathered(env, visits[..|visits| - 1]), visits[|visits| - 1])
  }

  lemma GatheredOne(env: Env, visits: seq<Visit>, v: Visit)
    ensures Gathered(env, visits + [v]) == With(env, Gathered(env, visits), v)
  {
    assert (visits + [v])[..|visits|] == visits;
  }

  // ---------- what is gathered stands for usable structures ----------

  /** An entry that stands for a usable region of at least `least` bytes, or was never set. */
  ghost predicate Stands(known: bool, entry: Interval, region: Range, least: nat, ram: seq<Range>) {
    if known then entry.base == region.base && entry.end == region.End() && region.size >= least && Safe(region, ram)
    else entry == ZERO && region == Range(0, 0)
  }

  /** The entries stand for the regions kept. */
  ghost predicate Tracked(env: Env, f: Found) {
    && |f.flag| == |f.interval| == MAX_CAP_TYPE
    && Stands(f.flag[COMMON], f.interval[COMMON], f.common, COMMON_CONFIGURATION_REGISTERS_OFFSET, env.ram)
    && Stands(f.flag[NOTIFY], f.interval[NOTIFY], f.notify, 4, env.ram)
    && Stands(f.flag[DEVICE], f.interval[DEVICE], f.device,
              if DeviceLength(env.deviceId).Some? then DeviceLength(env.deviceId).value else 0, env.ram)
    && (f.flag[DEVICE] ==> DeviceLength(env.deviceId).Some?)
    && forall i | 0 <= i < MAX_CAP_TYPE :: Proper(f.interval[i])
  }

  lemma TrackedWith(env: Env, f: Found, v: Visit)
    requires Tracked(env, f) && Accepted(env, v)
    ensures Tracked(env, With(env, f, v))
  {
    hide Safe, DeviceLength;
  }

  /** Whatever is gathered from accepted capabilities is tracked by its entries. */
  lemma {:induction false} GatheredIsTracked(env: Env, visits: seq<Visit>)
    requires AllAccepted(env, visits)
    ensures Tracked(env, Gathered(env, visits))
  {
    hide Tracked, Accepted, With;
    if visits == [] {
      NothingTracked(env);
    } else {
      var n := |visits| - 1;
      GatheredIsTracked(env, visits[..n]);
      TrackedWith(env, Gathered(env, visits[..n]), visits[n]);
    }
  }

  lemma NothingTracked(env: Env)
    ensures Tracked(env, Nothing())
  {
  }

  /** The region lies apart from an entry, unless the entry starts at 0. */
  predicate ClearOf(region: Range, entry: Interval) {
    entry.base == 0 || region.End() <= entry.base || entry.end <= region.base
  }

  /** The structures the driver will use: long enough, clear of RAM, apart from one another
      and from the structures it only checks. */
  ghost predicate Usable(env: Env, f: Found) {
    && |f.interval| == MAX_CAP_TYPE
    && f.common.size >= COMMON_CONFIGURATION_REGISTERS_OFFSET && Safe(f.common, env.ram)
    && f.notify.size >= 4 && Safe(f.notify, env.ram)
    && Disjoint(f.common, f.notify)
    && ClearOf(f.common, f.interval[ISR]) && ClearOf(f.common, f.interval[PCI])
    && ClearOf(f.notify, f.interval[ISR]) && ClearOf(f.notify, f.interval[PCI])
    && (f.device != Range(0, 0) ==>
          && DeviceLength(env.deviceId).Some? && f.device.size >= DeviceLength(env.deviceId).value
          && Safe(f.device, env.ram)
          && Disjoint(f.common, f.device) && Disjoint(f.notify, f.device)
          && ClearOf(f.device, f.interval[ISR]) && ClearOf(f.device, f.interval[PCI]))
  }

  /** The test after the walk: the four required structures are there, and neighbours pass. */
  ghost predicate Concluded(f: Found) {
    && |f.flag| == |f.interval| == MAX_CAP_TYPE
    && f.flag[COMMON] && f.flag[NOTIFY] && f.flag[ISR] && f.flag[PCI]
    && AllPass(SortByBase(f.interval))
  }

  /** What the walk recorded, once its neighbours pass, makes the structures usable. */
  lemma PassedIsUsable(env: Env, f: Found)
    requires Tracked(env, f) && Concluded(f)
    ensures Usable(env, f)
  {
    hide SortByBase, AllPass, DeviceLength, Safe;
    var s := f.interval;
    NeighboursSuffice(s, COMMON, NOTIFY);
    NeighboursSuffice(s, COMMON, ISR);
    NeighboursSuffice(s, COMMON, DEVICE);
    NeighboursSuffice(s, COMMON, PCI);
    NeighboursSuffice(s, NOTIFY, ISR);
    NeighboursSuffice(s, NOTIFY, DEVICE);
    NeighboursSuffice(s, NOTIFY, PCI);
    NeighboursSuffice(s, ISR, DEVICE);
    NeighboursSuffice(s, DEVICE, PCI);
    SafeIsHigh(f.common, env.ram);
    SafeIsHigh(f.notify, env.ram);
    if f.flag[DEVICE] {
      SafeIsHigh(f.device, env.ram);
    }
  }

  lemma SafeIsHigh(region: Range, ram: seq<Range>)
    requires Safe(region, ram)
    ensures region.base > 0
  {
  }

  /** A capability was judged after these accesses: it is of the id's kind, and accepted or not
      as it says, unless an access failed. */
  ghost predicate Judged(env: Env, cap: u8, id: u8, v: Visit, seen: seq<Access>, r: Result<(), TransportError>) {
    && (r.Err? ==> r.error == IoError || r.error == TransportError.InvalidParameter)
    && (r == Err(IoError) ==> EndsInFailure(seen))
    && (r != Err(IoError) ==>
          && v.pointer == cap && v.id == id && Typed(v) && seen == Body(env, v)
          && (r.Ok? <==> Accepted(env, v)))
  }

  lemma OtherIsAccepted(env: Env, f: Found, v: Visit)
    requires v.content.Other?
    ensures Accepted(env, v) && Body(env, v) == [] && With(env, f, v) == f
  {
  }

  /** The list that guards against cycles holds the pointers met, then zeros. */
  ghost predicate Guarded(cycleList: seq<u8>, visits: seq<Visit>) {
    && |cycleList| == CYCLE_LEN && |visits| <= CYCLE_LEN
    && (forall i | 0 <= i < |visits| :: cycleList[i] == visits[i].pointer)
    && (forall i | |visits| <= i < CYCLE_LEN :: cycleList[i] == 0)
  }

  lemma GuardedMeansMet(cycleList: seq<u8>, visits: seq<Visit>, pointer: u8)
    requires Guarded(cycleList, visits) && InRange(pointer)
    ensures pointer in cycleList <==> Met(visits, pointer)
  {
    if Met(visits, pointer) {
      var i :| 0 <= i < |visits| && visits[i].pointer == pointer;
      assert cycleList[i] == pointer;
    }
  }

  lemma GuardedNext(cycleList: seq<u8>, visits: seq<Visit>, v: Visit)
    requires Guarded(cycleList, visits) && |visits| < CYCLE_LEN
    requires Distinct(visits) && InRange(v.pointer) && Typed(v) && !Met(visits, v.pointer)
    ensures Guarded(cycleList[|visits| := v.pointer], visits + [v]) && Distinct(visits + [v])
  {
    hide Typed;
  }

  lemma WalkStarts(env: Env)
    ensures Passed(env, []) == [] && Gathered(env, []) == Nothing() && Distinct([])
  {
  }

  // ---------- structures and the regions of their registers ----------

  /** The structure lies inside the region of the register it names. */
  ghost predicate InsideBar(env: Env, regions: seq<Option<Range>>, s: Structure) {
    s.bar < |regions| && regions[s.bar].Some? && Inside(Place(env, s), regions[s.bar].value)
  }

  /** The register it names has a region, and the structure ends within its size. */
  predicate FitsBar(regions: seq<Option<Range>>, s: Structure) {
    s.bar < |regions| && regions[s.bar].Some? && s.offset + s.length <= regions[s.bar].value.size
  }

  /** The registers are recorded with their regions. */
  ghost predicate BarsPlaced(env: Env, regions: seq<Option<Range>>) {
    |regions| <= |env.bars| && forall i | 0 <= i < |regions| :: Recorded(env.bars[i], regions[i])
  }

  /** A structure lies inside its register's region exactly if it ends within its size, a
      test that accepting it does not make. */
  lemma InsideBarExactly(env: Env, regions: seq<Option<Range>>, s: Structure)
    requires BarsPlaced(env, regions)
    ensures InsideBar(env, regions, s) <==> FitsBar(regions, s)
  {
  }

  /** The structure at `i` is the last of its kind. */
  ghost predicate LastOfKind(visits: seq<Visit>, i: nat) {
    && i < |visits| && visits[i].content.Virtio?
    && forall k | i < k < |visits| && visits[k].content.Virtio? ::
         visits[k].content.s.cfgType != visits[i].content.s.cfgType
  }

  function Kept(f: Found, kind: u8): Range {
    if kind == COMMON then f.common else if kind == NOTIFY then f.notify else f.device
  }

  /** What is kept of a kind is the last structure of that kind. */
  lemma {:induction false} KeptIsLast(env: Env, visits: seq<Visit>, i: nat)
    requires LastOfKind(visits, i)
    requires visits[i].content.s.cfgType in [COMMON, NOTIFY, DEVICE]
    ensures Kept(Gathered(env, visits), visits[i].content.s.cfgType) == Place(env, visits[i].content.s)
  {
    var n := |visits| - 1;
    if i < n {
      assert forall k | 0 <= k < n :: visits[..n][k] == visits[k];
      KeptIsLast(env, visits[..n], i);
    }
  }

  /** A region kept lies inside the region of its register exactly if the structure it comes
      from ends within its size. */
  ghost predicate Confined(env: Env, regions: seq<Option<Range>>, visits: seq<Visit>) {
    forall i: nat | LastOfKind(visits, i) && visits[i].content.s.cfgType in [COMMON, NOTIFY, DEVICE] ::
      var s := visits[i].content.s;
      && Kept(Gathered(env, visits), s.cfgType) == Place(env, s)
      && (InsideBar(env, regions, s) <==> FitsBar(regions, s))
  }

  lemma GatheredIsConfined(env: Env, regions: seq<Option<Range>>, visits: seq<Visit>)
    requires BarsPlaced(env, regions)
    ensures Confined(env, regions, visits)
  {
    forall i: nat | LastOfKind(visits, i) && visits[i].content.s.cfgType in [COMMON, NOTIFY, DEVICE]
      ensures var s := visits[i].content.s;
              && Kept(Gathered(env, visits), s.cfgType) == Place(env, s)
              && (InsideBar(env, regions, s) <==> FitsBar(regions, s))
    {
      KeptIsLast(env, visits, i);
      InsideBarExactly(env, regions, visits[i].content.s);
    }
  }

  /** What a device answered while its list was walked: its status and id, the capabilities
      met, the last link and every access. */
  datatype Course = Course(status: u16, deviceId: u16, visits: seq<Visit>, last: u8, walk: seq<Access>)

  /** What setting up from a device's list comes to: nothing without the capability bit, else
      what the walk and the test after it come to. */
  ghost predicate Discovered(env: Env, c: Course, seen: seq<Access>, r: Result<u16, TransportError>) {
    && c.deviceId == env.deviceId
    && var start := [Read(0x06, c.status), Read(0x02, c.deviceId)];
       match r
       case Err(IoError) => EndsInFailure(seen)
       case Err(VirtioUnsupportedDevice) => c.status / 16 % 2 == 0 && seen == start
       case Err(InvalidParameter) =>
         && c.status / 16 % 2 == 1 && Distinct(c.visits) && seen == start + c.walk
         && (|| Outcome(env, c.visits, c.last, c.walk, Err(TransportError.InvalidParameter))
             || (Outcome(env, c.visits, c.last, c.walk, Ok(())) && !Concluded(Gathered(env, c.visits))))
       case Ok(id) =>
         && id == c.deviceId && c.status / 16 % 2 == 1 && Distinct(c.visits) && seen == start + c.walk
         && Outcome(env, c.visits, c.last, c.walk, Ok(())) && Concluded(Gathered(env, c.visits))
  }

  lemma WalkFails(env: Env, c: Course, start: seq<Access>, e: TransportError)
    requires Outcome(env, c.visits, c.last, c.walk, Err(e))
    ensures e != VirtioUnsupportedDevice
    ensures e == IoError ==> EndsInFailure(start + c.walk)
  {
  }

  lemma WalkSucceeds(env: Env, c: Course, done: Result<(), TransportError>)
    requires Outcome(env, c.visits, c.last, c.walk, done) && done.Ok?
    ensures Outcome(env, c.visits, c.last, c.walk, Ok(()))
  {
  }

  /** A set-up that succeeds has usable structures. */
  lemma DiscoveredIsUsable(env: Env, c: Course, seen: seq<Access>, r: Result<u16, TransportError>)
    requires Discovered(env, c, seen, r) && r.Ok?
    ensures Usable(env, Gathered(env, c.visits))
  {
    hide Usable, Concluded, Tracked, Accepted, Passed, Gathered;
    GatheredIsTracked(env, c.visits);
    PassedIsUsable(env, Gathered(env, c.visits));
  }

  // ---------- two set-ups that succeed ----------

  /** A list of four structures. */
  function Listing(a: Structure, b: Structure, c: Structure, d: Structure): seq<Visit> {
    [Visit(0x40, VIRTIO_CAPABILITIES_SPECIFIC, Virtio(a, 0)), Visit(0x54, VIRTIO_CAPABILITIES_SPECIFIC, Virtio(b, 0)),
     Visit(0x68, VIRTIO_CAPABILITIES_SPECIFIC, Virtio(c, 0)), Visit(0x7C, VIRTIO_CAPABILITIES_SPECIFIC, Virtio(d, 0))]
  }

  ghost function ListingCourse(env: Env, visits: seq<Visit>): Course {
    Course(0x10, env.deviceId, visits, 0, Passed(env, visits) + [Read(LinkAt(visits), 0)])
  }

  function Entry(env: Env, s: Structure): Interval {
    if Place(env, s).End() < TWO_64 then Interval(Place(env, s).base, Place(env, s).End()) else ZERO
  }

  /** The structures are of the four kinds every device must have, in this order. */
  ghost predicate FourKinds(env: Env, a: Structure, b: Structure, c: Structure, d: Structure) {
    && a.cfgType == COMMON && b.cfgType == NOTIFY && c.cfgType == ISR && d.cfgType == PCI
    && GoodStructure(env, 0x40, a) && GoodStructure(env, 0x54, b)
    && GoodStructure(env, 0x68, c) && GoodStructure(env, 0x7C, d)
  }

  lemma ListingGathered(env: Env, a: Structure, b: Structure, c: Structure, d: Structure)
    requires FourKinds(env, a, b, c, d)
    ensures var f := Gathered(env, Listing(a, b, c, d));
            && f.flag == [false, true, true, true, false, true]
            && f.interval == [ZERO, Entry(env, a), Entry(env, b), Entry(env, c), ZERO, Entry(env, d)]
  {
    var v := Listing(a, b, c, d);
    assert Gathered(env, []) == Nothing();
    hide Gathered, Sound, Place;
    GatheredOne(env, [], v[0]);
    GatheredOne(env, v[..1], v[1]);
    GatheredOne(env, v[..2], v[2]);
    GatheredOne(env, v[..3], v[3]);
    assert v[..1] == [] + [v[0]] && v[..2] == v[..1] + [v[1]];
    assert v[..3] == v[..2] + [v[2]] && v == v[..3] + [v[3]];
  }

  /** A device with these four structures is set up if its entries pass. */
  lemma ListingDiscovered(env: Env, a: Structure, b: Structure, c: Structure, d: Structure)
    requires FourKinds(env, a, b, c, d)
    requires AllPass(SortByBase([ZERO, Entry(env, a), Entry(env, b), Entry(env, c), ZERO, Entry(env, d)]))
    ensures var course := ListingCourse(env, Listing(a, b, c, d));
            Discovered(env, course, [Read(0x06, 0x10), Read(0x02, env.deviceId)] + course.walk, Ok(env.deviceId))
  {
    hide GoodStructure, Passed, Gathered, SortByBase, AllPass;
    ListingGathered(env, a, b, c, d);
    var visits := Listing(a, b, c, d);
    assert forall i | 0 <= i < 4 :: Accepted(env, visits[i]) && Typed(visits[i]);
  }

  /** What placing a device's registers leaves, from windows in which nothing is granted yet. */
  ghost predicate PlacedBy(env: Env, regions: seq<Option<Range>>, offsets: seq<nat>, probes: seq<seq<Access>>,
                           registers: map<nat, u32>, end: nat)
  {
    && |env.bars| == |regions| == |offsets| == |probes| == BARS && 0x24 < end <= 0x2c
    && Stepped(offsets, probes, end)
    && (forall i | 0 <= i < BARS :: Settled(registers, end, offsets[i], env.bars[i], regions[i], probes[i]))
    && Carved(Cursors(MMIO32_START, MMIO64_START), probes, regions)
  }

  /** Six 32-bit registers, of which the first two have 4 kB each and the others nothing. */
  function TwoBars(): Env {
    Env([Bar(0xC000_0000, MemorySpace32), Bar(0xC000_1000, MemorySpace32), Bar(0, MemorySpace32),
         Bar(0, MemorySpace32), Bar(0, MemorySpace32), Bar(0, MemorySpace32)], 0x1043, [])
  }

  function TwoRegions(): seq<Option<Range>> {
    [Some(Range(0xC000_0000, 0x1000)), Some(Range(0xC000_1000, 0x1000)), None, None, None, None]
  }

  /** The accesses to such a register: its word, the word again, and the answer to all ones. */
  function BarProbe(offset: nat, answer: u32): seq<Access> {
    [Read(offset, 0), Read(offset, 0), Read(offset, answer)]
  }

  function TwoProbes(): seq<seq<Access>> {
    [BarProbe(0x10, 0xFFFF_F000), BarProbe(0x14, 0xFFFF_F000), BarProbe(0x18, 0),
     BarProbe(0x1C, 0), BarProbe(0x20, 0), BarProbe(0x24, 0)]
  }

  function TwoOffsets(): seq<nat> {
    [0x10, 0x14, 0x18, 0x1C, 0x20, 0x24]
  }

  function TwoRegisters(): map<nat, u32> {
    map[0x10 := 0xC000_0000, 0x14 := 0xC000_1000]
  }

  lemma ProbedEmpty(c: Cursors, offset: nat)
    ensures GrantOf(c, BarProbe(offset, 0)) == None && PastProbe(c, BarProbe(offset, 0)) == c
    ensures AsAnswered(BarProbe(offset, 0), offset, Bar(0, MemorySpace32), None)
  {
  }

  lemma CarvedPage(low: u32)
    requires WINDOW32.base <= low && low + 0x1000 <= WINDOW32.End() && low % 0x1000 == 0
    ensures Carve(low, 0x1000, WINDOW32) == Ok(Range(low, 0x1000))
  {
    hide Pow2, AlignUp;
    PageIsPower();
    AlignUpMultiple(low, 0x1000, 12);
    NextMultiple(AlignUp(low, 0x1000).value, low);
  }

  lemma PageSize()
    ensures BarSize(0xFFFF_F000) == 0x1000
  {
  }

  lemma ProbedPage(low: u32, high: u64, offset: nat)
    requires WINDOW32.base <= low && low + 0x1000 <= WINDOW32.End() && low % 0x1000 == 0
    ensures var seen, region := BarProbe(offset, 0xFFFF_F000), Some(Range(low, 0x1000));
            && GrantOf(Cursors(low, high), seen) == region
            && PastProbe(Cursors(low, high), seen) == Cursors(low + 0x1000, high)
            && AsAnswered(seen, offset, Bar(low, MemorySpace32), region)
  {
    hide Carve, BarSize;
    CarvedPage(low);
    PageSize();
  }

  lemma PageIsPower()
    ensures Pow2(12) == 0x1000
  {
    Word16Size();
    assert Pow2(16) == 2 * Pow2(15) && Pow2(15) == 2 * Pow2(14);
    assert Pow2(14) == 2 * Pow2(13) && Pow2(13) == 2 * Pow2(12);
  }

  lemma NextMultiple(a: nat, low: nat)
    requires low <= a < low + 0x1000 && a % 0x1000 == low % 0x1000 == 0
    ensures a == low
  {
  }

  lemma TwoStepped()
    ensures Stepped(TwoOffsets(), TwoProbes(), 0x28)
  {
    hide Stepped;
    var o, p := TwoOffsets(), TwoProbes();
    SteppedNone();
    SteppedBy(o[..0], p[..0], 0x10, p[0]);
    assert o[..1] == o[..0] + [0x10] && p[..1] == p[..0] + [p[0]];
    SteppedBy(o[..1], p[..1], 0x14, p[1]);
    assert o[..2] == o[..1] + [0x14] && p[..2] == p[..1] + [p[1]];
    SteppedBy(o[..2], p[..2], 0x18, p[2]);
    assert o[..3] == o[..2] + [0x18] && p[..3] == p[..2] + [p[2]];
    SteppedBy(o[..3], p[..3], 0x1C, p[3]);
    assert o[..4] == o[..3] + [0x1C] && p[..4] == p[..3] + [p[3]];
    SteppedBy(o[..4], p[..4], 0x20, p[4]);
    assert o[..5] == o[..4] + [0x20] && p[..5] == p[..4] + [p[4]];
    SteppedBy(o[..5], p[..5], 0x24, p[5]);
    assert o == o[..5] + [0x24] && p == p[..5] + [p[5]];
  }

  lemma SteppedNone()
    ensures Stepped([], [], 0x10)
  {
  }

  lemma SteppedBy(offsets: seq<nat>, probes: seq<seq<Access>>, offset: nat, seen: seq<Access>)
    requires Stepped(offsets, probes, offset) && seen != [] && seen[0] == Read(offset, 0)
    ensures Stepped(offsets + [offset], probes + [seen], offset + 4)
  {
    assert (offsets + [offset])[..|offsets|] == offsets && (probes + [seen])[..|probes|] == probes;
  }

  lemma TwoCarved()
    ensures Carved(Cursors(MMIO32_START, MMIO64_START), TwoProbes(), TwoRegions())
  {
    hide GrantOf, PastProbe, Carved, PastProbes, AsAnswered, BarProbe;
    var c, p, r := Cursors(MMIO32_START, MMIO64_START), TwoProbes(), TwoRegions();
    var end := Cursors(0xC000_2000, MMIO64_START);
    CarvedNone(c);
    ProbedPage(0xC000_0000, MMIO64_START, 0x10);
    CarvedOne(c, [], [], p[0]);
    assert [] + [p[0]] == [p[0]] && [] + [r[0]] == [r[0]];
    ProbedPage(0xC000_1000, MMIO64_START, 0x14);
    CarvedOne(c, [p[0]], [r[0]], p[1]);
    assert [p[0]] + [p[1]] == [p[0], p[1]] && [r[0]] + [r[1]] == [r[0], r[1]];
    CarvedEmpty(c, end, [p[0], p[1]], [r[0], r[1]], 0x18);
    assert [p[0], p[1]] + [p[2]] == [p[0], p[1], p[2]] && [r[0], r[1]] + [None] == [r[0], r[1], None];
    CarvedEmpty(c, end, [p[0], p[1], p[2]], [r[0], r[1], None], 0x1C);
    assert [p[0], p[1], p[2]] + [p[3]] == [p[0], p[1], p[2], p[3]];
    assert [r[0], r[1], None] + [None] == [r[0], r[1], None, None];
    CarvedEmpty(c, end, [p[0], p[1], p[2], p[3]], [r[0], r[1], None, None], 0x20);
    assert [p[0], p[1], p[2], p[3]] + [p[4]] == [p[0], p[1], p[2], p[3], p[4]];
    assert [r[0], r[1], None, None] + [None] == [r[0], r[1], None, None, None];
    CarvedEmpty(c, end, [p[0], p[1], p[2], p[3], p[4]], [r[0], r[1], None, None, None], 0x24);
    assert [p[0], p[1], p[2], p[3], p[4]] + [p[5]] == p;
    assert [r[0], r[1], None, None, None] + [None] == r;
  }

  lemma CarvedEmpty(c: Cursors, end: Cursors, probes: seq<seq<Access>>, regions: seq<Option<Range>>, offset: nat)
    requires Carved(c, probes, regions) && PastProbes(c, probes) == end
    ensures Carved(c, probes + [BarProbe(offset, 0)], regions + [None])
    ensures PastProbes(c, probes + [BarProbe(offset, 0)]) == end
  {
    hide GrantOf, PastProbe, Carved, PastProbes, BarProbe, AsAnswered;
    ProbedEmpty(end, offset);
    CarvedOne(c, probes, regions, BarProbe(offset, 0));
  }

  lemma SettledPage(registers: map<nat, u32>, offset: nat, low: u32)
    requires WINDOW32.base <= low && low + 0x1000 <= WINDOW32.End() && low % 0x1000 == low % 16 == 0
    requires offset in registers && registers[offset] == low && offset <= 0x24
    ensures Settled(registers, 0x28, offset, Bar(low, MemorySpace32), Some(Range(low, 0x1000)),
                    BarProbe(offset, 0xFFFF_F000))
  {
    hide AsAnswered, BarProbe, GrantOf, PastProbe;
    ProbedPage(low, 0, offset);
    assert low % TWO_32 == low;
  }

  lemma SettledEmpty(registers: map<nat, u32>, offset: nat)
    requires offset <= 0x24
    ensures Settled(registers, 0x28, offset, Bar(0, MemorySpace32), None, BarProbe(offset, 0))
  {
    hide AsAnswered;
    ProbedEmpty(Cursors(0, 0), offset);
  }

  /** A device can have these registers. */
  lemma TwoBarsPlaced()
    ensures PlacedBy(TwoBars(), TwoRegions(), TwoOffsets(), TwoProbes(), TwoRegisters(), 0x28)
  {
    hide Carved, Stepped, Settled, BarProbe;
    TwoStepped();
    TwoCarved();
    SettledPage(TwoRegisters(), 0x10, 0xC000_0000);
    SettledPage(TwoRegisters(), 0x14, 0xC000_1000);
    SettledEmpty(TwoRegisters(), 0x18);
    SettledEmpty(TwoRegisters(), 0x1C);
    SettledEmpty(TwoRegisters(), 0x20);
    SettledEmpty(TwoRegisters(), 0x24);
  }

  /** The four structures of a device that strays. */
  lemma StrayKinds()
    ensures var env := TwoBars();
            var a, b := Structure(COMMON, 0, 0x1000, 0x38), Structure(NOTIFY, 1, 0x400, 4);
            var c, d := Structure(ISR, 1, 0x800, 4), Structure(PCI, 1, 0xC00, 4);
            && FourKinds(env, a, b, c, d)
            && Entry(env, a) == Interval(0xC000_1000, 0xC000_1038)
            && Entry(env, b) == Interval(0xC000_1400, 0xC000_1404)
            && Entry(env, c) == Interval(0xC000_1800, 0xC000_1804)
            && Entry(env, d) == Interval(0xC000_1C00, 0xC000_1C04)
  {
  }

  lemma StrayPasses()
    ensures AllPass(SortByBase([ZERO, Interval(0xC000_1000, 0xC000_1038), Interval(0xC000_1400, 0xC000_1404),
                                Interval(0xC000_1800, 0xC000_1804), ZERO, Interval(0xC000_1C00, 0xC000_1C04)]))
  {
    hide SortByBase;
    IncreasingSorts(ZERO, Interval(0xC000_1000, 0xC000_1038), Interval(0xC000_1400, 0xC000_1404),
                    Interval(0xC000_1800, 0xC000_1804), Interval(0xC000_1C00, 0xC000_1C04));
  }

  /** A structure accepted although it lies wholly in the region of another register: its
      offset is nowhere compared with the size of its own. */
  lemma StrayStructure()
    ensures PlacedBy(TwoBars(), TwoRegions(), TwoOffsets(), TwoProbes(), TwoRegisters(), 0x28)
    ensures var env, stray := TwoBars(), Structure(COMMON, 0, 0x1000, 0x38);
            var visits := Listing(stray, Structure(NOTIFY, 1, 0x400, 4), Structure(ISR, 1, 0x800, 4),
                                  Structure(PCI, 1, 0xC00, 4));
            var course := ListingCourse(env, visits);
            && Discovered(env, course, [Read(0x06, 0x10), Read(0x02, 0x1043)] + course.walk, Ok(0x1043))
            && Gathered(env, visits).common == Place(env, stray)
            && !InsideBar(env, TwoRegions(), stray)
            && Inside(Place(env, stray), TwoRegions()[1].value)
  {
    hide Gathered, Discovered, SortByBase, AllPass, PlacedBy, FourKinds, Entry, TwoProbes, TwoRegisters, TwoOffsets;
    TwoBarsPlaced();
    var env := TwoBars();
    var a, b := Structure(COMMON, 0, 0x1000, 0x38), Structure(NOTIFY, 1, 0x400, 4);
    var c, d := Structure(ISR, 1, 0x800, 4), Structure(PCI, 1, 0xC00, 4);
    StrayKinds();
    StrayPasses();
    ListingDiscovered(env, a, b, c, d);
    KeptIsLast(env, Listing(a, b, c, d), 0);
  }

  /** The four structures of a device whose ISR structure is on a register without a region. */
  lemma CoveringKinds()
    ensures var env := TwoBars();
            var a, b := Structure(COMMON, 0, 0, 0x1000), Structure(NOTIFY, 0, 0x1000, 0x1000);
            var c, d := Structure(ISR, 2, 0, 0xD000_0000), Structure(PCI, 0, 0x2000, 0x10);
            && FourKinds(env, a, b, c, d)
            && [ZERO, Entry(env, a), Entry(env, b), Entry(env, c), ZERO, Entry(env, d)] == CoveringRow()
  {
  }

  /** Entries accepted although the ISR structure, on a register without a region, covers the
      common and the notify structure whole. */
  lemma CoveringStructure()
    ensures PlacedBy(TwoBars(), TwoRegions(), TwoOffsets(), TwoProbes(), TwoRegisters(), 0x28)
    ensures var env := TwoBars();
            var visits := Listing(Structure(COMMON, 0, 0, 0x1000), Structure(NOTIFY, 0, 0x1000, 0x1000),
                                  Structure(ISR, 2, 0, 0xD000_0000), Structure(PCI, 0, 0x2000, 0x10));
            var course, f := ListingCourse(env, visits), Gathered(env, visits);
            && Discovered(env, course, [Read(0x06, 0x10), Read(0x02, 0x1043)] + course.walk, Ok(0x1043))
            && Tracked(env, f) && f.interval == CoveringRow()
            && f.flag == [false, true, true, true, false, true]
  {
    hide Gathered, Discovered, SortByBase, AllPass, Tracked, PlacedBy, FourKinds, Entry, CoveringRow;
    hide TwoProbes, TwoRegisters, TwoOffsets;
    TwoBarsPlaced();
    var env := TwoBars();
    var a, b := Structure(COMMON, 0, 0, 0x1000), Structure(NOTIFY, 0, 0x1000, 0x1000);
    var c, d := Structure(ISR, 2, 0, 0xD000_0000), Structure(PCI, 0, 0x2000, 0x10);
    CoveringKinds();
    ZeroBaseEscapes();
    ListingDiscovered(env, a, b, c, d);
    ListingGathered(env, a, b, c, d);
    ListingTracked(env, a, b, c, d);
  }

  lemma ListingTracked(env: Env, a: Structure, b: Structure, c: Structure, d: Structure)
    requires FourKinds(env, a, b, c, d)
    ensures Tracked(env, Gathered(env, Listing(a, b, c, d)))
  {
    hide Tracked, GoodStructure, Gathered;
    var visits := Listing(a, b, c, d);
    assert forall i | 0 <= i < 4 :: Accepted(env, visits[i]);
    GatheredIsTracked(env, visits);
  }

  class VirtioPciTransport {
    const device: PciDevice
    const ram: seq<Range>
    var region: Range
    var notifyRegion: Range
    var deviceConfigRegion: Range
    var notifyOffMultiplier: u32
    var msixTable: Range
    var msixTableFree: nat

    constructor (device: PciDevice, ram: seq<Range>)
      ensures this.device == device && this.ram == ram && Fresh()
    {
      this.device, this.ram := device, ram;
      region, notifyRegion, deviceConfigRegion := Range(0, 0), Range(0, 0), Range(0, 0);
      notifyOffMultiplier, msixTable, msixTableFree := 0, Range(0, 0), 0;
    }

    ghost predicate Fresh()
      reads this
    {
      && region == notifyRegion == deviceConfigRegion == msixTable == Range(0, 0)
      && notifyOffMultiplier == 0 && msixTableFree == 0
    }

    /** The fields hold the structures found. */
    ghost predicate Keeps(f: Found)
      reads this
    {
      && region == f.common && notifyRegion == f.notify && deviceConfigRegion == f.device
      && notifyOffMultiplier == f.multiplier && msixTable == f.table && msixTableFree == f.vectors
    }

    /** The fields hold what was found. */
    ghost predicate Shows(check: CheckRegionOverlap, f: Found)
      reads this, check, check.interval
    {
      check.flag == f.flag && check.interval[..] == f.interval && Keeps(f)
    }

    ghost function Around(deviceId: u16): Env
      reads device.bars
    {
      Env(device.bars[..], deviceId, ram)
    }

    method ReadStructure(cap: u8) returns (r: Result<Structure, TransportError>, ghost seen: seq<Access>)
      requires InRange(cap)
      modifies device.config`log
      ensures device.config.log == old(device.config.log) + seen
      ensures r.Ok? ==> seen == Parts(cap, r.value)
      ensures r.Err? ==> r.error == IoError && EndsInFailure(seen)
    {
      var cfgType := device.config.ReadU8(cap + 3);
      if cfgType.Err? { return Err(IoError), [Failed(cap + 3)]; }
      seen := [Read(cap + 3, cfgType.value)];
      var bar := device.config.ReadU8(cap + 4);
      if bar.Err? { return Err(IoError), seen + [Failed(cap + 4)]; }
      seen := seen + [Read(cap + 4, bar.value)];
      var offset := device.config.ReadU32(cap + 8);
      if offset.Err? { return Err(IoError), seen + [Failed(cap + 8)]; }
      seen := seen + [Read(cap + 8, offset.value)];
      var length := device.config.ReadU32(cap + 12);
      if length.Err? { return Err(IoError), seen + [Failed(cap + 12)]; }
      seen := seen + [Read(cap + 12, length.value)];
      r := Ok(Structure(cfgType.value, bar.value, offset.value, length.value));
    }

    /** Records a structure whose sums add: it has to be sound, and a multiplier follows a notify
        structure. */
    method Record(check: CheckRegionOverlap, cap: u8, deviceId: u16, s: Structure, ghost f: Found)
      returns (r: Result<(), TransportError>, ghost multiplier: u32, ghost seen: seq<Access>)
      requires check.Valid() && InRange(cap) && device.bars.Length == BARS && Shows(check, f)
      requires s.bar <= MAX_BARS_INDEX && Adds(Address(Around(deviceId), s.bar), s.offset, s.length)
      modifies this`region, this`notifyRegion, this`deviceConfigRegion, this`notifyOffMultiplier
      modifies check`flag, check.interval, device.config`log
      ensures check.Valid()
      ensures device.config.log == old(device.config.log) + seen
      ensures r == Err(IoError) ==> EndsInFailure(seen)
      ensures r.Err? ==> r.error == IoError || r.error == TransportError.InvalidParameter
      ensures r != Err(IoError) ==> (r.Ok? <==> Sound(Around(deviceId), cap, s))
      ensures r == Err(TransportError.InvalidParameter) ==> seen == []
      ensures r.Ok? ==> seen == if s.cfgType == NOTIFY then [Read(cap + CAP_LEN, multiplier)] else []
      ensures r.Ok? ==> var v := Visit(cap, VIRTIO_CAPABILITIES_SPECIFIC, Virtio(s, multiplier));
                        Shows(check, With(Around(deviceId), f, v))
    {
      hide Safe, DeviceLength;
      multiplier, seen := 0, [];
      var address := device.bars[s.bar].address;
      var base, length := address + s.offset, s.length;
      if s.cfgType == COMMON {
        if address == 0 || length < COMMON_CONFIGURATION_REGISTERS_OFFSET {
          return Err(TransportError.InvalidParameter), 0, [];
        }
        r := check.SetRegion(COMMON, base, length);
        var made := NewMemoryRegion(base, length, ram);
        if r.Err? || made.None? {
          return Err(TransportError.InvalidParameter), 0, [];
        }
        region := made.value;
      } else if s.cfgType == NOTIFY {
        if cap == 0x100 - CAP_LEN || address == 0 || length < 4 {
          return Err(TransportError.InvalidParameter), 0, [];
        }
        r := check.SetRegion(NOTIFY, base, length);
        var made := NewMemoryRegion(base, length, ram);
        if r.Err? || made.None? {
          return Err(TransportError.InvalidParameter), 0, [];
        }
        notifyRegion := made.value;
        var read := device.config.ReadU32(cap + CAP_LEN);
        if read.Err? {
          return Err(IoError), 0, [Failed(cap + CAP_LEN)];
        }
        notifyOffMultiplier := read.value;
        multiplier, seen := read.value, [Read(cap + CAP_LEN, read.value)];
      } else if s.cfgType == DEVICE {
        if DeviceLength(deviceId).None? || length < DeviceLength(deviceId).value || address == 0 {
          return Err(TransportError.InvalidParameter), 0, [];
        }
        r := check.SetRegion(DEVICE, base, length);
        var made := NewMemoryRegion(base, length, ram);
        if r.Err? || made.None? {
          return Err(TransportError.InvalidParameter), 0, [];
        }
        deviceConfigRegion := made.value;
      } else if s.cfgType == PCI || s.cfgType == ISR {
        r := check.SetRegion(s.cfgType, base, length);
      } else {
        r := Ok(());
      }
    }

    /** A vendor capability: accepted exactly if the structure the device describes is good. */
    method VirtioCapability(check: CheckRegionOverlap, cap: u8, deviceId: u16, ghost f: Found)
      returns (r: Result<(), TransportError>, ghost v: Visit, ghost seen: seq<Access>)
      requires check.Valid() && InRange(cap) && device.bars.Length == BARS && Shows(check, f)
      modifies this`region, this`notifyRegion, this`deviceConfigRegion, this`notifyOffMultiplier
      modifies check`flag, check.interval, device.config`log
      ensures check.Valid()
      ensures device.config.log == old(device.config.log) + seen
      ensures Judged(Around(deviceId), cap, VIRTIO_CAPABILITIES_SPECIFIC, v, seen, r)
      ensures r.Ok? ==> Shows(check, With(Around(deviceId), f, v))
    {
      hide Sound, With, Adds;
      v, seen := Visit(cap, VIRTIO_CAPABILITIES_SPECIFIC, Virtio(Structure(0, 0, 0, 0), 0)), [];
      if cap % 4 != 0 {
        return Err(TransportError.InvalidParameter), v, seen;
      }
      var found;
      found, seen := ReadStructure(cap);
      if found.Err? {
        return Err(found.error), v, seen;
      }
      var st := found.value;
      v := Visit(cap, VIRTIO_CAPABILITIES_SPECIFIC, Virtio(st, 0));
      if st.bar > MAX_BARS_INDEX {
        return Err(TransportError.InvalidParameter), v, seen;
      }
      if !Adds(device.bars[st.bar].address, st.offset, st.length) {
        return Err(TransportError.InvalidParameter), v, seen;
      }
      ghost var multiplier, more;
      r, multiplier, more := Record(check, cap, deviceId, st, f);
      v := Visit(cap, VIRTIO_CAPABILITIES_SPECIFIC, Virtio(st, multiplier));
      seen := seen + more;
    }

    /** The addresses recorded for the registers of the device are far from overflow. */
    ghost predicate LowBars()
      reads device.bars
    {
      device.bars.Length == BARS && forall i | 0 <= i < BARS :: device.bars[i].address < 0x1_8000_0000
    }

    /** The words of an MSI-X capability; the table word is read twice, unless the first answer
        names no register. */
    method ReadMsix(cap: u8) returns (r: Result<(u16, u32, u32), TransportError>, ghost seen: seq<Access>)
      requires InRange(cap)
      modifies device.config`log
      ensures device.config.log == old(device.config.log) + seen
      ensures r.Ok? ==> seen == MsixReads(cap, r.value.0, r.value.1, r.value.2)
      ensures r.Err? ==> r.error == IoError && EndsInFailure(seen)
    {
      var mcr := device.config.ReadU16(cap + 2);
      if mcr.Err? { return Err(IoError), [Failed(cap + 2)]; }
      var bir := device.config.ReadU32(cap + 4);
      if bir.Err? { return Err(IoError), [Read(cap + 2, mcr.value), Failed(cap + 4)]; }
      seen := [Read(cap + 2, mcr.value), Read(cap + 4, bir.value)];
      if bir.value % 8 >= BARS {
        return Ok((mcr.value, bir.value, 0)), seen;
      }
      var table := device.config.ReadU32(cap + 4);
      if table.Err? { return Err(IoError), seen + [Failed(cap + 4)]; }
      return Ok((mcr.value, bir.value, table.value)), seen + [Read(cap + 4, table.value)];
    }

    /** An MSI-X capability: accepted exactly if its vector table is safe. */
    method MsixCapability(check: CheckRegionOverlap, cap: u8, deviceId: u16, ghost f: Found)
      returns (r: Result<(), TransportError>, ghost v: Visit, ghost seen: seq<Access>)
      requires LowBars() && InRange(cap) && Shows(check, f)
      modifies this`msixTable, this`msixTableFree, device.config`log
      ensures device.config.log == old(device.config.log) + seen
      ensures Judged(Around(deviceId), cap, MSIX_CAPABILITY_ID, v, seen, r)
      ensures r.Ok? ==> Shows(check, With(Around(deviceId), f, v))
    {
      hide Safe, MsixReads;
      v := Visit(cap, MSIX_CAPABILITY_ID, Msix(0, 0, 0));
      var words;
      words, seen := ReadMsix(cap);
      if words.Err? {
        return Err(IoError), v, seen;
      }
      var (control, first, second) := words.value;
      v := Visit(cap, MSIX_CAPABILITY_ID, Msix(control, first, second));
      var index, tableOffset, tableSize := first % 8, second - second % 8, control % 0x800;
      if index >= BARS || tableOffset % 8 != 0 || tableSize > MSIX_MAX_VECTORS {
        return Err(TransportError.InvalidParameter), v, seen;
      }
      msixTableFree := tableSize + 1;
      var made := NewMemoryRegion(device.bars[index].address + tableOffset, (tableSize + 1) * 16, ram);
      if made.None? {
        return Err(TransportError.InvalidParameter), v, seen;
      }
      msixTable := made.value;
      var done := device.config.WriteU16(cap + 2, control % 0x8000 + 0x8000);
      if done.Err? {
        return Err(IoError), v, seen + [Failed(cap + 2)];
      }
      r := Ok(());
    }

    /** One capability of the list, behind the link that led to it. */
    method Capability(check: CheckRegionOverlap, cap: u8, deviceId: u16, ghost f: Found)
      returns (r: Result<(), TransportError>, ghost v: Visit, ghost seen: seq<Access>)
      requires check.Valid() && LowBars() && InRange(cap) && Shows(check, f)
      modifies this, check`flag, check.interval, device.config`log
      ensures check.Valid()
      ensures device.config.log == old(device.config.log) + seen
      ensures r == Err(IoError) ==> EndsInFailure(seen)
      ensures r.Err? ==> r.error == IoError || r.error == TransportError.InvalidParameter
      ensures r != Err(IoError) ==>
                && v.pointer == cap && Typed(v) && seen == [Read(cap, v.id)] + Body(Around(deviceId), v)
                && (r.Ok? <==> Accepted(Around(deviceId), v))
      ensures r.Ok? ==> Shows(check, With(Around(deviceId), f, v))
    {
      hide With, Accepted, Body;
      var id := device.config.ReadU8(cap);
      if id.Err? {
        return Err(IoError), Visit(cap, 0, Other), [Failed(cap)];
      }
      ghost var more;
      if id.value == VIRTIO_CAPABILITIES_SPECIFIC {
        r, v, more := VirtioCapability(check, cap, deviceId, f);
      } else if id.value == MSIX_CAPABILITY_ID {
        r, v, more := MsixCapability(check, cap, deviceId, f);
      } else {
        r, v, more := Ok(()), Visit(cap, id.value, Other), [];
        OtherIsAccepted(Around(deviceId), f, v);
      }
      seen := [Read(cap, id.value)] + more;
    }

    /** The walk along the list. What it met, its outcome and what it keeps are all told by the
        accesses it made. */
    method Walk(check: CheckRegionOverlap, deviceId: u16)
      returns (r: Result<(), TransportError>, ghost visits: seq<Visit>, ghost last: u8, ghost seen: seq<Access>)
      requires check.Valid() && LowBars() && Shows(check, Nothing())
      modifies this, check`flag, check.interval, device.config`log
      ensures check.Valid()
      ensures device.config.log == old(device.config.log) + seen
      ensures Distinct(visits) && |visits| <= CYCLE_LEN
      ensures Outcome(Around(deviceId), visits, last, seen, r)
      ensures r.Ok? ==> Shows(check, Gathered(Around(deviceId), visits))
    {
      hide LowBars, Shows, Accepted, Body, With, Passed, Gathered, Nothing, Distinct, Met, Typed;
      ghost var env := Around(deviceId);
      WalkStarts(env);
      visits, last := [], 0;
      var cycleFlag := 0;
      var cycleList: seq<u8> := seq(CYCLE_LEN, _ => 0);
      var cap := device.config.ReadU8(0x34);
      if cap.Err? {
        return Err(IoError), visits, 0, [Failed(0x34)];
      }
      var capNext: u8 := cap.value;
      last, seen := capNext, [Read(0x34, capNext)];
      while InRange(capNext)
        invariant cycleFlag == |visits| < CYCLE_LEN && last == capNext
        invariant Guarded(cycleList, visits)
        invariant check.Valid() && LowBars() && env == Around(deviceId)
        invariant Distinct(visits) && AllAccepted(env, visits) && Shows(check, Gathered(env, visits))
        invariant device.config.log == old(device.config.log) + seen
        invariant seen == Passed(env, visits) + [Read(LinkAt(visits), capNext)]
        decreases CYCLE_LEN - cycleFlag
      {
        GuardedMeansMet(cycleList, visits, capNext);
        if capNext in cycleList {
          return Err(TransportError.InvalidParameter), visits, capNext, seen;
        }
        ghost var v, more;
        r, v, more := Capability(check, capNext, deviceId, Gathered(env, visits));
        if r == Err(IoError) {
          return r, visits, capNext, seen + more;
        }
        GuardedNext(cycleList, visits, v);
        PassedOne(env, visits, v);
        GatheredOne(env, visits, v);
        cycleList := cycleList[cycleFlag := capNext];
        assert (visits + [v])[..|visits|] == visits;
        seen, visits := Passed(env, visits + [v]), visits + [v];
        if r.Err? {
          return r, visits, capNext, seen;
        }
        cycleFlag := cycleFlag + 1;
        if cycleFlag >= CYCLE_LEN {
          return Err(TransportError.InvalidParameter), visits, capNext, seen;
        }
        cap := device.config.ReadU8(capNext + 1);
        if cap.Err? {
          return Err(IoError), visits, capNext, seen + [Failed(capNext + 1)];
        }
        capNext := cap.value;
        last, seen := capNext, seen + [Read(LinkAt(visits), capNext)];
      }
      r := Ok(());
    }

    /** The test after the walk. */
    method Conclude(check: CheckRegionOverlap, ghost f: Found) returns (ok: bool)
      requires check.Valid() && Shows(check, f)
      modifies check.interval
      ensures ok <==> Concluded(f)
    {
      hide SortByBase, AllPass;
      if !(check.flag[COMMON] && check.flag[NOTIFY] && check.flag[ISR] && check.flag[PCI]) {
        return false;
      }
      SortInPlace(check.interval);
      ok := NeighboursApart(check.interval);
    }

    lemma BarsAreLow(n: nat, end: nat)
      requires device.bars.Length == BARS && device.Filled(n, end)
      requires device.Untouched(n, seq(BARS, _ => Bar(0, Unused)))
      ensures LowBars()
      ensures forall id :: BarsPlaced(Around(id), device.regions)
    {
    }

    /** The walk of a device whose registers are placed, and the test after it: it succeeds
        exactly if the device offers a list, the walk comes to a good end and the test passes. */
    method Discover() returns (r: Result<u16, TransportError>, ghost c: Course, ghost seen: seq<Access>)
      requires LowBars() && Fresh()
      modifies this, device.config`log
      ensures device.config.log == old(device.config.log) + seen
      ensures Discovered(Around(c.deviceId), c, seen, r)
      ensures r.Ok? ==> r.value == c.deviceId && Keeps(Gathered(Around(c.deviceId), c.visits))
    {
      hide LowBars, Outcome, Concluded, Distinct, Gathered;
      c := Course(0, 0, [], 0, []);
      WalkStarts(Around(0));
      var check := new CheckRegionOverlap();
      var status := device.config.ReadU16(0x06);
      if status.Err? {
        return Err(IoError), c, [Failed(0x06)];
      }
      c, seen := c.(status := status.value), [Read(0x06, status.value)];
      var id := device.config.ReadU16(0x02);
      if id.Err? {
        return Err(IoError), c, seen + [Failed(0x02)];
      }
      c, seen := c.(deviceId := id.value), [Read(0x06, status.value), Read(0x02, id.value)];
      if status.value / 16 % 2 == 0 {
        return Err(VirtioUnsupportedDevice), c, seen;
      }
      var done;
      ghost var visits, last, walk;
      done, visits, last, walk := Walk(check, id.value);
      c := c.(visits := visits, last := last, walk := walk);
      if done.Err? {
        WalkFails(Around(c.deviceId), c, seen, done.error);
        return Err(done.error), c, seen + walk;
      }
      ghost var f := Gathered(Around(c.deviceId), visits);
      var passed := Conclude(check, f);
      WalkSucceeds(Around(c.deviceId), c, done);
      assert Keeps(f) && f == Gathered(Around(c.deviceId), visits);
      r, seen := if passed then Ok(id.value) else Err(TransportError.InvalidParameter), seen + walk;
    }

    /** Sets the device up: its registers are placed, its list is walked. On success what is
        kept is the last of each kind that the device described, and usable. */
    method Init(space: MmioSpace)
      returns (r: Result<u16, TransportError>, ghost placed: Result<nat, PciError>, ghost end: nat,
               ghost c: Course, ghost seen: seq<Access>)
      requires space.Ready() && device.bars.Length == BARS
      requires device.regions == [] && device.offsets == [] && device.probes == []
      requires forall i | 0 <= i < BARS :: device.bars[i] == Bar(0, Unused)
      requires Fresh()
      modifies this, device, device.bars, device.config, space`mmio32, space`mmio64, space`grants
      ensures space.Ready()
      ensures device.config.log == old(device.config.log) + Joined(device.probes) + seen
      ensures placed.Err? ==> r == Err(IoError) && Justifies(seen, space.mmio32, space.mmio64, placed.error)
      ensures placed.Ok? ==>
                && device.config.enabled && 0x24 < end <= 0x2c && device.Filled(placed.value, end)
                && Carved(Cursors(old(space.mmio32), old(space.mmio64)), device.probes, device.regions)
                && Discovered(Around(c.deviceId), c, seen, r)
      ensures r.Ok? ==>
                && placed.Ok?
                && Keeps(Gathered(Around(r.value), c.visits))
                && Usable(Around(r.value), Gathered(Around(r.value), c.visits))
                && Confined(Around(r.value), device.regions, c.visits)
    {
      hide Usable, Discovered, Gathered, LowBars, PciDevice.Filled, BarsPlaced, MmioSpace.Ready, AllApart, Recorded;
      hide Confined, Justifies, Carved;
      c := Course(0, 0, [], 0, []);
      var registers;
      registers, end, seen := device.Init(space);
      placed := registers;
      if registers.Err? {
        return Err(IoError), placed, end, c, seen;
      }
      BarsAreLow(registers.value, end);
      r, c, seen := Discover();
      if r.Ok? {
        DiscoveredIsUsable(Around(r.value), c, seen, r);
        GatheredIsConfined(Around(r.value), device.regions, c.visits);
      }
    }
  }
}
