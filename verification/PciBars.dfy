/** Base-address-register probing and placement, against an arbitrary device. */
module PciBars {
  import opened Words
  import opened Bits
  import opened Mmio

  // ---------- masks and sizes ----------

  lemma ClearLowBits(x: nat, k: nat, w: nat)
    requires x < Pow2(w) && Pow2(k) <= Pow2(w)
    ensures And(x, Pow2(w) - Pow2(k)) == x - x % Pow2(k)
  {
    hide And, Pow2;
    AndNotIsDifference(x, Pow2(k) - 1, w);
    AndLowMask(x, k);
  }

  /** `v & 0xFFFF_FFF0`. */
  function Mask32(v: u32): (r: u32)
    ensures r == v - v % 16
  {
    Word16Size();
    Word32Size();
    ClearLowBits(v, 4, 32);
    And(v, 0xFFFF_FFF0)
  }

  /** `v & 0xFFFF_FFFF_FFFF_FFF0`. */
  function Mask64(v: u64): (r: u64)
    ensures r == v - v % 16
  {
    Word16Size();
    Word64Size();
    ClearLowBits(v, 4, 64);
    And(v, 0xFFFF_FFFF_FFFF_FFF0)
  }

  /** `v & 0xFFFF_FFFC`. */
  function MaskIo(v: u32): (r: u32)
    ensures r == v - v % 4
  {
    Word32Size();
    assert Pow2(2) == 4;
    ClearLowBits(v, 2, 32);
    And(v, 0xFFFF_FFFC)
  }

  /** `(high << 32) | low`. */
  function Join(high: u32, low: u32): (r: u64)
    ensures r == high * TWO_32 + low
  {
    Word32Size();
    OrOfParts(high, low, 32);
    Or(high * TWO_32, low)
  }

  function WrappingInc32(x: u32): u32 {
    if x == TWO_32 - 1 then 0 else x + 1
  }

  function WrappingInc64(x: u64): u64 {
    if x == TWO_64 - 1 then 0 else x + 1
  }

  /** The size that a read-back after writing all ones stands for. */
  function BarSize(readback: u32): (r: u32)
    ensures r % 16 == 0
    ensures r == 0 <==> readback < 16
    ensures r > 0 ==> r == TWO_32 - (readback - readback % 16)
  {
    var masked := Mask32(readback);
    if masked == 0 then 0 else WrappingInc32(TWO_32 - 1 - masked)
  }

  lemma JoinedMask(low: u32, high: u32)
    ensures var m := Join(high, Mask32(low));
            && m == high * TWO_32 + low - low % 16
            && (m == 0 <==> low < 16 && high == 0)
            && (TWO_64 - m) % 16 == 0
  {
    hide And, Or, Mask32, Join;
    var q := high * 0x1000_0000 + low / 16;
    var m := Join(high, Mask32(low));
    assert m == 16 * q;
    assert TWO_64 - m == 16 * (0x1000_0000_0000_0000 - q);
  }

  function BarSize64(low: u32, high: u32): (r: u64)
    ensures r % 16 == 0
    ensures r == 0 <==> low < 16 && high == 0
    ensures r > 0 ==> r == TWO_64 - (high * TWO_32 + low - low % 16)
  {
    JoinedMask(low, high);
    var masked := Join(high, Mask32(low));
    if masked == 0 then 0 else WrappingInc64(TWO_64 - 1 - masked)
  }

  /** A device that decodes `2^k` bytes answers with the address bits above set and any
      flags in the low four bits; the probe recovers its size. */
  lemma BarSizeOfDevice(k: nat, flags: nat)
    requires 4 <= k < 32 && flags < 16
    ensures 16 <= Pow2(k) < TWO_32 && BarSize(TWO_32 - Pow2(k) + flags) == Pow2(k)
  {
    hide Mask32, BarSize, Pow2;
    Pow2Below(k, 32);
    Word32Size();
    Pow2OfSixteen(k);
    var v := TWO_32 - Pow2(k) + flags;
    assert v % 16 == flags;
  }

  lemma Pow2OfSixteen(k: nat)
    requires k >= 4
    ensures Pow2(k) % 16 == 0 && Pow2(k) >= 16
  {
    hide Pow2;
    Word16Size();
    Pow2Sum(4, k - 4);
    assert Pow2(k) == 16 * Pow2(k - 4);
  }

  lemma BarSize64OfDevice(k: nat, flags: nat)
    requires 4 <= k < 64 && flags < 16
    ensures Pow2(k) < TWO_64
    ensures var v := TWO_64 - Pow2(k) + flags;
            0 <= v < TWO_64 && BarSize64(v % TWO_32, v / TWO_32) == Pow2(k)
  {
    hide BarSize64, Pow2;
    Pow2Below(k, 64);
    Word64Size();
    Pow2OfSixteen(k);
    var v := TWO_64 - Pow2(k) + flags;
    assert v == TWO_32 * (v / TWO_32) + v % TWO_32;
    assert (v % TWO_32) % 16 == v % 16 == flags;
  }

  // ---------- the device ----------

  datatype BarType = Unused | MemorySpace32 | MemorySpace64 | IoSpace

  datatype Bar = Bar(address: u64, barType: BarType)

  /** One access to configuration space as it went: a word read, or a read or write that failed. */
  datatype Access = Read(offset: nat, word: u32) | Failed(offset: nat)

  /** The last of the accesses failed. */
  ghost predicate EndsInFailure(seen: seq<Access>) {
    seen != [] && seen[|seen| - 1].Failed?
  }

  /** The configuration space of a device that answers reads as it likes: `log` are its answers,
      `registers` is what was last written to each register, `enabled` whether its decoding was
      switched on. */
  class ConfigSpace {
    ghost var log: seq<Access>
    ghost var registers: map<nat, u32>
    ghost var enabled: bool

    method ReadU32(offset: u8) returns (r: Result<u32, PciError>)
      modifies this`log
      ensures log == old(log) + [if r.Ok? then Read(offset, r.value) else Failed(offset)]
      ensures r.Err? ==> r.error == ConfigSpaceError
    {
      var broken: bool := *;
      if broken {
        log := log + [Failed(offset)];
        return Err(ConfigSpaceError);
      }
      var v: u32 :| true;
      log := log + [Read(offset, v)];
      r := Ok(v);
    }

    method ReadU16(offset: u8) returns (r: Result<u16, PciError>)
      modifies this`log
      ensures log == old(log) + [if r.Ok? then Read(offset, r.value) else Failed(offset)]
      ensures r.Err? ==> r.error == ConfigSpaceError
    {
      var broken: bool := *;
      if broken {
        log := log + [Failed(offset)];
        return Err(ConfigSpaceError);
      }
      var v: u16 :| true;
      log := log + [Read(offset, v)];
      r := Ok(v);
    }

    method ReadU8(offset: u8) returns (r: Result<u8, PciError>)
      modifies this`log
      ensures log == old(log) + [if r.Ok? then Read(offset, r.value) else Failed(offset)]
      ensures r.Err? ==> r.error == ConfigSpaceError
    {
      var broken: bool := *;
      if broken {
        log := log + [Failed(offset)];
        return Err(ConfigSpaceError);
      }
      var v: u8 :| true;
      log := log + [Read(offset, v)];
      r := Ok(v);
    }

    method WriteU16(offset: u8, value: u16) returns (r: Result<(), PciError>)
      modifies this`log
      ensures log == old(log) + (if r.Ok? then [] else [Failed(offset)])
      ensures r.Err? ==> r.error == ConfigSpaceError
    {
      var broken: bool := *;
      if broken {
        log := log + [Failed(offset)];
        return Err(ConfigSpaceError);
      }
      r := Ok(());
    }

    method WriteU32(offset: u8, value: u32) returns (r: Result<(), PciError>)
      modifies this`log, this`registers
      ensures log == old(log) + (if r.Ok? then [] else [Failed(offset)])
      ensures r.Ok? ==> registers == old(registers)[offset as int := value]
      ensures r.Err? ==> r.error == ConfigSpaceError && registers == old(registers)
    {
      var broken: bool := *;
      if broken {
        log := log + [Failed(offset)];
        return Err(ConfigSpaceError);
      }
      registers := registers[offset as int := value];
      r := Ok(());
    }

    /** Switches the decoding of the device on. */
    method Enable() returns (r: Result<(), PciError>)
      modifies this`log, this`enabled
      ensures log == old(log) + (if r.Ok? then [] else [Failed(0x04)])
      ensures r.Ok? ==> enabled
      ensures r.Err? ==> r.error == ConfigSpaceError && enabled == old(enabled)
    {
      r := WriteU16(0x04, 7);
      if r.Ok? {
        enabled := true;
      }
    }

    /** Probing sizes the answer it gets to all ones, and puts back what was there. */
    method GetBarSize(offset: u8) returns (r: Result<u32, PciError>, ghost seen: seq<Access>)
      modifies this`registers, this`log
      ensures log == old(log) + seen
      ensures r.Ok? ==> Asked(seen, [offset, offset]) && r.value == BarSize(seen[1].word)
                        && registers == old(registers)[offset as int := seen[0].word]
      ensures r.Err? ==> r.error == ConfigSpaceError && EndsInFailure(seen)
      ensures KeptBelow(registers, old(registers), offset)
    {
      hide BarSize;
      seen := [Failed(offset)];
      var restore := ReadU32(offset);
      if restore.Err? { return Err(restore.error), seen; }
      seen := [Read(offset, restore.value), Failed(offset)];
      var done := WriteU32(offset, 0xFFFF_FFFF);
      if done.Err? { return Err(done.error), seen; }
      var size := ReadU32(offset);
      if size.Err? { return Err(size.error), seen; }
      seen := [Read(offset, restore.value), Read(offset, size.value)];
      done := WriteU32(offset, restore.value);
      if done.Err? { return Err(done.error), seen + [Failed(offset)]; }
      return Ok(BarSize(size.value)), seen;
    }

    method GetBarSize64(offset: u8) returns (r: Result<u64, PciError>, ghost seen: seq<Access>)
      requires offset <= 0x24
      modifies this`registers, this`log
      ensures log == old(log) + seen
      ensures r.Ok? ==> Asked(seen, [offset, offset + 4, offset, offset + 4])
                        && r.value == BarSize64(seen[2].word, seen[3].word)
                        && registers == old(registers)[offset as int := seen[0].word][offset as int + 4 := seen[1].word]
      ensures r.Err? ==> r.error == ConfigSpaceError && EndsInFailure(seen)
      ensures KeptBelow(registers, old(registers), offset)
    {
      hide BarSize64;
      ghost var more: seq<Access>;
      var restore;
      restore, seen := ReadPair(offset);
      if restore.Err? { return Err(restore.error), seen; }
      var done;
      done, more := WritePair(offset, 0xFFFF_FFFF, 0xFFFF_FFFF);
      if done.Err? { return Err(done.error), seen + more; }
      var mask;
      mask, more := ReadPair(offset);
      seen := seen + more;
      if mask.Err? { return Err(mask.error), seen; }
      done, more := WritePair(offset, restore.value.0, restore.value.1);
      if done.Err? { return Err(done.error), seen + more; }
      return Ok(BarSize64(mask.value.0, mask.value.1)), seen;
    }

    /** Two consecutive registers, the low one first. */
    method ReadPair(offset: u8) returns (r: Result<(u32, u32), PciError>, ghost seen: seq<Access>)
      requires offset <= 0x24
      modifies this`log
      ensures log == old(log) + seen
      ensures r.Ok? ==> seen == [Read(offset, r.value.0), Read(offset + 4, r.value.1)]
      ensures r.Err? ==> r.error == ConfigSpaceError && EndsInFailure(seen)
    {
      var low := ReadU32(offset);
      if low.Err? {
        return Err(low.error), [Failed(offset)];
      }
      var high := ReadU32(offset + 4);
      if high.Err? {
        return Err(high.error), [Read(offset, low.value), Failed(offset + 4)];
      }
      return Ok((low.value, high.value)), [Read(offset, low.value), Read(offset + 4, high.value)];
    }

    method WritePair(offset: u8, low: u32, high: u32) returns (r: Result<(), PciError>, ghost seen: seq<Access>)
      requires offset <= 0x24
      modifies this`registers, this`log
      ensures log == old(log) + seen
      ensures r.Ok? ==> seen == [] && registers == old(registers)[offset as int := low][offset as int + 4 := high]
      ensures r.Err? ==> r.error == ConfigSpaceError && EndsInFailure(seen)
      ensures KeptBelow(registers, old(registers), offset)
    {
      r := WriteU32(offset, low);
      if r.Err? {
        return r, [Failed(offset)];
      }
      r := WriteU32(offset + 4, high);
      seen := if r.Ok? then [] else [Failed(offset + 4)];
    }
  }

  /** The words at these offsets were read, in this order, and nothing failed. */
  ghost predicate Asked(seen: seq<Access>, offsets: seq<nat>) {
    |seen| == |offsets| && forall i | 0 <= i < |seen| :: seen[i].Read? && seen[i].offset == offsets[i]
  }

  /** The registers below `offset` are as they were. */
  ghost predicate KeptBelow(now: map<nat, u32>, before: map<nat, u32>, offset: nat) {
    forall o: nat | o < offset :: (o in now <==> o in before) && (o in before ==> now[o] == before[o])
  }

  lemma KeptBelowSame(registers: map<nat, u32>, offset: nat)
    ensures KeptBelow(registers, registers, offset)
  {
  }

  /** A recorded register is an I/O range, an absent memory range at address 0, or the base of
      a region of the window of its kind. */
  ghost predicate Recorded(bar: Bar, region: Option<Range>) {
    match bar.barType
    case Unused => false
    case IoSpace => region.None? && bar.address % 4 == 0 && bar.address < TWO_32
    case MemorySpace32 => At(bar.address, region, WINDOW32)
    case MemorySpace64 => At(bar.address, region, WINDOW64)
  }

  ghost predicate At(address: u64, region: Option<Range>, window: Range) {
    match region
    case None => address == 0
    case Some(g) => g.base == address && g.size > 0 && g.size % 16 == 0 && address % 16 == 0 && Inside(g, window)
  }

  /** The address of a placed region is what the registers of the device hold. */
  ghost predicate Programmed(registers: map<nat, u32>, offset: nat, bar: Bar, region: Option<Range>) {
    region.Some? ==>
      && offset in registers && registers[offset] == bar.address % TWO_32
      && (bar.barType.MemorySpace64? ==> offset + 4 in registers && registers[offset + 4] == bar.address / TWO_32)
  }

  ghost function Listed(region: Option<Range>): seq<Range> {
    if region.Some? then [region.value] else []
  }

  /** A region of the probed size, if there is one. */
  ghost function Sized(address: nat, size: nat): Option<Range> {
    if size == 0 then None else Some(Range(address, size))
  }

  /** What a placement does to its cursor: nothing for size 0, else the region is carved there
      and the cursor moves behind it. */
  ghost predicate Bumped(before: u64, size: u64, window: Range, region: Option<Range>, now: u64) {
    if size == 0 then region.None? && now == before
    else region.Some? && Carve(before, size, window) == Ok(region.value) && now == region.value.End()
  }

  method Place32(config: ConfigSpace, space: MmioSpace, offset: u8)
    returns (r: Result<u32, PciError>, ghost region: Option<Range>, ghost seen: seq<Access>)
    requires space.Ready()
    modifies config`log, config`registers, space`mmio32, space`grants
    ensures space.Ready() && old(space.grants) <= space.grants
    ensures KeptBelow(config.registers, old(config.registers), offset)
    ensures r.Ok? ==> Recorded(Bar(r.value, MemorySpace32), region)
                      && Programmed(config.registers, offset, Bar(r.value, MemorySpace32), region)
                      && space.grants == old(space.grants) + Listed(region)
    ensures config.log == old(config.log) + seen
    ensures r.Ok? ==> Asked(seen, [offset, offset]) && region == Sized(r.value, BarSize(seen[1].word))
                      && Bumped(old(space.mmio32), BarSize(seen[1].word), WINDOW32, region, space.mmio32)
    ensures r == Err(ConfigSpaceError) ==> EndsInFailure(seen)
    ensures r.Err? && r.error != ConfigSpaceError ==>
              && Asked(seen, [offset, offset])
              && Carve(space.mmio32, BarSize(seen[1].word), WINDOW32) == Err(r.error)
  {
    hide Carve, BarSize, Answers, Clear, AlignUp;
    region := None;
    var size;
    size, seen := config.GetBarSize(offset);
    if size.Err? {
      return Err(size.error), None, seen;
    }
    if size.value == 0 {
      return Ok(0), None, seen;
    }
    r := space.AllocMmio32(size.value);
    if r.Err? {
      return;
    }
    region := Some(Range(r.value, size.value));
    AnswersSixteen(region.value, size.value);
    var done := config.WriteU32(offset, r.value);
    if done.Err? {
      r, seen := Err(done.error), seen + [Failed(offset)];
    }
  }

  method Place64(config: ConfigSpace, space: MmioSpace, offset: u8)
    returns (r: Result<u64, PciError>, ghost region: Option<Range>, ghost seen: seq<Access>)
    requires space.Ready() && offset <= 0x24
    modifies config`log, config`registers, space`mmio64, space`grants
    ensures space.Ready() && old(space.grants) <= space.grants
    ensures KeptBelow(config.registers, old(config.registers), offset)
    ensures r.Ok? ==> Recorded(Bar(r.value, MemorySpace64), region)
                      && Programmed(config.registers, offset, Bar(r.value, MemorySpace64), region)
                      && space.grants == old(space.grants) + Listed(region)
    ensures config.log == old(config.log) + seen
    ensures r.Ok? ==> Asked(seen, [offset, offset + 4, offset, offset + 4])
                      && region == Sized(r.value, BarSize64(seen[2].word, seen[3].word))
                      && Bumped(old(space.mmio64), BarSize64(seen[2].word, seen[3].word), WINDOW64, region,
                                space.mmio64)
    ensures r == Err(ConfigSpaceError) ==> EndsInFailure(seen)
    ensures r.Err? && r.error != ConfigSpaceError ==>
              && Asked(seen, [offset, offset + 4, offset, offset + 4])
              && Carve(space.mmio64, BarSize64(seen[2].word, seen[3].word), WINDOW64) == Err(r.error)
  {
    hide Carve, BarSize64, Answers, Clear, AlignUp;
    region := None;
    var size;
    size, seen := config.GetBarSize64(offset);
    if size.Err? {
      return Err(size.error), None, seen;
    }
    if size.value == 0 {
      return Ok(0), None, seen;
    }
    r := space.AllocMmio64(size.value);
    if r.Err? {
      return;
    }
    region := Some(Range(r.value, size.value));
    AnswersSixteen(region.value, size.value);
    ghost var more: seq<Access>;
    var done;
    done, more := config.WritePair(offset, r.value % TWO_32, r.value / TWO_32);
    seen := seen + more;
    if done.Err? {
      r := Err(done.error);
    }
  }

  /** The kind of register the low bits of a word tell. */
  function TypeOf(word: u32): Option<BarType> {
    if word % 2 == 1 then Some(IoSpace)
    else match word / 2 % 4
      case 0 => Some(MemorySpace32)
      case 2 => Some(MemorySpace64)
      case _ => None
  }

  /** How many bytes of registers an entry of this kind takes. */
  function Width(kind: BarType): nat {
    if kind.MemorySpace64? then 8 else 4
  }

  /** What is recorded is what the device's answers ask for: the first one says what kind of
      register it is, and the one to all ones how large its region is. */
  ghost predicate AsAnswered(seen: seq<Access>, offset: nat, bar: Bar, region: Option<Range>) {
    && seen != [] && seen[0].Read? && TypeOf(seen[0].word) == Some(bar.barType)
    && match bar.barType
       case IoSpace => Asked(seen, [offset]) && bar.address == seen[0].word - seen[0].word % 4
       case MemorySpace32 =>
         Asked(seen, [offset, offset, offset]) && region == Sized(bar.address, BarSize(seen[2].word))
       case MemorySpace64 =>
         && Asked(seen, [offset, offset, offset + 4, offset, offset + 4])
         && region == Sized(bar.address, BarSize64(seen[3].word, seen[4].word))
       case Unused => false
  }

  /** The region a probe asks the allocator for. */
  ghost function Wanted(seen: seq<Access>): Option<Request> {
    if |seen| == 3 && seen[2].Read? && BarSize(seen[2].word) > 0 then Some(Mmio32(BarSize(seen[2].word)))
    else if |seen| == 5 && seen[3].Read? && seen[4].Read? && BarSize64(seen[3].word, seen[4].word) > 0
    then Some(Mmio64(BarSize64(seen[3].word, seen[4].word)))
    else None
  }

  /** What the allocator gives a probe. */
  ghost function GrantOf(c: Cursors, seen: seq<Access>): Option<Range> {
    match Wanted(seen)
    case None => None
    case Some(request) => if Reply(c, request).Ok? then Some(Reply(c, request).value) else None
  }

  ghost function PastProbe(c: Cursors, seen: seq<Access>): Cursors {
    if Wanted(seen).Some? then Advanced(c, Wanted(seen).value) else c
  }

  /** Where the probes leave the cursors. */
  ghost function PastProbes(c: Cursors, probes: seq<seq<Access>>): Cursors {
    if probes == [] then c else PastProbe(PastProbes(c, probes[..|probes| - 1]), probes[|probes| - 1])
  }

  /** Every region is what the allocator gives its probe, behind those of the earlier ones. */
  ghost predicate Carved(c: Cursors, probes: seq<seq<Access>>, regions: seq<Option<Range>>) {
    && |regions| == |probes|
    && forall i | 0 <= i < |probes| :: regions[i] == GrantOf(PastProbes(c, probes[..i]), probes[i])
  }

  lemma CarvedOne(c: Cursors, probes: seq<seq<Access>>, regions: seq<Option<Range>>, seen: seq<Access>)
    requires Carved(c, probes, regions)
    ensures Carved(c, probes + [seen], regions + [GrantOf(PastProbes(c, probes), seen)])
    ensures PastProbes(c, probes + [seen]) == PastProbe(PastProbes(c, probes), seen)
  {
    hide GrantOf, PastProbe;
    assert (probes + [seen])[..|probes|] == probes;
    assert forall i | 0 <= i < |probes| :: (probes + [seen])[..i] == probes[..i];
  }

  lemma CarvedNone(c: Cursors)
    ensures Carved(c, [], []) && PastProbes(c, []) == c
  {
  }

  lemma IoBumps(c: Cursors, first: Access)
    ensures GrantOf(c, [first]) == None && PastProbe(c, [first]) == c
  {
  }

  lemma Bumps32(c: Cursors, seen: seq<Access>, first: Access, region: Option<Range>, now: u64)
    requires |seen| == 2 && seen[1].Read? && Bumped(c.low, BarSize(seen[1].word), WINDOW32, region, now)
    ensures region == GrantOf(c, [first] + seen) && PastProbe(c, [first] + seen) == Cursors(now, c.high)
  {
    hide BarSize, Carve;
  }

  lemma Bumps64(c: Cursors, seen: seq<Access>, first: Access, region: Option<Range>, now: u64)
    requires |seen| == 4 && seen[2].Read? && seen[3].Read?
    requires Bumped(c.high, BarSize64(seen[2].word, seen[3].word), WINDOW64, region, now)
    ensures region == GrantOf(c, [first] + seen) && PastProbe(c, [first] + seen) == Cursors(c.low, now)
  {
    hide BarSize64, Carve;
  }

  /** Why placing stops after these accesses: one failed, the word is of no known kind, or the
      region asked for does not fit above the cursor of its window. */
  ghost predicate Justifies(seen: seq<Access>, cursor32: u32, cursor64: u64, e: PciError) {
    match e
    case ConfigSpaceError => EndsInFailure(seen)
    case InvalidBarType => |seen| == 1 && seen[0].Read? && TypeOf(seen[0].word).None?
    case _ =>
      || (|seen| == 3 && seen[2].Read? && Carve(cursor32, BarSize(seen[2].word), WINDOW32) == Err(e))
      || (|seen| == 5 && seen[3].Read? && seen[4].Read?
          && Carve(cursor64, BarSize64(seen[3].word, seen[4].word), WINDOW64) == Err(e))
  }

  /** A register pair below `end` is recorded and programmed. */
  ghost predicate Settled(registers: map<nat, u32>, end: nat, offset: nat, bar: Bar, region: Option<Range>,
                          seen: seq<Access>)
  {
    && Recorded(bar, region) && Programmed(registers, offset, bar, region) && AsAnswered(seen, offset, bar, region)
    && offset + Width(bar.barType) <= end
  }

  lemma SettledIsAnswered(registers: map<nat, u32>, end: nat, offset: nat, bar: Bar, region: Option<Range>,
                          seen: seq<Access>)
    requires Settled(registers, end, offset, bar, region, seen)
    ensures AsAnswered(seen, offset, bar, region)
  {
  }

  lemma SettledStays(registers: map<nat, u32>, now: map<nat, u32>, end: nat, offset: nat, bar: Bar,
                     region: Option<Range>, seen: seq<Access>)
    requires Settled(registers, end, offset, bar, region, seen) && KeptBelow(now, registers, end)
    ensures forall later | end <= later :: Settled(now, later, offset, bar, region, seen)
  {
    hide AsAnswered;
  }

  /** Masking the flag bits off a recorded address changes nothing. */
  lemma MasksAreIdentity(bar: Bar, region: Option<Range>)
    requires Recorded(bar, region) && !bar.barType.IoSpace?
    ensures Mask64(bar.address) == bar.address
    ensures bar.address < TWO_32 ==> Mask32(bar.address) == bar.address
  {
    hide And;
  }

  lemma Settles32(registers: map<nat, u32>, offset: nat, word: u32, bar: Bar, region: Option<Range>, seen: seq<Access>)
    requires TypeOf(word) == Some(MemorySpace32) && bar.barType == MemorySpace32
    requires Recorded(bar, region) && Programmed(registers, offset, bar, region)
    requires Asked(seen, [offset, offset]) && region == Sized(bar.address, BarSize(seen[1].word))
    ensures Settled(registers, offset + 4, offset, bar, region, [Read(offset, word)] + seen)
  {
    hide Recorded, Programmed, BarSize;
  }

  lemma Settles64(registers: map<nat, u32>, offset: nat, word: u32, bar: Bar, region: Option<Range>, seen: seq<Access>)
    requires TypeOf(word) == Some(MemorySpace64) && bar.barType == MemorySpace64
    requires Recorded(bar, region) && Programmed(registers, offset, bar, region)
    requires Asked(seen, [offset, offset + 4, offset, offset + 4])
    requires region == Sized(bar.address, BarSize64(seen[2].word, seen[3].word))
    ensures Settled(registers, offset + 8, offset, bar, region, [Read(offset, word)] + seen)
  {
    hide Recorded, Programmed, BarSize64;
  }

  lemma IoSettles(registers: map<nat, u32>, offset: nat, v: u32)
    requires v % 2 == 1
    ensures Settled(registers, offset + 4, offset, Bar(v - v % 4, IoSpace), None, [Read(offset, v)])
  {
  }

  /** The regions among the recorded registers. */
  ghost function Assigned(regions: seq<Option<Range>>): seq<Range> {
    if regions == [] then [] else Assigned(regions[..|regions| - 1]) + Listed(regions[|regions| - 1])
  }

  lemma AssignedGrows(regions: seq<Option<Range>>, region: Option<Range>)
    ensures Assigned(regions + [region]) == Assigned(regions) + Listed(region)
  {
  }

  /** Each region is apart from the later ones and from all of `others`. */
  ghost predicate AllApart(regions: seq<Option<Range>>, others: seq<Range>) {
    && (forall i, j | 0 <= i < j < |regions| && regions[i].Some? && regions[j].Some? ::
          Disjoint(regions[i].value, regions[j].value))
    && (forall i, k | 0 <= i < |regions| && regions[i].Some? && 0 <= k < |others| ::
          Disjoint(others[k], regions[i].value))
  }

  lemma AssignedStep(regions: seq<Option<Range>>)
    requires regions != []
    ensures Assigned(regions) == Assigned(regions[..|regions| - 1]) + Listed(regions[|regions| - 1])
  {
  }

  /** The regions of the first `i` registers come first, then that of register `i`. */
  lemma {:induction false} AssignedAt(regions: seq<Option<Range>>, i: nat)
    requires i < |regions|
    ensures Assigned(regions[..i]) + Listed(regions[i]) <= Assigned(regions)
    decreases |regions|
  {
    hide Assigned, Listed;
    var n := |regions| - 1;
    AssignedStep(regions);
    if i < n {
      var front := regions[..n];
      AssignedAt(front, i);
      assert front[..i] == regions[..i] && front[i] == regions[i];
    }
  }

  lemma DisjointAt(grants: seq<Range>, k: nat, l: nat)
    requires PairwiseDisjoint(grants) && k < l < |grants|
    ensures Disjoint(grants[k], grants[l])
  {
  }

  lemma RegionsApart(regions: seq<Option<Range>>, others: seq<Range>, i: nat, j: nat)
    requires PairwiseDisjoint(others + Assigned(regions))
    requires i < j < |regions| && regions[i].Some? && regions[j].Some?
    ensures Disjoint(regions[i].value, regions[j].value)
  {
    hide Disjoint, PairwiseDisjoint, Assigned;
    AssignedAt(regions, i);
    AssignedAt(regions, j);
    AssignedAt(regions[..j], i);
    assert regions[..j][..i] == regions[..i];
    DisjointAt(others + Assigned(regions), |others| + |Assigned(regions[..i])|, |others| + |Assigned(regions[..j])|);
  }

  /** Grants apart from one another make recorded regions apart from one another. */
  lemma AssignedApart(regions: seq<Option<Range>>, others: seq<Range>)
    requires PairwiseDisjoint(others + Assigned(regions))
    ensures AllApart(regions, others)
  {
    hide Disjoint, PairwiseDisjoint, Assigned;
    forall i, j | 0 <= i < j < |regions| && regions[i].Some? && regions[j].Some?
      ensures Disjoint(regions[i].value, regions[j].value)
    {
      RegionsApart(regions, others, i, j);
    }
    forall i, k | 0 <= i < |regions| && regions[i].Some? && 0 <= k < |others|
      ensures Disjoint(others[k], regions[i].value)
    {
      AssignedAt(regions, i);
      DisjointAt(others + Assigned(regions), k, |others| + |Assigned(regions[..i])|);
    }
  }

  /** The offsets looked at follow on from 0x10, each by the width of the one before, to `end`. */
  ghost predicate Stepped(offsets: seq<nat>, probes: seq<seq<Access>>, end: nat) {
    if offsets == [] then probes == [] && end == 0x10
    else
      var n := |offsets| - 1;
      && |probes| == n + 1 && probes[n] != [] && probes[n][0].Read? && TypeOf(probes[n][0].word).Some?
      && end == offsets[n] + Width(TypeOf(probes[n][0].word).value)
      && Stepped(offsets[..n], probes[..n], offsets[n])
  }

  lemma SteppedOn(offsets: seq<nat>, probes: seq<seq<Access>>, offset: nat, seen: seq<Access>, bar: Bar,
                  region: Option<Range>)
    requires Stepped(offsets, probes, offset) && AsAnswered(seen, offset, bar, region)
    ensures Stepped(offsets + [offset], probes + [seen], offset + Width(bar.barType))
  {
    hide Asked;
    assert (offsets + [offset])[..|offsets|] == offsets && (probes + [seen])[..|probes|] == probes;
  }

  /** All accesses of the probes, in order. */
  ghost function Joined(probes: seq<seq<Access>>): seq<Access> {
    if probes == [] then [] else Joined(probes[..|probes| - 1]) + probes[|probes| - 1]
  }

  lemma JoinedGrows(probes: seq<seq<Access>>, seen: seq<Access>)
    ensures Joined(probes + [seen]) == Joined(probes) + seen
  {
    assert (probes + [seen])[..|probes|] == probes;
  }

  lemma NothingYet()
    ensures Assigned([]) == [] && Joined([]) == []
  {
  }

  const BARS: nat := 6

  class PciDevice {
    const config: ConfigSpace
    const bars: array<Bar>
    ghost var regions: seq<Option<Range>>
    ghost var offsets: seq<nat>
    ghost var probes: seq<seq<Access>>

    constructor (config: ConfigSpace)
      ensures this.config == config && fresh(bars) && bars.Length == BARS
      ensures regions == [] && offsets == [] && probes == []
      ensures forall i | 0 <= i < BARS :: bars[i] == Bar(0, Unused)
    {
      this.config := config;
      bars := new Bar[BARS](_ => Bar(0, Unused));
      regions, offsets, probes := [], [], [];
    }

    /** The first `n` registers are settled, with `end` the next register to look at. */
    ghost predicate Filled(n: nat, end: nat)
      requires bars.Length == BARS
      reads this, bars, config`registers
    {
      && n == |regions| == |offsets| == |probes| && n <= BARS
      && Stepped(offsets, probes, end)
      && forall i | 0 <= i < n :: Settled(config.registers, end, offsets[i], bars[i], regions[i], probes[i])
    }

    /** The entries from `n` on are as they were. */
    ghost predicate Untouched(n: nat, was: seq<Bar>)
      requires bars.Length == BARS == |was|
      reads bars
    {
      forall i | n <= i < BARS :: bars[i] == was[i]
    }

    lemma FilledNone()
      requires bars.Length == BARS && regions == [] && offsets == [] && probes == []
      ensures Filled(0, 0x10) && Untouched(0, bars[..])
    {
    }

    /** Looks at the register at `offset`, places its region if it has one, and tells where to
        go on. */
    method Look(space: MmioSpace, offset: u8)
      returns (r: Result<(Bar, u8), PciError>, ghost region: Option<Range>, ghost seen: seq<Access>)
      requires space.Ready() && 0x10 <= offset <= 0x24
      modifies config`log, config`registers, space`mmio32, space`mmio64, space`grants
      ensures space.Ready() && old(space.grants) <= space.grants
      ensures KeptBelow(config.registers, old(config.registers), offset)
      ensures config.log == old(config.log) + seen
      ensures r.Ok? ==> Settled(config.registers, r.value.1, offset, r.value.0, region, seen)
                        && r.value.1 == offset + Width(r.value.0.barType)
                        && space.grants == old(space.grants) + Listed(region)
      ensures r.Ok? ==> var c := Cursors(old(space.mmio32), old(space.mmio64));
                        region == GrantOf(c, seen) && Cursors(space.mmio32, space.mmio64) == PastProbe(c, seen)
      ensures r.Err? ==> Justifies(seen, space.mmio32, space.mmio64, r.error)
    {
      hide GrantOf, PastProbe, Bumped, Mask32, Mask64, MaskIo, Recorded, Programmed, KeptBelow, BarSize, BarSize64;
      hide MmioSpace.Ready, Settled, Carve;
      region, seen := None, [];
      ghost var c := Cursors(space.mmio32, space.mmio64);
      KeptBelowSame(config.registers, offset);
      var bar := config.ReadU32(offset);
      if bar.Err? {
        return Err(bar.error), None, [Failed(offset)];
      }
      if bar.value % 2 == 1 {
        IoSettles(config.registers, offset, bar.value);
        IoBumps(c, Read(offset, bar.value));
        return Ok((Bar(MaskIo(bar.value), IoSpace), offset + 4)), None, [Read(offset, bar.value)];
      }
      if bar.value / 2 % 4 == 0 {
        var addr: Result<u32, PciError>;
        addr, region, seen := Place32(config, space, offset);
        if addr.Err? {
          return Err(addr.error), region, [Read(offset, bar.value)] + seen;
        }
        MasksAreIdentity(Bar(addr.value, MemorySpace32), region);
        Settles32(config.registers, offset, bar.value, Bar(addr.value, MemorySpace32), region, seen);
        Bumps32(c, seen, Read(offset, bar.value), region, space.mmio32);
        seen := [Read(offset, bar.value)] + seen;
        r := Ok((Bar(Mask32(addr.value), MemorySpace32), offset + 4));
      } else if bar.value / 2 % 4 == 2 {
        var addr: Result<u64, PciError>;
        addr, region, seen := Place64(config, space, offset);
        if addr.Err? {
          return Err(addr.error), region, [Read(offset, bar.value)] + seen;
        }
        MasksAreIdentity(Bar(addr.value, MemorySpace64), region);
        Settles64(config.registers, offset, bar.value, Bar(addr.value, MemorySpace64), region, seen);
        Bumps64(c, seen, Read(offset, bar.value), region, space.mmio64);
        seen := [Read(offset, bar.value)] + seen;
        r := Ok((Bar(Mask64(addr.value), MemorySpace64), offset + 8));
      } else {
        return Err(InvalidBarType), None, [Read(offset, bar.value)];
      }
    }

    /** One turn of the register loop, at `offset`; the result is where it goes on. */
    method Register(space: MmioSpace, n: nat, offset: u8)
      returns (r: Result<u8, PciError>, ghost region: Option<Range>, ghost seen: seq<Access>)
      requires bars.Length == BARS && n < BARS && 0x10 <= offset <= 0x24
      requires space.Ready() && Filled(n, offset)
      modifies this, bars, config`log, config`registers, space`mmio32, space`mmio64, space`grants
      ensures space.Ready() && old(space.grants) <= space.grants
      ensures config.log == old(config.log) + seen
      ensures forall was | |was| == BARS && old(Untouched(n, was)) :: Untouched(n + 1, was)
      ensures r.Ok? ==> Filled(n + 1, r.value) && offset + 4 <= r.value <= offset + 8
      ensures r.Ok? ==> regions == old(regions) + [region] && probes == old(probes) + [seen]
                        && space.grants == old(space.grants) + Listed(region)
      ensures r.Ok? ==> var c := Cursors(old(space.mmio32), old(space.mmio64));
                        region == GrantOf(c, seen) && Cursors(space.mmio32, space.mmio64) == PastProbe(c, seen)
      ensures r.Err? ==> probes == old(probes)
      ensures r.Err? ==> Justifies(seen, space.mmio32, space.mmio64, r.error)
    {
      hide Settled, KeptBelow, MmioSpace.Ready, Stepped, Asked, Justifies, GrantOf, PastProbe;
      ghost var before := config.registers;
      var looked: Result<(Bar, u8), PciError>;
      looked, region, seen := Look(space, offset);
      if looked.Err? {
        return Err(looked.error), region, seen;
      }
      var (bar, next) := looked.value;
      forall i | 0 <= i < n
        ensures Settled(config.registers, next, offsets[i], bars[i], regions[i], probes[i])
      {
        SettledStays(before, config.registers, offset, offsets[i], bars[i], regions[i], probes[i]);
      }
      SettledIsAnswered(config.registers, next, offset, bar, region, seen);
      SteppedOn(offsets, probes, offset, seen, bar, region);
      bars[n] := bar;
      regions, offsets, probes := regions + [region], offsets + [offset], probes + [seen];
      r := Ok(next);
    }

    /** The loop over the registers: it goes on past 0x24, and what the device answered on the
        way is in the probes. */
    method Registers(space: MmioSpace) returns (r: Result<nat, PciError>, ghost end: nat, ghost seen: seq<Access>)
      requires bars.Length == BARS && regions == [] && offsets == [] && probes == []
      requires space.Ready()
      modifies this, bars, config`log, config`registers, space`mmio32, space`mmio64, space`grants
      ensures space.Ready()
      ensures config.log == old(config.log) + Joined(probes) + seen
      ensures r.Ok? ==> 0x24 < end <= 0x2c && seen == []
      ensures r.Ok? ==> Filled(r.value, end) && space.grants == old(space.grants) + Assigned(regions)
      ensures r.Ok? ==> Untouched(r.value, old(bars[..]))
      ensures r.Ok? ==> Carved(Cursors(old(space.mmio32), old(space.mmio64)), probes, regions)
      ensures r.Err? ==> Justifies(seen, space.mmio32, space.mmio64, r.error)
    {
      hide Filled, Untouched, MmioSpace.Ready, TypeOf, Assigned, Joined, Listed, Justifies, Carved, GrantOf, PastProbe;
      hide PastProbes;
      ghost var c := Cursors(space.mmio32, space.mmio64);
      CarvedNone(c);
      ghost var was := bars[..];
      FilledNone();
      NothingYet();
      var offset: u8 := 0x10;
      var bar := 0;
      seen := [];
      while offset <= 0x24
        invariant bar <= BARS && 0x10 + 4 * bar <= offset <= 0x2c
        invariant space.Ready() && Filled(bar, offset)
        invariant Untouched(bar, was)
        invariant |regions| == bar && space.grants == old(space.grants) + Assigned(regions)
        invariant config.log == old(config.log) + Joined(probes) && seen == []
        invariant Carved(c, probes, regions) && Cursors(space.mmio32, space.mmio64) == PastProbes(c, probes)
        decreases 0x2c - offset
      {
        ghost var sofar, asked, region := regions, probes, None;
        var next;
        next, region, seen := Register(space, bar, offset);
        if next.Err? {
          return Err(next.error), offset, seen;
        }
        AssignedGrows(sofar, region);
        JoinedGrows(asked, seen);
        CarvedOne(c, asked, sofar, seen);
        assert Untouched(bar + 1, was);
        bar, offset, seen := bar + 1, next.value, [];
      }
      return Ok(bar), offset, seen;
    }

    /** Places every register of the device. On success the entries up to the result are settled
        as the device answered, one for each register from 0x10 on, and their regions lie apart
        from one another and from all earlier grants; decoding is switched on only then. */
    method Init(space: MmioSpace) returns (r: Result<nat, PciError>, ghost end: nat, ghost seen: seq<Access>)
      requires bars.Length == BARS && regions == [] && offsets == [] && probes == []
      requires space.Ready()
      modifies this, bars, config, space`mmio32, space`mmio64, space`grants
      ensures space.Ready()
      ensures config.log == old(config.log) + Joined(probes) + seen
      ensures r.Ok? ==> 0x24 < end <= 0x2c && seen == []
      ensures r.Ok? ==> Filled(r.value, end) && config.enabled
      ensures r.Ok? ==> Untouched(r.value, old(bars[..]))
      ensures r.Ok? ==> space.grants == old(space.grants) + Assigned(regions)
      ensures r.Ok? ==> AllApart(regions, old(space.grants))
      ensures r.Ok? ==> Carved(Cursors(old(space.mmio32), old(space.mmio64)), probes, regions)
      ensures r.Err? ==> config.enabled == old(config.enabled)
      ensures r.Err? ==> Justifies(seen, space.mmio32, space.mmio64, r.error)
    {
      hide Filled, Untouched, PairwiseDisjoint, AllApart, MmioSpace.Ready, TypeOf, Joined, Carve, Carved;
      r, end, seen := Registers(space);
      if r.Err? {
        return;
      }
      space.GrantsApart();
      AssignedApart(regions, old(space.grants));
      var done := config.Enable();
      if done.Err? {
        return Err(done.error), end, [Failed(0x04)];
      }
    }
  }
}
