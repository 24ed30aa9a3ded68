/** The allocator of device MMIO windows: two bump cursors with bit-mask alignment. */
module Mmio {
  import opened Words
  import opened Bits

  const MMIO32_START: u32 := 0xC000_0000
  const MMIO32_SIZE: u32 := 0x2000_0000
  const MMIO64_START: u64 := 0x1_0000_0000
  const MMIO64_SIZE: u64 := 0x4000_0000

  datatype PciError = InvalidParameter | MmioOutofResource | InvalidBarType | ConfigSpaceError

  datatype Range = Range(base: nat, size: nat) {
    function End(): nat {
      base + size
    }
  }

  const WINDOW32: Range := Range(MMIO32_START, MMIO32_SIZE)
  const WINDOW64: Range := Range(MMIO64_START, MMIO64_SIZE)

  predicate Disjoint(a: Range, b: Range) {
    a.End() <= b.base || b.End() <= a.base
  }

  predicate Inside(a: Range, w: Range) {
    w.base <= a.base && a.End() <= w.End()
  }

  // ---------- alignment ----------

  /** The next address that the mask `!(align - 1)` leaves alone; the addition is checked. */
  function AlignUp(addr: u64, align: u64): (r: Option<u64>)
    ensures r.None? <==> align == 0 || addr + align >= TWO_64
    ensures r.Some? ==> addr <= r.value < addr + align
  {
    if align == 0 || addr + align >= TWO_64 then None
    else Some(AndNot64(addr + align - 1, align - 1))
  }

  lemma OneBelowMultiple(s: nat, p: nat)
    requires s > 0 && p > 0 && s % p == 0
    ensures (s - 1) % p == p - 1
  {
    var q := s / p;
    assert s == p * q;
    assert q >= 1;
    assert s - 1 == p * (q - 1) + (p - 1);
    RemainderUnique(s - 1, p, q - 1, p - 1);
  }

  lemma DifferenceOfCongruent(x: nat, y: nat, p: nat)
    requires p > 0 && y <= x && x % p == y % p
    ensures (x - y) % p == 0
  {
    var a, b := x / p, y / p;
    assert x - y == p * (a - b);
    assert a >= b;
    RemainderUnique(x - y, p, a - b, 0);
  }

  /** A size that is a multiple of a power of two gives an address that is one too; in
      particular a power of two aligns to itself. */
  lemma AlignUpMultiple(addr: u64, align: u64, k: nat)
    requires AlignUp(addr, align).Some? && align % Pow2(k) == 0
    ensures AlignUp(addr, align).value % Pow2(k) == 0
  {
    hide And, Not, Pow2;
    var x, m := addr + align - 1, align - 1;
    OneBelowMultiple(align, Pow2(k));
    AndKeepsLowBits(x, m, k);
    AndBound(x, m);
    DifferenceOfCongruent(x, And(x, m), Pow2(k));
  }

  // ---------- the two cursors ----------

  /** The region lies in the window, below the cursor. */
  predicate Below(g: Range, window: Range, cursor: nat) {
    window.base <= g.base && g.size > 0 && g.End() <= cursor <= window.End()
  }

  /** Every grant lies below the cursor of its window. */
  ghost predicate Placed(grants: seq<Range>, cursor32: nat, cursor64: nat) {
    forall i | 0 <= i < |grants| :: Below(grants[i], WINDOW32, cursor32) || Below(grants[i], WINDOW64, cursor64)
  }

  ghost predicate PairwiseDisjoint(regions: seq<Range>) {
    forall i, j | 0 <= i < j < |regions| :: Disjoint(regions[i], regions[j])
  }

  /** What an allocation returns and where it leaves the cursor. */
  function Carve(cursor: u64, size: u64, window: Range): (r: Result<Range, PciError>)
    ensures r.Ok? <==> 0 < size <= window.size && AlignUp(cursor, size).Some?
                       && AlignUp(cursor, size).value + size <= window.End()
    ensures r.Ok? ==> r.value.size == size && cursor <= r.value.base && r.value.End() <= window.End()
    ensures r.Err? ==> r.error == InvalidParameter || r.error == MmioOutofResource
  {
    match AlignUp(cursor, size)
    case None => Err(InvalidParameter)
    case Some(addr) =>
      if size > window.size || addr > window.End() - size then Err(MmioOutofResource)
      else Ok(Range(addr, size))
  }

  /** The region holds RAM that a window must not cover. */
  predicate Clear(ram: Range) {
    Disjoint(ram, WINDOW32) && Disjoint(ram, WINDOW64)
  }

  function SaturatingAdd64(a: u64, b: u64): u64 {
    if a + b < TWO_64 then a + b else TWO_64 - 1
  }

  /** A request for a region in one of the windows. */
  datatype Request = Mmio32(size32: u32) | Mmio64(size64: u64) {
    function Size(): nat {
      if Mmio32? then size32 else size64
    }
  }

  /** The region is what the request asked for: its size, and aligned to every power of two
      that divides it. */
  ghost predicate Answers(g: Range, size: nat) {
    g.size == size && forall k: nat :: size % Pow2(k) == 0 ==> g.base % Pow2(k) == 0
  }

  lemma AlignedAnswers(cursor: u64, size: u64)
    requires AlignUp(cursor, size).Some?
    ensures Answers(Range(AlignUp(cursor, size).value, size), size)
  {
    hide AlignUp, Pow2;
    forall k: nat | size % Pow2(k) == 0
      ensures AlignUp(cursor, size).value % Pow2(k) == 0
    {
      AlignUpMultiple(cursor, size, k);
    }
  }

  lemma AnswersSixteen(g: Range, size: nat)
    requires Answers(g, size) && size % 16 == 0
    ensures g.base % 16 == 0
  {
    hide Pow2;
    Word16Size();
    assert size % Pow2(4) == 0;
  }

  class MmioSpace {
    var mmio32: u32
    var mmio64: u64
    ghost var ram: seq<Range>
    ghost var grants: seq<Range>

    constructor ()
      ensures mmio32 == 0 && mmio64 == 0 && grants == []
    {
      mmio32, mmio64 := 0, 0;
      ram, grants := [], [];
    }

    /** The windows are clear of RAM, and the grants lie apart below the cursors. */
    ghost predicate Ready()
      reads this
    {
      && MMIO32_START <= mmio32 <= WINDOW32.End() && MMIO64_START <= mmio64 <= WINDOW64.End()
      && Placed(grants, mmio32, mmio64)
      && PairwiseDisjoint(grants)
      && forall i | 0 <= i < |ram| :: Clear(ram[i])
    }

    /** False where the source panics: some RAM region reaches into a window. */
    method InitMmio(memoryMap: seq<Range>) returns (ok: bool)
      requires forall i | 0 <= i < |memoryMap| :: memoryMap[i].base < TWO_64 && memoryMap[i].size < TWO_64
      modifies this
      ensures ok <==> forall i | 0 <= i < |memoryMap| :: Clear(memoryMap[i])
      ensures ok ==> Ready() && mmio32 == MMIO32_START && mmio64 == MMIO64_START && grants == [] && ram == memoryMap
      ensures !ok ==> unchanged(this)
    {
      var i := 0;
      while i < |memoryMap|
        invariant 0 <= i <= |memoryMap|
        invariant forall j | 0 <= j < i :: Clear(memoryMap[j])
        invariant unchanged(this)
      {
        var region := memoryMap[i];
        var regionEnd := SaturatingAdd64(region.base, region.size);
        var mmio32End := SaturatingAdd64(MMIO32_START, MMIO32_SIZE);
        var mmio64End := SaturatingAdd64(MMIO64_START, MMIO64_SIZE);
        if || (region.base < mmio32End && regionEnd > MMIO32_START)
           || (region.base < mmio64End && regionEnd > MMIO64_START)
        {
          return false;
        }
        i := i + 1;
      }
      mmio32, mmio64 := MMIO32_START, MMIO64_START;
      ram, grants := memoryMap, [];
      ok := true;
    }

    method AllocMmio32(size: u32) returns (r: Result<u32, PciError>)
      modifies this`mmio32, this`grants
      ensures r.Ok? <==> Carve(old(mmio32), size, WINDOW32).Ok?
      ensures r.Err? ==> Carve(old(mmio32), size, WINDOW32) == Err(r.error) && unchanged(this)
      ensures r.Ok? ==> Carve(old(mmio32), size, WINDOW32) == Ok(Range(r.value, size)) && mmio32 == r.value + size
      ensures r.Ok? ==> grants == old(grants) + [Range(r.value, size)] && Answers(Range(r.value, size), size)
      ensures old(Ready()) ==> Ready()
    {
      hide AlignUp, Clear, Answers;
      var addr := AlignUp(mmio32, size);
      if addr.None? {
        return Err(InvalidParameter);
      }
      AlignedAnswers(mmio32, size);
      if size > MMIO32_SIZE || addr.value > MMIO32_START + MMIO32_SIZE - size {
        return Err(MmioOutofResource);
      }
      var base: u32 := addr.value;
      if base + size >= TWO_32 {
        assert false;
      }
      mmio32 := base + size;
      grants := grants + [Range(base, size)];
      r := Ok(base);
    }

    method AllocMmio64(size: u64) returns (r: Result<u64, PciError>)
      modifies this`mmio64, this`grants
      ensures r.Ok? <==> Carve(old(mmio64), size, WINDOW64).Ok?
      ensures r.Err? ==> Carve(old(mmio64), size, WINDOW64) == Err(r.error) && unchanged(this)
      ensures r.Ok? ==> Carve(old(mmio64), size, WINDOW64) == Ok(Range(r.value, size)) && mmio64 == r.value + size
      ensures r.Ok? ==> grants == old(grants) + [Range(r.value, size)] && Answers(Range(r.value, size), size)
      ensures old(Ready()) ==> Ready()
    {
      hide AlignUp, Clear, Answers;
      var addr := AlignUp(mmio64, size);
      if addr.None? {
        return Err(InvalidParameter);
      }
      AlignedAnswers(mmio64, size);
      if size > MMIO64_SIZE || addr.value > MMIO64_START + MMIO64_SIZE - size {
        return Err(MmioOutofResource);
      }
      if addr.value + size >= TWO_64 {
        assert false;
      }
      mmio64 := addr.value + size;
      grants := grants + [Range(addr.value, size)];
      r := Ok(addr.value);
    }

    lemma GrantsApart()
      requires Ready()
      ensures PairwiseDisjoint(grants)
    {
    }

    /** No grant meets RAM. */
    lemma GrantsMissRam()
      requires Ready()
      ensures forall i, j | 0 <= i < |grants| && 0 <= j < |ram| :: Disjoint(grants[i], ram[j])
    {
    }
  }

  // ---------- whole runs ----------

  datatype Cursors = Cursors(low: u64, high: u64)

  function Reply(c: Cursors, request: Request): Result<Range, PciError> {
    match request
    case Mmio32(size) => Carve(c.low, size, WINDOW32)
    case Mmio64(size) => Carve(c.high, size, WINDOW64)
  }

  /** A grant moves the cursor of its window behind it. */
  function Advanced(c: Cursors, request: Request): Cursors {
    match Reply(c, request)
    case Err(_) => c
    case Ok(g) => if request.Mmio32? then c.(low := g.End()) else c.(high := g.End())
  }

  function CursorsAfter(requests: seq<Request>): (c: Cursors)
    ensures WINDOW32.base <= c.low <= WINDOW32.End() && WINDOW64.base <= c.high <= WINDOW64.End()
  {
    if requests == [] then Cursors(MMIO32_START, MMIO64_START)
    else Advanced(CursorsAfter(requests[..|requests| - 1]), requests[|requests| - 1])
  }

  /** Every request is answered from where the earlier ones left the cursors. */
  ghost predicate Served(requests: seq<Request>, results: seq<Result<Range, PciError>>) {
    && |results| == |requests|
    && forall i | 0 <= i < |requests| :: results[i] == Reply(CursorsAfter(requests[..i]), requests[i])
  }

  lemma ServedOne(requests: seq<Request>, results: seq<Result<Range, PciError>>, request: Request)
    requires Served(requests, results)
    ensures Served(requests + [request], results + [Reply(CursorsAfter(requests), request)])
    ensures CursorsAfter(requests + [request]) == Advanced(CursorsAfter(requests), request)
  {
    assert (requests + [request])[..|requests|] == requests;
    assert forall i | 0 <= i < |requests| :: (requests + [request])[..i] == requests[..i];
  }

  lemma {:induction false} CursorsGrow(requests: seq<Request>, i: nat, j: nat)
    requires i <= j <= |requests|
    ensures CursorsAfter(requests[..i]).low <= CursorsAfter(requests[..j]).low
    ensures CursorsAfter(requests[..i]).high <= CursorsAfter(requests[..j]).high
    decreases j
  {
    if i < j {
      CursorsGrow(requests, i, j - 1);
      assert requests[..j][..j - 1] == requests[..j - 1];
    }
  }

  /** What is granted to two requests of any series shares no byte. */
  lemma ServedApart(requests: seq<Request>, results: seq<Result<Range, PciError>>, i: nat, j: nat)
    requires Served(requests, results) && i < j < |requests|
    requires results[i].Ok? && results[j].Ok?
    ensures Disjoint(results[i].value, results[j].value)
  {
    hide Carve;
    CursorsGrow(requests, i + 1, j);
    assert requests[..i + 1][..i] == requests[..i];
  }

  /** What is granted lies in the window asked for and is what was asked for. */
  lemma ServedInside(requests: seq<Request>, results: seq<Result<Range, PciError>>, i: nat)
    requires Served(requests, results) && i < |requests| && results[i].Ok?
    ensures Inside(results[i].value, if requests[i].Mmio32? then WINDOW32 else WINDOW64)
    ensures Answers(results[i].value, requests[i].Size())
  {
    hide Answers, AlignUp;
    var c := CursorsAfter(requests[..i]);
    AlignedAnswers(if requests[i].Mmio32? then c.low else c.high, requests[i].Size());
  }

  lemma ServeStarts()
    ensures Served([], []) && CursorsAfter([]) == Cursors(MMIO32_START, MMIO64_START)
  {
  }

  lemma ServedClear(memoryMap: seq<Range>, requests: seq<Request>, results: seq<Result<Range, PciError>>)
    requires Served(requests, results) && forall i | 0 <= i < |memoryMap| :: Clear(memoryMap[i])
    ensures forall i, j | 0 <= i < j < |results| && results[i].Ok? && results[j].Ok? ::
              Disjoint(results[i].value, results[j].value)
    ensures forall i | 0 <= i < |results| && results[i].Ok? ::
              && Inside(results[i].value, if requests[i].Mmio32? then WINDOW32 else WINDOW64)
              && Answers(results[i].value, requests[i].Size())
    ensures forall i, j | 0 <= i < |results| && results[i].Ok? && 0 <= j < |memoryMap| ::
              Disjoint(results[i].value, memoryMap[j])
  {
    hide Answers;
    forall i, j | 0 <= i < j < |results| && results[i].Ok? && results[j].Ok?
      ensures Disjoint(results[i].value, results[j].value)
    {
      ServedApart(requests, results, i, j);
    }
    forall i | 0 <= i < |results| && results[i].Ok?
      ensures Inside(results[i].value, if requests[i].Mmio32? then WINDOW32 else WINDOW64)
      ensures Answers(results[i].value, requests[i].Size())
    {
      ServedInside(requests, results, i);
    }
  }

  method Allocate(space: MmioSpace, request: Request) returns (r: Result<Range, PciError>)
    modifies space
    ensures r == Reply(Cursors(old(space.mmio32), old(space.mmio64)), request)
    ensures Cursors(space.mmio32, space.mmio64) == Advanced(Cursors(old(space.mmio32), old(space.mmio64)), request)
  {
    hide Answers, AlignUp, Carve;
    match request {
      case Mmio32(size) =>
        var addr := space.AllocMmio32(size);
        r := if addr.Ok? then Ok(Range(addr.value, size)) else Err(addr.error);
      case Mmio64(size) =>
        var addr := space.AllocMmio64(size);
        r := if addr.Ok? then Ok(Range(addr.value, size)) else Err(addr.error);
    }
  }

  /** For every memory map and every series of requests: the windows are accepted exactly if
      no RAM reaches into them, and then each request is answered, and what is granted lies in
      its window, apart from every other grant and from RAM, and is what was asked for. */
  method Serve(memoryMap: seq<Range>, requests: seq<Request>)
    returns (ok: bool, results: seq<Result<Range, PciError>>)
    requires forall i | 0 <= i < |memoryMap| :: memoryMap[i].base < TWO_64 && memoryMap[i].size < TWO_64
    ensures ok <==> forall i | 0 <= i < |memoryMap| :: Clear(memoryMap[i])
    ensures if ok then Served(requests, results) else results == []
    ensures forall i, j | 0 <= i < j < |results| && results[i].Ok? && results[j].Ok? ::
              Disjoint(results[i].value, results[j].value)
    ensures ok ==> forall i | 0 <= i < |results| && results[i].Ok? ::
                     && Inside(results[i].value, if requests[i].Mmio32? then WINDOW32 else WINDOW64)
                     && Answers(results[i].value, requests[i].Size())
    ensures forall i, j | 0 <= i < |results| && results[i].Ok? && 0 <= j < |memoryMap| ::
              Disjoint(results[i].value, memoryMap[j])
  {
    hide Answers, Carve, AlignUp, Served, CursorsAfter, MmioSpace.Ready;
    var space := new MmioSpace();
    ok := space.InitMmio(memoryMap);
    results := [];
    if !ok {
      return;
    }
    ServeStarts();
    for i := 0 to |requests|
      invariant CursorsAfter(requests[..i]) == Cursors(space.mmio32, space.mmio64)
      invariant Served(requests[..i], results)
    {
      ServedOne(requests[..i], results, requests[i]);
      assert requests[..i + 1] == requests[..i] + [requests[i]];
      var r := Allocate(space, requests[i]);
      results := results + [r];
    }
    assert requests[..|requests|] == requests;
    ServedClear(memoryMap, requests, results);
  }
}
