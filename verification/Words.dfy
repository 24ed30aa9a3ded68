/** Machine words, results, and the 32-slot bitmaps the drivers keep in a `u32`. */
module Words {

  const TWO_16: int := 0x1_0000
  const TWO_32: int := 0x1_0000_0000
  const TWO_64: int := 0x1_0000_0000_0000_0000

  type byte = x: int | 0 <= x < 0x100
  type u8 = byte
  type u16 = x: int | 0 <= x < TWO_16
  type u32 = x: int | 0 <= x < TWO_32
  type u64 = x: int | 0 <= x < TWO_64

  datatype Option<+T> = None | Some(value: T)
  datatype Result<+T, +E> = Ok(value: T) | Err(error: E)

  function Min(a: int, b: int): int {
    if a < b then a else b
  }

  function Max(a: int, b: int): int {
    if a < b then b else a
  }

  function SaturatingAdd32(a: u32, b: u32): u32 {
    if a + b < TWO_32 then a + b else TWO_32 - 1
  }

  function SaturatingSub(a: nat, b: nat): nat {
    if a < b then 0 else a - b
  }

  /** `u16::wrapping_add(1)`. */
  function WrappingInc16(i: u16): u16 {
    if i == 0xFFFF then 0 else i + 1
  }

  /** Words from their little-endian bytes, and back. */
  function Le16(b0: int, b1: int): int {
    b0 + 0x100 * b1
  }

  function Le32(b0: int, b1: int, b2: int, b3: int): int {
    b0 + 0x100 * (b1 + 0x100 * (b2 + 0x100 * b3))
  }

  function Bytes16(x: u16): (s: seq<byte>)
    ensures |s| == 2 && Le16(s[0], s[1]) == x
  {
    [x % 0x100, x / 0x100]
  }

  function Bytes32(x: u32): (s: seq<byte>)
    ensures |s| == 4 && Le32(s[0], s[1], s[2], s[3]) == x
  {
    var y := x / 0x100;
    var z := y / 0x100;
    [x % 0x100, y % 0x100, z % 0x100, z / 0x100]
  }

  /** Four bytes are the encoding of the word they decode to. */
  lemma Bytes32Unique(b0: byte, b1: byte, b2: byte, b3: byte)
    ensures 0 <= Le32(b0, b1, b2, b3) < TWO_32
    ensures Bytes32(Le32(b0, b1, b2, b3)) == [b0, b1, b2, b3]
  {
    SplitByte(b2, b3);
    SplitByte(b1, b2 + 0x100 * b3);
    SplitByte(b0, b1 + 0x100 * (b2 + 0x100 * b3));
  }

  lemma SplitByte(b: int, rest: int)
    requires 0 <= b < 0x100
    ensures (b + 0x100 * rest) % 0x100 == b && (b + 0x100 * rest) / 0x100 == rest
  {
  }

  /** The low 16 bits of a word. */
  function Low16(x: u32): u16 {
    x % 0x1_0000
  }

  /** The ring slot a free-running index falls on: `i` modulo the size of the ring. */
  function RingSlot(i: nat, n: nat): (r: nat)
    requires n > 0
    ensures r < n
  {
    if i < n then i else RingSlot(i - n, n)
  }

  predicate IsPowerOfTwo(n: nat) {
    n == 1 || (n > 1 && n % 2 == 0 && IsPowerOfTwo(n / 2))
  }

  /** No value occurs twice. */
  ghost predicate Injective<T>(s: seq<T>) {
    forall i, j | 0 <= i < j < |s| :: s[i] != s[j]
  }

  ghost function Elements<T>(s: seq<T>): set<T> {
    set x | x in s
  }

  lemma {:induction false} InjectiveCardinality<T>(s: seq<T>)
    requires Injective(s)
    ensures |Elements(s)| == |s|
  {
    if s == [] {
      assert Elements(s) == {};
    } else {
      var init, last := s[..|s| - 1], s[|s| - 1];
      InjectiveCardinality(init);
      assert s == init + [last];
      assert Elements(s) == Elements(init) + {last};
      assert last !in Elements(init);
    }
  }

  /** The slots below `n`. */
  ghost function Below(n: nat): (r: set<nat>)
    ensures |r| == n
    ensures forall i: nat :: i in r <==> i < n
  {
    if n == 0 then {} else Below(n - 1) + {n - 1}
  }

  /** The pigeonhole principle for distinct slot numbers. */
  lemma InjectiveBound(s: seq<nat>, n: nat)
    requires Injective(s)
    requires forall i | 0 <= i < |s| :: s[i] < n
    ensures |s| <= n
  {
    InjectiveCardinality(s);
    SubsetCardinality(Elements(s), Below(n));
  }

  lemma {:induction false} SubsetCardinality<T>(a: set<T>, b: set<T>)
    requires a <= b
    ensures |a| <= |b|
  {
    if a != {} {
      var x :| x in a;
      SubsetCardinality(a - {x}, b - {x});
    }
  }
}

/** Bitwise operations on unsigned words, bit by bit from the low end. */
module Bits {
  import opened Words

  function Pow2(k: nat): (r: nat)
    ensures r > 0
  {
    if k == 0 then 1 else 2 * Pow2(k - 1)
  }

  predicate Bit(x: nat, i: nat) {
    if i == 0 then x % 2 == 1 else Bit(x / 2, i - 1)
  }

  function And(x: nat, y: nat): nat {
    if x == 0 || y == 0 then 0
    else 2 * And(x / 2, y / 2) + (if x % 2 == 1 && y % 2 == 1 then 1 else 0)
  }

  function Or(x: nat, y: nat): nat {
    if x == 0 then y
    else if y == 0 then x
    else 2 * Or(x / 2, y / 2) + (if x % 2 == 1 || y % 2 == 1 then 1 else 0)
  }

  /** `!x` on a word of `w` bits. */
  function Not(x: nat, w: nat): nat
    requires x < Pow2(w)
  {
    Pow2(w) - 1 - x
  }

  lemma {:induction false} ZeroBits(i: nat)
    ensures !Bit(0, i)
  {
    if i > 0 {
      ZeroBits(i - 1);
    }
  }

  lemma {:induction false} AndBit(x: nat, y: nat, i: nat)
    ensures Bit(And(x, y), i) <==> Bit(x, i) && Bit(y, i)
  {
    if x == 0 || y == 0 {
      ZeroBits(i);
    } else if i > 0 {
      AndBit(x / 2, y / 2, i - 1);
    }
  }

  lemma {:induction false} OrBit(x: nat, y: nat, i: nat)
    ensures Bit(Or(x, y), i) <==> Bit(x, i) || Bit(y, i)
  {
    if x == 0 || y == 0 {
      ZeroBits(i);
    } else if i > 0 {
      OrBit(x / 2, y / 2, i - 1);
    }
  }

  lemma {:induction false} NotBit(x: nat, w: nat, i: nat)
    requires x < Pow2(w) && i < w
    ensures Bit(Not(x, w), i) <==> !Bit(x, i)
  {
    if i > 0 {
      NotBit(x / 2, w - 1, i - 1);
      assert Not(x, w) / 2 == Not(x / 2, w - 1);
    }
  }

  lemma {:induction false} Pow2Bit(k: nat, i: nat)
    ensures Bit(Pow2(k), i) <==> i == k
  {
    if k == 0 {
      if i > 0 {
        ZeroBits(i - 1);
      }
    } else if i > 0 {
      Pow2Bit(k - 1, i - 1);
    }
  }

  lemma {:induction false} AndBound(x: nat, y: nat)
    ensures And(x, y) <= x && And(x, y) <= y
  {
    if x != 0 && y != 0 {
      AndBound(x / 2, y / 2);
    }
  }

  lemma {:induction false} OrBound(x: nat, y: nat, w: nat)
    requires x < Pow2(w) && y < Pow2(w)
    ensures Or(x, y) < Pow2(w)
  {
    if x != 0 && y != 0 {
      OrBound(x / 2, y / 2, w - 1);
    }
  }

  /** Clearing the bits of `m` takes away exactly the bits that were set in both. */
  lemma {:induction false} AndNotIsDifference(x: nat, m: nat, w: nat)
    requires x < Pow2(w) && m < Pow2(w)
    ensures And(x, Not(m, w)) == x - And(x, m)
  {
    if w > 0 {
      AndNotIsDifference(x / 2, m / 2, w - 1);
      assert Not(m, w) / 2 == Not(m / 2, w - 1);
      assert Not(m, w) % 2 == 1 - m % 2;
      AndHalves(x, m);
      AndHalves(x, Not(m, w));
    }
  }

  /** The recursion of `And`, also where one side is zero. */
  lemma AndHalves(x: nat, y: nat)
    ensures And(x, y) == 2 * And(x / 2, y / 2) + (if x % 2 == 1 && y % 2 == 1 then 1 else 0)
  {
  }

  /** Masking with `2^k - 1` keeps the remainder. */
  lemma {:induction false} AndLowMask(x: nat, k: nat)
    ensures And(x, Pow2(k) - 1) == x % Pow2(k)
  {
    if k > 0 {
      var p := Pow2(k - 1);
      AndLowMask(x / 2, k - 1);
      AndHalves(x, 2 * p - 1);
      assert (2 * p - 1) / 2 == p - 1;
      DivModDouble(x, p);
    }
  }

  lemma {:induction false} PowerOfTwoExponent(n: nat) returns (k: nat)
    requires IsPowerOfTwo(n)
    ensures n == Pow2(k)
  {
    if n == 1 {
      k := 0;
    } else {
      var j := PowerOfTwoExponent(n / 2);
      k := j + 1;
    }
  }

  lemma {:induction false} RingSlotIsRemainder(i: nat, n: nat)
    requires n > 0
    ensures RingSlot(i, n) == i % n
  {
    if i >= n {
      RingSlotIsRemainder(i - n, n);
      RemainderUnique(i, n, (i - n) / n + 1, (i - n) % n);
    }
  }

  /** The slot is what masking the index with `n - 1` gives. */
  lemma RingSlotMasks(i: nat, n: nat)
    requires IsPowerOfTwo(n)
    ensures RingSlot(i, n) == And(i, n - 1)
  {
    hide And, Pow2, RingSlot;
    var k := PowerOfTwoExponent(n);
    AndLowMask(i, k);
    RingSlotIsRemainder(i, n);
  }

  /** Or of numbers with no bit in common is their sum. */
  lemma {:induction false} OrOfParts(high: nat, low: nat, k: nat)
    requires low < Pow2(k)
    ensures Or(high * Pow2(k), low) == high * Pow2(k) + low
  {
    if k > 0 {
      OrOfParts(high, low / 2, k - 1);
      assert high * Pow2(k) == 2 * (high * Pow2(k - 1)) by {
        Associate(high, Pow2(k - 1));
      }
      OrHalves(high * Pow2(k), low);
    }
  }

  lemma OrHalves(x: nat, y: nat)
    ensures Or(x, y) == 2 * Or(x / 2, y / 2) + (if x % 2 == 1 || y % 2 == 1 then 1 else 0)
  {
  }

  lemma {:induction false} AndAssociates(x: nat, y: nat, z: nat)
    ensures And(And(x, y), z) == And(x, And(y, z))
    decreases x
  {
    AndHalves(x, y);
    AndHalves(y, z);
    AndHalves(And(x, y), z);
    AndHalves(x, And(y, z));
    if x > 0 {
      AndAssociates(x / 2, y / 2, z / 2);
    }
  }

  /** A mask whose low `k` bits are set keeps the low `k` bits. */
  lemma AndKeepsLowBits(x: nat, m: nat, k: nat)
    requires m % Pow2(k) == Pow2(k) - 1
    ensures And(x, m) % Pow2(k) == x % Pow2(k)
  {
    hide And, Pow2;
    var low := Pow2(k) - 1;
    AndLowMask(m, k);
    AndLowMask(And(x, m), k);
    AndLowMask(x, k);
    AndAssociates(x, m, low);
  }

  /** `x & !m` on 64-bit words. */
  function AndNot64(x: u64, m: u64): (r: u64)
    ensures r == x - And(x, m) && x - m <= r
  {
    AndNot64Difference(x, m);
    And(x, Not(m, 64))
  }

  lemma AndNot64Difference(x: u64, m: u64)
    ensures m < Pow2(64) && And(x, Not(m, 64)) == x - And(x, m)
    ensures And(x, m) <= x && And(x, m) <= m
  {
    hide And, Not, Pow2;
    Word64Size();
    AndNotIsDifference(x, m, 64);
    AndBound(x, m);
  }

  lemma DivModDouble(x: nat, p: nat)
    requires p > 0
    ensures x % (2 * p) == 2 * ((x / 2) % p) + x % 2
  {
    var q, r := (x / 2) / p, (x / 2) % p;
    assert x / 2 == p * q + r;
    assert x == (2 * p) * q + (2 * r + x % 2) by {
      assert x == 2 * (x / 2) + x % 2;
    }
    RemainderUnique(x, 2 * p, q, 2 * r + x % 2);
  }

  lemma RemainderUnique(x: nat, d: nat, q: nat, r: nat)
    requires d > 0 && r < d && x == d * q + r
    ensures x % d == r && x / d == q
  {
    var q' := x / d;
    if q < q' {
      MultipleGap(d, q, q');
    } else if q' < q {
      MultipleGap(d, q', q);
    }
  }

  lemma {:induction false} MultipleGap(d: nat, a: nat, b: nat)
    requires a < b
    ensures d * a + d <= d * b
  {
    if a < b - 1 {
      MultipleGap(d, a, b - 1);
    }
    assert d * b == d * (b - 1) + d;
  }

  lemma {:induction false} Pow2Sum(j: nat, k: nat)
    ensures Pow2(j + k) == Pow2(j) * Pow2(k)
  {
    if k > 0 {
      Pow2Sum(j, k - 1);
      assert j + k - 1 == j + (k - 1);
      Associate(Pow2(j), Pow2(k - 1));
    }
  }

  lemma Associate(a: nat, b: nat)
    ensures 2 * (a * b) == a * (2 * b)
  {
  }

  lemma Word16Size()
    ensures Pow2(4) == 16 && Pow2(16) == 0x1_0000
  {
  }

  lemma Word32Size()
    ensures Pow2(32) == TWO_32
  {
    Word16Size();
    Pow2Sum(16, 16);
  }

  lemma Word64Size()
    ensures Pow2(64) == TWO_64
  {
    Word32Size();
    Pow2Sum(32, 32);
  }

  lemma {:induction false} Pow2Below(i: nat, j: nat)
    requires i < j
    ensures Pow2(i) < Pow2(j)
  {
    if i < j - 1 {
      Pow2Below(i, j - 1);
    }
  }
}

/** A set of slots below 32 held in a `u32`. */
module Bitmap {
  import opened Words
  import opened Bits

  /** `1u32 << i`. */
  function Mask(i: nat): (m: u32)
    requires i < 32
    ensures m == Pow2(i)
  {
    assert Pow2(i) < TWO_32 by {
      Pow2Below(i, 32);
      Word32Size();
    }
    Pow2(i)
  }

  predicate Has(b: u32, i: nat) {
    i < 32 && And(b, Mask(i)) != 0
  }

  lemma {:induction false} NonZeroHasBit(x: nat) returns (i: nat)
    requires x != 0
    ensures Bit(x, i)
  {
    if x % 2 == 1 {
      i := 0;
    } else {
      var k := NonZeroHasBit(x / 2);
      i := k + 1;
    }
  }

  lemma HasIsBit(b: u32, i: nat)
    requires i < 32
    ensures Has(b, i) <==> Bit(b, i)
  {
    if And(b, Mask(i)) != 0 {
      var k := NonZeroHasBit(And(b, Mask(i)));
      AndBit(b, Mask(i), k);
      Pow2Bit(i, k);
    } else {
      AndBit(b, Mask(i), i);
      Pow2Bit(i, i);
      ZeroBits(i);
    }
  }

  /** What `b |= 1 << i` does to every bit. */
  function Set(b: u32, i: nat): (r: u32)
    requires i < 32
    ensures forall j :: Has(r, j) <==> Has(b, j) || i == j
  {
    SetIsWord(b, i);
    SetBits(b, i);
    Or(b, Mask(i))
  }

  lemma SetIsWord(b: u32, i: nat)
    requires i < 32
    ensures Or(b, Mask(i)) < TWO_32
  {
    Word32Size();
    OrBound(b, Mask(i), 32);
  }

  lemma SetBits(b: u32, i: nat)
    requires i < 32 && Or(b, Mask(i)) < TWO_32
    ensures forall j: nat :: Has(Or(b, Mask(i)), j) <==> Has(b, j) || i == j
  {
    forall j: nat | j < 32
      ensures Has(Or(b, Mask(i)), j) <==> Has(b, j) || i == j
    {
      HasIsBit(Or(b, Mask(i)), j);
      HasIsBit(b, j);
      OrBit(b, Mask(i), j);
      Pow2Bit(i, j);
    }
  }

  /** What `b &= !(1 << i)` does to every bit. */
  function Clear(b: u32, i: nat): (r: u32)
    requires i < 32
    ensures forall j :: Has(r, j) <==> Has(b, j) && i != j
  {
    Word32Size();
    AndBound(b, Not(Mask(i), 32));
    ClearBits(b, i);
    And(b, Not(Mask(i), 32))
  }

  lemma ClearBits(b: u32, i: nat)
    requires i < 32 && Mask(i) < Pow2(32) && And(b, Not(Mask(i), 32)) < TWO_32
    ensures forall j: nat :: Has(And(b, Not(Mask(i), 32)), j) <==> Has(b, j) && i != j
  {
    forall j: nat | j < 32
      ensures Has(And(b, Not(Mask(i), 32)), j) <==> Has(b, j) && i != j
    {
      HasIsBit(And(b, Not(Mask(i), 32)), j);
      HasIsBit(b, j);
      AndBit(b, Not(Mask(i), 32), j);
      NotBit(Mask(i), 32, j);
      Pow2Bit(i, j);
    }
  }
}
