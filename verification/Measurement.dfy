/** Measurement registers: chains of digests, with the hash as a parameter. */
module Measurement {
  import opened Words

  type Bytes = seq<byte>

  const DIGEST_SIZE: nat := 48

  function Zeros(n: nat): (z: Bytes)
    ensures |z| == n && forall i | 0 <= i < n :: z[i] == 0
  {
    if n == 0 then [] else Zeros(n - 1) + [0]
  }

  type Digest = d: Bytes | |d| == DIGEST_SIZE witness Zeros(DIGEST_SIZE)

  const ZERO: Digest := Zeros(DIGEST_SIZE)

  /** A register extended with a digest. */
  function Extend(hash: Bytes -> Digest, reg: Digest, d: Digest): Digest {
    hash(reg + d)
  }

  /** A register extended with each digest in turn. */
  function Fold(hash: Bytes -> Digest, reg: Digest, ds: seq<Digest>): Digest {
    if ds == [] then reg else Extend(hash, Fold(hash, reg, ds[..|ds| - 1]), ds[|ds| - 1])
  }

  /** What the `k`-th extension of a register hashes. */
  function Hashed(hash: Bytes -> Digest, ds: seq<Digest>, k: nat): Bytes
    requires k < |ds|
  {
    Fold(hash, ZERO, ds[..k]) + ds[k]
  }

  /** Two hashed inputs are the same, or their digests differ. */
  predicate Told(hash: Bytes -> Digest, x: Bytes, y: Bytes) {
    hash(x) == hash(y) ==> x == y
  }

  /** Folding `a` and folding `b` hash no two different inputs to one digest, and nothing to
      the value a register starts with. */
  ghost predicate NoCollision(hash: Bytes -> Digest, a: seq<Digest>, b: seq<Digest>) {
    && (forall i, j | 0 <= i < |a| && 0 <= j < |b| :: Told(hash, Hashed(hash, a, i), Hashed(hash, b, j)))
    && (forall i | 0 <= i < |a| :: hash(Hashed(hash, a, i)) != ZERO)
    && (forall j | 0 <= j < |b| :: hash(Hashed(hash, b, j)) != ZERO)
  }

  lemma NoCollisionFront(hash: Bytes -> Digest, a: seq<Digest>, b: seq<Digest>)
    requires a != [] && b != [] && NoCollision(hash, a, b)
    ensures NoCollision(hash, a[..|a| - 1], b[..|b| - 1])
  {
    hide Hashed, Told;
    HashedFront(hash, a);
    HashedFront(hash, b);
    var a', b' := a[..|a| - 1], b[..|b| - 1];
    forall i, j | 0 <= i < |a'| && 0 <= j < |b'|
      ensures Told(hash, Hashed(hash, a', i), Hashed(hash, b', j))
    {
      assert Told(hash, Hashed(hash, a, i), Hashed(hash, b, j));
    }
    forall i | 0 <= i < |a'| ensures hash(Hashed(hash, a', i)) != ZERO {
      assert Hashed(hash, a', i) == Hashed(hash, a, i);
    }
    forall j | 0 <= j < |b'| ensures hash(Hashed(hash, b', j)) != ZERO {
      assert Hashed(hash, b', j) == Hashed(hash, b, j);
    }
  }

  lemma HashedFront(hash: Bytes -> Digest, a: seq<Digest>)
    requires a != []
    ensures forall i | 0 <= i < |a| - 1 :: Hashed(hash, a[..|a| - 1], i) == Hashed(hash, a, i)
  {
    forall i | 0 <= i < |a| - 1
      ensures Hashed(hash, a[..|a| - 1], i) == Hashed(hash, a, i)
    {
      assert a[..|a| - 1][..i] == a[..i];
    }
  }

  /** A register tells the digests it was extended with, in order. */
  lemma {:induction false} FoldTells(hash: Bytes -> Digest, a: seq<Digest>, b: seq<Digest>)
    requires NoCollision(hash, a, b) && Fold(hash, ZERO, a) == Fold(hash, ZERO, b)
    ensures a == b
    decreases |a|
  {
    assert a != [] ==> Fold(hash, ZERO, a) == hash(Hashed(hash, a, |a| - 1));
    assert b != [] ==> Fold(hash, ZERO, b) == hash(Hashed(hash, b, |b| - 1));
    if a != [] && b != [] {
      var m, n := |a| - 1, |b| - 1;
      var x: Bytes, y: Bytes := Fold(hash, ZERO, a[..m]), Fold(hash, ZERO, b[..n]);
      assert Hashed(hash, a, m) == x + a[m] && Hashed(hash, b, n) == y + b[n];
      assert Told(hash, Hashed(hash, a, m), Hashed(hash, b, n));
      assert x + a[m] == y + b[n];
      assert (x + a[m])[..48] == x && (y + b[n])[..48] == y;
      assert (x + a[m])[48..] == a[m] && (y + b[n])[48..] == b[n];
      NoCollisionFront(hash, a, b);
      FoldTells(hash, a[..m], b[..n]);
      assert a == a[..m] + [a[m]] && b == b[..n] + [b[n]];
    }
  }
}
