/** DER tag-length-value encoding, with a strict reference decoder (sections 8.1.3 and 10.1 of X.690). */
module Der {
  import opened Words

  type Bytes = seq<byte>

  const DER_SEQUENCE_TAG: byte := 0x30
  const DER_BIT_STRING_TAG: byte := 0x03

  // ---------- numbers, big end first ----------

  function ToBe(n: nat, k: nat): (s: Bytes)
    ensures |s| == k
  {
    if k == 0 then [] else ToBe(n / 256, k - 1) + [n % 256]
  }

  function FromBe(s: Bytes): nat {
    if s == [] then 0 else 256 * FromBe(s[..|s| - 1]) + s[|s| - 1]
  }

  function LeadingZeros(s: Bytes): (z: nat)
    ensures z <= |s|
    ensures forall i | 0 <= i < z :: s[i] == 0
    ensures z < |s| ==> s[z] != 0
  {
    if s == [] || s[0] != 0 then 0 else 1 + LeadingZeros(s[1..])
  }

  function Pow256(k: nat): nat {
    if k == 0 then 1 else 256 * Pow256(k - 1)
  }

  lemma {:induction false} ToBeValue(n: nat, k: nat)
    requires n < Pow256(k)
    ensures FromBe(ToBe(n, k)) == n
  {
    if k > 0 {
      assert n / 256 < Pow256(k - 1);
      ToBeValue(n / 256, k - 1);
      var s := ToBe(n, k);
      assert s[..|s| - 1] == ToBe(n / 256, k - 1);
    }
  }

  /** Leading zeros do not count. */
  lemma {:induction false} DropZeros(s: Bytes, z: nat)
    requires z <= |s| && forall i | 0 <= i < z :: s[i] == 0
    ensures FromBe(s[z..]) == FromBe(s)
    decreases |s|
  {
    if s == [] {
      assert s[z..] == s;
    } else {
      var front := s[..|s| - 1];
      if z == |s| {
        DropZeros(front, z - 1);
        assert front[z - 1..] == [] && s[z..] == [];
      } else {
        DropZeros(front, z);
        assert s[z..][..|s[z..]| - 1] == front[z..];
      }
    }
  }

  /** A number below `256^k` is written with at most `k` bytes in one way only, up to zeros. */
  lemma {:induction false} ToBeOfFromBe(s: Bytes, k: nat)
    requires |s| <= k
    ensures FromBe(s) < Pow256(k)
    ensures ToBe(FromBe(s), k)[k - |s|..] == s
    ensures forall i | 0 <= i < k - |s| :: ToBe(FromBe(s), k)[i] == 0
    decreases k
  {
    if k > 0 {
      if s == [] {
        ToBeOfFromBe([], k - 1);
      } else {
        var front, last := s[..|s| - 1], s[|s| - 1];
        ToBeOfFromBe(front, k - 1);
        assert FromBe(s) / 256 == FromBe(front) && FromBe(s) % 256 == last;
        assert s == front + [last];
      }
    }
  }

  // ---------- wrapping ----------

  lemma EightBytes()
    ensures Pow256(8) == TWO_64
  {
  }

  /** The length octets: one byte up to 0x7f, else a count and the number without zeros. */
  function LengthBytes(len: u64): (r: Bytes)
    ensures r != []
  {
    if len <= 0x7f then [len]
    else
      var size := ToBe(len, 8);
      var zeros := LeadingZeros(size);
      [0x80 + 8 - zeros] + size[zeros..]
  }

  function Wrap(tag: byte, content: Bytes): Bytes
    requires |content| < TWO_64
  {
    [tag] + LengthBytes(|content|) + content
  }

  /** The content in two parts, built up by appending; lengths are machine words. */
  method Asn1Wrap(tag: byte, a: Bytes, b: Bytes) returns (ret: Bytes)
    requires |a| + |b| < TWO_64
    ensures ret == Wrap(tag, a + b)
  {
    hide ToBe, LeadingZeros;
    var len := |a| + |b|;
    if len <= 0x7f {
      ret := [tag];
      ret := ret + [len];
      ret := ret + a;
      ret := ret + b;
    } else {
      var size := ToBe(len, 8);
      var leadingZeroBytes := LeadingZeros(size);
      LengthHasByte(len);
      assert leadingZeroBytes < |size|;
      var encodedBytes := |size| - leadingZeroBytes;
      ret := [tag];
      ret := ret + [0x80 + encodedBytes];
      ret := ret + size[leadingZeroBytes..];
      ret := ret + a;
      ret := ret + b;
    }
  }

  /** A length above 0 has a byte that is not zero, so the assertion in the code holds. */
  lemma LengthHasByte(len: u64)
    requires len > 0
    ensures LeadingZeros(ToBe(len, 8)) < 8
  {
    EightBytes();
    var size := ToBe(len, 8);
    var z := LeadingZeros(size);
    ToBeValue(len, 8);
    DropZeros(size, z);
    assert FromBe([]) == 0;
    assert size[z..] != [];
  }

  method WrapInSequence(bytes: Bytes) returns (ret: Bytes)
    requires |bytes| < TWO_64
    ensures ret == Wrap(DER_SEQUENCE_TAG, bytes)
  {
    ret := Asn1Wrap(DER_SEQUENCE_TAG, bytes, []);
    assert bytes + [] == bytes;
  }

  /** The content of a bit string starts with the count of unused bits, here 0. */
  method WrapInBitString(bytes: Bytes) returns (ret: Bytes)
    requires |bytes| + 1 < TWO_64
    ensures ret == Wrap(DER_BIT_STRING_TAG, [0] + bytes)
  {
    ret := Asn1Wrap(DER_BIT_STRING_TAG, [0], bytes);
  }

  // ---------- the reference decoder ----------

  /** A definite length in its shortest form, and what follows it. */
  function ReadLength(s: Bytes): Option<(nat, Bytes)> {
    if s == [] then None
    else if s[0] < 0x80 then Some((s[0], s[1..]))
    else
      var k := s[0] - 0x80;
      if k == 0 || k == 0x7f || |s| < 1 + k || s[1] == 0 || FromBe(s[1..1 + k]) <= 0x7f then None
      else Some((FromBe(s[1..1 + k]), s[1 + k..]))
  }

  /** One tag, length and content, and what follows. */
  function ReadTlv(s: Bytes): Option<(byte, Bytes, Bytes)> {
    if s == [] then None
    else match ReadLength(s[1..])
      case None => None
      case Some((n, rest)) => if |rest| < n then None else Some((s[0], rest[..n], rest[n..]))
  }

  lemma ReadLengthBytes(len: u64, rest: Bytes)
    ensures ReadLength(LengthBytes(len) + rest) == Some((len, rest))
  {
    var s := LengthBytes(len) + rest;
    if len > 0x7f {
      EightBytes();
      LengthHasByte(len);
      var size := ToBe(len, 8);
      var z := LeadingZeros(size);
      ToBeValue(len, 8);
      DropZeros(size, z);
      var k := 8 - z;
      assert s[0] == 0x80 + k && s[1] == size[z];
      assert s[1..1 + k] == size[z..] && s[1 + k..] == rest;
    } else {
      assert s[1..] == rest;
    }
  }

  /** The decoder gives back exactly the content and whatever follows. */
  lemma ReadWrap(tag: byte, content: Bytes, rest: Bytes)
    requires |content| < TWO_64
    ensures ReadTlv(Wrap(tag, content) + rest) == Some((tag, content, rest))
  {
    hide LengthBytes, ReadLength;
    var s := Wrap(tag, content) + rest;
    assert s[0] == tag && s[1..] == LengthBytes(|content|) + (content + rest);
    ReadLengthBytes(|content|, content + rest);
    assert (content + rest)[..|content|] == content && (content + rest)[|content|..] == rest;
  }

  lemma LengthIsCanonical(s: Bytes)
    requires ReadLength(s).Some? && ReadLength(s).value.0 < TWO_64
    ensures s == LengthBytes(ReadLength(s).value.0) + ReadLength(s).value.1
  {
    if s[0] >= 0x80 {
      var k := s[0] - 0x80;
      var digits := s[1..1 + k];
      var n := FromBe(digits);
      EightBytes();
      AtMostEight(digits);
      ToBeOfFromBe(digits, 8);
      var size := ToBe(n, 8);
      LeadingZerosIs(size, 8 - k);
      assert size[8 - k..] == digits;
      assert s == [s[0]] + digits + s[1 + k..];
    }
  }

  lemma LeadingZerosIs(s: Bytes, z: nat)
    requires z < |s| && (forall i | 0 <= i < z :: s[i] == 0) && s[z] != 0
    ensures LeadingZeros(s) == z
  {
  }

  lemma {:induction false} Pow256Grows(j: nat, k: nat)
    requires j <= k
    ensures Pow256(j) <= Pow256(k)
  {
    if j < k {
      Pow256Grows(j, k - 1);
    }
  }

  /** A number that starts with a byte other than 0 is at least `256` to its other bytes. */
  lemma {:induction false} FromBeAtLeast(s: Bytes)
    requires s != [] && s[0] != 0
    ensures FromBe(s) >= Pow256(|s| - 1)
  {
    if |s| > 1 {
      FromBeAtLeast(s[..|s| - 1]);
    }
  }

  lemma AtMostEight(digits: Bytes)
    requires digits != [] && digits[0] != 0 && FromBe(digits) < TWO_64
    ensures |digits| <= 8
  {
    EightBytes();
    FromBeAtLeast(digits);
    if |digits| > 8 {
      Pow256Grows(8, |digits| - 1);
    }
  }

  /** Whatever the decoder accepts is the encoding of what it returns: there is one encoding. */
  lemma WrapRead(s: Bytes)
    requires ReadTlv(s).Some? && |ReadTlv(s).value.1| < TWO_64
    ensures var (tag, content, rest) := ReadTlv(s).value; s == Wrap(tag, content) + rest
  {
    hide LengthBytes, ReadLength;
    var (tag, content, rest) := ReadTlv(s).value;
    LengthIsCanonical(s[1..]);
    var after := ReadLength(s[1..]).value.1;
    assert after == content + rest;
    assert s == [s[0]] + s[1..];
  }

  /** Wraps nest: unwrapping the outer one and then the inner one gives back the content. */
  lemma NestedWraps(outer: byte, inner: byte, content: Bytes, after: Bytes, rest: Bytes)
    requires |content| < TWO_64 && |Wrap(inner, content) + after| < TWO_64
    ensures ReadTlv(Wrap(outer, Wrap(inner, content) + after) + rest)
            == Some((outer, Wrap(inner, content) + after, rest))
    ensures ReadTlv(Wrap(inner, content) + after) == Some((inner, content, after))
  {
    hide Wrap, ReadTlv;
    ReadWrap(outer, Wrap(inner, content) + after, rest);
    ReadWrap(inner, content, after);
  }
}
