/** The peer-data blob and the framing of pre-session messages. */
module PeerData {
  import opened Words

  type Bytes = seq<byte>

  /** `[u32 LE policy_len][policy][u32 LE chain_len][issuer_chain]`, unless a length does
      not fit in a word. */
  function EncodePeerData(policy: Bytes, chain: Bytes): (r: Option<Bytes>)
    ensures r.Some? <==> |policy| < TWO_32 && |chain| < TWO_32
    ensures r.Some? ==> |r.value| == 8 + |policy| + |chain|
  {
    if |policy| < TWO_32 && |chain| < TWO_32
    then Some(Bytes32(|policy|) + policy + Bytes32(|chain|) + chain)
    else None
  }

  /** The word stored at offset `at`. */
  function WordAt(data: Bytes, at: nat): u32
    requires at + 4 <= |data|
  {
    Bytes32Unique(data[at], data[at + 1], data[at + 2], data[at + 3]);
    Le32(data[at], data[at + 1], data[at + 2], data[at + 3])
  }

  function DecodePeerData(data: Bytes): Option<(Bytes, Bytes)> {
    if |data| < 4 then None
    else
      var policyLen := WordAt(data, 0);
      var chainLenOffset := 4 + policyLen;
      if |data| < chainLenOffset + 4 then None
      else
        var chainLen := WordAt(data, chainLenOffset);
        var chainOffset := chainLenOffset + 4;
        var end := chainOffset + chainLen;
        if |data| != end then None
        else Some((data[4..chainLenOffset], data[chainOffset..end]))
  }

  lemma WordAtSplit(before: Bytes, x: u32, after: Bytes)
    ensures WordAt(before + Bytes32(x) + after, |before|) == x
  {
  }

  /** Decoding an encoding returns the pair. */
  lemma DecodeEncode(policy: Bytes, chain: Bytes)
    requires EncodePeerData(policy, chain).Some?
    ensures DecodePeerData(EncodePeerData(policy, chain).value) == Some((policy, chain))
  {
    hide Bytes32, WordAt;
    var data := EncodePeerData(policy, chain).value;
    var lp, lc := Bytes32(|policy|), Bytes32(|chain|);
    assert data == [] + lp + (policy + lc + chain);
    WordAtSplit([], |policy|, policy + lc + chain);
    assert WordAt(data, 0) == |policy|;
    assert data == (lp + policy) + lc + chain;
    WordAtSplit(lp + policy, |chain|, chain);
    assert WordAt(data, 4 + |policy|) == |chain|;
    assert data[4..4 + |policy|] == policy;
    assert data[8 + |policy|..8 + |policy| + |chain|] == chain;
  }

  lemma BytesOfWordAt(data: Bytes, at: nat)
    requires at + 4 <= |data|
    ensures Bytes32(WordAt(data, at)) == data[at..at + 4]
  {
    Bytes32Unique(data[at], data[at + 1], data[at + 2], data[at + 3]);
  }

  /** A blob that decodes is the encoding of what it decodes to, byte for byte. */
  lemma EncodeDecode(data: Bytes)
    requires DecodePeerData(data).Some?
    ensures EncodePeerData(DecodePeerData(data).value.0, DecodePeerData(data).value.1) == Some(data)
  {
    hide Bytes32, WordAt;
    var pc := DecodePeerData(data).value;
    var at := 4 + |pc.0|;
    BytesOfWordAt(data, 0);
    BytesOfWordAt(data, at);
    assert WordAt(data, 0) == |pc.0| && WordAt(data, at) == |pc.1|;
    assert pc.0 == data[4..at] && pc.1 == data[at + 4..];
    assert data == data[0..4] + data[4..at] + data[at..at + 4] + data[at + 4..];
  }

  // ---------- framing ----------

  const PRE_SESSION_DATA_TYPE: byte := 1
  const START_SESSION_TYPE: byte := 2
  const HELLO_PACKET_TYPE: byte := 0xff
  const HEADER_SIZE: nat := 8
  const HELLO_PACKET_PAYLOAD_SIZE: nat := 8

  /** The ASCII letters MGTD. */
  const MAGIC: Bytes := [0x4d, 0x47, 0x54, 0x44]

  /** A message header; the length is cut to 32 bits, as the cast in the source does. */
  function Header(kind: byte, length: nat): (h: Bytes)
    ensures |h| == HEADER_SIZE
  {
    [kind, 0, 0, 0] + Bytes32(length % 0x1_0000_0000)
  }

  function HeaderKind(h: Bytes): byte
    requires |h| == HEADER_SIZE
  {
    h[0]
  }

  function HeaderLength(h: Bytes): u32
    requires |h| == HEADER_SIZE
  {
    WordAt(h, 4)
  }

  /** A header tells the length of its payload exactly when that fits in a word. */
  lemma HeaderRoundTrip(kind: byte, length: nat)
    ensures HeaderKind(Header(kind, length)) == kind
    ensures HeaderLength(Header(kind, length)) == length <==> length < TWO_32
  {
  }

  function HelloPayload(lowest: u16, highest: u16): (p: Bytes)
    ensures |p| == HELLO_PACKET_PAYLOAD_SIZE
  {
    MAGIC + Bytes16(lowest) + Bytes16(highest)
  }

  /** The version range of a hello payload with the right magic word. */
  function ReadHello(p: Bytes): Option<(u16, u16)>
    requires |p| == HELLO_PACKET_PAYLOAD_SIZE
  {
    if p[..4] != MAGIC then None else Some((Le16(p[4], p[5]), Le16(p[6], p[7])))
  }

  lemma HelloRoundTrip(lowest: u16, highest: u16)
    ensures ReadHello(HelloPayload(lowest, highest)) == Some((lowest, highest))
  {
  }

  /** The version one side settles on, knowing its own range and the other's. */
  function Negotiate(lo: u16, hi: u16, peerLo: u16, peerHi: u16): Option<u16> {
    var low := Max(lo, peerLo);
    var high := Min(hi, peerHi);
    if low > high then None else Some(high)
  }

  predicate Supports(lo: u16, hi: u16, v: u16) {
    lo <= v <= hi
  }

  /** Both sides settle on the same version: the greatest one in both ranges, if any. */
  lemma NegotiationAgrees(lo: u16, hi: u16, peerLo: u16, peerHi: u16)
    ensures Negotiate(lo, hi, peerLo, peerHi) == Negotiate(peerLo, peerHi, lo, hi)
    ensures Negotiate(lo, hi, peerLo, peerHi).None?
            <==> !exists v :: Supports(lo, hi, v) && Supports(peerLo, peerHi, v)
    ensures forall v | Negotiate(lo, hi, peerLo, peerHi) == Some(v) ::
              && Supports(lo, hi, v) && Supports(peerLo, peerHi, v)
              && forall w | Supports(lo, hi, w) && Supports(peerLo, peerHi, w) :: w <= v
  {
    if Max(lo, peerLo) <= Min(hi, peerHi) {
      assert Supports(lo, hi, Min(hi, peerHi)) && Supports(peerLo, peerHi, Min(hi, peerHi));
    }
  }
}
