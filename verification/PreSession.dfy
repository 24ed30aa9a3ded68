/** Two endpoints exchanging pre-session data over a pair of byte channels. */
module PreSession {
  import opened Words
  import opened PeerData

  /** What one side brings: its version range, and its peer-data blob if it could build one. */
  datatype Config = Config(lowest: u16, highest: u16, blob: Option<Bytes>)

  /** Where one side is in `pre_session_data_exchange`. */
  datatype Phase =
    | SendHelloHeader
    | SendHelloPayload
    | RecvHelloHeader
    | RecvHelloPayload
    | SendDataHeader(version: u16)
    | SendDataPayload(version: u16)
    | RecvDataHeader(version: u16)
    | RecvDataPayload(version: u16)
    | SendStart(version: u16, peer: Bytes)
    | RecvStart(version: u16, peer: Bytes)

  datatype MigrationError = NetworkError | InvalidParameter

  /** One side: in a send loop with `pending` bytes to go, in a receive loop that has
      `got` of the `need` bytes, or finished. */
  datatype Endpoint =
    | Sending(phase: Phase, pending: Bytes)
    | Receiving(phase: Phase, need: nat, got: Bytes)
    | Done(version: u16, peer: Bytes)
    | Failed(error: MigrationError)

  function Start(): Endpoint {
    Sending(SendHelloHeader, Header(HELLO_PACKET_TYPE, HELLO_PACKET_PAYLOAD_SIZE))
  }

  /** The loop the endpoint is in has run to its end. */
  predicate Complete(e: Endpoint) {
    || (e.Sending? && e.pending == [])
    || (e.Receiving? && |e.got| == e.need)
  }

  /** What the endpoint does after the hello of the other side arrived. */
  function AfterHello(me: Config, payload: Bytes): Endpoint
    requires |payload| == HELLO_PACKET_PAYLOAD_SIZE
  {
    match ReadHello(payload)
    case None => Failed(InvalidParameter)
    case Some((lo, hi)) => AfterVersions(me, lo, hi)
  }

  function AfterVersions(me: Config, lo: u16, hi: u16): Endpoint {
    match Negotiate(me.lowest, me.highest, lo, hi)
    case None => Failed(InvalidParameter)
    case Some(v) => AfterAgreement(me, v)
  }

  function AfterAgreement(me: Config, v: u16): Endpoint {
    if me.blob.None? then Failed(InvalidParameter)
    else Sending(SendDataHeader(v), Header(PRE_SESSION_DATA_TYPE, |me.blob.value|))
  }

  /** What it does after the blob of the other side arrived. */
  function AfterData(version: u16, blob: Bytes): Endpoint {
    match DecodePeerData(blob)
    case None => Failed(InvalidParameter)
    case Some((policy, chain)) =>
      if policy == [] || chain == [] then Failed(InvalidParameter)
      else Sending(SendStart(version, blob), Header(START_SESSION_TYPE, 0))
  }

  /** The statement after a send loop. */
  function AfterSend(me: Config, phase: Phase): Endpoint {
    match phase
    case SendHelloHeader => Sending(SendHelloPayload, HelloPayload(me.lowest, me.highest))
    case SendHelloPayload => Receiving(RecvHelloHeader, HEADER_SIZE, [])
    case SendDataHeader(v) => Sending(SendDataPayload(v), if me.blob.Some? then me.blob.value else [])
    case SendDataPayload(v) => Receiving(RecvDataHeader(v), HEADER_SIZE, [])
    case SendStart(v, p) => Receiving(RecvStart(v, p), HEADER_SIZE, [])
    case _ => Failed(InvalidParameter)
  }

  /** The statement after a receive loop. */
  function AfterReceive(me: Config, phase: Phase, got: Bytes): Endpoint {
    match phase
    case RecvHelloHeader =>
      if |got| != HEADER_SIZE || HeaderKind(got) != HELLO_PACKET_TYPE
         || HeaderLength(got) != HELLO_PACKET_PAYLOAD_SIZE then Failed(InvalidParameter)
      else Receiving(RecvHelloPayload, HELLO_PACKET_PAYLOAD_SIZE, [])
    case RecvHelloPayload =>
      if |got| != HELLO_PACKET_PAYLOAD_SIZE then Failed(InvalidParameter) else AfterHello(me, got)
    case RecvDataHeader(v) =>
      if |got| != HEADER_SIZE || HeaderKind(got) != PRE_SESSION_DATA_TYPE then Failed(InvalidParameter)
      else Receiving(RecvDataPayload(v), HeaderLength(got), [])
    case RecvDataPayload(v) => AfterData(v, got)
    case RecvStart(v, p) =>
      if |got| != HEADER_SIZE || HeaderKind(got) != START_SESSION_TYPE || HeaderLength(got) != 0
      then Failed(InvalidParameter)
      else Done(v, p)
    case _ => Failed(InvalidParameter)
  }

  function Proceed(me: Config, e: Endpoint): Endpoint
    requires Complete(e)
  {
    if e.Sending? then AfterSend(me, e.phase) else AfterReceive(me, e.phase, e.got)
  }

  /** Phases still ahead of an endpoint. */
  function Ahead(e: Endpoint): nat {
    match e
    case Sending(ph, _) =>
      (match ph
       case SendHelloHeader => 10
       case SendHelloPayload => 9
       case SendDataHeader(_) => 6
       case SendDataPayload(_) => 5
       case _ => 2)
    case Receiving(ph, _, _) =>
      (match ph
       case RecvHelloHeader => 8
       case RecvHelloPayload => 7
       case RecvDataHeader(_) => 4
       case RecvDataPayload(_) => 3
       case _ => 1)
    case _ => 0
  }

  lemma ContinueAdvances(me: Config, e: Endpoint)
    requires Complete(e)
    ensures Ahead(Proceed(me, e)) < Ahead(e)
  {
  }

  /** Where an endpoint gets to on its own once `input` has arrived. */
  function Drive(me: Config, e: Endpoint, input: Bytes): Endpoint
    decreases Ahead(e)
  {
    match e
    case Sending(ph, _) =>
      ContinueAdvances(me, Sending(ph, []));
      Drive(me, AfterSend(me, ph), input)
    case Receiving(ph, need, got) =>
      if |got| + |input| < need then Receiving(ph, need, got + input)
      else if need < |got| then e
      else
        var n := need - |got|;
        ContinueAdvances(me, Receiving(ph, need, got + input[..n]));
        Drive(me, AfterReceive(me, ph, got + input[..n]), input[n..])
    case _ => e
  }

  /** It makes no difference in how many pieces the input arrives. */
  lemma {:induction false} DriveInPieces(me: Config, e: Endpoint, x: Bytes, y: Bytes)
    ensures Drive(me, Drive(me, e, x), y) == Drive(me, e, x + y)
    decreases Ahead(e)
  {
    hide AfterSend, AfterReceive;
    match e {
      case Sending(ph, _) =>
        ContinueAdvances(me, Sending(ph, []));
        DriveInPieces(me, AfterSend(me, ph), x, y);
      case Receiving(ph, need, got) =>
        if |got| + |x| < need {
          assert got + x + y == got + (x + y);
          if need <= |got| + |x| + |y| {
            var n := need - |got|;
            assert (got + x) + y[..n - |x|] == got + (x + y)[..n];
            assert y[n - |x|..] == (x + y)[n..];
          }
        } else if |got| <= need {
          var n := need - |got|;
          ContinueAdvances(me, Receiving(ph, need, got + x[..n]));
          assert (x + y)[..n] == x[..n] && (x + y)[n..] == x[n..] + y;
          DriveInPieces(me, AfterReceive(me, ph, got + x[..n]), x[n..], y);
        }
      case _ =>
    }
  }

  // ---------- the two sides together ----------

  /** Two endpoints and the bytes on their way in each direction. */
  datatype System = System(a: Endpoint, b: Endpoint, ab: Bytes, ba: Bytes)

  function Swap(s: System): System {
    System(s.b, s.a, s.ba, s.ab)
  }

  /** One turn: some bytes written, some bytes read, or the step after a finished loop. */
  datatype Turn = Write(n: nat) | Read(n: nat) | Continue

  datatype Move = A(turn: Turn) | B(turn: Turn)

  /** A write moves at least one byte, a read at least one byte that has arrived; a read
      with nothing there has to wait. */
  predicate CanTurn(s: System, t: Turn) {
    match t
    case Write(n) => s.a.Sending? && 1 <= n <= |s.a.pending|
    case Read(n) => s.a.Receiving? && 1 <= n <= |s.ba| && n + |s.a.got| <= s.a.need
    case Continue => Complete(s.a)
  }

  function TurnA(me: Config, s: System, t: Turn): System
    requires CanTurn(s, t)
  {
    match t
    case Write(n) => s.(a := Sending(s.a.phase, s.a.pending[n..]), ab := s.ab + s.a.pending[..n])
    case Read(n) => s.(a := Receiving(s.a.phase, s.a.need, s.a.got + s.ba[..n]), ba := s.ba[n..])
    case Continue => s.(a := Proceed(me, s.a))
  }

  predicate CanMove(s: System, m: Move) {
    match m
    case A(t) => CanTurn(s, t)
    case B(t) => CanTurn(Swap(s), t)
  }

  function Step(ca: Config, cb: Config, s: System, m: Move): System
    requires CanMove(s, m)
  {
    match m
    case A(t) => TurnA(ca, s, t)
    case B(t) => Swap(TurnA(cb, Swap(s), t))
  }

  function Initial(): System {
    System(Start(), Start(), [], [])
  }

  /** The states of a run under the moves `ms`, each possible where it is taken. */
  ghost predicate IsRun(ca: Config, cb: Config, ss: seq<System>, ms: seq<Move>) {
    && |ss| == |ms| + 1
    && ss[0] == Initial()
    && forall i | 0 <= i < |ms| :: CanMove(ss[i], ms[i]) && ss[i + 1] == Step(ca, cb, ss[i], ms[i])
  }

  // ---------- what holds in every state ----------

  /** The two sides can agree: a common version, and blobs whose parts are not empty and
      whose length fits in the header. */
  ghost predicate Compatible(ca: Config, cb: Config) {
    && Negotiate(ca.lowest, ca.highest, cb.lowest, cb.highest).Some?
    && GoodBlob(ca) && GoodBlob(cb)
  }

  ghost predicate GoodBlob(c: Config) {
    && c.blob.Some?
    && |c.blob.value| < TWO_32
    && DecodePeerData(c.blob.value).Some?
    && DecodePeerData(c.blob.value).value.0 != []
    && DecodePeerData(c.blob.value).value.1 != []
  }

  /** The five units one side sends, in order. */
  function Unit(c: Config, i: nat): Bytes
    requires c.blob.Some? && i < 5
  {
    match i
    case 0 => Header(HELLO_PACKET_TYPE, HELLO_PACKET_PAYLOAD_SIZE)
    case 1 => HelloPayload(c.lowest, c.highest)
    case 2 => Header(PRE_SESSION_DATA_TYPE, |c.blob.value|)
    case 3 => c.blob.value
    case _ => Header(START_SESSION_TYPE, 0)
  }

  /** How many bytes the first `i` units have. */
  function Offset(c: Config, i: nat): (n: nat)
    requires c.blob.Some? && i <= 5
  {
    if i == 0 then 0 else Offset(c, i - 1) + |Unit(c, i - 1)|
  }

  /** Everything one side sends. */
  function Script(c: Config): Bytes
    requires c.blob.Some?
  {
    Unit(c, 0) + Unit(c, 1) + Unit(c, 2) + Unit(c, 3) + Unit(c, 4)
  }

  lemma ScriptUnit(c: Config, i: nat)
    requires c.blob.Some? && i < 5
    ensures Offset(c, i) + |Unit(c, i)| == Offset(c, i + 1) <= Offset(c, 5) == |Script(c)|
    ensures Script(c)[Offset(c, i)..Offset(c, i + 1)] == Unit(c, i)
  {
    hide Header, HelloPayload;
    assert Offset(c, 1) == 8 && Offset(c, 2) == 16 && Offset(c, 3) == 24;
    assert Offset(c, 4) == 24 + |c.blob.value| && Offset(c, 5) == 32 + |c.blob.value|;
  }

  predicate IsSend(ph: Phase) {
    ph.SendHelloHeader? || ph.SendHelloPayload? || ph.SendDataHeader? || ph.SendDataPayload? || ph.SendStart?
  }

  /** The unit a phase sends or receives. */
  function UnitOf(ph: Phase): (i: nat)
    ensures i < 5
  {
    match ph
    case SendHelloHeader => 0
    case SendHelloPayload => 1
    case RecvHelloHeader => 0
    case RecvHelloPayload => 1
    case SendDataHeader(_) => 2
    case SendDataPayload(_) => 3
    case RecvDataHeader(_) => 2
    case RecvDataPayload(_) => 3
    case SendStart(_, _) => 4
    case RecvStart(_, _) => 4
  }

  /** How many units of the other direction are through when a phase is reached: a side
      sends each message before it waits for the same message of the other side. */
  function Crossed(ph: Phase): (i: nat)
    ensures i <= 5
    ensures IsSend(ph) ==> i <= UnitOf(ph)
    ensures !IsSend(ph) ==> i > UnitOf(ph)
  {
    match ph
    case SendHelloHeader => 0
    case SendHelloPayload => 0
    case RecvHelloHeader => 2
    case RecvHelloPayload => 2
    case SendDataHeader(_) => 2
    case SendDataPayload(_) => 2
    case RecvDataHeader(_) => 4
    case RecvDataPayload(_) => 4
    case SendStart(_, _) => 4
    case RecvStart(_, _) => 5
  }

  /** How many bytes an endpoint has written. */
  function SentLen(me: Config, e: Endpoint): int
    requires me.blob.Some?
  {
    match e
    case Sending(ph, pending) => Offset(me, UnitOf(ph) + 1) - |pending|
    case Receiving(ph, _, _) => Offset(me, Crossed(ph))
    case _ => Offset(me, 5)
  }

  /** How many bytes an endpoint has read. */
  function RecvLen(peer: Config, e: Endpoint): int
    requires peer.blob.Some?
  {
    match e
    case Sending(ph, _) => Offset(peer, Crossed(ph))
    case Receiving(ph, _, got) => Offset(peer, UnitOf(ph)) + |got|
    case _ => Offset(peer, 5)
  }

  function Agreed(me: Config, peer: Config): u16
    requires Negotiate(me.lowest, me.highest, peer.lowest, peer.highest).Some?
  {
    Negotiate(me.lowest, me.highest, peer.lowest, peer.highest).value
  }

  /** What a phase remembers is right. */
  ghost predicate Remembers(me: Config, peer: Config, ph: Phase)
    requires Compatible(me, peer)
  {
    match ph
    case SendDataHeader(v) => v == Agreed(me, peer)
    case SendDataPayload(v) => v == Agreed(me, peer)
    case RecvDataHeader(v) => v == Agreed(me, peer)
    case RecvDataPayload(v) => v == Agreed(me, peer)
    case SendStart(v, p) => v == Agreed(me, peer) && p == peer.blob.value
    case RecvStart(v, p) => v == Agreed(me, peer) && p == peer.blob.value
    case _ => true
  }

  /** One side is where its script and the other side's script put it. */
  ghost predicate Local(me: Config, peer: Config, e: Endpoint)
    requires Compatible(me, peer)
  {
    match e
    case Sending(ph, pending) =>
      && IsSend(ph) && Remembers(me, peer, ph)
      && |pending| <= |Unit(me, UnitOf(ph))|
      && pending == Unit(me, UnitOf(ph))[|Unit(me, UnitOf(ph))| - |pending|..]
    case Receiving(ph, need, got) =>
      && !IsSend(ph) && Remembers(me, peer, ph)
      && |got| <= need == |Unit(peer, UnitOf(ph))|
      && got == Unit(peer, UnitOf(ph))[..|got|]
    case Done(v, p) => v == Agreed(me, peer) && p == peer.blob.value
    case Failed(_) => false
  }

  /** A channel holds what its writer wrote and its reader has not read. */
  ghost predicate Carries(writer: Config, w: Endpoint, r: Endpoint, channel: Bytes)
    requires writer.blob.Some?
  {
    && 0 <= RecvLen(writer, r) <= SentLen(writer, w) <= |Script(writer)|
    && channel == Script(writer)[RecvLen(writer, r)..SentLen(writer, w)]
  }

  ghost predicate Inv(ca: Config, cb: Config, s: System)
    requires Compatible(ca, cb) && Compatible(cb, ca)
  {
    && Local(ca, cb, s.a) && Local(cb, ca, s.b)
    && Carries(ca, s.a, s.b, s.ab)
    && Carries(cb, s.b, s.a, s.ba)
  }

  lemma CompatibleBothWays(ca: Config, cb: Config)
    requires Compatible(ca, cb)
    ensures Compatible(cb, ca) && Agreed(ca, cb) == Agreed(cb, ca)
  {
  }

  lemma InvSwaps(ca: Config, cb: Config, s: System)
    requires Compatible(ca, cb) && Compatible(cb, ca)
    ensures Inv(ca, cb, s) <==> Inv(cb, ca, Swap(s))
  {
  }

  lemma {:induction false} OffsetsGrow(c: Config, i: nat, j: nat)
    requires c.blob.Some? && i <= j <= 5
    ensures Offset(c, i) <= Offset(c, j)
    decreases j - i
  {
    hide Unit;
    if i < j {
      OffsetsGrow(c, i + 1, j);
    }
  }

  lemma InitialInv(ca: Config, cb: Config)
    requires Compatible(ca, cb) && Compatible(cb, ca)
    ensures Inv(ca, cb, Initial())
  {
  }

  /** A piece of a unit is a piece of the script. */
  lemma PieceOfUnit(c: Config, i: nat, from: nat, to: nat)
    requires c.blob.Some? && i < 5 && from <= to <= |Unit(c, i)|
    ensures Offset(c, i) + to <= |Script(c)|
    ensures Script(c)[Offset(c, i) + from..Offset(c, i) + to] == Unit(c, i)[from..to]
  {
    hide Unit, Script, Offset;
    ScriptUnit(c, i);
    SliceOfSlice(Script(c), Offset(c, i), Offset(c, i + 1), from, to);
  }

  lemma SliceOfSlice(s: Bytes, a: nat, b: nat, from: nat, to: nat)
    requires a <= b <= |s| && from <= to <= b - a
    ensures s[a..b][from..to] == s[a + from..a + to]
  {
    var x, y := s[a..b][from..to], s[a + from..a + to];
    forall k | 0 <= k < |x|
      ensures x[k] == y[k]
    {
      assert x[k] == s[a..b][from + k] == s[a + (from + k)];
    }
  }

  lemma WriteKeepsInv(ca: Config, cb: Config, s: System, n: nat)
    requires Compatible(ca, cb) && Compatible(cb, ca) && Inv(ca, cb, s)
    requires CanTurn(s, Write(n))
    ensures Inv(ca, cb, TurnA(ca, s, Write(n)))
    ensures SentLen(ca, TurnA(ca, s, Write(n)).a) == SentLen(ca, s.a) + n
  {
    hide Unit, Script, Offset;
    var u, pending := UnitOf(s.a.phase), s.a.pending;
    ScriptUnit(ca, u);
    var at := |Unit(ca, u)| - |pending|;
    PieceOfUnit(ca, u, at, at + n);
    assert pending[..n] == Unit(ca, u)[at..at + n];
    assert pending[n..] == Unit(ca, u)[at + n..];
    var sent := SentLen(ca, s.a);
    assert s.ab + pending[..n] == Script(ca)[RecvLen(ca, s.b)..sent + n];
  }

  lemma ReadKeepsInv(ca: Config, cb: Config, s: System, n: nat)
    requires Compatible(ca, cb) && Compatible(cb, ca) && Inv(ca, cb, s)
    requires CanTurn(s, Read(n))
    ensures Inv(ca, cb, TurnA(ca, s, Read(n)))
    ensures RecvLen(cb, TurnA(ca, s, Read(n)).a) == RecvLen(cb, s.a) + n
  {
    hide Unit, Script, Offset;
    var u, got := UnitOf(s.a.phase), s.a.got;
    PieceOfUnit(cb, u, |got|, |got| + n);
    var recvd := RecvLen(cb, s.a);
    assert s.ba[..n] == Script(cb)[recvd..recvd + n];
    assert got + s.ba[..n] == Unit(cb, u)[..|got| + n];
    assert s.ba[n..] == Script(cb)[recvd + n..SentLen(cb, s.b)];
  }

  /** After a send loop the endpoint starts the next unit, or turns to receiving. */
  lemma AfterSendLocal(me: Config, peer: Config, ph: Phase)
    requires Compatible(me, peer) && IsSend(ph) && Remembers(me, peer, ph)
    ensures Local(me, peer, AfterSend(me, ph))
    ensures SentLen(me, AfterSend(me, ph)) == SentLen(me, Sending(ph, []))
    ensures RecvLen(peer, AfterSend(me, ph)) == RecvLen(peer, Sending(ph, []))
  {
    hide Header, HelloPayload;
    var e := AfterSend(me, ph);
    if e.Sending? {
      assert e.pending == Unit(me, UnitOf(e.phase));
    } else {
      assert |Unit(peer, UnitOf(e.phase))| == HEADER_SIZE;
    }
  }

  /** After a receive loop the endpoint accepts what the other side's script sent it. */
  lemma AfterReceiveLocal(me: Config, peer: Config, ph: Phase)
    requires Compatible(me, peer) && !IsSend(ph) && Remembers(me, peer, ph)
    ensures var got := Unit(peer, UnitOf(ph));
            var e := AfterReceive(me, ph, got);
            && Local(me, peer, e)
            && SentLen(me, e) == SentLen(me, Receiving(ph, |got|, got))
            && RecvLen(peer, e) == RecvLen(peer, Receiving(ph, |got|, got))
  {
    hide Header, HelloPayload, ReadHello, HeaderKind, HeaderLength, DecodePeerData;
    match ph {
      case RecvHelloHeader => HeaderRoundTrip(HELLO_PACKET_TYPE, HELLO_PACKET_PAYLOAD_SIZE);
      case RecvHelloPayload => HelloRoundTrip(peer.lowest, peer.highest);
      case RecvDataHeader(_) => HeaderRoundTrip(PRE_SESSION_DATA_TYPE, |peer.blob.value|);
      case RecvDataPayload(_) =>
      case RecvStart(_, _) => HeaderRoundTrip(START_SESSION_TYPE, 0);
      case _ =>
    }
  }

  lemma ContinueKeepsInv(ca: Config, cb: Config, s: System)
    requires Compatible(ca, cb) && Compatible(cb, ca) && Inv(ca, cb, s)
    requires CanTurn(s, Continue)
    ensures Inv(ca, cb, TurnA(ca, s, Continue))
    ensures SentLen(ca, TurnA(ca, s, Continue).a) == SentLen(ca, s.a)
    ensures RecvLen(cb, TurnA(ca, s, Continue).a) == RecvLen(cb, s.a)
  {
    hide Unit, Script, Offset, AfterSend, AfterReceive;
    if s.a.Sending? {
      AfterSendLocal(ca, cb, s.a.phase);
    } else {
      assert s.a.got == Unit(cb, UnitOf(s.a.phase));
      AfterReceiveLocal(ca, cb, s.a.phase);
    }
  }

  /** Bytes not yet written and not yet read by one side, and its phases ahead. */
  function Left(me: Config, peer: Config, e: Endpoint): int
    requires me.blob.Some? && peer.blob.Some?
  {
    |Script(me)| - SentLen(me, e) + |Script(peer)| - RecvLen(peer, e) + Ahead(e)
  }

  function Measure(ca: Config, cb: Config, s: System): int
    requires ca.blob.Some? && cb.blob.Some?
  {
    Left(ca, cb, s.a) + Left(cb, ca, s.b)
  }

  lemma TurnKeepsInv(ca: Config, cb: Config, s: System, t: Turn)
    requires Compatible(ca, cb) && Compatible(cb, ca) && Inv(ca, cb, s)
    requires CanTurn(s, t)
    ensures Inv(ca, cb, TurnA(ca, s, t))
    ensures Measure(ca, cb, TurnA(ca, s, t)) < Measure(ca, cb, s)
  {
    hide Unit, Script, Offset, Carries, Proceed;
    match t {
      case Write(n) => WriteKeepsInv(ca, cb, s, n);
      case Read(n) => ReadKeepsInv(ca, cb, s, n);
      case Continue =>
        ContinueKeepsInv(ca, cb, s);
        ContinueAdvances(ca, s.a);
    }
  }

  /** Every move of either side keeps the invariant and uses up some of what is left. */
  lemma StepKeepsInv(ca: Config, cb: Config, s: System, m: Move)
    requires Compatible(ca, cb) && Compatible(cb, ca) && Inv(ca, cb, s)
    requires CanMove(s, m)
    ensures Inv(ca, cb, Step(ca, cb, s, m))
    ensures Measure(ca, cb, Step(ca, cb, s, m)) < Measure(ca, cb, s)
  {
    hide Inv, Left, CanTurn, TurnA, Compatible;
    match m {
      case A(t) => TurnKeepsInv(ca, cb, s, t);
      case B(t) =>
        InvSwaps(ca, cb, s);
        TurnKeepsInv(cb, ca, Swap(s), t);
        InvSwaps(ca, cb, Step(ca, cb, s, m));
    }
  }

  /** A waiting endpoint that finds its channel empty is ahead of the other side: it has
      sent a message the other side has not answered. */
  lemma WaiterIsAhead(ca: Config, cb: Config, s: System)
    requires Compatible(ca, cb) && Compatible(cb, ca) && Inv(ca, cb, s)
    requires s.a.Receiving? && s.ba == [] && |s.a.got| < s.a.need
    ensures SentLen(cb, s.b) < Offset(cb, UnitOf(s.a.phase) + 1)
  {
    hide Unit, Script, Offset;
    ScriptUnit(cb, UnitOf(s.a.phase));
  }

  /** Some side can always move, until both are done. */
  lemma NoDeadlock(ca: Config, cb: Config, s: System)
    requires Compatible(ca, cb) && Compatible(cb, ca) && Inv(ca, cb, s)
    requires !(s.a.Done? && s.b.Done?)
    ensures exists m :: CanMove(s, m)
  {
    if Blocked(s) && Blocked(Swap(s)) {
      InvSwaps(ca, cb, s);
      NotBothBlocked(ca, cb, s);
      assert false;
    } else if !Blocked(s) {
      var t := Unblocked(ca, cb, s);
      assert CanMove(s, A(t));
    } else {
      InvSwaps(ca, cb, s);
      var t := Unblocked(cb, ca, Swap(s));
      assert CanMove(s, B(t));
    }
  }

  /** Side A has nothing to do: it is done, or waits on an empty channel. */
  predicate Blocked(s: System) {
    s.a.Done? || (s.a.Receiving? && s.ba == [] && |s.a.got| < s.a.need)
  }

  lemma Unblocked(ca: Config, cb: Config, s: System) returns (t: Turn)
    requires Compatible(ca, cb) && Compatible(cb, ca) && Inv(ca, cb, s)
    requires !Blocked(s)
    ensures CanTurn(s, t)
  {
    if Complete(s.a) {
      t := Continue;
    } else if s.a.Sending? {
      t := Write(1);
    } else {
      t := Read(1);
    }
  }

  lemma NotBothBlocked(ca: Config, cb: Config, s: System)
    requires Compatible(ca, cb) && Compatible(cb, ca) && Inv(ca, cb, s) && Inv(cb, ca, Swap(s))
    requires !(s.a.Done? && s.b.Done?)
    ensures !(Blocked(s) && Blocked(Swap(s)))
  {
    hide Unit, Script, Offset, Carries;
    if Blocked(s) && Blocked(Swap(s)) {
      if s.a.Receiving? {
        WaiterIsAhead(ca, cb, s);
        SentAtLeast(cb, s.b, UnitOf(s.a.phase));
      }
      if s.b.Receiving? {
        WaiterIsAhead(cb, ca, Swap(s));
        SentAtLeast(ca, s.a, UnitOf(s.b.phase));
      }
    }
  }

  /** A side that waits for unit `UnitOf` has sent all its own units up to it. */
  lemma SentAtLeast(me: Config, e: Endpoint, i: nat)
    requires me.blob.Some? && i < 5
    requires e.Done? || e.Receiving?
    requires SentLen(me, e) < Offset(me, i + 1)
    ensures e.Receiving? && Crossed(e.phase) < i + 1
  {
    hide Unit;
    if e.Receiving? && Crossed(e.phase) >= i + 1 {
      OffsetsGrow(me, i + 1, Crossed(e.phase));
    }
    OffsetsGrow(me, i + 1, 5);
  }

  /** Both sides done, with the same version and each with exactly the other side's blob,
      and nothing left on the way. */
  ghost predicate Exchanged(ca: Config, cb: Config, s: System)
    requires Compatible(ca, cb)
  {
    s == System(Done(Agreed(ca, cb), cb.blob.value), Done(Agreed(ca, cb), ca.blob.value), [], [])
  }

  lemma DoneIsExchanged(ca: Config, cb: Config, s: System)
    requires Compatible(ca, cb) && Compatible(cb, ca) && Inv(ca, cb, s)
    requires s.a.Done? && s.b.Done?
    ensures Exchanged(ca, cb, s)
  {
    hide Script, Unit;
    CompatibleBothWays(ca, cb);
  }

  /** An invariant state has something left. */
  lemma MeasureIsNat(ca: Config, cb: Config, s: System)
    requires Compatible(ca, cb) && Compatible(cb, ca) && Inv(ca, cb, s)
    ensures Measure(ca, cb, s) >= 0
  {
    hide Script, Unit, Offset, Local;
  }

  lemma {:induction false} RunKeepsInv(ca: Config, cb: Config, ss: seq<System>, ms: seq<Move>)
    requires Compatible(ca, cb) && Compatible(cb, ca) && IsRun(ca, cb, ss, ms)
    ensures Inv(ca, cb, ss[|ms|])
    ensures Measure(ca, cb, ss[|ms|]) + |ms| <= Measure(ca, cb, Initial())
    decreases |ms|
  {
    hide Inv, Measure, CanMove, Step, Compatible;
    if ms == [] {
      InitialInv(ca, cb);
    } else {
      var n := |ms| - 1;
      assert CanMove(ss[n], ms[n]) && ss[n + 1] == Step(ca, cb, ss[n], ms[n]);
      RunKeepsInv(ca, cb, ss[..|ms|], ms[..n]);
      StepKeepsInv(ca, cb, ss[n], ms[n]);
    }
  }

  /** However the bytes are split and the two sides interleaved: no side ever fails, some
      side can move until both are done, no run goes on for ever, and a run that cannot go on
      has exchanged version and blobs. */
  lemma ExchangeSucceeds(ca: Config, cb: Config, ss: seq<System>, ms: seq<Move>)
    requires Compatible(ca, cb) && IsRun(ca, cb, ss, ms)
    ensures !ss[|ms|].a.Failed? && !ss[|ms|].b.Failed?
    ensures (exists m :: CanMove(ss[|ms|], m)) || Exchanged(ca, cb, ss[|ms|])
    ensures |ms| <= Measure(ca, cb, Initial())
  {
    hide CanMove, Step, Negotiate, GoodBlob, Exchanged, Measure, Unit, Script, Carries;
    CompatibleBothWays(ca, cb);
    RunKeepsInv(ca, cb, ss, ms);
    var s := ss[|ms|];
    MeasureIsNat(ca, cb, s);
    if s.a.Done? && s.b.Done? {
      DoneIsExchanged(ca, cb, s);
    } else {
      NoDeadlock(ca, cb, s);
    }
  }

  /** What a side ends with depends only on the bytes that reach it: none of its own turns
      changes where the bytes already on their way will take it. */
  lemma TurnKeepsDrive(me: Config, s: System, t: Turn)
    requires CanTurn(s, t)
    ensures var s' := TurnA(me, s, t); Drive(me, s'.a, s'.ba) == Drive(me, s.a, s.ba)
  {
    hide AfterSend, AfterReceive;
    match t {
      case Write(n) =>
      case Read(n) =>
        assert s.a.got + s.ba[..n] + s.ba[n..] == s.a.got + s.ba;
        if s.a.need <= |s.a.got| + |s.ba| {
          var k := s.a.need - |s.a.got|;
          assert (s.a.got + s.ba[..n]) + s.ba[n..][..k - n] == s.a.got + s.ba[..k];
          assert s.ba[n..][k - n..] == s.ba[k..];
        }
      case Continue =>
        if s.a.Receiving? {
          assert s.a.got + s.ba[..0] == s.a.got && s.ba[0..] == s.ba;
        }
    }
  }

  /** Endpoints built from non-empty policies and issuer chains, with overlapping version
      ranges and blobs that fit the header, are compatible. */
  lemma EncodedIsCompatible(ca: Config, cb: Config, pa: Bytes, ia: Bytes, pb: Bytes, ib: Bytes)
    requires ca.blob == EncodePeerData(pa, ia) && cb.blob == EncodePeerData(pb, ib)
    requires pa != [] && ia != [] && pb != [] && ib != []
    requires |pa| + |ia| + 8 < TWO_32 && |pb| + |ib| + 8 < TWO_32
    requires Max(ca.lowest, cb.lowest) <= Min(ca.highest, cb.highest)
    ensures Compatible(ca, cb)
  {
    hide DecodePeerData;
    DecodeEncode(pa, ia);
    DecodeEncode(pb, ib);
  }

  lemma RunExtends(ca: Config, cb: Config, ss: seq<System>, ms: seq<Move>, m: Move)
    requires IsRun(ca, cb, ss, ms) && CanMove(ss[|ms|], m)
    ensures IsRun(ca, cb, ss + [Step(ca, cb, ss[|ms|], m)], ms + [m])
  {
    hide CanMove, Step;
    var ss', ms' := ss + [Step(ca, cb, ss[|ms|], m)], ms + [m];
    forall i | 0 <= i < |ms'|
      ensures CanMove(ss'[i], ms'[i]) && ss'[i + 1] == Step(ca, cb, ss'[i], ms'[i])
    {
      if i < |ms| {
        assert ss'[i] == ss[i] && ss'[i + 1] == ss[i + 1] && ms'[i] == ms[i];
      }
    }
  }

  /** Every run can be completed to one that has exchanged version and blobs. */
  lemma {:induction false} RunCompletes(ca: Config, cb: Config, ss: seq<System>, ms: seq<Move>)
    returns (ss': seq<System>, ms': seq<Move>)
    requires Compatible(ca, cb) && IsRun(ca, cb, ss, ms)
    ensures ms <= ms' && IsRun(ca, cb, ss', ms') && Exchanged(ca, cb, ss'[|ms'|])
    decreases Measure(ca, cb, ss[|ms|])
  {
    hide CanMove, Step, Compatible, Exchanged, Measure, Inv;
    CompatibleBothWays(ca, cb);
    RunKeepsInv(ca, cb, ss, ms);
    var s := ss[|ms|];
    if s.a.Done? && s.b.Done? {
      DoneIsExchanged(ca, cb, s);
      ss', ms' := ss, ms;
    } else {
      NoDeadlock(ca, cb, s);
      var m :| CanMove(s, m);
      StepKeepsInv(ca, cb, s, m);
      RunExtends(ca, cb, ss, ms, m);
      MeasureIsNat(ca, cb, s);
      MeasureIsNat(ca, cb, Step(ca, cb, s, m));
      ss', ms' := RunCompletes(ca, cb, ss + [Step(ca, cb, s, m)], ms + [m]);
    }
  }
}
