/** The vsock stream: its receive queue, and its credit towards the peer. */
module Vsock {
  import opened Words
  import opened ByteQueues

  const VSOCK_BUF_ALLOC: u32 := 0x40000

  // ---------- credit ----------

  /** What both sides know about one direction: `sent` and `consumed` are the true totals,
      `reported` is the consumed count the sender last heard of, `room` the peer's buffer. */
  datatype Credit = Credit(sent: nat, consumed: nat, reported: nat, room: nat)

  datatype Event =
    | Sent(n: nat)
    | Consumed(k: nat)
    | Reported(fwdCnt: nat, bufAlloc: u32)

  /** The free space of the peer as the sender computes it: with saturating differences, from
      counters of 32 bits. */
  function PeerFreeSpace(c: Credit): nat {
    SaturatingSub(c.room, SaturatingSub(c.sent % TWO_32, c.reported % TWO_32))
  }

  /** The sender keeps to the free space it computes, and the peer reads only what was sent; it
      may report anything. */
  predicate Allowed(c: Credit, e: Event) {
    match e
    case Sent(n) => n <= PeerFreeSpace(c)
    case Consumed(k) => c.consumed + k <= c.sent
    case Reported(_, _) => true
  }

  /** The peer reports a count it had reached, however late, and a buffer that holds at least
      what it has not read. */
  predicate Honest(c: Credit, e: Event) {
    e.Reported? ==> e.fwdCnt <= c.consumed && c.sent - c.consumed <= e.bufAlloc
  }

  function Next(c: Credit, e: Event): Credit {
    match e
    case Sent(n) => c.(sent := c.sent + n)
    case Consumed(k) => c.(consumed := c.consumed + k)
    case Reported(f, room) => c.(reported := f, room := room)
  }

  predicate Ordered(c: Credit) {
    c.reported <= c.consumed <= c.sent
  }

  /** The peer's buffer is not overrun. */
  predicate Kept(c: Credit) {
    Ordered(c) && c.sent - c.consumed <= c.room
  }

  /** The count sent and the count last reported have wrapped around equally often. */
  predicate InStep(c: Credit) {
    c.sent / TWO_32 == c.reported / TWO_32
  }

  /** The room left for what is not known to be read. */
  function TrueFreeSpace(c: Credit): nat
    requires Ordered(c)
  {
    SaturatingSub(c.room, c.sent - c.reported)
  }

  /** The computed free space is never too small. It is the true one exactly while the counters
      are in step, or if even the difference of the wrapped counters fills the buffer. */
  lemma FreeSpaceExactly(c: Credit)
    requires Ordered(c) && c.room < TWO_32
    ensures PeerFreeSpace(c) >= TrueFreeSpace(c)
    ensures PeerFreeSpace(c) == TrueFreeSpace(c) <==>
            InStep(c) || c.room <= SaturatingSub(c.sent % TWO_32, c.reported % TWO_32)
  {
    var a, b := c.sent / TWO_32, c.reported / TWO_32;
    assert c.sent == a * TWO_32 + c.sent % TWO_32 && c.reported == b * TWO_32 + c.reported % TWO_32;
    if !InStep(c) {
      assert a >= b + 1;
      assert a * TWO_32 >= (b + 1) * TWO_32;
    }
  }

  lemma NextKept(c: Credit, e: Event)
    requires Allowed(c, e)
    ensures c.consumed <= c.sent ==> Next(c, e).consumed <= Next(c, e).sent
    ensures Ordered(c) && Honest(c, e) ==> Ordered(Next(c, e))
    ensures Kept(c) && Honest(c, e) && (e.Sent? ==> InStep(c)) ==> Kept(Next(c, e))
  {
    if Kept(c) && e.Sent? && InStep(c) {
      assert c.sent - c.reported == c.sent % TWO_32 - c.reported % TWO_32;
    }
  }

  function After(c: Credit, events: seq<Event>): Credit {
    if events == [] then c else Next(After(c, events[..|events| - 1]), events[|events| - 1])
  }

  ghost predicate AllAllowed(c: Credit, events: seq<Event>) {
    forall i | 0 <= i < |events| :: Allowed(After(c, events[..i]), events[i])
  }

  /** The peer was honest all along. */
  ghost predicate AllHonest(c: Credit, events: seq<Event>) {
    forall i | 0 <= i < |events| :: Honest(After(c, events[..i]), events[i])
  }

  /** Whenever something was sent the counters were in step. */
  ghost predicate AllInStep(c: Credit, events: seq<Event>) {
    forall i | 0 <= i < |events| && events[i].Sent? :: InStep(After(c, events[..i]))
  }

  lemma Prefixes(c: Credit, events: seq<Event>, i: nat)
    requires i <= |events|
    ensures AllAllowed(c, events) ==> AllAllowed(c, events[..i])
    ensures AllHonest(c, events) ==> AllHonest(c, events[..i])
    ensures AllInStep(c, events) ==> AllInStep(c, events[..i])
  {
    hide After, Allowed, Honest, InStep;
    assert forall k | 0 <= k < i :: events[..i][..k] == events[..k];
  }

  /** The peer has read no more than was sent; if it was honest, it reported no more than it
      has read. */
  lemma {:induction false} RunOrdered(room: nat, events: seq<Event>)
    requires AllAllowed(Credit(0, 0, 0, room), events)
    ensures After(Credit(0, 0, 0, room), events).consumed <= After(Credit(0, 0, 0, room), events).sent
    ensures AllHonest(Credit(0, 0, 0, room), events) ==> Ordered(After(Credit(0, 0, 0, room), events))
    decreases |events|
  {
    if events != [] {
      var c, n := Credit(0, 0, 0, room), |events| - 1;
      Prefixes(c, events, n);
      RunOrdered(room, events[..n]);
      NextKept(After(c, events[..n]), events[n]);
    }
  }

  /** In every state of every run that sends in step an honest peer holds no more unread bytes
      than its buffer has. */
  lemma {:induction false} RunKept(room: nat, events: seq<Event>)
    requires AllAllowed(Credit(0, 0, 0, room), events)
    requires AllHonest(Credit(0, 0, 0, room), events) && AllInStep(Credit(0, 0, 0, room), events)
    ensures Kept(After(Credit(0, 0, 0, room), events))
    decreases |events|
  {
    if events != [] {
      var c, n := Credit(0, 0, 0, room), |events| - 1;
      Prefixes(c, events, n);
      RunKept(room, events[..n]);
      NextKept(After(c, events[..n]), events[n]);
    }
  }

  lemma {:induction false} SentGrows(c: Credit, events: seq<Event>, i: nat)
    requires i <= |events|
    ensures After(c, events[..i]).sent <= After(c, events).sent
    decreases |events|
  {
    if i < |events| {
      SentGrows(c, events[..|events| - 1], i);
      assert events[..|events| - 1][..i] == events[..i];
    } else {
      assert events[..i] == events;
    }
  }

  /** A run of fewer than 2^32 bytes towards an honest peer sends in step. */
  lemma BelowWrapInStep(room: nat, events: seq<Event>)
    requires AllAllowed(Credit(0, 0, 0, room), events) && AllHonest(Credit(0, 0, 0, room), events)
    requires After(Credit(0, 0, 0, room), events).sent < TWO_32
    ensures AllInStep(Credit(0, 0, 0, room), events)
  {
    hide After, AllAllowed, AllHonest, InStep;
    var c := Credit(0, 0, 0, room);
    forall i | 0 <= i < |events| && events[i].Sent?
      ensures InStep(After(c, events[..i]))
    {
      SentGrows(c, events, i);
      Prefixes(c, events, i);
      RunOrdered(room, events[..i]);
      SmallInStep(After(c, events[..i]));
    }
  }

  lemma SmallInStep(c: Credit)
    requires Ordered(c) && c.sent < TWO_32
    ensures InStep(c)
  {
  }

  lemma WrapAdds(a: nat, n: nat)
    ensures (a % TWO_32 + n) % TWO_32 == (a + n) % TWO_32
  {
  }

  lemma AllowedOne(c: Credit, events: seq<Event>, e: Event)
    requires AllAllowed(c, events) && Allowed(After(c, events), e)
    ensures AllAllowed(c, events + [e])
    ensures AllHonest(c, events + [e]) <==> AllHonest(c, events) && Honest(After(c, events), e)
    ensures After(c, events + [e]) == Next(After(c, events), e)
  {
    hide Allowed, Honest;
    var more := events + [e];
    assert more[..|events|] == events;
    assert forall i | 0 <= i < |events| :: more[..i] == events[..i] && more[i] == events[i];
    if AllHonest(c, more) {
      assert Honest(After(c, more[..|events|]), more[|events|]);
      assert forall i | 0 <= i < |events| :: Honest(After(c, more[..i]), more[i]);
    }
  }

  /** `n` times a page is sent, read and reported. */
  ghost function Rounds(n: nat): seq<Event> {
    if n == 0 then [] else Rounds(n - 1) + [Sent(0x1000)] + [Consumed(0x1000)] + [Reported(n * 0x1000, 0x1000)]
  }

  lemma {:induction false} RoundsReach(n: nat)
    requires n <= 0xF_FFFF
    ensures var c, total := Credit(0, 0, 0, 0x1000), n * 0x1000;
            AllAllowed(c, Rounds(n)) && AllHonest(c, Rounds(n))
            && After(c, Rounds(n)) == Credit(total, total, total, 0x1000)
  {
    hide AllAllowed, AllHonest, After;
    var c := Credit(0, 0, 0, 0x1000);
    if n == 0 {
      AllowedNone(c);
    } else {
      RoundsReach(n - 1);
      var events := Rounds(n - 1);
      AllowedOne(c, events, Sent(0x1000));
      AllowedOne(c, events + [Sent(0x1000)], Consumed(0x1000));
      AllowedOne(c, events + [Sent(0x1000)] + [Consumed(0x1000)], Reported(n * 0x1000, 0x1000));
    }
  }

  lemma AllowedNone(c: Credit)
    ensures AllAllowed(c, []) && AllHonest(c, []) && After(c, []) == c
  {
  }

  /** A run that keeps to the computed free space and yet overruns an honest peer: once the count
      sent has wrapped around and the one reported has not, a full buffer looks empty. */
  lemma WrapOverruns()
    ensures var c, events := Credit(0, 0, 0, 0x1000), Rounds(0xF_FFFF) + [Sent(0x1000)] + [Sent(0x1000)];
            && AllAllowed(c, events) && AllHonest(c, events)
            && After(c, events).sent - After(c, events).consumed == 0x2000 && After(c, events).room == 0x1000
  {
    hide AllAllowed, AllHonest, After, Rounds;
    var c, events := Credit(0, 0, 0, 0x1000), Rounds(0xF_FFFF);
    RoundsReach(0xF_FFFF);
    AllowedOne(c, events, Sent(0x1000));
    AllowedOne(c, events + [Sent(0x1000)], Sent(0x1000));
  }

  // ---------- the stream ----------

  datatype VsockError = Illegal | Transport

  datatype Op = Shutdown | Reset | Data | CreditUpdate | CreditRequest | Unknown

  /** A packet of the peer; it carries the count `fwdCnt` in 32 bits. */
  datatype Packet = Packet(op: Op, dataLen: u32, fwdCnt: nat, bufAlloc: u32)

  /** The payload that goes with a data packet, cut to the length it announces. */
  function Payload(packet: Packet, payload: Option<Bytes>): Result<Bytes, VsockError> {
    if packet.dataLen == 0 then Ok([])
    else if payload.None? then Err(Transport)
    else if packet.dataLen > |payload.value| then Err(Illegal)
    else Ok(payload.value[..packet.dataLen])
  }

  class VsockStream {
    var established: bool
    var dataQueue: seq<Bytes>
    var txCnt: u32
    var rxCnt: u32
    var lastFwdCnt: u32
    var peerFwdCnt: u32
    var peerBufAlloc: u32
    const maxPacket: nat
    /** The peer's buffer at first, the events of this stream, and the bytes handed to the
        transport. */
    ghost var room: nat
    ghost var events: seq<Event>
    ghost var wire: Bytes

    ghost function State(): Credit
      reads this`room, this`events
    {
      After(Credit(0, 0, 0, room), events)
    }

    ghost predicate Valid()
      reads this
    {
      && maxPacket > 0
      && AllAllowed(Credit(0, 0, 0, room), events)
      && txCnt == State().sent % TWO_32 && peerFwdCnt == State().reported % TWO_32
      && peerBufAlloc == State().room
    }

    /** A stream just connected to a peer that has consumed nothing. */
    constructor (peerBufAlloc: u32, maxPacket: nat)
      requires maxPacket > 0
      ensures Valid() && established && events == [] && wire == [] && dataQueue == [] && room == peerBufAlloc
    {
      established, this.maxPacket := true, maxPacket;
      dataQueue, txCnt, rxCnt, lastFwdCnt, peerFwdCnt, this.peerBufAlloc := [], 0, 0, 0, 0, peerBufAlloc;
      room, events, wire := peerBufAlloc, [], [];
    }

    function FreeSpace(): nat
      reads this
    {
      SaturatingSub(peerBufAlloc, SaturatingSub(txCnt, peerFwdCnt))
    }

    /** The room the stream has left for the peer, since it last reported. */
    function OwnFreeSpace(rx: u32): nat
      reads this
    {
      SaturatingSub(VSOCK_BUF_ALLOC, SaturatingSub(rx, lastFwdCnt))
    }

    ghost predicate HonestPeer()
      reads this`room, this`events
    {
      AllHonest(Credit(0, 0, 0, room), events)
    }

    /** The bytes sent and not yet read fit the buffer of an honest peer, below 2^32 bytes in
        all. */
    lemma WithinCredit()
      requires Valid()
      ensures State().consumed <= State().sent
      ensures HonestPeer() && AllInStep(Credit(0, 0, 0, room), events) ==> Kept(State())
      ensures HonestPeer() && State().sent < TWO_32 ==> Kept(State())
    {
      hide AllAllowed, AllInStep, AllHonest;
      RunOrdered(room, events);
      if HonestPeer() {
        if State().sent < TWO_32 {
          BelowWrapInStep(room, events);
        }
        if AllInStep(Credit(0, 0, 0, room), events) {
          RunKept(room, events);
        }
      }
    }

    /** The peer reads some of the bytes sent. */
    ghost method PeerReads()
      requires Valid()
      modifies this`events
      ensures Valid() && old(events) <= events && State().sent == old(State()).sent
    {
      hide AllAllowed, After, AllHonest;
      RunOrdered(room, events);
      var k: nat :| State().consumed + k <= State().sent;
      AllowedOne(Credit(0, 0, 0, room), events, Consumed(k));
      events := events + [Consumed(k)];
    }

    /** A data packet is accepted exactly if its payload is there, and the peer can be told
        when it would run out of room; then the payload joins the queue. */
    method RecvData(packet: Packet, payload: Option<Bytes>, sends: bool) returns (r: Result<(), VsockError>)
      modifies this`dataQueue, this`rxCnt, this`lastFwdCnt
      ensures var data := Payload(packet, payload);
              var rx := (old(rxCnt) + packet.dataLen) % TWO_32;
              && rxCnt == (if data.Ok? then rx else old(rxCnt))
              && (r.Ok? <==> data.Ok? && (packet.dataLen == 0 || old(OwnFreeSpace(rx)) >= maxPacket || sends))
              && Flat(dataQueue) == old(Flat(dataQueue)) + (if r.Ok? then data.value else [])
    {
      hide Flat;
      if packet.dataLen == 0 {
        return Ok(());
      }
      if payload.None? {
        return Err(Transport);
      }
      if packet.dataLen > |payload.value| {
        return Err(Illegal);
      }
      rxCnt := (rxCnt + packet.dataLen) % TWO_32;
      if OwnFreeSpace(rxCnt) < maxPacket {
        lastFwdCnt := rxCnt;
        if !sends {
          return Err(Transport);
        }
      }
      var data := payload.value[..packet.dataLen];
      FlatAppends(dataQueue, [data]);
      FlatOne(data);
      dataQueue := dataQueue + [data];
      r := Ok(());
    }

    /** A packet arrives, and its count and buffer size are taken over; `payload` is what the
        transport delivers next, `sends` whether it takes an answer. */
    method RecvPacketConnected(packet: Option<Packet>, payload: Option<Bytes>, sends: bool)
      returns (r: Result<(), VsockError>)
      requires Valid()
      modifies this`peerFwdCnt, this`peerBufAlloc, this`events
      modifies this`established, this`dataQueue, this`rxCnt, this`lastFwdCnt
      ensures Valid()
      ensures events == old(events) + (if packet.Some? then [Reported(packet.value.fwdCnt, packet.value.bufAlloc)]
                                      else [])
      ensures State().sent == old(State()).sent && State().consumed == old(State()).consumed
      ensures packet.None? ==> r == Err(Transport)
      ensures packet.Some? ==>
                match packet.value.op
                case Data =>
                  var rx := (old(rxCnt) + packet.value.dataLen) % TWO_32;
                  r.Ok? <==> Payload(packet.value, payload).Ok?
                             && (packet.value.dataLen == 0 || old(OwnFreeSpace(rx)) >= maxPacket || sends)
                case CreditUpdate => r == Ok(())
                case CreditRequest => r.Ok? <==> sends
                case Shutdown => r.Ok? <==> old(established) && sends && payload.Some?
                case Reset => r == Err(if old(established) || payload.Some? then Illegal else Transport)
                case Unknown => r == Err(Illegal)
      ensures Flat(dataQueue) == old(Flat(dataQueue))
                                 + (if packet.Some? && packet.value.op.Data? && r.Ok?
                                    then Payload(packet.value, payload).value else [])
      ensures established == (old(established) && !(packet.Some? && packet.value.op.Shutdown? && sends))
    {
      hide AllAllowed, AllHonest, After, Flat, Payload;
      if packet.None? {
        return Err(Transport);
      }
      var f := packet.value.fwdCnt;
      AllowedOne(Credit(0, 0, 0, room), events, Reported(f, packet.value.bufAlloc));
      events := events + [Reported(f, packet.value.bufAlloc)];
      peerFwdCnt, peerBufAlloc := f % TWO_32, packet.value.bufAlloc;
      match packet.value.op {
        case Data =>
          r := RecvData(packet.value, payload, sends);
        case CreditUpdate =>
          r := Ok(());
        case CreditRequest =>
          lastFwdCnt := rxCnt;
          r := if sends then Ok(()) else Err(Transport);
        case Shutdown =>
          if !established {
            return Err(Illegal);
          }
          lastFwdCnt := rxCnt;
          if !sends {
            return Err(Transport);
          }
          established := false;
          r := if payload.Some? then Ok(()) else Err(Transport);
        case Reset =>
          r := Err(if established || payload.Some? then Illegal else Transport);
        case Unknown =>
          r := Err(Illegal);
      }
    }

    /** The transport takes at least one byte of what it is given, or fails. */
    method Enqueue(data: Bytes) returns (r: Result<nat, VsockError>)
      requires data != []
      modifies this`wire, this`lastFwdCnt
      ensures r.Ok? ==> 1 <= r.value <= |data| && wire == old(wire) + data[..r.value]
      ensures r.Err? ==> r.error == Transport && wire == old(wire)
    {
      lastFwdCnt := rxCnt;
      var broken: bool := *;
      if broken {
        return Err(Transport);
      }
      var n :| 1 <= n <= |data|;
      wire := wire + data[..n];
      r := Ok(n);
    }

    /** Waits until the peer has room; gives up when a receive fails or after `patience` packets. */
    method AwaitSpace() returns (r: Result<(), VsockError>)
      requires Valid()
      modifies this`peerFwdCnt, this`peerBufAlloc, this`events
      modifies this`established, this`dataQueue, this`rxCnt, this`lastFwdCnt
      ensures Valid() && old(events) <= events && State().sent == old(State()).sent
      ensures r.Ok? ==> FreeSpace() > 0
      ensures old(Flat(dataQueue)) <= Flat(dataQueue)
    {
      hide AllAllowed, AllHonest, After, Flat, Payload;
      var patience: nat :| true;
      while FreeSpace() == 0
        invariant Valid() && old(events) <= events && State().sent == old(State()).sent
        invariant old(Flat(dataQueue)) <= Flat(dataQueue)
        decreases patience
      {
        if patience == 0 {
          return Err(Transport);
        }
        patience := patience - 1;
        PeerReads();
        var packet: Option<Packet> := *;
        var payload: Option<Bytes> := *;
        var sends: bool := *;
        r := RecvPacketConnected(packet, payload, sends);
        if r.Err? {
          return;
        }
      }
      r := Ok(());
    }

    /** One packet of the rest of `buf`. */
    method SendPacket(buf: Bytes, bytesSent: nat) returns (n: Result<nat, VsockError>)
      requires Valid() && FreeSpace() > 0 && bytesSent < |buf|
      modifies this`txCnt, this`events, this`wire, this`lastFwdCnt
      ensures Valid() && old(events) <= events
      ensures n.Ok? ==> 1 <= n.value <= |buf| - bytesSent && State().sent == old(State()).sent + n.value
                        && wire == old(wire) + buf[bytesSent..bytesSent + n.value]
      ensures n.Err? ==> State().sent == old(State()).sent && wire == old(wire)
    {
      hide AllAllowed, AllHonest, After;
      var chunk := Min(Min(|buf| - bytesSent, maxPacket), FreeSpace());
      n := Enqueue(buf[bytesSent..bytesSent + chunk]);
      if n.Err? {
        return;
      }
      WrapAdds(State().sent, n.value);
      AllowedOne(Credit(0, 0, 0, room), events, Sent(n.value));
      assert buf[bytesSent..bytesSent + chunk][..n.value] == buf[bytesSent..bytesSent + n.value];
      events, txCnt := events + [Sent(n.value)], (txCnt + n.value) % TWO_32;
    }

    /** Sends all of `buf` in packets that fit the free space as computed; what goes out, even
        if the transport fails on the way, is a prefix, and it is what is counted. */
    method Send(buf: Bytes) returns (r: Result<nat, VsockError>)
      requires Valid()
      modifies this`txCnt, this`peerFwdCnt, this`peerBufAlloc, this`events, this`wire
      modifies this`established, this`dataQueue, this`rxCnt, this`lastFwdCnt
      ensures Valid() && old(events) <= events && old(Flat(dataQueue)) <= Flat(dataQueue)
      ensures !old(established) ==> r == Err(Illegal) && unchanged(this)
      ensures r.Ok? ==> old(established) && r.value == |buf| && wire == old(wire) + buf
                        && State().sent == old(State()).sent + |buf|
      ensures exists n | 0 <= n <= |buf| :: wire == old(wire) + buf[..n] && State().sent == old(State()).sent + n
      ensures HonestPeer() && State().sent < TWO_32 ==> Kept(State())
    {
      hide AllAllowed, AllHonest, AllInStep, After, Flat;
      assert buf[..0] == [];
      WithinCredit();
      if !established {
        return Err(Illegal);
      }
      var bytesSent := 0;
      while bytesSent < |buf|
        invariant Valid() && old(events) <= events && old(Flat(dataQueue)) <= Flat(dataQueue)
        invariant 0 <= bytesSent <= |buf|
        invariant wire == old(wire) + buf[..bytesSent] && State().sent == old(State()).sent + bytesSent
        invariant HonestPeer() && State().sent < TWO_32 ==> Kept(State())
      {
        var ready := AwaitSpace();
        WithinCredit();
        if ready.Err? {
          return Err(ready.error);
        }
        var n := SendPacket(buf, bytesSent);
        WithinCredit();
        if n.Err? {
          return Err(n.error);
        }
        bytesSent := bytesSent + n.value;
      }
      assert buf[..bytesSent] == buf;
      r := Ok(|buf|);
    }

    /** Moves bytes from the receive queue to `buf`, as many as fit or as there are. */
    method Drain(buf: array<byte>) returns (used: nat)
      modifies buf, this`dataQueue
      ensures used == Min(buf.Length, |old(Flat(dataQueue))|)
      ensures buf[..used] == old(Flat(dataQueue))[..used] && buf[used..] == old(buf[used..])
      ensures Flat(dataQueue) == old(Flat(dataQueue))[used..]
    {
      hide Flat;
      ghost var was, before := Flat(dataQueue), buf[..];
      used := 0;
      NothingMoved(was, before, []);
      while dataQueue != [] && used < buf.Length
        invariant used <= buf.Length == |before| && used <= |was|
        invariant Moved(was, before, [], used, Flat(dataQueue), buf[..], was[..used])
        decreases |dataQueue| + buf.Length - used
      {
        ghost var queue, now := Flat(dataQueue), buf[..];
        var n := DrainHead(buf, used);
        MovedMore(was, before, [], used, n, queue, now, was[..used]);
        assert buf[..] == now[..used] + queue[..n] + now[used + n..];
        assert [] + was[..used + n] == was[..used + n];
        used := used + n;
      }
      FlatNone();
      MovedAll(was, before, [], used, Flat(dataQueue), buf[..], was[..used]);
    }

    /** One turn of the draining loop. */
    method DrainHead(buf: array<byte>, used: nat) returns (n: nat)
      requires dataQueue != [] && used < buf.Length
      modifies buf, this`dataQueue
      ensures n <= |old(Flat(dataQueue))| && used + n <= buf.Length
      ensures buf[..] == old(buf[..used]) + old(Flat(dataQueue))[..n] + old(buf[used + n..])
      ensures Flat(dataQueue) == old(Flat(dataQueue))[n..]
      ensures |dataQueue| < old(|dataQueue|) || (|dataQueue| == old(|dataQueue|) && n > 0)
    {
      var head, free := dataQueue[0], buf.Length - used;
      if |head| <= free {
        CopyInto(buf, used, head);
        n := |head|;
        dataQueue := dataQueue[1..];
      } else {
        CopyInto(buf, used, head[..free]);
        n := free;
        ghost var rest := dataQueue[1..];
        dataQueue := dataQueue[0 := head[free..]];
        assert dataQueue[1..] == rest;
      }
    }
  }
}
