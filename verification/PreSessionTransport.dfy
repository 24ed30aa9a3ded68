/** One side of the pre-session exchange, as it runs over a transport with an arbitrary peer. */
module PreSessionTransport {
  import opened Words
  import opened PeerData
  import opened PreSession

  ghost predicate NetworkFails<T>(r: Result<T, MigrationError>) {
    r.Err? && r.error == NetworkError
  }

  /** A reliable byte stream: `sent` is what was written to it, `taken` what was read from it.
      It moves at least one byte or reports an error; `broken` says that it ever did. */
  class Transport {
    ghost var sent: Bytes
    ghost var taken: Bytes
    ghost var broken: bool

    method Write(data: Bytes) returns (r: Result<nat, MigrationError>)
      requires data != []
      modifies this`sent, this`broken
      ensures broken <==> old(broken) || r.Err?
      ensures r.Ok? ==> 1 <= r.value <= |data| && sent == old(sent) + data[..r.value]
      ensures r.Err? ==> r.error == NetworkError && sent == old(sent)
    {
      var fails: bool := *;
      if fails {
        broken := true;
        return Err(NetworkError);
      }
      var n :| 1 <= n <= |data|;
      sent := sent + data[..n];
      r := Ok(n);
    }

    method Read(data: array<byte>, from: nat) returns (r: Result<nat, MigrationError>)
      requires from < data.Length
      modifies this`taken, this`broken, data
      ensures broken <==> old(broken) || r.Err?
      ensures r.Ok? ==> 1 <= r.value <= data.Length - from
      ensures r.Ok? ==> taken == old(taken) + data[from..from + r.value]
      ensures r.Err? ==> r.error == NetworkError && taken == old(taken)
      ensures data[..from] == old(data[..from])
    {
      var fails: bool := *;
      if fails {
        broken := true;
        return Err(NetworkError);
      }
      var n :| 1 <= n <= data.Length - from;
      var i := 0;
      while i < n
        invariant 0 <= i <= n
        invariant data[..from] == old(data[..from]) && taken == old(taken) && broken == old(broken)
      {
        var arrived: byte :| true;
        data[from + i] := arrived;
        i := i + 1;
      }
      taken := taken + data[from..from + n];
      r := Ok(n);
    }
  }

  /** Sends all of `data`; `part` is what went out, even if the transport broke. */
  method SendPreSessionData(t: Transport, data: Bytes)
    returns (r: Result<(), MigrationError>, ghost part: Bytes)
    modifies t`sent, t`broken
    ensures t.broken <==> old(t.broken) || NetworkFails(r)
    ensures t.sent == old(t.sent) + part
    ensures r.Ok? ==> part == data
    ensures r.Err? ==> r.error == NetworkError && part < data
  {
    var sent := 0;
    part := [];
    while sent < |data|
      invariant 0 <= sent <= |data|
      invariant part == data[..sent] && t.sent == old(t.sent) + part && t.broken == old(t.broken)
    {
      var n := t.Write(data[sent..]);
      if n.Err? {
        return Err(n.error), part;
      }
      part := part + data[sent..][..n.value];
      sent := sent + n.value;
    }
    r := Ok(());
  }

  /** Fills all of `data`; `part` is what came in, even if the transport broke. */
  method ReceivePreSessionData(t: Transport, data: array<byte>)
    returns (r: Result<(), MigrationError>, ghost part: Bytes)
    modifies t`taken, t`broken, data
    ensures t.broken <==> old(t.broken) || NetworkFails(r)
    ensures t.taken == old(t.taken) + part
    ensures r.Ok? ==> part == data[..]
    ensures r.Err? ==> r.error == NetworkError && |part| < data.Length
  {
    var recvd := 0;
    part := [];
    while recvd < data.Length
      invariant 0 <= recvd <= data.Length
      invariant part == data[..recvd] && t.taken == old(t.taken) + part && t.broken == old(t.broken)
    {
      var n := t.Read(data, recvd);
      if n.Err? {
        return Err(n.error), part;
      }
      part := part + data[recvd..recvd + n.value];
      recvd := recvd + n.value;
    }
    r := Ok(());
  }

  /** A receive into a fresh buffer of `need` bytes. */
  method ReceiveBuffer(t: Transport, need: nat) returns (r: Result<Bytes, MigrationError>, ghost part: Bytes)
    modifies t`taken, t`broken
    ensures t.broken <==> old(t.broken) || NetworkFails(r)
    ensures t.taken == old(t.taken) + part
    ensures r.Ok? ==> part == r.value && |part| == need
    ensures r.Err? ==> r.error == NetworkError && |part| < need
  {
    var data := new byte[need];
    var got: Result<(), MigrationError>;
    got, part := ReceivePreSessionData(t, data);
    r := if got.Ok? then Ok(data[..]) else Err(got.error);
  }

  /** A receive loop that ended takes the endpoint to the statement after it. */
  lemma DriveReceived(me: Config, ph: Phase, x: Bytes, y: Bytes)
    ensures Drive(me, Receiving(ph, |x|, []), x + y) == Drive(me, AfterReceive(me, ph, x), y)
    ensures Drive(me, Receiving(ph, |x|, []), x) == Drive(me, AfterReceive(me, ph, x), [])
  {
    hide AfterReceive;
    assert [] + (x + y)[..|x|] == x && (x + y)[|x|..] == y;
    assert [] + x[..|x|] == x && x[|x|..] == [];
  }

  lemma DriveShort(me: Config, ph: Phase, need: nat, x: Bytes)
    requires |x| < need
    ensures Drive(me, Receiving(ph, need, []), x).Receiving?
  {
  }

  method SendHelloPacket(me: Config, t: Transport) returns (r: Result<(), MigrationError>, ghost part: Bytes)
    modifies t`sent, t`broken
    ensures t.broken <==> old(t.broken) || NetworkFails(r)
    ensures t.sent == old(t.sent) + part
    ensures r.Ok? ==> part == Header(HELLO_PACKET_TYPE, 8) + HelloPayload(me.lowest, me.highest)
    ensures r.Err? ==> r.error == NetworkError
  {
    hide Header, HelloPayload;
    r, part := SendPreSessionData(t, Header(HELLO_PACKET_TYPE, 8));
    if r.Ok? {
      ghost var rest: Bytes;
      r, rest := SendPreSessionData(t, HelloPayload(me.lowest, me.highest));
      part := part + rest;
    }
  }

  /** What a receiving step reports is where the endpoint is: past the message, failed, or
      still waiting for it. */
  ghost predicate Reports<T>(me: Config, r: Result<T, MigrationError>, e: Endpoint, past: Endpoint) {
    match r
    case Ok(_) => e == Drive(me, past, [])
    case Err(InvalidParameter) => e == Failed(InvalidParameter)
    case Err(NetworkError) => e.Receiving?
  }

  method ReceiveHelloPacket(ghost me: Config, t: Transport)
    returns (r: Result<(u16, u16), MigrationError>, ghost part: Bytes)
    modifies t`taken, t`broken
    ensures t.broken <==> old(t.broken) || NetworkFails(r)
    ensures t.taken == old(t.taken) + part
    ensures Reports(me, r, Drive(me, Receiving(RecvHelloHeader, HEADER_SIZE, []), part),
                    if r.Ok? then AfterVersions(me, r.value.0, r.value.1) else Start())
  {
    hide HeaderKind, HeaderLength, ReadHello, AfterVersions, Header, Drive;
    var h: Result<Bytes, MigrationError>;
    h, part := ReceiveBuffer(t, HEADER_SIZE);
    if h.Err? {
      DriveShort(me, RecvHelloHeader, HEADER_SIZE, part);
      return Err(NetworkError), part;
    }
    if HeaderKind(h.value) != HELLO_PACKET_TYPE || HeaderLength(h.value) != HELLO_PACKET_PAYLOAD_SIZE {
      DriveReceived(me, RecvHelloHeader, h.value, []);
      DriveStops(me, Failed(InvalidParameter), []);
      return Err(InvalidParameter), part;
    }
    var p: Result<Bytes, MigrationError>;
    ghost var rest: Bytes;
    p, rest := ReceiveBuffer(t, HELLO_PACKET_PAYLOAD_SIZE);
    DriveReceived(me, RecvHelloHeader, h.value, rest);
    part := part + rest;
    if p.Err? {
      DriveShort(me, RecvHelloPayload, HELLO_PACKET_PAYLOAD_SIZE, rest);
      return Err(NetworkError), part;
    }
    DriveReceived(me, RecvHelloPayload, p.value, []);
    DriveStops(me, Failed(InvalidParameter), []);
    match ReadHello(p.value) {
      case None => r := Err(InvalidParameter);
      case Some(range) => r := Ok(range);
    }
  }

  /** An endpoint that has failed or is done stays so. */
  lemma DriveStops(me: Config, e: Endpoint, input: Bytes)
    requires e.Failed? || e.Done?
    ensures Drive(me, e, input) == e
  {
  }

  method SendPreSessionDataPacket(blob: Bytes, t: Transport)
    returns (r: Result<(), MigrationError>, ghost part: Bytes)
    modifies t`sent, t`broken
    ensures t.broken <==> old(t.broken) || NetworkFails(r)
    ensures t.sent == old(t.sent) + part
    ensures r.Ok? ==> part == Header(PRE_SESSION_DATA_TYPE, |blob|) + blob
    ensures r.Err? ==> r.error == NetworkError
  {
    hide Header;
    r, part := SendPreSessionData(t, Header(PRE_SESSION_DATA_TYPE, |blob|));
    if r.Ok? {
      ghost var rest: Bytes;
      r, rest := SendPreSessionData(t, blob);
      part := part + rest;
    }
  }

  method ReceivePreSessionDataPacket(ghost me: Config, ghost v: u16, t: Transport)
    returns (r: Result<Bytes, MigrationError>, ghost part: Bytes)
    modifies t`taken, t`broken
    ensures t.broken <==> old(t.broken) || NetworkFails(r)
    ensures t.taken == old(t.taken) + part
    ensures Reports(me, r, Drive(me, Receiving(RecvDataHeader(v), HEADER_SIZE, []), part),
                    if r.Ok? then AfterData(v, r.value) else Start())
  {
    hide HeaderKind, HeaderLength, AfterData, Header, Drive;
    var h: Result<Bytes, MigrationError>;
    h, part := ReceiveBuffer(t, HEADER_SIZE);
    if h.Err? {
      DriveShort(me, RecvDataHeader(v), HEADER_SIZE, part);
      return Err(NetworkError), part;
    }
    if HeaderKind(h.value) != PRE_SESSION_DATA_TYPE {
      DriveReceived(me, RecvDataHeader(v), h.value, []);
      DriveStops(me, Failed(InvalidParameter), []);
      return Err(InvalidParameter), part;
    }
    ghost var rest: Bytes;
    r, rest := ReceiveBuffer(t, HeaderLength(h.value));
    DriveReceived(me, RecvDataHeader(v), h.value, rest);
    part := part + rest;
    if r.Err? {
      DriveShort(me, RecvDataPayload(v), HeaderLength(h.value), rest);
    } else {
      DriveReceived(me, RecvDataPayload(v), r.value, []);
    }
  }

  method ReceiveStartSessionPacket(ghost me: Config, ghost v: u16, ghost p: Bytes, t: Transport)
    returns (r: Result<(), MigrationError>, ghost part: Bytes)
    modifies t`taken, t`broken
    ensures t.broken <==> old(t.broken) || NetworkFails(r)
    ensures t.taken == old(t.taken) + part
    ensures Reports(me, r, Drive(me, Receiving(RecvStart(v, p), HEADER_SIZE, []), part), Done(v, p))
  {
    hide HeaderKind, HeaderLength, Header, Drive;
    var h: Result<Bytes, MigrationError>;
    h, part := ReceiveBuffer(t, HEADER_SIZE);
    if h.Err? {
      DriveShort(me, RecvStart(v, p), HEADER_SIZE, part);
      return Err(NetworkError), part;
    }
    DriveReceived(me, RecvStart(v, p), h.value, []);
    DriveStops(me, Failed(InvalidParameter), []);
    if HeaderKind(h.value) != START_SESSION_TYPE || HeaderLength(h.value) != 0 {
      return Err(InvalidParameter), part;
    }
    r := Ok(());
  }

  /** The send loops take the endpoint to its next receive loop. */
  lemma DriveSends(me: Config, x: Bytes)
    ensures Drive(me, Start(), x) == Drive(me, Receiving(RecvHelloHeader, HEADER_SIZE, []), x)
    ensures forall v, out :: Drive(me, Sending(SendDataHeader(v), out), x)
                             == Drive(me, Receiving(RecvDataHeader(v), HEADER_SIZE, []), x)
    ensures forall v, p, out :: Drive(me, Sending(SendStart(v, p), out), x)
                                == Drive(me, Receiving(RecvStart(v, p), HEADER_SIZE, []), x)
  {
    hide Header, HelloPayload, AfterReceive;
    var e := AfterSend(me, SendHelloHeader);
    assert Drive(me, Start(), x) == Drive(me, e, x) == Drive(me, AfterSend(me, e.phase), x);
    forall v, out
      ensures Drive(me, Sending(SendDataHeader(v), out), x)
              == Drive(me, Receiving(RecvDataHeader(v), HEADER_SIZE, []), x)
    {
      var e := AfterSend(me, SendDataHeader(v));
      assert Drive(me, Sending(SendDataHeader(v), out), x) == Drive(me, e, x)
             == Drive(me, AfterSend(me, e.phase), x);
    }
  }

  lemma DriveThen(me: Config, e0: Endpoint, x: Bytes, e1: Endpoint, y: Bytes)
    requires Drive(me, e0, x) == Drive(me, e1, [])
    ensures Drive(me, e0, x + y) == Drive(me, e1, y)
  {
    hide Drive;
    DriveInPieces(me, e0, x, y);
    DriveInPieces(me, e1, [], y);
    assert [] + y == y;
  }

  method ExchangeHelloPacket(me: Config, t: Transport)
    returns (r: Result<u16, MigrationError>, ghost input: Bytes, ghost out: Bytes)
    modifies t`taken, t`broken, t`sent
    ensures t.broken <==> old(t.broken) || NetworkFails(r)
    ensures t.taken == old(t.taken) + input && t.sent == old(t.sent) + out
    ensures r.Ok? ==> out == Header(HELLO_PACKET_TYPE, 8) + HelloPayload(me.lowest, me.highest)
    ensures Reports(me, r, Drive(me, Start(), input), if r.Ok? then AfterAgreement(me, r.value) else Start())
  {
    hide Header, HelloPayload, Drive, AfterAgreement, Negotiate;
    var done: Result<(), MigrationError>;
    done, out := SendHelloPacket(me, t);
    input := [];
    if done.Err? {
      DriveSends(me, []);
      DriveShort(me, RecvHelloHeader, HEADER_SIZE, []);
      return Err(NetworkError), input, out;
    }
    var range: Result<(u16, u16), MigrationError>;
    range, input := ReceiveHelloPacket(me, t);
    DriveSends(me, input);
    if range.Err? {
      return Err(range.error), input, out;
    }
    DriveStops(me, Failed(InvalidParameter), []);
    match Negotiate(me.lowest, me.highest, range.value.0, range.value.1) {
      case None => r := Err(InvalidParameter);
      case Some(v) => r := Ok(v);
    }
  }

  /** One side of the exchange: it succeeds exactly where the bytes it read take its state
      machine to `Done`, and has then sent its whole script; it rejects its peer where they
      take it to `Failed`; it reports a broken transport while it is still waiting. */
  method PreSessionDataExchange(me: Config, t: Transport)
    returns (r: Result<Bytes, MigrationError>, ghost v: u16, ghost input: Bytes, ghost out: Bytes)
    modifies t`taken, t`broken, t`sent
    ensures t.broken <==> old(t.broken) || NetworkFails(r)
    ensures t.taken == old(t.taken) + input && t.sent == old(t.sent) + out
    ensures r.Ok? ==> me.blob.Some? && out == Script(me)
    ensures match r
            case Ok(blob) => Drive(me, Start(), input) == Done(v, blob)
            case Err(InvalidParameter) => Drive(me, Start(), input) == Failed(InvalidParameter)
            case Err(NetworkError) => Drive(me, Start(), input).Receiving?
  {
    hide Header, HelloPayload, Drive, DecodePeerData;
    var version: Result<u16, MigrationError>;
    v := 0;
    version, input, out := ExchangeHelloPacket(me, t);
    if version.Err? {
      return Err(version.error), v, input, out;
    }
    v := version.value;
    if me.blob.None? {
      DriveStops(me, Failed(InvalidParameter), []);
      return Err(InvalidParameter), v, input, out;
    }
    ghost var more: Bytes, moreOut: Bytes;
    r, more, moreOut := ExchangeBlobs(me, v, t);
    DriveThen(me, Start(), input, AfterAgreement(me, v), more);
    if r.Ok? {
      DriveStops(me, Done(v, r.value), []);
    }
    assert r.Ok? ==> out + moreOut == Script(me);
    input, out := input + more, out + moreOut;
  }

  /** The exchange after the version is settled. */
  method ExchangeBlobs(me: Config, ghost v: u16, t: Transport)
    returns (r: Result<Bytes, MigrationError>, ghost input: Bytes, ghost out: Bytes)
    requires me.blob.Some?
    modifies t`taken, t`broken, t`sent
    ensures t.broken <==> old(t.broken) || NetworkFails(r)
    ensures t.taken == old(t.taken) + input && t.sent == old(t.sent) + out
    ensures r.Ok? ==> out == Header(PRE_SESSION_DATA_TYPE, |me.blob.value|) + me.blob.value
                             + Header(START_SESSION_TYPE, 0)
    ensures Reports(me, r, Drive(me, AfterAgreement(me, v), input), if r.Ok? then Done(v, r.value) else Start())
  {
    hide Header, HelloPayload, Drive, DecodePeerData;
    var done: Result<(), MigrationError>;
    done, out := SendPreSessionDataPacket(me.blob.value, t);
    input := [];
    if done.Err? {
      DriveSends(me, []);
      DriveShort(me, RecvDataHeader(v), HEADER_SIZE, []);
      return Err(NetworkError), input, out;
    }
    r, input := ReceivePreSessionDataPacket(me, v, t);
    DriveSends(me, input);
    if r.Err? {
      return r, input, out;
    }
    var parts := DecodePeerData(r.value);
    if parts.None? || parts.value.0 == [] || parts.value.1 == [] {
      DriveStops(me, Failed(InvalidParameter), []);
      return Err(InvalidParameter), input, out;
    }
    ghost var more: Bytes, moreOut: Bytes;
    done, more, moreOut := ExchangeStart(me, v, r.value, t);
    DriveThen(me, AfterAgreement(me, v), input, AfterData(v, r.value), more);
    assert t.sent == old(t.sent) + (out + moreOut);
    input, out := input + more, out + moreOut;
    if done.Err? {
      r := Err(done.error);
    }
  }

  method ExchangeStart(ghost me: Config, ghost v: u16, ghost p: Bytes, t: Transport)
    returns (r: Result<(), MigrationError>, ghost input: Bytes, ghost out: Bytes)
    modifies t`taken, t`broken, t`sent
    ensures t.broken <==> old(t.broken) || NetworkFails(r)
    ensures t.taken == old(t.taken) + input && t.sent == old(t.sent) + out
    ensures r.Ok? ==> out == Header(START_SESSION_TYPE, 0)
    ensures Reports(me, r, Drive(me, Sending(SendStart(v, p), Header(START_SESSION_TYPE, 0)), input), Done(v, p))
  {
    hide Header, Drive;
    r, out := SendPreSessionData(t, Header(START_SESSION_TYPE, 0));
    input := [];
    if r.Err? {
      DriveSends(me, []);
      DriveShort(me, RecvStart(v, p), HEADER_SIZE, []);
      return;
    }
    r, input := ReceiveStartSessionPacket(me, v, p, t);
    DriveSends(me, input);
  }

  /** A message header of the given kind and payload length, at the front of `input`. */
  predicate Heads(input: Bytes, kind: byte, length: nat) {
    |input| >= HEADER_SIZE && HeaderKind(input[..HEADER_SIZE]) == kind && HeaderLength(input[..HEADER_SIZE]) == length
  }

  /** A hello from a peer with which version `v` is agreed. */
  predicate GoodHello(me: Config, input: Bytes, v: u16) {
    && |input| >= 16
    && Heads(input, HELLO_PACKET_TYPE, HELLO_PACKET_PAYLOAD_SIZE)
    && match ReadHello(input[8..][..8])
       case None => false
       case Some((lo, hi)) => Negotiate(me.lowest, me.highest, lo, hi) == Some(v)
  }

  /** A peer-data message with the blob `p`, whose two parts are not empty. */
  predicate GoodData(input: Bytes, p: Bytes) {
    && Heads(input, PRE_SESSION_DATA_TYPE, |p|)
    && p <= input[8..]
    && DecodePeerData(p).Some? && DecodePeerData(p).value.0 != [] && DecodePeerData(p).value.1 != []
  }

  /** What the bytes of an acceptable peer look like: a hello, a peer-data message, a start
      message. */
  predicate Acceptable(me: Config, input: Bytes, v: u16, p: Bytes) {
    && me.blob.Some?
    && GoodHello(me, input, v)
    && GoodData(input[16..], p)
    && Heads(input[16..][8..][|p|..], START_SESSION_TYPE, 0)
  }

  lemma DriveReceives(me: Config, ph: Phase, need: nat, input: Bytes)
    ensures |input| < need ==> !Drive(me, Receiving(ph, need, []), input).Done?
    ensures |input| >= need ==>
              Drive(me, Receiving(ph, need, []), input) == Drive(me, AfterReceive(me, ph, input[..need]), input[need..])
  {
    hide AfterReceive;
    if |input| >= need {
      assert [] + input[..need] == input[..need];
    }
  }

  lemma AcceptsStart(me: Config, v: u16, blob: Bytes, input: Bytes, w: u16, p: Bytes)
    ensures Drive(me, Receiving(RecvStart(v, blob), HEADER_SIZE, []), input) == Done(w, p)
            <==> v == w && blob == p && Heads(input, START_SESSION_TYPE, 0)
  {
  }

  lemma AcceptsData(me: Config, v: u16, input: Bytes, w: u16, p: Bytes)
    ensures Drive(me, Receiving(RecvDataHeader(v), HEADER_SIZE, []), input) == Done(w, p)
            <==> v == w && GoodData(input, p) && Heads(input[8..][|p|..], START_SESSION_TYPE, 0)
  {
    hide HeaderKind, HeaderLength, Header, DecodePeerData, Drive;
    DriveReceives(me, RecvDataHeader(v), HEADER_SIZE, input);
    if |input| >= HEADER_SIZE {
      var h, rest := input[..HEADER_SIZE], input[HEADER_SIZE..];
      if HeaderKind(h) == PRE_SESSION_DATA_TYPE {
        var need := HeaderLength(h);
        DriveReceives(me, RecvDataPayload(v), need, rest);
        if |rest| >= need {
          var blob := rest[..need];
          DriveSends(me, rest[need..]);
          AcceptsStart(me, v, blob, rest[need..], w, p);
          assert p <= rest && |p| == need ==> p == blob;
          DriveStops(me, Failed(InvalidParameter), rest[need..]);
        }
      } else {
        DriveStops(me, Failed(InvalidParameter), rest);
      }
    }
  }

  /** A side accepts exactly the acceptable inputs. */
  lemma AcceptsExactly(me: Config, input: Bytes, v: u16, p: Bytes)
    ensures Drive(me, Start(), input) == Done(v, p) <==> Acceptable(me, input, v, p)
  {
    hide Drive, Header, HelloPayload, HeaderKind, HeaderLength, ReadHello, Negotiate, GoodData;
    DriveSends(me, input);
    DriveReceives(me, RecvHelloHeader, 8, input);
    if |input| >= 8 {
      DriveStops(me, Failed(InvalidParameter), input[8..]);
      DriveReceives(me, RecvHelloPayload, 8, input[8..]);
      if |input| >= 16 {
        var rest := input[16..];
        assert input[8..][8..] == rest;
        DriveStops(me, Failed(InvalidParameter), rest);
        match ReadHello(input[8..][..8]) {
          case None =>
          case Some((lo, hi)) =>
            var agreed := Negotiate(me.lowest, me.highest, lo, hi);
            if agreed.Some? {
              DriveSends(me, rest);
              AcceptsData(me, agreed.value, rest, v, p);
            }
        }
      }
    }
  }
}
