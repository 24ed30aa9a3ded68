/** Whole runs of the virtio console driver: any calls of its users, in any world. */
module SerialRuns {
  import opened Words
  import opened Slots
  import opened QueueHistory
  import opened VirtQueues
  import opened DmaPages
  import opened ConsoleWorld
  import opened Driver = VirtioSerial

  /** What the users of the driver may ask for. */
  datatype Call =
    | Send(data: seq<byte>, to: u32)
    | Receive(from: u32)
    | PollControl
    | OpenPort(id: u32)
    | ClosePort(id: u32)

  /** What they are told. */
  datatype Reply =
    | Sent(n: Result<nat, SerialError>)
    | Received(data: Result<seq<byte>, SerialError>)
    | Polled(poll: Result<(), SerialError>)
    | Opened(open: Result<(), SerialError>)
    | Closed(close: Result<(), SerialError>)

  predicate BadSend(data: seq<byte>, to: u32) {
    data == [] || |data| >= TWO_32 || to >= MAX_PORT_SUPPORTED
  }

  /** The reply belongs to the call: a send with bad arguments is refused, and only such a one
      is; a reply of success is about the data given; a port without a queue has nothing. */
  ghost predicate Replies(call: Call, reply: Reply) {
    match call
    case Send(data, to) =>
      && reply.Sent? && (reply.n.Ok? ==> reply.n.value == |data|)
      && (reply.n == Err(BadParameter) <==> BadSend(data, to))
    case Receive(from) =>
      reply.Received? && if PortQueueIndex(from) < NUM_QUEUES then reply.data != Err(NoQueue)
                         else reply.data.Ok? || reply.data == Err(NoQueue)
    case PollControl => reply.Polled?
    case OpenPort(id) => reply.Opened? && (reply.open == Err(BadParameter) <==> id > MAX_PORT_SUPPORTED)
    case ClosePort(id) => reply.Closed? && (reply.close == Err(BadParameter) <==> id > MAX_PORT_SUPPORTED)
  }

  /** The call can have leaked nothing: it succeeded, or failed where nothing is lost. */
  predicate Harmless(reply: Reply) {
    match reply
    case Sent(n) => n.Ok? || n.error != Virtio(BufferTooSmall)
    case Received(data) => data.Ok? || data.error == NoData || data.error == NoQueue
    case Polled(poll) => poll.Ok?
    case Opened(_) => true
    case Closed(_) => true
  }

  /** The reply is no success, nor explained by the call and by which ports are open. */
  predicate Blames(call: Call, reply: Reply, open: set<u32>) {
    match (call, reply)
    case (Send(data, to), Sent(n)) => n.Err? && !BadSend(data, to)
    case (Receive(from), Received(data)) =>
      data.Err? && data.error != NoData && data.error != NoQueue && !(data.error == BadParameter && from !in open)
    case (PollControl, Polled(poll)) => poll.Err?
    case _ => false
  }

  /** The ports whose data is kept: those opened, even without success, and not closed since. */
  function Keeps(open: set<u32>, call: Call): set<u32> {
    match call
    case OpenPort(id) => if id <= MAX_PORT_SUPPORTED then open + {id} else open
    case ClosePort(id) => if id <= MAX_PORT_SUPPORTED then open - {id} else open
    case _ => open
  }

  function KeptOpen(calls: seq<Call>): set<u32> {
    if calls == [] then {} else Keeps(KeptOpen(calls[..|calls| - 1]), calls[|calls| - 1])
  }

  predicate Opens(call: Call, reply: Reply) {
    call.OpenPort? && reply.Opened? && reply.open.Ok?
  }

  predicate Closes(call: Call, reply: Reply, id: u32) {
    call == ClosePort(id) && reply.Closed? && reply.close.Ok?
  }

  /** The ports in use after a reply. */
  function InUse(was: set<u32>, call: Call, reply: Reply): set<u32> {
    if Opens(call, reply) then was + {call.id}
    else if call.ClosePort? && Closes(call, reply, call.id) then was - {call.id}
    else was
  }

  // ---------- what was sent ----------

  /** The lengths of the buffers offered on a transmit queue. */
  ghost function Lengths(log: seq<Event>): seq<nat> {
    if log == [] then []
    else
      var last := log[|log| - 1];
      Lengths(log[..|log| - 1]) + (if last.Added? && last.posting.g2h != [] then [last.posting.g2h[0].len] else [])
  }

  /** The lengths of what was sent to a port. */
  function SentTo(calls: seq<Call>, port: u32): seq<nat> {
    if calls == [] then []
    else
      var last := calls[|calls| - 1];
      SentTo(calls[..|calls| - 1], port)
      + (if last.Send? && last.to == port && !BadSend(last.data, port) then [|last.data|] else [])
  }

  lemma LengthsGrow(was: seq<Event>, log: seq<Event>, len: nat)
    requires SentAndAnswered(was, log, len)
    ensures Lengths(log) == Lengths(was) + [len]
  {
    var n := |was|;
    assert log[..n + 1][..n] == was && log[..n + 2] == log;
    assert Lengths(log) == Lengths(log[..n + 1]);
    assert Lengths(log[..n + 1]) == Lengths(was) + [len];
  }

  // ---------- one call ----------

  /** The transmit queue of a port saw this call and nothing else. */
  ghost predicate Transmitted(was: seq<Event>, now: seq<Event>, port: u32, call: Call) {
    if call.Send? && call.to == port && !BadSend(call.data, port) then SentAndAnswered(was, now, |call.data|)
    else now == was
  }

  method Perform(dev: Driver.VirtioSerial, call: Call) returns (reply: Reply)
    requires dev.Ready() && dev.Steady()
    modifies dev`posted, dev`held, dev`owner, dev`dmaAllocation, dev`prefill, dev`clock
    modifies dev`connectedPorts, dev`receiveQueues, dev`allocatedPorts, dev.queues, dev.allocator
    ensures dev.Ready() && dev.Steady()
    ensures dev.Served() ==> old(dev.Served()) && !Blames(call, reply, old(dev.receiveQueues.Keys))
    ensures Replies(call, reply)
    ensures old(dev.Mine()) <= dev.Mine()
    ensures Harmless(reply) ==> dev.Mine() == old(dev.Mine())
    ensures Supported(old(dev.connectedPorts)) ==> Supported(dev.connectedPorts)
    ensures Opens(call, reply) ==> call.id in old(dev.connectedPorts) && call.id !in old(dev.allocatedPorts)
    ensures dev.allocatedPorts == InUse(old(dev.allocatedPorts), call, reply)
    ensures dev.receiveQueues.Keys == Keeps(old(dev.receiveQueues.Keys), call)
    ensures dev.Served() ==> Transmitted(old(dev.queues[1].log), dev.queues[1].log, 0, call)
    ensures dev.Served() ==> Transmitted(old(dev.queues[5].log), dev.queues[5].log, 1, call)
  {
    hide Driver.VirtioSerial.Valid, Driver.VirtioSerial.Mine, Driver.VirtioSerial.Steady, Good, Supported;
    hide PortQueueIndex, SentAndAnswered;
    match call {
      case Send(data, to) =>
        var r := dev.Enqueue(data, to);
        reply := Sent(r);
      case Receive(from) =>
        var r := dev.Dequeue(from);
        reply := Received(r);
      case PollControl =>
        var r := dev.RecvControl(false);
        reply := Polled(r);
      case OpenPort(id) =>
        var r := dev.AllocatePort(id);
        reply := Opened(r);
      case ClosePort(id) =>
        var r := dev.FreePort(id);
        reply := Closed(r);
    }
  }

  // ---------- all calls ----------

  ghost predicate AllReplied(calls: seq<Call>, replies: seq<Reply>) {
    |replies| == |calls| && forall i | 0 <= i < |calls| :: Replies(calls[i], replies[i])
  }

  ghost predicate AllHarmless(replies: seq<Reply>) {
    forall i | 0 <= i < |replies| :: Harmless(replies[i])
  }

  /** Every reply is a success, or explained by the call and the ports kept open. */
  ghost predicate NoneBlames(calls: seq<Call>, replies: seq<Reply>) {
    |replies| == |calls| && forall i | 0 <= i < |calls| :: !Blames(calls[i], replies[i], KeptOpen(calls[..i]))
  }

  /** Port `id` was closed after `i` and before `j`. */
  ghost predicate ClosedBetween(calls: seq<Call>, replies: seq<Reply>, i: nat, j: nat, id: u32)
    requires j <= |calls| == |replies|
  {
    exists k | i < k < j :: Closes(calls[k], replies[k], id)
  }

  /** Only ports with queues are opened, two openings of a port have a closing between them, and
      a port opened and not closed since is in use. */
  ghost predicate OpenedInTurn(calls: seq<Call>, replies: seq<Reply>, inUse: set<u32>) {
    && |replies| == |calls|
    && (forall i | 0 <= i < |calls| && Opens(calls[i], replies[i]) :: calls[i].id < MAX_PORT_SUPPORTED)
    && (forall i, j | 0 <= i < j < |calls| && Opens(calls[i], replies[i]) && Opens(calls[j], replies[j])
          && calls[i].id == calls[j].id :: ClosedBetween(calls, replies, i, j, calls[i].id))
    && (forall i | 0 <= i < |calls| && Opens(calls[i], replies[i]) ::
          calls[i].id in inUse || ClosedBetween(calls, replies, i, |calls|, calls[i].id))
  }

  lemma NoReplies()
    ensures AllReplied([], []) && AllHarmless([]) && NoneBlames([], []) && OpenedInTurn([], [], {})
    ensures KeptOpen([]) == {} && Lengths([]) == [] && SentTo([], 0) == SentTo([], 1) == []
  {
  }

  lemma OneMoreReply(calls: seq<Call>, replies: seq<Reply>, call: Call, reply: Reply)
    requires AllReplied(calls, replies) && Replies(call, reply)
    ensures AllReplied(calls + [call], replies + [reply])
    ensures AllHarmless(replies + [reply]) <==> AllHarmless(replies) && Harmless(reply)
    ensures NoneBlames(calls + [call], replies + [reply]) <==>
            NoneBlames(calls, replies) && !Blames(call, reply, KeptOpen(calls))
    ensures KeptOpen(calls + [call]) == Keeps(KeptOpen(calls), call)
  {
    hide Replies, Harmless, Blames, Keeps;
    var calls', replies', n := calls + [call], replies + [reply], |calls|;
    assert calls'[..n] == calls && calls'[n] == call && replies'[n] == reply;
    assert forall i | 0 <= i < n :: calls'[..i] == calls[..i] && calls'[i] == calls[i] && replies'[i] == replies[i];
    if AllHarmless(replies') {
      assert Harmless(replies'[n]) && forall i | 0 <= i < n :: Harmless(replies'[i]);
    }
    if NoneBlames(calls', replies') {
      assert !Blames(calls'[n], replies'[n], KeptOpen(calls'[..n]));
      assert forall i | 0 <= i < n :: !Blames(calls'[i], replies'[i], KeptOpen(calls'[..i]));
    }
  }

  lemma ClosedStays(calls: seq<Call>, replies: seq<Reply>, call: Call, reply: Reply, i: nat, j: nat, id: u32)
    requires j <= |calls| == |replies| && ClosedBetween(calls, replies, i, j, id)
    ensures ClosedBetween(calls + [call], replies + [reply], i, j, id)
    ensures ClosedBetween(calls + [call], replies + [reply], i, |calls| + 1, id)
  {
    hide Closes;
    var k :| i < k < j && Closes(calls[k], replies[k], id);
    assert Closes((calls + [call])[k], (replies + [reply])[k], id);
  }

  /** Opening a port that is not in use, or closing one, keeps the turns. */
  lemma OneMoreTurn(calls: seq<Call>, replies: seq<Reply>, inUse: set<u32>, call: Call, reply: Reply)
    requires OpenedInTurn(calls, replies, inUse)
    requires Opens(call, reply) ==> call.id < MAX_PORT_SUPPORTED && call.id !in inUse
    ensures OpenedInTurn(calls + [call], replies + [reply], InUse(inUse, call, reply))
  {
    var calls', replies', n := calls + [call], replies + [reply], |calls|;
    var inUse' := InUse(inUse, call, reply);
    assert forall i | 0 <= i < n :: calls'[i] == calls[i] && replies'[i] == replies[i];
    forall i, j | 0 <= i < j <= n && Opens(calls'[i], replies'[i]) && Opens(calls'[j], replies'[j])
                  && calls'[i].id == calls'[j].id
      ensures ClosedBetween(calls', replies', i, j, calls'[i].id)
    {
      assert ClosedBetween(calls, replies, i, j, calls[i].id);
      ClosedStays(calls, replies, call, reply, i, j, calls[i].id);
    }
    forall i | 0 <= i <= n && Opens(calls'[i], replies'[i])
      ensures calls'[i].id in inUse' || ClosedBetween(calls', replies', i, n + 1, calls'[i].id)
    {
      StillInUse(calls, replies, inUse, call, reply, i);
    }
  }

  lemma StillInUse(calls: seq<Call>, replies: seq<Reply>, inUse: set<u32>, call: Call, reply: Reply, i: nat)
    requires OpenedInTurn(calls, replies, inUse) && i <= |calls|
    requires Opens((calls + [call])[i], (replies + [reply])[i])
    ensures var id := (calls + [call])[i].id;
            id in InUse(inUse, call, reply) || ClosedBetween(calls + [call], replies + [reply], i, |calls| + 1, id)
  {
    var n := |calls|;
    if i < n {
      var id := calls[i].id;
      if ClosedBetween(calls, replies, i, n, id) {
        ClosedStays(calls, replies, call, reply, i, n, id);
      } else if Closes(call, reply, id) {
        assert Closes((calls + [call])[n], (replies + [reply])[n], id);
      }
    }
  }

  lemma OneMoreSent(calls: seq<Call>, call: Call, port: u32, was: seq<Event>, now: seq<Event>)
    requires Lengths(was) == SentTo(calls, port) && Transmitted(was, now, port, call)
    ensures Lengths(now) == SentTo(calls + [call], port)
  {
    hide Lengths, SentAndAnswered;
    assert (calls + [call])[..|calls|] == calls;
    if call.Send? && call.to == port && !BadSend(call.data, port) {
      LengthsGrow(was, now, |call.data|);
    }
  }

  /** Any run of the driver, whatever the world does: every buffer the device holds is live
      memory on no other chain, and if no reply was harmful nothing has leaked: all memory
      allocated is that of the rings or still with the device. As long as the world answers
      well the device comes up, no call fails but for its arguments, for want of data or for a
      port that is not open, and what was sent to a port went out, in order. */
  method Run(world: World, calls: seq<Call>)
    returns (dev: Driver.VirtioSerial, up: Result<(), SerialError>, replies: seq<Reply>)
    ensures dev.world == world && dev.Valid()
    ensures up.Err? ==> replies == []
    ensures up.Ok? ==> dev.Ready() && AllReplied(calls, replies) && OpenedInTurn(calls, replies, dev.allocatedPorts)
    ensures up.Ok? && AllHarmless(replies) ==> dev.Mine() == {}
    ensures Good(world, dev.clock) ==>
              && up.Ok? && NoneBlames(calls, replies)
              && Lengths(dev.queues[1].log) == SentTo(calls, 0) && Lengths(dev.queues[5].log) == SentTo(calls, 1)
  {
    hide Driver.VirtioSerial.Valid, Driver.VirtioSerial.Mine, Driver.VirtioSerial.Steady, Good, Replies, Harmless;
    hide AllReplied, AllHarmless, NoneBlames, OpenedInTurn, Blames, KeptOpen, Keeps, Lengths, SentTo, Transmitted;
    NoReplies();
    var allocator := new PageAllocator();
    dev := new Driver.VirtioSerial(world, allocator);
    replies := [];
    up := dev.Init();
    if up.Err? {
      return;
    }
    for i := 0 to |calls|
      invariant dev.Ready() && dev.Steady() && fresh(dev) && fresh(dev.allocator) && fresh(dev.queues)
      invariant dev.world == world && Supported(dev.connectedPorts)
      invariant AllReplied(calls[..i], replies) && OpenedInTurn(calls[..i], replies, dev.allocatedPorts)
      invariant dev.receiveQueues.Keys == KeptOpen(calls[..i])
      invariant AllHarmless(replies) ==> dev.Mine() == {}
      invariant dev.Served() ==> NoneBlames(calls[..i], replies)
      invariant dev.Served() ==> Lengths(dev.queues[1].log) == SentTo(calls[..i], 0)
      invariant dev.Served() ==> Lengths(dev.queues[5].log) == SentTo(calls[..i], 1)
    {
      ghost var inUse, first, second := dev.allocatedPorts, dev.queues[1].log, dev.queues[5].log;
      var reply := Perform(dev, calls[i]);
      OneMoreReply(calls[..i], replies, calls[i], reply);
      OneMoreTurn(calls[..i], replies, inUse, calls[i], reply);
      if dev.Served() {
        OneMoreSent(calls[..i], calls[i], 0, first, dev.queues[1].log);
        OneMoreSent(calls[..i], calls[i], 1, second, dev.queues[5].log);
      }
      assert calls[..i + 1] == calls[..i] + [calls[i]];
      replies := replies + [reply];
    }
    assert calls[..|calls|] == calls;
  }
}
