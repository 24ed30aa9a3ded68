/** Queues of byte chunks that behave as one flat queue of bytes. */
module ByteQueues {
  import opened Words

  type Bytes = seq<byte>

  /** All bytes of a row of chunks, in order. */
  function Flat(chunks: seq<Bytes>): Bytes {
    if chunks == [] then [] else chunks[0] + Flat(chunks[1..])
  }

  ghost predicate NoneEmpty(chunks: seq<Bytes>) {
    forall i | 0 <= i < |chunks| :: chunks[i] != []
  }

  lemma {:induction false} FlatAppends(chunks: seq<Bytes>, more: seq<Bytes>)
    ensures Flat(chunks + more) == Flat(chunks) + Flat(more)
  {
    if chunks == [] {
      assert chunks + more == more;
    } else {
      FlatAppends(chunks[1..], more);
      assert (chunks + more)[1..] == chunks[1..] + more;
    }
  }

  lemma FlatNone()
    ensures Flat([]) == []
  {
  }

  lemma FlatOne(chunk: Bytes)
    ensures Flat([chunk]) == chunk
  {
  }

  /** Without the first `n` bytes, or without any if there are fewer. */
  function Drop(s: Bytes, n: nat): Bytes {
    if n <= |s| then s[n..] else []
  }

  /** The head of a row that is cut inside its first chunk, or behind it. */
  lemma FlatDrop(chunks: seq<Bytes>, n: nat)
    requires chunks != []
    ensures n <= |chunks[0]| ==> Drop(Flat(chunks), n) == chunks[0][n..] + Flat(chunks[1..])
    ensures n >= |chunks[0]| ==> Drop(Flat(chunks), n) == Drop(Flat(chunks[1..]), n - |chunks[0]|)
  {
  }

  class ChunkVecBuffer {
    var chunks: seq<Bytes>
    const limit: Option<nat>
    /** Everything ever appended, and everything taken out again. */
    ghost var appended: Bytes
    ghost var delivered: Bytes

    ghost predicate Valid()
      reads this
    {
      NoneEmpty(chunks) && appended == delivered + Flat(chunks)
    }

    constructor (limit: Option<nat>)
      ensures Valid() && this.limit == limit && chunks == [] && appended == [] && delivered == []
    {
      this.limit := limit;
      chunks, appended, delivered := [], [], [];
    }

    method IsEmpty() returns (r: bool)
      requires Valid()
      ensures r <==> Flat(chunks) == []
    {
      r := chunks == [];
    }

    method Len() returns (len: nat)
      ensures len == |Flat(chunks)|
    {
      len := 0;
      assert chunks[..0] == [];
      for i := 0 to |chunks|
        invariant len == |Flat(chunks[..i])|
      {
        assert chunks[..i + 1] == chunks[..i] + [chunks[i]];
        FlatAppends(chunks[..i], [chunks[i]]);
        FlatOne(chunks[i]);
        len := len + |chunks[i]|;
      }
      assert chunks[..|chunks|] == chunks;
    }

    method IsFull() returns (r: bool)
      ensures r <==> limit.Some? && |Flat(chunks)| > limit.value
    {
      var len := Len();
      r := limit.Some? && len > limit.value;
    }

    /** The first `n` bytes held. */
    function Front(n: nat): Bytes
      reads this`chunks
    {
      Flat(chunks)[..Min(n, |Flat(chunks)|)]
    }

    method Append(bytes: Bytes) returns (len: nat)
      requires Valid()
      modifies this`chunks, this`appended
      ensures Valid() && len == |bytes|
      ensures Flat(chunks) == old(Flat(chunks)) + bytes && appended == old(appended) + bytes
    {
      len := |bytes|;
      FlatAppends(chunks, [bytes]);
      FlatOne(bytes);
      if bytes != [] {
        chunks := chunks + [bytes];
      }
      appended := appended + bytes;
    }

    /** Fills `buf` from the front of the queue: as many bytes as fit or as there are. */
    method Read(buf: array<byte>) returns (offs: nat)
      requires Valid()
      modifies buf, this`chunks, this`delivered
      ensures Valid() && appended == old(appended)
      ensures offs == Min(buf.Length, |old(Flat(chunks))|)
      ensures buf[..offs] == old(Flat(chunks))[..offs] && buf[offs..] == old(buf[offs..])
      ensures Flat(chunks) == old(Flat(chunks))[offs..]
      ensures delivered == old(delivered) + buf[..offs]
    {
      hide Flat, Drop;
      ghost var was, before, taken := Flat(chunks), buf[..], delivered;
      offs := 0;
      NothingMoved(was, before, taken);
      while offs < buf.Length && chunks != []
        invariant offs <= buf.Length == |before| && offs <= |was|
        invariant Valid() && appended == old(appended)
        invariant Moved(was, before, taken, offs, Flat(chunks), buf[..], delivered)
        decreases buf.Length - offs
      {
        ghost var queue, now, given := Flat(chunks), buf[..], delivered;
        var used := ReadChunk(buf, offs);
        MovedMore(was, before, taken, offs, used, queue, now, given);
        assert buf[..] == now[..offs] + queue[..used] + now[offs + used..];
        offs := offs + used;
      }
      FlatNone();
      MovedAll(was, before, taken, offs, Flat(chunks), buf[..], delivered);
    }

    /** One turn of the reading loop. */
    method ReadChunk(buf: array<byte>, offs: nat) returns (used: nat)
      requires Valid() && offs < buf.Length && chunks != []
      modifies buf, this`chunks, this`delivered
      ensures Valid() && appended == old(appended)
      ensures 0 < used <= |old(Flat(chunks))| && offs + used <= buf.Length
      ensures buf[..] == old(buf[..offs]) + old(Flat(chunks))[..used] + old(buf[offs + used..])
      ensures Flat(chunks) == old(Flat(chunks))[used..]
      ensures delivered == old(delivered) + old(Flat(chunks))[..used]
    {
      if buf.Length - offs >= |chunks[0]| {
        used := |chunks[0]|;
        CopyInto(buf, offs, chunks[0]);
      } else {
        used := buf.Length - offs;
        CopyInto(buf, offs, chunks[0][..used]);
      }
      Consume(used);
    }

    method Consume(n: nat)
      requires Valid()
      modifies this`chunks, this`delivered
      ensures Valid() && appended == old(appended)
      ensures Flat(chunks) == Drop(old(Flat(chunks)), n)
      ensures delivered == old(delivered) + old(Flat(chunks))[..Min(n, |old(Flat(chunks))|)]
    {
      ghost var was := Flat(chunks);
      delivered := delivered + was[..Min(n, |was|)];
      assert was[..Min(n, |was|)] + Drop(was, n) == was;
      var used: nat := n;
      while chunks != []
        invariant NoneEmpty(chunks)
        invariant used <= n && Drop(Flat(chunks), used) == Drop(was, n)
        invariant appended == old(appended) && delivered == old(delivered) + was[..Min(n, |was|)]
        decreases |chunks|
      {
        var buf := chunks[0];
        FlatDrop(chunks, used);
        chunks := chunks[1..];
        if used < |buf| {
          ghost var rest := chunks;
          chunks := [buf[used..]] + chunks;
          assert chunks[1..] == rest;
          break;
        } else {
          used := used - |buf|;
        }
      }
    }
  }

  /** `buf[from..from + |data|]` is overwritten. */
  method CopyInto(buf: array<byte>, from: nat, data: Bytes)
    requires from + |data| <= buf.Length
    modifies buf
    ensures buf[..] == old(buf[..from]) + data + old(buf[from + |data|..])
  {
    for i := 0 to |data|
      invariant buf[..] == old(buf[..from]) + data[..i] + old(buf[from + i..])
    {
      buf[from + i] := data[i];
    }
  }

  /** After `offs` bytes have been moved: the front of the queue's bytes is in the buffer. */
  ghost predicate Moved(was: Bytes, before: Bytes, taken: Bytes, offs: nat,
                        queue: Bytes, buf: Bytes, delivered: Bytes)
  {
    && offs <= |was| && offs <= |before|
    && queue == was[offs..]
    && buf == was[..offs] + before[offs..]
    && delivered == taken + was[..offs]
  }

  lemma NothingMoved(was: Bytes, before: Bytes, taken: Bytes)
    ensures Moved(was, before, taken, 0, was, before, taken)
  {
  }

  lemma MovedMore(was: Bytes, before: Bytes, taken: Bytes, offs: nat, used: nat,
                  queue: Bytes, buf: Bytes, delivered: Bytes)
    requires Moved(was, before, taken, offs, queue, buf, delivered)
    requires used <= |queue| && offs + used <= |before|
    ensures Moved(was, before, taken, offs + used, queue[used..],
                  buf[..offs] + queue[..used] + buf[offs + used..], delivered + queue[..used])
  {
  }

  lemma MovedAll(was: Bytes, before: Bytes, taken: Bytes, offs: nat, queue: Bytes, buf: Bytes, delivered: Bytes)
    requires Moved(was, before, taken, offs, queue, buf, delivered)
    ensures buf[..offs] == was[..offs] && buf[offs..] == before[offs..]
    ensures delivered == taken + buf[..offs]
  {
  }

  // ---------- whole runs ----------

  datatype Op = Append(bytes: Bytes) | Read(size: nat) | Consume(size: nat)

  /** Everything a series of operations appends. */
  function Inputs(ops: seq<Op>): Bytes {
    if ops == [] then []
    else Inputs(ops[..|ops| - 1]) + (match ops[|ops| - 1] case Append(b) => b case _ => [])
  }

  /** What an operation takes out of a flat queue. */
  function Taken(held: Bytes, op: Op): Bytes {
    match op
    case Append(_) => []
    case Read(size) => held[..Min(size, |held|)]
    case Consume(size) => held[..Min(size, |held|)]
  }

  /** What it leaves there. */
  function Rest(held: Bytes, op: Op): Bytes {
    match op
    case Append(b) => held + b
    case Read(size) => Drop(held, size)
    case Consume(size) => Drop(held, size)
  }

  /** What a series of operations leaves in a flat queue. */
  function Held(ops: seq<Op>): Bytes {
    if ops == [] then [] else Rest(Held(ops[..|ops| - 1]), ops[|ops| - 1])
  }

  /** Every operation took out what it would take out of a flat queue. */
  ghost predicate TakenEach(ops: seq<Op>, out: seq<Bytes>) {
    |out| == |ops| && forall i | 0 <= i < |ops| :: out[i] == Taken(Held(ops[..i]), ops[i])
  }

  lemma TakenOne(ops: seq<Op>, out: seq<Bytes>, op: Op)
    requires TakenEach(ops, out)
    ensures TakenEach(ops + [op], out + [Taken(Held(ops), op)])
  {
    assert (ops + [op])[..|ops|] == ops;
    assert forall i | 0 <= i < |ops| :: (ops + [op])[..i] == ops[..i];
  }

  lemma HeldOne(ops: seq<Op>, op: Op)
    ensures Taken(Held(ops), op) + Held(ops + [op]) == Held(ops) + (if op.Append? then op.bytes else [])
    ensures Inputs(ops + [op]) == Inputs(ops) + (if op.Append? then op.bytes else [])
  {
    assert (ops + [op])[..|ops|] == ops;
  }

  /** Over every series of operations the bytes taken out, in order, followed by those still
      held are the bytes appended. */
  lemma {:induction false} NothingLost(ops: seq<Op>, out: seq<Bytes>)
    requires TakenEach(ops, out)
    ensures Flat(out) + Held(ops) == Inputs(ops)
  {
    hide Held, Flat, Taken, Inputs;
    FlatNone();
    HeldNone();
    if ops != [] {
      var n := |ops| - 1;
      assert forall i | 0 <= i < n :: ops[..n][..i] == ops[..i];
      NothingLost(ops[..n], out[..n]);
      assert ops == ops[..n] + [ops[n]] && out == out[..n] + [out[n]];
      HeldOne(ops[..n], ops[n]);
      FlatAppends(out[..n], [out[n]]);
      FlatOne(out[n]);
      var taken, before, now := Flat(out[..n]), Held(ops[..n]), Held(ops);
      assert taken + out[n] + now == taken + (out[n] + now);
      var more := if ops[n].Append? then ops[n].bytes else [];
      assert taken + (before + more) == taken + before + more;
    }
  }

  lemma HeldNone()
    ensures Held([]) == [] && Inputs([]) == []
  {
  }

  lemma RunStarts()
    ensures TakenEach([], []) && Held([]) == Flat([])
  {
  }

  lemma HeldAfter(ops: seq<Op>, op: Op)
    ensures Held(ops + [op]) == Rest(Held(ops), op)
  {
    assert (ops + [op])[..|ops|] == ops;
  }

  method Perform(queue: ChunkVecBuffer, op: Op) returns (taken: Bytes)
    requires queue.Valid()
    modifies queue
    ensures queue.Valid()
    ensures taken == Taken(old(Flat(queue.chunks)), op)
    ensures Flat(queue.chunks) == Rest(old(Flat(queue.chunks)), op)
  {
    hide Flat;
    match op {
      case Append(b) =>
        var _ := queue.Append(b);
        taken := [];
      case Read(size) =>
        var buf := new byte[size];
        var n := queue.Read(buf);
        taken := buf[..n];
      case Consume(size) =>
        taken := queue.Front(size);
        queue.Consume(size);
    }
  }

  /** For every series of operations the queue of chunks does what a flat queue does: `out`
      holds what each operation took out, `held` what the last one left. */
  method Run(ops: seq<Op>, limit: Option<nat>) returns (out: seq<Bytes>, held: Bytes)
    ensures TakenEach(ops, out) && held == Held(ops)
    ensures Flat(out) + held == Inputs(ops)
  {
    hide Held, TakenEach, Inputs, Flat;
    var queue := new ChunkVecBuffer(limit);
    out := [];
    RunStarts();
    for i := 0 to |ops|
      invariant fresh(queue) && queue.Valid() && Flat(queue.chunks) == Held(ops[..i])
      invariant TakenEach(ops[..i], out)
    {
      assert ops[..i + 1] == ops[..i] + [ops[i]];
      TakenOne(ops[..i], out, ops[i]);
      HeldAfter(ops[..i], ops[i]);
      var taken := Perform(queue, ops[i]);
      out := out + [taken];
    }
    assert ops[..|ops|] == ops;
    NothingLost(ops, out);
    held := queue.Front(|Flat(queue.chunks)|);
    assert held == Flat(queue.chunks);
  }
}
