/** The growing buffer of the TLS layer: a used prefix and a zero tail. */
module TlsBuffers {
  import opened Words
  import opened ByteQueues

  const PAGE_SIZE: nat := 0x1000
  const TLS_BUFFER_SIZE: nat := 16 * PAGE_SIZE

  datatype WriteError = InsufficientSize(requiredSize: nat) | Failed
  datatype TlsConnectionError = Encode | Other

  /** What a writer does when it is called: it writes some bytes if there is room for them and
      else asks for that room, asks for room anyway, or fails. */
  datatype Attempt = Writes(data: Bytes) | Asks(room: nat) | Fails

  function Tried(room: nat, a: Attempt): Result<Bytes, WriteError> {
    match a
    case Writes(data) => if |data| <= room then Ok(data) else Err(InsufficientSize(|data|))
    case Asks(n) => Err(InsufficientSize(n))
    case Fails => Err(Failed)
  }

  /** A writer into `buf[from..]`: it changes just the bytes it reports, none if it fails. */
  method Writer(buf: array<byte>, from: nat, a: Attempt) returns (r: Result<nat, WriteError>)
    requires from <= buf.Length
    modifies buf
    ensures r.Ok? <==> Tried(buf.Length - from, a).Ok?
    ensures r.Ok? ==> var data := Tried(buf.Length - from, a).value;
                      && |data| == r.value && from + r.value <= buf.Length
                      && buf[..] == old(buf[..from]) + data + old(buf[from + r.value..])
    ensures r.Err? ==> r.error == Tried(buf.Length - from, a).error && buf[..] == old(buf[..])
  {
    match a {
      case Writes(data) =>
        if |data| > buf.Length - from {
          return Err(InsufficientSize(|data|));
        }
        CopyInto(buf, from, data);
        r := Ok(|data|);
      case Asks(n) =>
        r := Err(InsufficientSize(n));
      case Fails =>
        r := Err(Failed);
    }
  }

  /** The bytes in use and the length of the allocation. */
  datatype State = State(held: Bytes, size: nat) {
    predicate Valid() {
      |held| <= size
    }
  }

  /** The bytes a writer gets in, at its first or its second call, or why it does not. */
  function Written(s: State, first: Attempt, second: Attempt): Result<Bytes, TlsConnectionError>
    requires s.Valid()
  {
    match Tried(s.size - |s.held|, first)
    case Ok(data) => Ok(data)
    case Err(Failed) => Err(Other)
    case Err(InsufficientSize(n)) => if Tried(n, second).Ok? then Ok(Tried(n, second).value) else Err(Encode)
  }

  /** The buffer after it. */
  function Grown(s: State, first: Attempt, second: Attempt): (t: State)
    requires s.Valid()
    ensures t.Valid()
  {
    match Tried(s.size - |s.held|, first)
    case Ok(data) => State(s.held + data, s.size)
    case Err(Failed) => s
    case Err(InsufficientSize(n)) =>
      State(s.held + (if Tried(n, second).Ok? then Tried(n, second).value else []), |s.held| + n)
  }

  ghost predicate Zeros(s: Bytes) {
    forall i | 0 <= i < |s| :: s[i] == 0
  }

  class TlsBuffer {
    var inner: array<byte>
    var used: nat

    ghost predicate Valid()
      reads this
    {
      used <= inner.Length
    }

    /** The bytes in use. */
    ghost function Contents(): Bytes
      requires Valid()
      reads this, inner
    {
      inner[..used]
    }

    /** Nothing is left behind the bytes in use. */
    ghost predicate Clean()
      requires Valid()
      reads this, inner
    {
      Zeros(inner[used..])
    }

    ghost function Now(): State
      requires Valid()
      reads this, inner
    {
      State(Contents(), inner.Length)
    }

    constructor ()
      ensures Valid() && fresh(inner) && Clean() && Now() == State([], TLS_BUFFER_SIZE)
    {
      inner := new byte[TLS_BUFFER_SIZE](_ => 0);
      used := 0;
    }

    /** Makes the allocation `newLen` bytes long, with zeros where it grows. */
    method Resize(newLen: nat)
      requires Valid() && used <= newLen
      modifies this`inner
      ensures Valid() && fresh(inner) && inner.Length == newLen
      ensures Contents() == old(Contents()) && (old(Clean()) ==> Clean())
    {
      var was := inner;
      var bigger := new byte[newLen](_ => 0);
      var keep := Min(was.Length, newLen);
      for i := 0 to keep
        invariant bigger[..i] == was[..i]
        invariant forall k | i <= k < newLen :: bigger[k] == 0
      {
        bigger[i] := was[i];
      }
      inner := bigger;
      assert inner[..used] == bigger[..keep][..used] == was[..keep][..used];
      if old(Clean()) {
        forall k | used <= k < newLen
          ensures bigger[k] == 0
        {
          if k < keep {
            assert bigger[k] == bigger[..keep][k] == was[k] == was[used..][k - used];
          }
        }
      }
    }

    /** One call of a writer on the free part; what it reports joins the bytes in use. */
    method WriteUnused(a: Attempt) returns (r: Result<nat, WriteError>)
      requires Valid()
      modifies this`used, inner
      ensures Valid() && inner == old(inner) && (old(Clean()) ==> Clean())
      ensures r.Ok? <==> Tried(inner.Length - old(used), a).Ok?
      ensures r.Ok? ==> var data := Tried(inner.Length - old(used), a).value;
                        r.value == |data| && Contents() == old(Contents()) + data
      ensures r.Err? ==> r.error == Tried(inner.Length - old(used), a).error && Contents() == old(Contents())
    {
      ghost var was := inner[..];
      r := Writer(inner, used, a);
      if r.Ok? {
        ghost var data := Tried(inner.Length - used, a).value;
        assert inner[..] == was[..used] + data + was[used + r.value..];
        assert inner[..used + r.value] == was[..used] + data;
        assert inner[used + r.value..] == was[used..][r.value..];
        used := used + r.value;
      } else {
        assert inner[..used] == was[..used] && inner[used..] == was[used..];
      }
    }

    /** Runs a writer, once more after growing if it asks for more room; the bytes it writes
        are appended, and a failed call leaves the bytes in use as they were. */
    method TryOrResizeAndRetry(first: Attempt, second: Attempt) returns (r: Result<nat, TlsConnectionError>)
      requires Valid()
      modifies this, inner
      ensures Valid() && (inner == old(inner) || fresh(inner)) && (old(Clean()) ==> Clean())
      ensures Now() == Grown(old(Now()), first, second)
      ensures var w := Written(old(Now()), first, second);
              r == if w.Ok? then Ok(|w.value|) else Err(w.error)
    {
      var written := WriteUnused(first);
      if written.Err? {
        if written.error.Failed? {
          return Err(Other);
        }
        Resize(used + written.error.requiredSize);
        written := WriteUnused(second);
        if written.Err? {
          return Err(Encode);
        }
      }
      r := Ok(written.value);
    }

    /** Overwrites `inner[from..to]` with zeros. */
    method Zeroize(from: nat, to: nat)
      requires from <= to <= inner.Length
      modifies inner
      ensures inner[..from] == old(inner[..from]) && inner[to..] == old(inner[to..])
      ensures Zeros(inner[from..to])
    {
      for i := from to to
        invariant inner[..from] == old(inner[..from]) && inner[to..] == old(inner[to..])
        invariant forall k | from <= k < i :: inner[k] == 0
      {
        inner[i] := 0;
      }
    }

    method Reset()
      requires Valid()
      modifies this`used, inner
      ensures Valid() && inner == old(inner)
      ensures Contents() == [] && (old(Clean()) ==> Clean())
    {
      Zeroize(0, used);
      ghost var n := used;
      used := 0;
      assert inner[0..] == inner[0..n] + inner[n..];
    }

    /** Takes `size` bytes of the free part into use, or all of it. */
    method Consume(size: nat)
      requires Valid()
      modifies this`used
      ensures Valid() && used == Min(old(used) + size, inner.Length)
      ensures Contents() == old(inner[..Min(used + size, inner.Length)])
      ensures old(Clean()) ==> Clean()
    {
      ghost var was := used;
      used := Min(used + size, inner.Length);
      assert inner[used..] == inner[was..][used - was..];
    }

    /** As many bytes as fit are read into the free part, then taken into use. */
    method FillUnused(data: Bytes)
      requires Valid()
      modifies this`used, inner
      ensures Valid() && inner == old(inner) && (old(Clean()) ==> Clean())
      ensures Contents() == old(Contents()) + data[..Min(|data|, inner.Length - old(used))]
    {
      ghost var was, from := inner[..], used;
      var n := Min(|data|, inner.Length - used);
      CopyInto(inner, used, data[..n]);
      assert inner[..from + n] == was[..from] + data[..n];
      assert inner[from + n..] == was[from..][n..];
      Consume(n);
    }

    /** Drops exactly the first `size` bytes in use. */
    method Discard(size: nat)
      requires Valid() && size <= used
      modifies this`used, inner
      ensures Valid() && inner == old(inner)
      ensures Contents() == old(Contents())[size..] && (old(Clean()) ==> Clean())
    {
      var oldUsed := used;
      CopyDown(size);
      used := used - size;
      Zeroize(used, oldUsed);
      assert inner[used..] == inner[used..oldUsed] + inner[oldUsed..];
    }

    /** Moves `inner[size..used]` to the front. */
    method CopyDown(size: nat)
      requires Valid() && size <= used
      modifies inner
      ensures inner[..used - size] == old(inner[size..used]) && inner[used..] == old(inner[used..])
    {
      for i := 0 to used - size
        invariant inner[..i] == old(inner[size..size + i])
        invariant inner[i..] == old(inner[i..])
      {
        assert inner[size + i] == inner[i..][size] == old(inner[i..])[size];
        inner[i] := inner[size + i];
      }
      assert inner[used..] == inner[used - size..][size..];
    }
  }

  datatype Op = Write(first: Attempt, second: Attempt) | Fill(data: Bytes) | Discard(size: nat) | Reset

  /** What an operation came to: the bytes written or why not, the bytes read in, the bytes
      dropped; discarding more than is in use is refused. */
  datatype Answer =
    | Wrote(r: Result<Bytes, TlsConnectionError>)
    | Filled(data: Bytes)
    | Dropped(data: Bytes)
    | Refused

  function Told(s: State, op: Op): Answer
    requires s.Valid()
  {
    match op
    case Write(first, second) => Wrote(Written(s, first, second))
    case Fill(data) => Filled(data[..Min(|data|, s.size - |s.held|)])
    case Discard(size) => if size <= |s.held| then Dropped(s.held[..size]) else Refused
    case Reset => Dropped(s.held)
  }

  function Next(s: State, op: Op): (t: State)
    requires s.Valid()
    ensures t.Valid()
  {
    match op
    case Write(first, second) => Grown(s, first, second)
    case Fill(data) => s.(held := s.held + data[..Min(|data|, s.size - |s.held|)])
    case Discard(size) => if size <= |s.held| then s.(held := s.held[size..]) else s
    case Reset => s.(held := [])
  }

  /** The buffer after a series of operations. */
  function After(ops: seq<Op>): (s: State)
    ensures s.Valid()
  {
    if ops == [] then State([], TLS_BUFFER_SIZE) else Next(After(ops[..|ops| - 1]), ops[|ops| - 1])
  }

  /** Every answer is what the operation comes to in the state it meets. */
  ghost predicate Answered(ops: seq<Op>, answers: seq<Answer>) {
    |answers| == |ops| && forall i | 0 <= i < |ops| :: answers[i] == Told(After(ops[..i]), ops[i])
  }

  function InOf(a: Answer): Bytes {
    match a
    case Wrote(Ok(data)) => data
    case Filled(data) => data
    case _ => []
  }

  function OutOf(a: Answer): Bytes {
    if a.Dropped? then a.data else []
  }

  /** The bytes that went in. */
  function In(answers: seq<Answer>): Bytes {
    if answers == [] then [] else In(answers[..|answers| - 1]) + InOf(answers[|answers| - 1])
  }

  /** The bytes that were dropped. */
  function Out(answers: seq<Answer>): Bytes {
    if answers == [] then [] else Out(answers[..|answers| - 1]) + OutOf(answers[|answers| - 1])
  }

  /** One operation neither loses nor makes up a byte. */
  lemma StepConserves(s: State, op: Op)
    requires s.Valid()
    ensures s.held + InOf(Told(s, op)) == OutOf(Told(s, op)) + Next(s, op).held
  {
  }

  /** Over every series of operations the bytes that went in are those dropped, in order,
      followed by those still in use. */
  lemma {:induction false} Conserved(ops: seq<Op>, answers: seq<Answer>)
    requires Answered(ops, answers)
    ensures In(answers) == Out(answers) + After(ops).held
  {
    hide Told, Next, InOf, OutOf;
    if ops != [] {
      var n := |ops| - 1;
      var s := After(ops[..n]);
      assert forall i | 0 <= i < n :: ops[..n][..i] == ops[..i];
      Conserved(ops[..n], answers[..n]);
      StepConserves(s, ops[n]);
      Regroup(Out(answers[..n]), s.held, InOf(answers[n]), OutOf(answers[n]), Next(s, ops[n]).held);
    }
  }

  lemma Regroup(out: Bytes, held: Bytes, more: Bytes, gone: Bytes, left: Bytes)
    requires held + more == gone + left
    ensures out + held + more == out + gone + left
  {
    assert out + held + more == out + (held + more);
    assert out + gone + left == out + (gone + left);
  }

  /** A writer that writes the same bytes at both calls always succeeds: growing by what it
      asked for is enough. */
  lemma RetrySuffices(s: State, data: Bytes)
    requires s.Valid()
    ensures Written(s, Writes(data), Writes(data)) == Ok(data)
    ensures Grown(s, Writes(data), Writes(data)).held == s.held + data
  {
  }

  /** A write fails exactly if the writer fails, or asks again after it got what it asked for. */
  lemma WriteFailsExactly(s: State, first: Attempt, second: Attempt)
    requires s.Valid()
    ensures Written(s, first, second).Err? <==>
            var once := Tried(s.size - |s.held|, first);
            once.Err? && (once.error.Failed? || Tried(once.error.requiredSize, second).Err?)
  {
  }

  lemma AnsweredNone()
    ensures Answered([], []) && After([]) == State([], TLS_BUFFER_SIZE)
  {
  }

  lemma AnsweredOne(ops: seq<Op>, answers: seq<Answer>, op: Op)
    requires Answered(ops, answers)
    ensures Answered(ops + [op], answers + [Told(After(ops), op)])
    ensures After(ops + [op]) == Next(After(ops), op)
  {
    assert (ops + [op])[..|ops|] == ops;
    assert forall i | 0 <= i < |ops| :: (ops + [op])[..i] == ops[..i];
  }

  method Perform(buffer: TlsBuffer, op: Op) returns (answer: Answer)
    requires buffer.Valid() && buffer.Clean()
    modifies buffer, buffer.inner
    ensures buffer.Valid() && buffer.Clean() && (buffer.inner == old(buffer.inner) || fresh(buffer.inner))
    ensures buffer.Now() == Next(old(buffer.Now()), op)
    ensures answer == Told(old(buffer.Now()), op)
  {
    match op {
      case Write(first, second) =>
        var from := buffer.used;
        var r := buffer.TryOrResizeAndRetry(first, second);
        answer := Wrote(if r.Ok? then Ok(buffer.inner[from..buffer.used]) else Err(r.error));
        assert r.Ok? ==> buffer.inner[from..buffer.used] == buffer.Contents()[from..];
      case Fill(data) =>
        var from := buffer.used;
        buffer.FillUnused(data);
        answer := Filled(buffer.inner[from..buffer.used]);
        assert buffer.inner[from..buffer.used] == buffer.Contents()[from..];
      case Discard(size) =>
        if size <= buffer.used {
          answer := Dropped(buffer.inner[..size]);
          assert buffer.inner[..size] == buffer.Contents()[..size];
          buffer.Discard(size);
        } else {
          answer := Refused;
        }
      case Reset =>
        answer := Dropped(buffer.inner[..buffer.used]);
        buffer.Reset();
    }
  }

  /** For every series of operations: each is answered as its inputs say, the bytes written are
      those dropped followed by those still in use, and no byte is left behind them. */
  method Run(ops: seq<Op>) returns (buffer: TlsBuffer, answers: seq<Answer>)
    ensures buffer.Valid() && buffer.Clean() && buffer.Now() == After(ops)
    ensures Answered(ops, answers)
    ensures In(answers) == Out(answers) + buffer.Contents()
  {
    hide Told, Next, In, Out, After, Answered, TlsBuffer.Clean;
    AnsweredNone();
    buffer := new TlsBuffer();
    answers := [];
    for i := 0 to |ops|
      invariant fresh(buffer) && buffer.Valid() && buffer.Clean() && fresh(buffer.inner)
      invariant buffer.Now() == After(ops[..i])
      invariant Answered(ops[..i], answers)
    {
      var answer := Perform(buffer, ops[i]);
      AnsweredOne(ops[..i], answers, ops[i]);
      answers := answers + [answer];
      assert ops[..i + 1] == ops[..i] + [ops[i]];
    }
    assert ops[..|ops|] == ops;
    Conserved(ops, answers);
  }
}
