/** The event log beside the measurement registers: writing, replaying, verifying. */
module EventLogs {
  import opened Words
  import opened Measurement

  const HEADER_SIZE: nat := 66

  datatype LogError = InvalidMrIndex | TdCall | OutOfMemory

  /** One entry of the log: the register it went to, its digest and its event data. */
  datatype Event = Event(mrIndex: u32, digest: Digest, data: Bytes) {
    function Size(): nat {
      HEADER_SIZE + |data|
    }
  }

  /** A tagged event: tag, length, data. */
  function TaggedEvent(tag: u32, data: Bytes): Bytes {
    Bytes32(tag) + Bytes32(|data| % 0x1_0000_0000) + data
  }

  function TotalSize(events: seq<Event>): nat {
    if events == [] then 0 else TotalSize(events[..|events| - 1]) + events[|events| - 1].Size()
  }

  lemma {:induction false} TotalSizeGrows(events: seq<Event>, n: nat)
    requires n <= |events|
    ensures TotalSize(events[..n]) <= TotalSize(events)
    decreases |events|
  {
    if n < |events| {
      TotalSizeGrows(events[..|events| - 1], n);
      assert events[..|events| - 1][..n] == events[..n];
    } else {
      assert events[..n] == events;
    }
  }

  // ---------- replay ----------

  predicate ValidIndex(mrIndex: u32) {
    1 <= mrIndex <= 4
  }

  /** The digests that went to register `i`, in order. */
  function DigestsOf(events: seq<Event>, i: nat): seq<Digest> {
    if events == [] then []
    else
      var last := events[|events| - 1];
      var front := DigestsOf(events[..|events| - 1], i);
      if last.mrIndex == i + 1 then front + [last.digest] else front
  }

  ghost predicate AllValid(events: seq<Event>) {
    forall k | 0 <= k < |events| :: ValidIndex(events[k].mrIndex)
  }

  /** Register `i` after replaying the events. */
  function Replayed(hash: Bytes -> Digest, events: seq<Event>, i: nat): Digest {
    Fold(hash, ZERO, DigestsOf(events, i))
  }

  /** What verifying a log means: it names only registers there are, and replaying it gives
      the reported values. */
  ghost predicate Verifies(hash: Bytes -> Digest, events: seq<Event>, report: seq<Digest>)
    requires |report| == 4
  {
    AllValid(events) && forall i | 0 <= i < 4 :: Replayed(hash, events, i) == report[i]
  }

  lemma ReplayedAppend(hash: Bytes -> Digest, events: seq<Event>, e: Event, i: nat)
    ensures Replayed(hash, events + [e], i) ==
            if e.mrIndex == i + 1 then Extend(hash, Replayed(hash, events, i), e.digest) else Replayed(hash, events, i)
  {
  }

  /** A register of the replay: its value, then room for the digest to extend it with. */
  type Slot = s: Bytes | |s| == 2 * DIGEST_SIZE witness Zeros(2 * DIGEST_SIZE)

  /** Replays a log on four double-width registers and compares with the report. */
  method ReplayEventLogWithReport(hash: Bytes -> Digest, events: seq<Event>, report: seq<Digest>) returns (ok: bool)
    requires |report| == 4
    ensures ok <==> Verifies(hash, events, report)
  {
    hide Extend, Fold;
    var rtmrs: seq<Slot> := [Zeros(96), Zeros(96), Zeros(96), Zeros(96)];
    FreshSlots(hash);
    var k := 0;
    while k < |events|
      invariant 0 <= k <= |events| && |rtmrs| == 4
      invariant AllValid(events[..k])
      invariant forall i | 0 <= i < 4 :: rtmrs[i][..48] == Replayed(hash, events[..k], i)
    {
      var e := events[k];
      assert events[..k + 1] == events[..k] + [e];
      if !ValidIndex(e.mrIndex) {
        return false;
      }
      forall i | 0 <= i < 4
        ensures Replayed(hash, events[..k + 1], i) ==
                if e.mrIndex == i + 1 then Extend(hash, Replayed(hash, events[..k], i), e.digest)
                else Replayed(hash, events[..k], i)
      {
        ReplayedAppend(hash, events[..k], e, i);
      }
      var index := e.mrIndex - 1;
      var slot := ExtendSlot(hash, rtmrs[index], e.digest);
      rtmrs := rtmrs[index := slot];
      k := k + 1;
    }
    assert events[..k] == events;
    ok := report[0] == rtmrs[0][..48] && report[1] == rtmrs[1][..48]
          && report[2] == rtmrs[2][..48] && report[3] == rtmrs[3][..48];
  }

  lemma FreshSlots(hash: Bytes -> Digest)
    ensures Zeros(96)[..48] == ZERO
    ensures forall i: nat :: Replayed(hash, [], i) == ZERO
  {
  }

  /** The digest goes to the upper half, the hash of both halves to the lower half. */
  function ExtendSlot(hash: Bytes -> Digest, slot: Slot, d: Digest): (r: Slot)
    ensures r[..48] == Extend(hash, slot[..48], d)
  {
    var filled: Bytes := slot[..48] + d;
    var value: Bytes := hash(filled);
    value + d
  }

  // ---------- the log in its buffer ----------

  /** What a reader of a buffer shows: it yields the events in order, each only if it ends
      strictly before the end of the buffer. */
  function Visible(stored: seq<Event>, start: nat, capacity: nat): (shown: seq<Event>)
    ensures shown <= stored
    ensures shown == stored <==> stored == [] || start + TotalSize(stored) < capacity
  {
    if stored == [] then []
    else
      var front := stored[..|stored| - 1];
      TotalSizeGrows(stored, |stored| - 1);
      if start + TotalSize(stored) < capacity then stored else Visible(front, start, capacity)
  }

  /** A slice of the buffer one byte longer than the events shows all of them. */
  lemma SliceShowsAll(stored: seq<Event>, start: nat)
    ensures Visible(stored, start, start + TotalSize(stored) + 1) == stored
  {
  }

  /** Something to measure: the register, the bytes to hash, and the event to record. */
  datatype Entry = Entry(mrIndex: u32, raw: Bytes, tag: u32, data: Bytes)

  function Recorded(hash: Bytes -> Digest, m: Entry): Event {
    Event(m.mrIndex, hash(m.raw), TaggedEvent(m.tag, m.data))
  }

  class EventLog {
    const hash: Bytes -> Digest
    const start: nat
    const capacity: nat
    var stored: seq<Event>
    var rtmrs: seq<Digest>

    ghost predicate Valid()
      reads this
    {
      |rtmrs| == 4
    }

    constructor (hash: Bytes -> Digest, start: nat, capacity: nat, stored: seq<Event>, rtmrs: seq<Digest>)
      requires |rtmrs| == 4
      ensures Valid() && this.hash == hash && this.start == start && this.capacity == capacity
      ensures this.stored == stored && this.rtmrs == rtmrs
    {
      this.hash, this.start, this.capacity := hash, start, capacity;
      this.stored, this.rtmrs := stored, rtmrs;
    }

    function Shown(): seq<Event>
      reads this`stored
    {
      Visible(stored, start, capacity)
    }

    /** The log as shown replays to the registers. */
    ghost predicate Good()
      reads this
      requires Valid()
    {
      Verifies(hash, Shown(), rtmrs)
    }

    method EventLogSize() returns (size: nat)
      ensures size == start + TotalSize(Shown())
    {
      var shown := Shown();
      size := start;
      assert shown[..0] == [];
      for k := 0 to |shown|
        invariant size == start + TotalSize(shown[..k])
      {
        assert shown[..k + 1][..k] == shown[..k];
        size := size + shown[k].Size();
      }
      assert shown[..|shown|] == shown;
    }

    /** Extends a register; `works` says whether the TDX module does it. */
    method ExtendRtmr(digest: Digest, mrIndex: u32, works: bool) returns (r: Result<(), LogError>)
      requires Valid()
      modifies this`rtmrs
      ensures Valid()
      ensures r == if !ValidIndex(mrIndex) then Err(InvalidMrIndex) else if works then Ok(()) else Err(TdCall)
      ensures rtmrs == if r.Ok? then old(rtmrs)[mrIndex - 1 := Extend(hash, old(rtmrs[mrIndex - 1]), digest)]
                       else old(rtmrs)
    {
      if !ValidIndex(mrIndex) {
        return Err(InvalidMrIndex);
      }
      if !works {
        return Err(TdCall);
      }
      rtmrs := rtmrs[mrIndex - 1 := Extend(hash, rtmrs[mrIndex - 1], digest)];
      r := Ok(());
    }

    /** Extends a register and records the event. The register is extended before the space is
        checked, so a call that runs out of space leaves it extended. */
    method WriteTaggedEventLog(m: Entry, works: bool) returns (r: Result<nat, LogError>)
      requires Valid()
      modifies this`rtmrs, this`stored
      ensures Valid()
      ensures r == Err(InvalidMrIndex) <==> !ValidIndex(m.mrIndex)
      ensures r == Err(TdCall) <==> ValidIndex(m.mrIndex) && !works
      ensures r == Err(InvalidMrIndex) || r == Err(TdCall) ==> stored == old(stored) && rtmrs == old(rtmrs)
      ensures ValidIndex(m.mrIndex) && works ==>
                rtmrs == old(rtmrs)[m.mrIndex - 1 := Extend(hash, old(rtmrs[m.mrIndex - 1]), hash(m.raw))]
      ensures var end := start + TotalSize(old(Shown())) + Recorded(hash, m).Size();
              && (r.Ok? <==> ValidIndex(m.mrIndex) && works && end <= capacity)
              && (r.Ok? ==> r.value == end && stored == old(Shown()) + [Recorded(hash, m)])
              && (r.Err? ==> stored == old(stored))
      ensures r.Ok? && r.value < capacity ==> Shown() == stored
      ensures old(Good()) && ValidIndex(m.mrIndex) && works ==>
                var end := start + TotalSize(old(Shown())) + Recorded(hash, m).Size();
                var reg := old(rtmrs[m.mrIndex - 1]);
                Good() <==> end < capacity || Extend(hash, reg, hash(m.raw)) == reg
    {
      hide Extend, Verifies, TotalSize, Visible, TaggedEvent;
      var logSize := EventLogSize();
      var event := TaggedEvent(m.tag, m.data);
      var digest := hash(m.raw);
      var extended := ExtendRtmr(digest, m.mrIndex, works);
      if extended.Err? {
        return Err(extended.error);
      }
      ghost var e := Event(m.mrIndex, digest, event);
      if old(Good()) {
        VerifiesAfterWrite(hash, Shown(), old(rtmrs), e);
      }
      if capacity < logSize + HEADER_SIZE + |event| {
        return Err(OutOfMemory);
      }
      ghost var shown := Shown();
      stored := Shown() + [Event(m.mrIndex, digest, event)];
      VisibleAfterWrite(shown, e, start, capacity);
      r := Ok(logSize + HEADER_SIZE + |event|);
    }
  }

  /** One more event behind a log shown in full is shown unless it ends at the very end. */
  lemma VisibleAfterWrite(shown: seq<Event>, e: Event, start: nat, capacity: nat)
    requires start + TotalSize(shown) + e.Size() <= capacity
    ensures Visible(shown + [e], start, capacity) ==
            if start + TotalSize(shown) + e.Size() < capacity then shown + [e] else shown
  {
  }

  /** A log that verifies, and one more event whose digest extended its register: the new log
      verifies exactly if the event is shown, or the extension left the register as it was. */
  lemma VerifiesAfterWrite(hash: Bytes -> Digest, events: seq<Event>, rtmrs: seq<Digest>, e: Event)
    requires |rtmrs| == 4 && Verifies(hash, events, rtmrs) && ValidIndex(e.mrIndex)
    ensures var extended := rtmrs[e.mrIndex - 1 := Extend(hash, rtmrs[e.mrIndex - 1], e.digest)];
            && Verifies(hash, events + [e], extended)
            && (Verifies(hash, events, extended) <==> extended == rtmrs)
  {
    hide Extend, Replayed;
    var extended := rtmrs[e.mrIndex - 1 := Extend(hash, rtmrs[e.mrIndex - 1], e.digest)];
    forall i | 0 <= i < 4
      ensures Replayed(hash, events + [e], i) == extended[i]
    {
      ReplayedAppend(hash, events, e, i);
      assert Replayed(hash, events, i) == rtmrs[i];
    }
    assert Replayed(hash, events, e.mrIndex - 1) == rtmrs[e.mrIndex - 1];
    if Verifies(hash, events, extended) {
      assert Replayed(hash, events, e.mrIndex - 1) == extended[e.mrIndex - 1];
      assert extended == rtmrs;
    }
  }

  /** An event that fills its buffer to the last byte is recorded, but never shown. */
  lemma ExactFillIsHidden(e: Event, start: nat)
    ensures Visible([e], start, start + e.Size()) == []
  {
  }

  /** Two logs accepted against the same registers recorded the same digests for each of them,
      however they interleave the registers, unless replaying them collides. */
  lemma AcceptedLogsAgree(hash: Bytes -> Digest, a: seq<Event>, b: seq<Event>, report: seq<Digest>)
    requires |report| == 4 && Verifies(hash, a, report) && Verifies(hash, b, report)
    requires forall i | 0 <= i < 4 :: NoCollision(hash, DigestsOf(a, i), DigestsOf(b, i))
    ensures forall i | 0 <= i < 4 :: DigestsOf(a, i) == DigestsOf(b, i)
  {
    hide NoCollision, Fold, DigestsOf;
    forall i | 0 <= i < 4
      ensures DigestsOf(a, i) == DigestsOf(b, i)
    {
      assert Replayed(hash, a, i) == Replayed(hash, b, i);
      FoldTells(hash, DigestsOf(a, i), DigestsOf(b, i));
    }
  }

  // ---------- whole runs ----------

  /** The raw blobs a series of entries measures into register `i`. */
  function BlobsOf(entries: seq<Entry>, i: nat): seq<Bytes> {
    if entries == [] then []
    else
      var last := entries[|entries| - 1];
      var front := BlobsOf(entries[..|entries| - 1], i);
      if last.mrIndex == i + 1 then front + [last.raw] else front
  }

  /** A register extended with the hash of each blob in turn: what an offline tool computes. */
  function Offline(hash: Bytes -> Digest, reg: Digest, blobs: seq<Bytes>): Digest {
    if blobs == [] then reg
    else Extend(hash, Offline(hash, reg, blobs[..|blobs| - 1]), hash(blobs[|blobs| - 1]))
  }

  lemma BlobsOfAppend(entries: seq<Entry>, m: Entry, i: nat)
    ensures BlobsOf(entries + [m], i) ==
            if m.mrIndex == i + 1 then BlobsOf(entries, i) + [m.raw] else BlobsOf(entries, i)
  {
  }

  lemma OfflineAppend(hash: Bytes -> Digest, reg: Digest, blobs: seq<Bytes>, blob: Bytes)
    ensures Offline(hash, reg, blobs + [blob]) == Extend(hash, Offline(hash, reg, blobs), hash(blob))
  {
  }

  /** Every register holds what folding the blobs measured into it gives. */
  ghost predicate Folded(hash: Bytes -> Digest, before: seq<Digest>, entries: seq<Entry>, now: seq<Digest>) {
    |before| == |now| == 4 && forall i | 0 <= i < 4 :: now[i] == Offline(hash, before[i], BlobsOf(entries, i))
  }

  lemma FoldedAppend(hash: Bytes -> Digest, before: seq<Digest>, entries: seq<Entry>, now: seq<Digest>, m: Entry)
    requires Folded(hash, before, entries, now) && ValidIndex(m.mrIndex)
    ensures Folded(hash, before, entries + [m],
                   now[m.mrIndex - 1 := Extend(hash, now[m.mrIndex - 1], hash(m.raw))])
  {
  }

  /** The bytes a series of entries takes in the log. */
  function SizeOf(hash: Bytes -> Digest, entries: seq<Entry>): nat {
    if entries == [] then 0
    else SizeOf(hash, entries[..|entries| - 1]) + Recorded(hash, entries[|entries| - 1]).Size()
  }

  /** The entries name registers, and leave at least a spare byte behind a log of `size` bytes. */
  ghost predicate Writable(hash: Bytes -> Digest, size: nat, capacity: nat, entries: seq<Entry>) {
    && (forall k | 0 <= k < |entries| :: ValidIndex(entries[k].mrIndex))
    && (entries == [] || size + SizeOf(hash, entries) < capacity)
  }

  lemma {:induction false} SizeOfPrefix(hash: Bytes -> Digest, entries: seq<Entry>, k: nat)
    requires k <= |entries|
    ensures SizeOf(hash, entries[..k]) <= SizeOf(hash, entries)
  {
    if k < |entries| {
      SizeOfPrefix(hash, entries[..|entries| - 1], k);
      assert entries[..|entries| - 1][..k] == entries[..k];
    } else {
      assert entries[..k] == entries;
    }
  }

  /** An entry that cannot be written keeps the series from being written. */
  lemma NotWritable(hash: Bytes -> Digest, size: nat, capacity: nat, entries: seq<Entry>, k: nat)
    requires k < |entries|
    requires !ValidIndex(entries[k].mrIndex)
             || size + SizeOf(hash, entries[..k]) + Recorded(hash, entries[k]).Size() >= capacity
    ensures !Writable(hash, size, capacity, entries)
  {
    hide Recorded;
    SizeOfPrefix(hash, entries, k + 1);
    assert entries[..k + 1][..k] == entries[..k];
  }

  lemma SizeGrows(hash: Bytes -> Digest, stored: seq<Event>, entries: seq<Entry>, m: Entry)
    ensures TotalSize(stored + [Recorded(hash, m)]) == TotalSize(stored) + Recorded(hash, m).Size()
    ensures SizeOf(hash, entries + [m]) == SizeOf(hash, entries) + Recorded(hash, m).Size()
  {
    assert (entries + [m])[..|entries|] == entries;
    assert (stored + [Recorded(hash, m)])[..|stored|] == stored;
  }

  lemma WritableNone(hash: Bytes -> Digest, size: nat, capacity: nat)
    ensures Writable(hash, size, capacity, []) && SizeOf(hash, []) == 0
  {
  }

  lemma WritableOne(hash: Bytes -> Digest, size: nat, capacity: nat, entries: seq<Entry>, m: Entry)
    requires Writable(hash, size, capacity, entries) && ValidIndex(m.mrIndex)
    requires size + SizeOf(hash, entries + [m]) < capacity
    ensures Writable(hash, size, capacity, entries + [m])
  {
    hide SizeOf;
  }

  lemma FoldedNone(hash: Bytes -> Digest, rtmrs: seq<Digest>)
    requires |rtmrs| == 4
    ensures Folded(hash, rtmrs, [], rtmrs)
  {
  }

  /** Writes the entries one after the other, as long as each succeeds and leaves a spare byte.
      That goes through exactly if the TDX module works, all name registers and all fit with a
      byte to spare.
      From a log that verifies, the log then still verifies, and every register holds the fold
      of the blobs measured into it. */
  method WriteAll(log: EventLog, entries: seq<Entry>, works: seq<bool>) returns (ok: bool)
    requires |works| == |entries|
    requires log.Valid() && log.Good() && log.Shown() == log.stored
    modifies log`rtmrs, log`stored
    ensures log.Valid()
    ensures ok <==> Writable(log.hash, log.start + TotalSize(old(log.stored)), log.capacity, entries) && false !in works
    ensures ok ==> log.Good() && log.Shown() == log.stored
    ensures ok ==> log.stored == old(log.stored)
                                 + seq(|entries|, k requires 0 <= k < |entries| => Recorded(log.hash, entries[k]))
    ensures ok ==> Folded(log.hash, old(log.rtmrs), entries, log.rtmrs)
  {
    hide Verifies, TotalSize, Visible, Recorded, Extend, Folded, SizeOf, Writable;
    FoldedNone(log.hash, log.rtmrs);
    ghost var size := log.start + TotalSize(log.stored);
    WritableNone(log.hash, size, log.capacity);
    var k := 0;
    assert entries[..0] == [];
    while k < |entries|
      invariant 0 <= k <= |entries|
      invariant log.Valid() && log.Good() && log.Shown() == log.stored
      invariant log.start + TotalSize(log.stored) == size + SizeOf(log.hash, entries[..k])
      invariant Writable(log.hash, size, log.capacity, entries[..k]) && forall j | 0 <= j < k :: works[j]
      invariant log.stored == old(log.stored) + seq(k, j requires 0 <= j < k => Recorded(log.hash, entries[j]))
      invariant Folded(log.hash, old(log.rtmrs), entries[..k], log.rtmrs)
    {
      ghost var was, before := log.rtmrs, log.stored;
      var r := log.WriteTaggedEventLog(entries[k], works[k]);
      if r.Err? || r.value >= log.capacity {
        if works[k] {
          NotWritable(log.hash, size, log.capacity, entries, k);
        }
        return false;
      }
      assert entries[..k + 1] == entries[..k] + [entries[k]];
      SizeGrows(log.hash, before, entries[..k], entries[k]);
      WritableOne(log.hash, size, log.capacity, entries[..k], entries[k]);
      FoldedAppend(log.hash, old(log.rtmrs), entries[..k], was, entries[k]);
      assert log.Shown() == log.stored;
      k := k + 1;
    }
    assert entries[..k] == entries;
    ok := true;
  }
}
