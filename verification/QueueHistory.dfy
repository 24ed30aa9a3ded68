/** What a virtqueue owes its caller over a whole run: every completion hands back
    the buffers of exactly one earlier `add`. */
module QueueHistory {
  import opened Words
  import opened Slots

  datatype Event =
    | Added(head: nat, posting: Posting)
    | Returned(head: nat, posting: Posting, len: u32)

  /** The postings the device still owns after `log`, by chain head. */
  function Outstanding(log: seq<Event>): map<nat, Posting> {
    if log == [] then map[]
    else
      var before := Outstanding(log[..|log| - 1]);
      match log[|log| - 1]
      case Added(h, p) => before[h := p]
      case Returned(h, _, _) => before - {h}
  }

  /** How many chains were returned. */
  function Returns(log: seq<Event>): nat {
    if log == [] then 0
    else Returns(log[..|log| - 1]) + (if log[|log| - 1].Returned? then 1 else 0)
  }

  /** How many buffers the device holds: those offered less those returned. */
  function InFlight(log: seq<Event>): int {
    if log == [] then 0
    else
      var last := log[|log| - 1];
      var n := |last.posting.Bufs()|;
      InFlight(log[..|log| - 1]) + (if last.Added? then n else -n)
  }

  lemma CountOne(log: seq<Event>, e: Event)
    ensures Returns(log + [e]) == Returns(log) + (if e.Returned? then 1 else 0)
    ensures InFlight(log + [e]) == InFlight(log) + (if e.Added? then |e.posting.Bufs()| else -|e.posting.Bufs()|)
  {
    assert (log + [e])[..|log|] == log;
  }

  /** A head is offered only while it is not outstanding, and returned only while it
      is, with the buffers it was offered with and a length within them. */
  ghost predicate Legal(log: seq<Event>) {
    log == [] ||
    var before := log[..|log| - 1];
    && Legal(before)
    && match log[|log| - 1]
       case Added(h, p) => h !in Outstanding(before)
       case Returned(h, p, len) =>
         && h in Outstanding(before)
         && Outstanding(before)[h] == p
         && len <= SaturatedLength(p.Bufs())
  }

  /** Every chain is of one buffer. */
  ghost predicate Singles(log: seq<Event>) {
    forall k | 0 <= k < |log| :: |log[k].posting.Bufs()| == 1
  }

  /** What is outstanding was offered. */
  lemma SinglePosting(log: seq<Event>, h: nat)
    requires Singles(log) && h in Outstanding(log)
    ensures |Outstanding(log)[h].Bufs()| == 1
  {
    var i := OutstandingHasOffer(log, h);
  }

  lemma RemovedOne(m: map<nat, Posting>, h: nat)
    requires h in m
    ensures |m - {h}| == |m| - 1
  {
    assert (m - {h})[h := m[h]] == m;
  }

  /** With chains of one buffer, the buffers in flight are the heads outstanding. */
  lemma {:induction false} InFlightCountsHeads(log: seq<Event>)
    requires Legal(log) && Singles(log)
    ensures InFlight(log) == |Outstanding(log)|
  {
    if log != [] {
      var n := |log| - 1;
      var before := Outstanding(log[..n]);
      assert forall k | 0 <= k < n :: log[..n][k] == log[k];
      InFlightCountsHeads(log[..n]);
      if log[n].Returned? {
        RemovedOne(before, log[n].head);
      }
    }
  }

  /** The event at `i` offered what the event at `j` returned, and nothing in between
      used the same head. */
  ghost predicate Matches(log: seq<Event>, i: nat, j: nat) {
    && i < j < |log|
    && log[i].Added? && log[j].Returned?
    && log[i].head == log[j].head
    && log[i].posting == log[j].posting
    && forall k | i < k < j :: log[k].head != log[j].head
  }

  /** `i` is the offer that made `h` outstanding at the end of `log`. */
  ghost predicate OffersLast(log: seq<Event>, i: nat, h: nat) {
    && i < |log|
    && log[i].Added? && log[i].head == h
    && forall k | i < k < |log| :: log[k].head != h
  }

  lemma {:induction false} OutstandingHasOffer(log: seq<Event>, h: nat) returns (i: nat)
    requires h in Outstanding(log)
    ensures OffersLast(log, i, h)
    ensures log[i].posting == Outstanding(log)[h]
  {
    var n := |log| - 1;
    if log[n].head == h {
      i := n;
    } else {
      i := OutstandingHasOffer(log[..n], h);
      assert forall k | 0 <= k < n :: log[..n][k] == log[k];
    }
  }

  lemma {:induction false} LegalPrefix(log: seq<Event>, j: nat)
    requires Legal(log) && j <= |log|
    ensures Legal(log[..j])
  {
    if j < |log| {
      LegalPrefix(log[..|log| - 1], j);
      assert log[..|log| - 1][..j] == log[..j];
    } else {
      assert log[..j] == log;
    }
  }

  lemma LegalReturn(log: seq<Event>, j: nat)
    requires Legal(log)
    requires j < |log| && log[j].Returned?
    ensures log[j].head in Outstanding(log[..j]) && Outstanding(log[..j])[log[j].head] == log[j].posting
    ensures log[j].len <= SaturatedLength(log[j].posting.Bufs())
  {
    LegalPrefix(log, j + 1);
    assert log[..j + 1][..j] == log[..j];
  }

  /** Every return answers one earlier offer with the same buffers, and its length
      stays within them. */
  lemma ReturnHasOffer(log: seq<Event>, j: nat)
    requires Legal(log)
    requires j < |log| && log[j].Returned?
    ensures exists i: nat :: Matches(log, i, j)
    ensures log[j].len <= TotalLength(log[j].posting.Bufs())
  {
    hide Legal;
    LegalReturn(log, j);
    var i := OutstandingHasOffer(log[..j], log[j].head);
    assert log[..j][i] == log[i];
    forall k | i < k < j
      ensures log[k].head != log[j].head
    {
      assert log[..j][k] == log[k];
    }
    assert Matches(log, i, j);
    SaturatedLengthIsCappedTotal(log[j].posting.Bufs());
  }

  /** No offer is returned twice, and no return answers two offers. */
  lemma MatchIsOneToOne(log: seq<Event>, i: nat, j: nat, i': nat, j': nat)
    requires Matches(log, i, j) && Matches(log, i', j')
    ensures i == i' <==> j == j'
  {
  }

  /** What is still outstanding is exactly what was offered and not yet returned. */
  lemma {:induction false} OutstandingIffUnreturned(log: seq<Event>, h: nat)
    requires Legal(log)
    ensures h in Outstanding(log) <==> exists i: nat :: OffersLast(log, i, h)
  {
    if h in Outstanding(log) {
      var i := OutstandingHasOffer(log, h);
    }
    if i: nat :| OffersLast(log, i, h) {
      KeptUntilReturned(log, i, h);
    }
  }

  lemma {:induction false} KeptUntilReturned(log: seq<Event>, i: nat, h: nat)
    requires OffersLast(log, i, h)
    ensures h in Outstanding(log)
  {
    var n := |log| - 1;
    if i < n {
      assert forall k | 0 <= k < n :: log[..n][k] == log[k];
      KeptUntilReturned(log[..n], i, h);
    }
  }
}
