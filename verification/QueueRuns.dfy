/** What a run of the virtqueue means for its caller, in terms of calls and answers. */
module QueueRuns {
  import opened Words
  import opened Slots
  import opened QueueState
  import opened QueueHistory
  import opened VirtQueues

  /** Every step recorded what its answer says. */
  ghost predicate Recorded(size: nat, steps: seq<Step>, answers: seq<Answer>, ess: seq<seq<Event>>) {
    && |steps| == |answers| == |ess| && 0 < size <= MAX_QUEUE_SIZE
    && (forall i | 0 <= i < |steps| && steps[i].DriverPops? :: WellSized(steps[i].used))
    && forall i | 0 <= i < |steps| :: Records(size, Concat(ess[..i]), steps[i], answers[i], ess[i])
  }

  /** Where the events of step `i` start in the history. */
  ghost function At(ess: seq<seq<Event>>, i: nat): nat
    requires i <= |ess|
  {
    |Concat(ess[..i])|
  }

  /** The pop at step `j` answers the add at step `i`. */
  ghost predicate AnswersAdd(ess: seq<seq<Event>>, i: nat, j: nat) {
    && i < |ess| && j < |ess| && |ess[i]| == |ess[j]| == 1
    && Matches(Concat(ess), At(ess, i), At(ess, j))
  }

  lemma {:induction false} ConcatAt(ess: seq<seq<Event>>, i: nat)
    requires i < |ess|
    ensures Concat(ess[..i]) + ess[i] <= Concat(ess)
    decreases |ess|
  {
    var n := |ess| - 1;
    if i < n {
      var front := ess[..n];
      ConcatAt(front, i);
      assert front[..i] == ess[..i] && front[i] == ess[i];
    }
  }

  lemma AtGrows(ess: seq<seq<Event>>, i: nat, j: nat)
    requires i < j <= |ess|
    ensures At(ess, i) + |ess[i]| <= At(ess, j)
  {
    ConcatAt(ess[..j], i);
    assert ess[..j][..i] == ess[..i];
  }

  lemma {:induction false} StepOf(ess: seq<seq<Event>>, k: nat) returns (i: nat)
    requires k < |Concat(ess)| && forall j | 0 <= j < |ess| :: |ess[j]| <= 1
    ensures i < |ess| && |ess[i]| == 1 && At(ess, i) == k && Concat(ess)[k] == ess[i][0]
    decreases |ess|
  {
    var n := |ess| - 1;
    var front := ess[..n];
    if k < |Concat(front)| {
      i := StepOf(front, k);
      assert front[..i] == ess[..i];
    } else {
      i := n;
    }
  }

  lemma AtMostOne(size: nat, steps: seq<Step>, answers: seq<Answer>, ess: seq<seq<Event>>)
    requires Recorded(size, steps, answers, ess)
    ensures forall j | 0 <= j < |ess| :: |ess[j]| <= 1
  {
    hide Concat, InFlight, Returns, Outstanding, SaturatedLength, ElemAt;
    forall j | 0 <= j < |ess| ensures |ess[j]| <= 1 {
      assert Records(size, Concat(ess[..j]), steps[j], answers[j], ess[j]);
    }
  }

  predicate Popped(answer: Answer) {
    answer.Buffers? && answer.len.Ok?
  }

  /** How many pops succeeded. */
  function Pops(answers: seq<Answer>): nat {
    if answers == [] then 0
    else Pops(answers[..|answers| - 1]) + (if Popped(answers[|answers| - 1]) then 1 else 0)
  }

  /** How many buffers a step lends to the device, or gets back if negative. */
  function Lends(step: Step, answer: Answer): int {
    if step.DriverAdds? && answer.Head? && answer.head.Ok? then |step.g2h + step.h2g|
    else if step.DriverPops? && Popped(answer) then -|answer.g2h + answer.h2g|
    else 0
  }

  /** How many buffers are lent after the steps. */
  function Lent(steps: seq<Step>, answers: seq<Answer>): int
    requires |steps| == |answers|
  {
    if steps == [] then 0
    else
      var n := |steps| - 1;
      Lent(steps[..n], answers[..n]) + Lends(steps[n], answers[n])
  }

  lemma StepCounts(size: nat, log: seq<Event>, step: Step, answer: Answer, es: seq<Event>)
    requires 0 < size <= MAX_QUEUE_SIZE && (step.DriverPops? ==> WellSized(step.used))
    requires Records(size, log, step, answer, es)
    ensures Returns(log + es) == Returns(log) + (if Popped(answer) then 1 else 0)
    ensures InFlight(log + es) == InFlight(log) + Lends(step, answer)
  {
    hide InFlight, Returns, Outstanding, SaturatedLength, ElemAt;
    if es == [] {
      assert log + es == log;
    } else {
      CountOne(log, es[0]);
      assert es == [es[0]];
    }
  }

  /** The counts of the history are those a caller can make from the answers. */
  lemma {:induction false} CountsAgree(size: nat, steps: seq<Step>, answers: seq<Answer>, ess: seq<seq<Event>>, i: nat)
    requires Recorded(size, steps, answers, ess) && i <= |steps|
    ensures Returns(Concat(ess[..i])) == Pops(answers[..i])
    ensures InFlight(Concat(ess[..i])) == Lent(steps[..i], answers[..i])
  {
    hide InFlight, Returns, Lends, Popped, Records;
    if i == 0 {
      CountNone();
    } else {
      var n := i - 1;
      CountsAgree(size, steps, answers, ess, n);
      StepCounts(size, Concat(ess[..n]), steps[n], answers[n], ess[n]);
      assert ess[..i][..n] == ess[..n];
      assert answers[..i][..n] == answers[..n] && steps[..i][..n] == steps[..n];
    }
  }

  lemma CountNone()
    ensures Returns([]) == 0 && InFlight([]) == 0
  {
  }

  /** An add succeeds exactly if it has buffers and they fit beside those lent. */
  lemma AddSucceedsExactly(size: nat, steps: seq<Step>, answers: seq<Answer>, ess: seq<seq<Event>>, i: nat)
    requires Recorded(size, steps, answers, ess) && i < |steps| && steps[i].DriverAdds?
    ensures answers[i].Head?
    ensures var own := |steps[i].g2h + steps[i].h2g|;
            answers[i].head.Ok? <==> own > 0 && Lent(steps[..i], answers[..i]) + own <= size
  {
    hide InFlight, Concat, Lent;
    CountsAgree(size, steps, answers, ess, i);
    assert Records(size, Concat(ess[..i]), steps[i], answers[i], ess[i]);
  }

  /** The element a pop at step `j` reads. */
  function ElemOf(size: nat, steps: seq<Step>, answers: seq<Answer>, j: nat): UsedElem
    requires 0 < size <= MAX_QUEUE_SIZE && j < |steps| && j <= |answers|
    requires steps[j].DriverPops? && WellSized(steps[j].used)
  {
    ElemAt(size, Pops(answers[..j]), steps[j].used)
  }

  /** Head `h` was given out at step `i` and no call up to step `j` used it since. */
  ghost predicate HeldSince(answers: seq<Answer>, ess: seq<seq<Event>>, i: nat, j: nat, h: nat)
    requires j <= |answers| == |ess|
  {
    && i < j && answers[i].Head? && answers[i].head == Ok(h)
    && forall k | i < k < j && ess[k] != [] :: ess[k][0].head != h
  }


  lemma RecordedPrefix(size: nat, steps: seq<Step>, answers: seq<Answer>, ess: seq<seq<Event>>, j: nat)
    requires Recorded(size, steps, answers, ess) && j <= |steps|
    ensures Recorded(size, steps[..j], answers[..j], ess[..j])
  {
    hide Records;
    assert forall i | 0 <= i < j :: ess[..j][..i] == ess[..i];
  }

  /** A head given out and not used since is outstanding. */
  lemma HeldIsOutstanding(size: nat, steps: seq<Step>, answers: seq<Answer>, ess: seq<seq<Event>>, i: nat, h: nat)
    requires Recorded(size, steps, answers, ess)
    requires HeldSince(answers, ess, i, |answers|, h)
    ensures h in Outstanding(Concat(ess))
  {
    hide Concat, Returns, InFlight, Outstanding, SaturatedLength, ElemAt;
    var log, at := Concat(ess), At(ess, i);
    assert Records(size, Concat(ess[..i]), steps[i], answers[i], ess[i]);
    ConcatAt(ess, i);
    assert log[at] == ess[i][0];
    AtMostOne(size, steps, answers, ess);
    forall m | at < m < |log|
      ensures log[m].head != h
    {
      var k := StepOf(ess, m);
      if k < i {
        AtGrows(ess, k, i);
      }
    }
    KeptUntilReturned(log, at, h);
  }

  /** An outstanding head was given out and not used since. */
  lemma OutstandingIsHeld(size: nat, steps: seq<Step>, answers: seq<Answer>, ess: seq<seq<Event>>, h: nat)
    returns (i: nat)
    requires Recorded(size, steps, answers, ess)
    requires h in Outstanding(Concat(ess))
    ensures HeldSince(answers, ess, i, |answers|, h)
  {
    hide Concat, Returns, InFlight, Outstanding, SaturatedLength, ElemAt;
    var log := Concat(ess);
    var at := OutstandingHasOffer(log, h);
    AtMostOne(size, steps, answers, ess);
    i := StepOf(ess, at);
    assert Records(size, Concat(ess[..i]), steps[i], answers[i], ess[i]);
    forall k | i < k < |answers| && ess[k] != []
      ensures ess[k][0].head != h
    {
      AtGrows(ess, i, k);
      ConcatAt(ess, k);
      assert log[At(ess, k)] == ess[k][0];
    }
  }

  /** A pop succeeds exactly if the ring has something new and names a head that was given out
      and not used since. */
  lemma PopSucceedsExactly(size: nat, steps: seq<Step>, answers: seq<Answer>, ess: seq<seq<Event>>, j: nat)
    requires Recorded(size, steps, answers, ess) && j < |steps| && steps[j].DriverPops?
    ensures answers[j].Buffers?
    ensures var h := Low16(ElemOf(size, steps, answers, j).id);
            answers[j].len.Ok? <==>
            Pops(answers[..j]) % TWO_16 != steps[j].used.idx && exists i: nat :: HeldSince(answers, ess, i, j, h)
  {
    hide Concat, Returns, InFlight, Outstanding, SaturatedLength, ElemAt, Pops, Lent;
    CountsAgree(size, steps, answers, ess, j);
    RecordedPrefix(size, steps, answers, ess, j);
    assert Records(size, Concat(ess[..j]), steps[j], answers[j], ess[j]);
    var h := Low16(ElemOf(size, steps, answers, j).id);
    if h in Outstanding(Concat(ess[..j])) {
      var i := OutstandingIsHeld(size, steps[..j], answers[..j], ess[..j], h);
      assert HeldSince(answers, ess, i, j, h);
    }
    if i: nat :| HeldSince(answers, ess, i, j, h) {
      assert HeldSince(answers[..j], ess[..j], i, j, h);
      HeldIsOutstanding(size, steps[..j], answers[..j], ess[..j], i, h);
    }
  }

  /** Every successful pop answers one earlier successful add: the one whose head the device
      named. Its caller gets exactly the buffers that add was given, in order and split the
      same way, and the length reported, cut to theirs. */
  lemma PopAnswersAdd(size: nat, steps: seq<Step>, answers: seq<Answer>, ess: seq<seq<Event>>, j: nat) returns (i: nat)
    requires Recorded(size, steps, answers, ess) && Legal(Concat(ess))
    requires j < |steps| && steps[j].DriverPops? && Popped(answers[j])
    ensures i < j && AnswersAdd(ess, i, j)
    ensures steps[i] == DriverAdds(answers[j].g2h, answers[j].h2g)
    ensures answers[i].Head? && answers[i].head == Ok(Low16(ElemOf(size, steps, answers, j).id))
    ensures answers[j].len.value == Min(ElemOf(size, steps, answers, j).len,
                                        SaturatedLength(answers[j].g2h + answers[j].h2g))
    ensures answers[j].len.value <= TotalLength(answers[j].g2h + answers[j].h2g)
  {
    hide Legal, Concat, Returns, InFlight, Outstanding, SaturatedLength, ElemAt, Pops, Lent;
    CountsAgree(size, steps, answers, ess, j);
    assert Records(size, Concat(ess[..j]), steps[j], answers[j], ess[j]);
    ConcatAt(ess, j);
    var log, at := Concat(ess), At(ess, j);
    assert log[at] == ess[j][0];
    ReturnHasOffer(log, at);
    var k: nat :| Matches(log, k, at);
    AtMostOne(size, steps, answers, ess);
    i := StepOf(ess, k);
    if j < i {
      AtGrows(ess, j, i);
    }
    assert Records(size, Concat(ess[..i]), steps[i], answers[i], ess[i]);
  }

  /** No add is answered twice, and no pop answers two adds. */
  lemma AnswersOnce(ess: seq<seq<Event>>, i: nat, j: nat, i': nat, j': nat)
    requires AnswersAdd(ess, i, j) && AnswersAdd(ess, i', j')
    ensures i == i' <==> j == j'
  {
    hide Concat;
    MatchIsOneToOne(Concat(ess), At(ess, i), At(ess, j), At(ess, i'), At(ess, j'));
    SamePlace(ess, i, i');
    SamePlace(ess, j, j');
  }

  lemma SamePlace(ess: seq<seq<Event>>, i: nat, j: nat)
    requires i < |ess| && j < |ess| && |ess[i]| == |ess[j]| == 1
    ensures At(ess, i) == At(ess, j) <==> i == j
  {
    hide Concat;
    if i < j {
      AtGrows(ess, i, j);
    } else if j < i {
      AtGrows(ess, j, i);
    }
  }
}
