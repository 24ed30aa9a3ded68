/** The overlap test on the regions a device names: sort by base, then compare neighbours. */
module Intervals {
  import opened Words
  import opened Mmio

  /** `[base, end)`; an entry never set is `[0, 0)`. */
  datatype Interval = Interval(base: u64, end: u64)

  predicate Proper(a: Interval) {
    a.base <= a.end
  }

  predicate Apart(a: Interval, b: Interval) {
    a.end <= b.base || b.end <= a.base
  }

  /** Both intervals are away from address 0, or they need not be apart. */
  predicate ApartUnlessZero(a: Interval, b: Interval) {
    a.base == 0 || b.base == 0 || Apart(a, b)
  }

  // ---------- sorting ----------

  /** `x` put behind the last entry that does not start above it. */
  function Insert(s: seq<Interval>, x: Interval): (r: seq<Interval>)
    ensures |r| == |s| + 1
  {
    if s == [] || s[|s| - 1].base <= x.base then s + [x]
    else Insert(s[..|s| - 1], x) + [s[|s| - 1]]
  }

  function SortByBase(s: seq<Interval>): (r: seq<Interval>)
    ensures |r| == |s|
  {
    if s == [] then [] else Insert(SortByBase(s[..|s| - 1]), s[|s| - 1])
  }

  ghost predicate Sorted(s: seq<Interval>) {
    forall i, j | 0 <= i < j < |s| :: s[i].base <= s[j].base
  }

  ghost predicate AtMost(s: seq<Interval>, b: nat) {
    forall i | 0 <= i < |s| :: s[i].base <= b
  }

  lemma {:induction false} InsertAtMost(s: seq<Interval>, x: Interval, b: nat)
    requires AtMost(s, b) && x.base <= b
    ensures AtMost(Insert(s, x), b)
    decreases |s|
  {
    if s != [] && s[|s| - 1].base > x.base {
      InsertAtMost(s[..|s| - 1], x, b);
    }
  }

  lemma {:induction false} InsertSorts(s: seq<Interval>, x: Interval)
    requires Sorted(s)
    ensures Sorted(Insert(s, x))
    decreases |s|
  {
    if s != [] && s[|s| - 1].base > x.base {
      var front, last := s[..|s| - 1], s[|s| - 1];
      InsertSorts(front, x);
      InsertAtMost(front, x, last.base);
    }
  }

  lemma {:induction false} InsertKeeps(s: seq<Interval>, x: Interval)
    ensures multiset(Insert(s, x)) == multiset(s) + multiset{x}
    decreases |s|
  {
    if s != [] && s[|s| - 1].base > x.base {
      var front, last := s[..|s| - 1], s[|s| - 1];
      InsertKeeps(front, x);
      assert s == front + [last];
    }
  }

  /** Sorting gives the same intervals, in order. */
  lemma {:induction false} SortSorts(s: seq<Interval>)
    ensures Sorted(SortByBase(s)) && multiset(SortByBase(s)) == multiset(s)
    decreases |s|
  {
    hide Insert, Sorted;
    if s != [] {
      var front, last := s[..|s| - 1], s[|s| - 1];
      SortSorts(front);
      InsertSorts(SortByBase(front), last);
      InsertKeeps(SortByBase(front), last);
      assert s == front + [last];
    } else {
      SortedNone();
    }
  }

  lemma SortedNone()
    ensures Sorted([])
  {
  }

  /** Insertion sort in place. */
  method SortInPlace(a: array<Interval>)
    modifies a
    ensures a[..] == SortByBase(old(a[..]))
  {
    ghost var was := a[..];
    var i := 0;
    while i < a.Length
      invariant 0 <= i <= a.Length
      invariant a[..i] == SortByBase(was[..i])
      invariant a[i..] == was[i..]
    {
      assert was[..i + 1][..i] == was[..i];
      InsertInPlace(a, i);
      i := i + 1;
    }
    assert was[..i] == was && a[..i] == a[..];
  }

  /** The first `i` entries with `x` moved down to place `j`, and the rest. */
  ghost function Moved(s: seq<Interval>, x: Interval, j: nat, rest: seq<Interval>): seq<Interval>
    requires j <= |s|
  {
    s[..j] + [x] + s[j..] + rest
  }

  lemma MovedDown(s: seq<Interval>, x: Interval, j: nat, rest: seq<Interval>)
    requires 0 < j <= |s|
    ensures Moved(s, x, j, rest)[j - 1] == s[j - 1] && Moved(s, x, j, rest)[j] == x
    ensures Moved(s, x, j, rest)[j - 1 := x][j := s[j - 1]] == Moved(s, x, j - 1, rest)
    ensures s[j - 1].base > x.base ==> Insert(s[..j], x) + s[j..] == Insert(s[..j - 1], x) + s[j - 1..]
  {
    assert s[..j][..j - 1] == s[..j - 1];
    assert [s[j - 1]] + s[j..] == s[j - 1..];
  }

  method InsertInPlace(a: array<Interval>, i: nat)
    requires i < a.Length
    modifies a
    ensures a[..i + 1] == Insert(old(a[..i]), old(a[i]))
    ensures a[i + 1..] == old(a[i + 1..])
  {
    hide Insert, Moved;
    ghost var s, rest := a[..i], a[i + 1..];
    var x := a[i];
    var j := i;
    MovedStart(a[..], i);
    while j > 0 && a[j - 1].base > x.base
      invariant 0 <= j <= i
      invariant a[..] == Moved(s, x, j, rest)
      invariant Insert(s, x) == Insert(s[..j], x) + s[j..]
    {
      MovedDown(s, x, j, rest);
      ghost var now := a[..];
      assert a[j - 1] == now[j - 1] && a[j] == now[j];
      a[j - 1], a[j] := x, a[j - 1];
      assert a[..] == now[j - 1 := x][j := s[j - 1]];
      j := j - 1;
    }
    if j > 0 {
      MovedDown(s, x, j, rest);
      assert a[j - 1] == a[..][j - 1];
    }
    MovedEnd(s, x, j, rest);
    assert a[..i + 1] == a[..][..i + 1] && a[i + 1..] == a[..][i + 1..];
  }

  lemma MovedStart(a: seq<Interval>, i: nat)
    requires i < |a|
    ensures a == Moved(a[..i], a[i], i, a[i + 1..])
    ensures Insert(a[..i], a[i]) == Insert(a[..i][..i], a[i]) + a[..i][i..]
  {
    assert a[..i][..i] == a[..i] && a[..i][i..] == [];
  }

  lemma MovedEnd(s: seq<Interval>, x: Interval, j: nat, rest: seq<Interval>)
    requires j <= |s| && (j > 0 ==> s[j - 1].base <= x.base)
    ensures Moved(s, x, j, rest)[..|s| + 1] == Insert(s[..j], x) + s[j..]
    ensures Moved(s, x, j, rest)[|s| + 1..] == rest
  {
  }

  // ---------- comparing neighbours ----------

  /** The test of entry `i` against the one before it. */
  predicate Passes(s: seq<Interval>, i: nat)
    requires 1 <= i < |s|
  {
    s[i].base == 0 || s[i].end == 0 || s[i - 1].end <= s[i].base
  }

  ghost predicate AllPass(s: seq<Interval>) {
    forall k | 1 <= k < |s| :: Passes(s, k)
  }

  method NeighboursApart(a: array<Interval>) returns (ok: bool)
    ensures ok <==> AllPass(a[..])
  {
    var i := 1;
    while i < a.Length
      invariant 1 <= i && forall k | 1 <= k < i && k < a.Length :: Passes(a[..], k)
    {
      if a[i].base != 0 && a[i].end != 0 && a[i].base < a[i - 1].end {
        assert !Passes(a[..], i);
        return false;
      }
      i := i + 1;
    }
    ok := true;
  }

  /** In a sorted row whose neighbours pass, an entry away from 0 ends before every later one. */
  lemma {:induction false} PassesFar(s: seq<Interval>, i: nat, j: nat)
    requires Sorted(s) && (forall k | 0 <= k < |s| :: Proper(s[k]))
    requires AllPass(s)
    requires i < j < |s| && s[i].base != 0
    ensures s[i].end <= s[j].base
    decreases j - i
  {
    assert Passes(s, i + 1);
    assert s[i].base <= s[i + 1].base;
    if i + 1 < j {
      PassesFar(s, i + 1, j);
      assert Proper(s[i + 1]);
    }
  }

  /** What the test accepts, exactly: entries away from 0 end before all later ones, and the
      last entry at 0 ends before the first one away from it. */
  lemma AcceptedExactly(s: seq<Interval>)
    requires Sorted(s) && (forall k | 0 <= k < |s| :: Proper(s[k]))
    ensures AllPass(s) <==>
            && (forall i, j | 0 <= i < j < |s| && s[i].base != 0 :: s[i].end <= s[j].base)
            && (forall k | 1 <= k < |s| && s[k - 1].base == 0 && s[k].base != 0 :: s[k - 1].end <= s[k].base)
  {
    if AllPass(s) {
      forall i, j | 0 <= i < j < |s| && s[i].base != 0
        ensures s[i].end <= s[j].base
      {
        PassesFar(s, i, j);
      }
      forall k | 1 <= k < |s| && s[k - 1].base == 0 && s[k].base != 0
        ensures s[k - 1].end <= s[k].base
      {
        assert Passes(s, k) && Proper(s[k]);
      }
    }
  }

  // ---------- every pair ----------

  ghost predicate AllFrom(s: seq<Interval>, x: Interval) {
    forall i | 0 <= i < |s| :: ApartUnlessZero(s[i], x)
  }

  ghost predicate PairsApart(s: seq<Interval>) {
    s == [] || (PairsApart(s[..|s| - 1]) && AllFrom(s[..|s| - 1], s[|s| - 1]))
  }

  lemma {:induction false} PairsApartMeans(s: seq<Interval>, i: nat, j: nat)
    requires PairsApart(s) && i < j < |s|
    ensures ApartUnlessZero(s[i], s[j])
  {
    var front := s[..|s| - 1];
    if j < |s| - 1 {
      PairsApartMeans(front, i, j);
      assert front[i] == s[i] && front[j] == s[j];
    } else {
      assert front[i] == s[i];
    }
  }

  lemma {:induction false} InsertAllFrom(s: seq<Interval>, x: Interval, y: Interval)
    ensures AllFrom(Insert(s, x), y) <==> AllFrom(s, y) && ApartUnlessZero(x, y)
    decreases |s|
  {
    if s == [] || s[|s| - 1].base <= x.base {
      AllFromAppend(s, x, y);
    } else {
      var front, last := s[..|s| - 1], s[|s| - 1];
      InsertAllFrom(front, x, y);
      AllFromAppend(Insert(front, x), last, y);
      AllFromAppend(front, last, y);
      assert s == front + [last];
    }
  }

  lemma AllFromAppend(s: seq<Interval>, x: Interval, y: Interval)
    ensures AllFrom(s + [x], y) <==> AllFrom(s, y) && ApartUnlessZero(x, y)
  {
    var t := s + [x];
    if AllFrom(t, y) {
      assert t[|s|] == x;
      forall i | 0 <= i < |s| ensures ApartUnlessZero(s[i], y) {
        assert t[i] == s[i];
      }
    }
  }

  lemma PairsApartAppend(s: seq<Interval>, x: Interval)
    ensures PairsApart(s + [x]) <==> PairsApart(s) && AllFrom(s, x)
  {
  }

  lemma {:induction false} InsertPairs(s: seq<Interval>, x: Interval)
    ensures PairsApart(Insert(s, x)) <==> PairsApart(s) && AllFrom(s, x)
    decreases |s|
  {
    if s == [] || s[|s| - 1].base <= x.base {
      PairsApartAppend(s, x);
    } else {
      var front, last := s[..|s| - 1], s[|s| - 1];
      assert s == front + [last];
      InsertPairs(front, x);
      InsertAllFrom(front, x, last);
      PairsApartAppend(Insert(front, x), last);
      PairsApartAppend(front, last);
      AllFromAppend(front, last, x);
    }
  }

  /** Whether all pairs are apart does not depend on the order. */
  lemma {:induction false} SortPairs(s: seq<Interval>)
    ensures PairsApart(SortByBase(s)) <==> PairsApart(s)
    decreases |s|
  {
    if s != [] {
      var front, last := s[..|s| - 1], s[|s| - 1];
      SortPairs(front);
      InsertPairs(SortByBase(front), last);
      SortAllFrom(front, last);
    }
  }

  lemma {:induction false} SortAllFrom(s: seq<Interval>, y: Interval)
    ensures AllFrom(SortByBase(s), y) <==> AllFrom(s, y)
    decreases |s|
  {
    if s != [] {
      var front, last := s[..|s| - 1], s[|s| - 1];
      SortAllFrom(front, y);
      InsertAllFrom(SortByBase(front), last, y);
      AllFromAppend(front, last, y);
      assert s == front + [last];
    }
  }

  /** Neighbours that pass after sorting make every two entries away from 0 disjoint. */
  lemma NeighboursSuffice(s: seq<Interval>, i: nat, j: nat)
    requires forall k | 0 <= k < |s| :: Proper(s[k])
    requires AllPass(SortByBase(s))
    requires i < j < |s|
    ensures ApartUnlessZero(s[i], s[j])
  {
    hide SortByBase, Passes;
    var r := SortByBase(s);
    SortSorts(s);
    forall k | 0 <= k < |r| ensures Proper(r[k]) {
      assert r[k] in multiset(r);
      assert r[k] in multiset(s);
    }
    SortedPairs(r, |r|);
    assert r[..|r|] == r;
    SortPairs(s);
    PairsApartMeans(s, i, j);
  }

  lemma {:induction false} SortedPairs(r: seq<Interval>, n: nat)
    requires Sorted(r) && (forall k | 0 <= k < |r| :: Proper(r[k]))
    requires AllPass(r)
    requires n <= |r|
    ensures PairsApart(r[..n])
  {
    if n > 0 {
      SortedPairs(r, n - 1);
      assert r[..n][..n - 1] == r[..n - 1];
      forall i | 0 <= i < n - 1
        ensures ApartUnlessZero(r[i], r[n - 1])
      {
        if r[i].base != 0 {
          PassesFar(r, i, n - 1);
        }
      }
    }
  }

  /** Every entry ends before each later one that is away from 0. */
  ghost predicate EndsBeforeLater(r: seq<Interval>) {
    forall i, j | 0 <= i < j < |r| && r[j].base != 0 :: r[i].end <= r[j].base
  }

  /** Every entry whose successor is at 0 ends before each later one that is away from 0. */
  ghost predicate HiddenEndBefore(r: seq<Interval>) {
    forall i, j | 0 <= i && i + 1 < j < |r| && r[i + 1].base == 0 && r[j].base != 0 :: r[i].end <= r[j].base
  }

  /** What the neighbour test misses: exactly the entries that hide behind a successor at 0. */
  lemma MissedExactly(r: seq<Interval>)
    requires Sorted(r) && (forall k | 0 <= k < |r| :: Proper(r[k]))
    requires AllPass(r)
    ensures EndsBeforeLater(r) <==> HiddenEndBefore(r)
  {
    if HiddenEndBefore(r) {
      forall i, j | 0 <= i < j < |r| && r[j].base != 0
        ensures r[i].end <= r[j].base
      {
        if r[i + 1].base != 0 {
          assert Passes(r, i + 1) && Proper(r[i + 1]);
          assert i + 1 < j ==> r[i + 1].base <= r[j].base;
        }
      }
    }
  }

  /** A row of entries in which the one at 0 covers those of two others. */
  function CoveringRow(): seq<Interval> {
    [Interval(0, 0), Interval(0xC000_0000, 0xC000_1000), Interval(0xC000_1000, 0xC000_2000),
     Interval(0, 0xD000_0000), Interval(0, 0), Interval(0xC000_2000, 0xC000_2010)]
  }

  function CoveringSorted(): seq<Interval> {
    [Interval(0, 0), Interval(0, 0xD000_0000), Interval(0, 0), Interval(0xC000_0000, 0xC000_1000),
     Interval(0xC000_1000, 0xC000_2000), Interval(0xC000_2000, 0xC000_2010)]
  }

  lemma SortStep(s: seq<Interval>, x: Interval)
    ensures SortByBase(s + [x]) == Insert(SortByBase(s), x)
  {
    assert (s + [x])[..|s|] == s;
  }

  /** An entry at 0 goes behind those at 0 and before the others. */
  lemma {:induction false} InsertAtZero(zeros: seq<Interval>, others: seq<Interval>, x: Interval)
    requires zeros != [] && zeros[|zeros| - 1].base == 0 && x.base == 0
    requires forall k | 0 <= k < |others| :: others[k].base != 0
    ensures Insert(zeros + others, x) == zeros + [x] + others
    decreases |others|
  {
    if others == [] {
      assert zeros + others == zeros;
    } else {
      var n := |others| - 1;
      InsertAtZero(zeros, others[..n], x);
      assert (zeros + others)[..|zeros| + n] == zeros + others[..n];
      assert others[..n] + [others[n]] == others;
    }
  }

  lemma InsertAtEnd(s: seq<Interval>, x: Interval)
    requires s == [] || s[|s| - 1].base <= x.base
    ensures Insert(s, x) == s + [x]
  {
  }

  /** Sorting a row of six is inserting its entries one after the other. */
  lemma SortSix(a: Interval, b: Interval, c: Interval, d: Interval, e: Interval, f: Interval)
    ensures SortByBase([a, b, c, d, e, f]) == Insert(Insert(Insert(SortByBase([a, b, c]), d), e), f)
  {
    hide SortByBase, Insert;
    SortStep([a, b, c], d);
    SortStep([a, b, c, d], e);
    SortStep([a, b, c, d, e], f);
    assert [a, b, c] + [d] == [a, b, c, d] && [a, b, c, d] + [e] == [a, b, c, d, e];
    assert [a, b, c, d, e] + [f] == [a, b, c, d, e, f];
  }

  lemma SortThree(a: Interval, b: Interval, c: Interval)
    requires a.base <= b.base <= c.base
    ensures SortByBase([a, b, c]) == [a, b, c]
  {
    SortStep([], a);
    SortStep([a], b);
    SortStep([a, b], c);
    assert [] + [a] == [a] && [a] + [b] == [a, b] && [a, b] + [c] == [a, b, c];
  }

  /** A row whose set entries increase sorts by moving its unset ones to the front. */
  lemma IncreasingSorts(zero: Interval, a: Interval, b: Interval, c: Interval, d: Interval)
    requires zero.base == 0 < a.base <= b.base <= c.base <= d.base
    ensures SortByBase([zero, a, b, c, zero, d]) == [zero, zero, a, b, c, d]
  {
    hide SortByBase, Insert;
    SortSix(zero, a, b, c, zero, d);
    SortThree(zero, a, b);
    InsertAtEnd([zero, a, b], c);
    assert [zero, a, b] + [c] == [zero] + [a, b, c];
    InsertAtZero([zero], [a, b, c], zero);
    InsertAtEnd([zero, zero, a, b, c], d);
    assert [zero] + [zero] + [a, b, c] == [zero, zero, a, b, c];
  }

  lemma CoveringSorts()
    ensures SortByBase(CoveringRow()) == CoveringSorted()
  {
    hide SortByBase, Insert;
    var zero, isr := Interval(0, 0), Interval(0, 0xD000_0000);
    var a, b, c := CoveringRow()[1], CoveringRow()[2], CoveringRow()[5];
    SortSix(zero, a, b, isr, zero, c);
    SortThree(zero, a, b);
    assert [zero, a, b] == [zero] + [a, b];
    InsertAtZero([zero], [a, b], isr);
    assert [zero] + [isr] + [a, b] == [zero, isr] + [a, b];
    InsertAtZero([zero, isr], [a, b], zero);
    assert [zero, isr] + [zero] + [a, b] == [zero, isr, zero, a, b];
    InsertAtEnd([zero, isr, zero, a, b], c);
  }

  /** Why the test says nothing about an entry at 0: here one covers two others whole. */
  lemma ZeroBaseEscapes()
    ensures var s := CoveringRow();
            AllPass(SortByBase(s)) && !Apart(s[3], s[1]) && !Apart(s[3], s[2])
    ensures !HiddenEndBefore(SortByBase(CoveringRow()))
  {
    CoveringSorts();
    var r := CoveringSorted();
    assert r[1].end > r[3].base && r[1 + 1].base == 0;
  }
}
