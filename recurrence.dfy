/**
 * The recurrence computed by `c(i, k, last)`: the least total raggedness of
 * laying out words `i .. n-1-last` of an `n`-word paragraph, the last `last`
 * words being reserved for the unscored final line.  The line number `k`
 * plays no part in the value, only in the memo key, so it is absent here.
 */
module Recurrence {
  import opened Cost

  /** A memo entry: the least cost from a position on, and the offset `d`
      such that the first line of the winning layout holds words `i..i+d`
      (-1 when there is no line to lay out). */
  datatype Entry = Entry(cost: int, offset: int)

  /** `Collections.min`. */
  function SeqMin(s: seq<int>): (m: int)
    requires |s| > 0
    ensures m in s
    ensures forall x :: x in s ==> m <= x
  {
    if |s| == 1 then s[0]
    else
      var rest := SeqMin(s[1..]);
      assert forall x :: x in s ==> x == s[0] || x in s[1..];
      if s[0] <= rest then s[0] else rest
  }

  /** `List.indexOf`: the first position of `x` in `s`, or -1. */
  function FirstIndex(s: seq<int>, x: int): (k: int)
    ensures x !in s ==> k == -1
    ensures x in s ==> 0 <= k < |s| && s[k] == x && forall j :: 0 <= j < k ==> s[j] != x
  {
    if |s| == 0 then -1
    else if s[0] == x then 0
    else
      var k := FirstIndex(s[1..], x);
      if k == -1 then -1 else k + 1
  }

  /** The scan condition of `c`: words `i..l` fit on a line and end before
      the reserved tail. */
  predicate Fits(words: seq<string>, L: int, last: nat, i: nat, l: int)
    requires i <= l + 1
  {
    Width(words, L, i, l) > 0 && l <= |words| - 1 - last
  }

  /** The `raggedness` list that `c(i, k, last)` builds, from candidate end
      `l` on: one cost per line end while the line fits. */
  function Costs(words: seq<string>, L: int, last: nat, i: nat, l: nat): seq<int>
    requires WordsFit(words, L) && i <= l
    decreases |words| - i, 0, |words| - l
  {
    if Fits(words, L, last, i, l) then
      [Raggedness(words, L, i, l) + Opt(words, L, last, l + 1).cost] + Costs(words, L, last, i, l + 1)
    else []
  }

  /** The value `c(i, k, last)` returns, for any `k`. */
  function Opt(words: seq<string>, L: int, last: nat, i: nat): Entry
    requires WordsFit(words, L)
    decreases |words| - i, 1, 0
  {
    if i > |words| - 1 - last then Entry(0, -1)
    else
      SingleWordFits(words, L, i);
      var costs := Costs(words, L, last, i, i);
      var minimum := SeqMin(costs);
      Entry(minimum, FirstIndex(costs, minimum))
  }

  /** The cost of choosing the line `i..l` and then laying out the rest optimally. */
  function Candidate(words: seq<string>, L: int, last: nat, i: nat, l: nat): int
    requires WordsFit(words, L) && i <= l
  {
    Raggedness(words, L, i, l) + Opt(words, L, last, l + 1).cost
  }

  /** The `raggedness` list holds exactly the candidates of the fitting line
      ends, in increasing order of the end. */
  lemma {:induction false} CostsAreCandidates(words: seq<string>, L: int, last: nat, i: nat, l0: nat)
    requires WordsFit(words, L) && i <= l0
    ensures var costs := Costs(words, L, last, i, l0);
      forall l: nat :: l0 <= l < l0 + |costs| ==>
        Fits(words, L, last, i, l) && costs[l - l0] == Candidate(words, L, last, i, l)
    ensures forall l: nat :: l0 <= l && Fits(words, L, last, i, l) ==>
      l < l0 + |Costs(words, L, last, i, l0)|
    decreases |words| - l0
  {
    var costs := Costs(words, L, last, i, l0);
    if Fits(words, L, last, i, l0) {
      CostsAreCandidates(words, L, last, i, l0 + 1);
      var rest := Costs(words, L, last, i, l0 + 1);
      assert costs == [Candidate(words, L, last, i, l0)] + rest;
      forall d | 1 <= d < |costs|
        ensures costs[d] == rest[d - 1]
      {
      }
    } else {
      forall l: nat | l0 <= l && Fits(words, L, last, i, l)
        ensures false
      {
        ShorterLineFits(words, L, i, l0, l);
      }
    }
  }

  /** The recurrence of `c`: no line is left at or past the reserved tail;
      otherwise the cost is the least candidate over all fitting first
      lines, and the offset names the first line end that reaches it. */
  lemma OptRecurrence(words: seq<string>, L: int, last: nat, i: nat)
    requires WordsFit(words, L)
    ensures var e := Opt(words, L, last, i);
      (e.offset == -1 <==> i > |words| - 1 - last) &&
      (i > |words| - 1 - last ==> e.cost == 0) &&
      (e.offset != -1 ==>
        0 <= e.offset &&
        Fits(words, L, last, i, i + e.offset) &&
        e.cost == Candidate(words, L, last, i, i + e.offset) &&
        (forall l: nat :: i <= l && Fits(words, L, last, i, l) ==> e.cost <= Candidate(words, L, last, i, l)) &&
        (forall l: nat :: i <= l < i + e.offset ==> Candidate(words, L, last, i, l) > e.cost))
  {
    if i <= |words| - 1 - last {
      var e := Opt(words, L, last, i);
      SingleWordFits(words, L, i);
      CostsAreCandidates(words, L, last, i, i);
      var costs := Costs(words, L, last, i, i);
      assert Fits(words, L, last, i, i);
      forall l: nat | i <= l && Fits(words, L, last, i, l)
        ensures e.cost <= Candidate(words, L, last, i, l)
      {
        assert costs[l - i] in costs;
      }
      forall l: nat | i <= l < i + e.offset
        ensures Candidate(words, L, last, i, l) > e.cost
      {
        assert costs[l - i] != e.cost;
        assert costs[l - i] in costs;
      }
    }
  }

  /** The candidates of the line ends `i .. l-1`, in that order: what the
      scan of `c` has collected when it reaches `l`. */
  function Scanned(words: seq<string>, L: int, last: nat, i: nat, l: nat): (costs: seq<int>)
    requires WordsFit(words, L) && i <= l
    ensures |costs| == l - i
    decreases l - i
  {
    if l == i then [] else Scanned(words, L, last, i, l - 1) + [Candidate(words, L, last, i, l - 1)]
  }

  lemma {:induction false} ScannedAt(words: seq<string>, L: int, last: nat, i: nat, l: nat)
    requires WordsFit(words, L) && i <= l
    ensures forall d :: 0 <= d < l - i ==> Scanned(words, L, last, i, l)[d] == Candidate(words, L, last, i, i + d)
    decreases l - i
  {
    if l > i {
      ScannedAt(words, L, last, i, l - 1);
    }
  }

  /** Once the scan of `c` stops at the first line end `l` that does not
      fit, the candidates it collected are the whole `raggedness` list, and
      their least element and its first position are the recurrence's value. */
  lemma OptFromScan(words: seq<string>, L: int, last: nat, i: nat, l: nat)
    requires WordsFit(words, L) && i <= l && i <= |words| - 1 - last
    requires !Fits(words, L, last, i, l) && (i < l ==> Fits(words, L, last, i, l - 1))
    ensures var costs := Scanned(words, L, last, i, l);
      |costs| > 0 &&
      Opt(words, L, last, i) == Entry(SeqMin(costs), FirstIndex(costs, SeqMin(costs)))
  {
    SingleWordFits(words, L, i);
    assert Fits(words, L, last, i, i);
    CostsAreCandidates(words, L, last, i, i);
    ScannedAt(words, L, last, i, l);
    var costs := Scanned(words, L, last, i, l);
    var all := Costs(words, L, last, i, i);
    assert l - 1 < i + |all|;
    forall d | 0 <= d < |costs|
      ensures costs[d] == all[d]
    {
      assert all[i + d - i] == Candidate(words, L, last, i, i + d);
    }
    assert costs == all;
  }

  /** A layout of words `i .. end-1`: a sequence of line sizes, each line
      holding at least one word and fitting. */
  predicate IsLayout(words: seq<string>, L: int, end: int, i: nat, sizes: seq<nat>)
    decreases |sizes|
  {
    if sizes == [] then i == end
    else
      1 <= sizes[0] && i + sizes[0] <= end && Width(words, L, i, i + sizes[0] - 1) > 0 &&
      IsLayout(words, L, end, i + sizes[0], sizes[1..])
  }

  /** The total raggedness of the lines of a layout starting at word `i`. */
  function LayoutCost(words: seq<string>, L: int, i: nat, sizes: seq<nat>): int
    decreases |sizes|
  {
    if sizes == [] then 0
    else Raggedness(words, L, i, i + sizes[0] - 1) + LayoutCost(words, L, i + sizes[0], sizes[1..])
  }

  /** The layout that following the offsets of `Opt` produces. */
  function OptSizes(words: seq<string>, L: int, last: nat, i: nat): seq<nat>
    requires WordsFit(words, L)
    decreases |words| - i
  {
    var e := Opt(words, L, last, i);
    if e.offset < 0 then []
    else
      OptRecurrence(words, L, last, i);
      [e.offset + 1] + OptSizes(words, L, last, i + e.offset + 1)
  }

  /** The winning offsets form a layout of the scored words whose total
      raggedness is the cost `Opt` reports. */
  lemma {:induction false} OptAchieved(words: seq<string>, L: int, last: nat, i: nat)
    requires WordsFit(words, L) && i <= |words| - last
    ensures IsLayout(words, L, |words| - last, i, OptSizes(words, L, last, i))
    ensures LayoutCost(words, L, i, OptSizes(words, L, last, i)) == Opt(words, L, last, i).cost
    decreases |words| - i
  {
    OptIsLayout(words, L, last, i);
    OptCostAchieved(words, L, last, i);
  }

  lemma {:induction false} OptIsLayout(words: seq<string>, L: int, last: nat, i: nat)
    requires WordsFit(words, L) && i <= |words| - last
    ensures IsLayout(words, L, |words| - last, i, OptSizes(words, L, last, i))
    decreases |words| - i
  {
    if i <= |words| - 1 - last {
      OptStep(words, L, last, i);
      OptIsLayout(words, L, last, i + Opt(words, L, last, i).offset + 1);
    } else {
      assert Opt(words, L, last, i) == Entry(0, -1);
    }
  }

  lemma {:induction false} OptCostAchieved(words: seq<string>, L: int, last: nat, i: nat)
    requires WordsFit(words, L) && i <= |words| - last
    ensures LayoutCost(words, L, i, OptSizes(words, L, last, i)) == Opt(words, L, last, i).cost
    decreases |words| - i
  {
    if i <= |words| - 1 - last {
      OptStep(words, L, last, i);
      OptCostAchieved(words, L, last, i + Opt(words, L, last, i).offset + 1);
    } else {
      assert Opt(words, L, last, i) == Entry(0, -1);
    }
  }

  /** While there are words before the reserved tail, the recurrence names
      a first line. */
  lemma OptHasLine(words: seq<string>, L: int, last: nat, i: nat)
    requires WordsFit(words, L)
    ensures Opt(words, L, last, i).offset >= 0 <==> i <= |words| - 1 - last
  {
    OptRecurrence(words, L, last, i);
  }

  /** One step of the winning layout, while there are words before the
      reserved tail: its first line fits, its cost is that line's raggedness
      plus the winning cost after it, and the layout goes on from the word
      after it. */
  lemma OptStep(words: seq<string>, L: int, last: nat, i: nat)
    requires WordsFit(words, L) && i <= |words| - 1 - last
    ensures Opt(words, L, last, i).offset >= 0
    ensures var next := i + Opt(words, L, last, i).offset + 1;
      next <= |words| - last && Width(words, L, i, next - 1) > 0 &&
      Opt(words, L, last, i).cost == Raggedness(words, L, i, next - 1) + Opt(words, L, last, next).cost
    ensures var next := i + Opt(words, L, last, i).offset + 1;
      var sizes := OptSizes(words, L, last, i);
      |sizes| > 0 && sizes[0] == next - i && sizes[1..] == OptSizes(words, L, last, next)
  {
    OptRecurrence(words, L, last, i);
    var e := Opt(words, L, last, i);
    assert e.offset >= 0;
    var next := i + e.offset + 1;
    assert Fits(words, L, last, i, next - 1);
    var rest := OptSizes(words, L, last, next);
    assert OptSizes(words, L, last, i) == [next - i] + rest;
    assert ([next - i] + rest)[1..] == rest;
  }

  /** No layout of the scored words costs less than `Opt`. */
  lemma {:induction false} OptMinimal(words: seq<string>, L: int, last: nat, i: nat, sizes: seq<nat>)
    requires WordsFit(words, L)
    requires IsLayout(words, L, |words| - last, i, sizes)
    ensures Opt(words, L, last, i).cost <= LayoutCost(words, L, i, sizes)
    decreases |sizes|
  {
    OptRecurrence(words, L, last, i);
    if sizes != [] {
      var l := i + sizes[0] - 1;
      assert Fits(words, L, last, i, l);
      OptMinimal(words, L, last, l + 1, sizes[1..]);
    }
  }
}
