/**
 * The search of `minimizeTotalRaggedness` over the number of words reserved
 * for the final, unscored line.
 */
module TailSearch {
  import opened Cost
  import opened Recurrence

  /** The final `j` words fit on one line. */
  predicate TailFits(words: seq<string>, L: int, j: nat)
    requires j <= |words|
  {
    var width := Width(words, L, |words| - j, |words| - 1);
    width > 0 && width <= L
  }

  /** The tail lengths the search tries: 1 always, and every `j` in `2..n`
      whose final `j` words fit on one line. */
  predicate Tried(words: seq<string>, L: int, j: nat)
  {
    j == 1 || (2 <= j <= |words| && TailFits(words, L, j))
  }

  /** `c(0, 0, j)[0]`: the least raggedness of the paragraph when the final
      line holds the last `j` words. */
  function TotalCost(words: seq<string>, L: int, j: nat): int
    requires WordsFit(words, L)
  {
    Opt(words, L, j, 0).cost
  }

  /** The search loop from tail length `j` on, with the best `(minimum, last)`
      found so far; a later tail length replaces it only if strictly cheaper. */
  function SearchFrom(words: seq<string>, L: int, j: nat, minimum: int, last: nat): (int, nat)
    requires WordsFit(words, L)
    decreases |words| + 1 - j
  {
    if j > |words| then (minimum, last)
    else if TailFits(words, L, j) && minimum > TotalCost(words, L, j) then
      SearchFrom(words, L, j + 1, TotalCost(words, L, j), j)
    else
      SearchFrom(words, L, j + 1, minimum, last)
  }

  /** The `{minimum, last}` pair the search returns. */
  function BestTail(words: seq<string>, L: int): (int, nat)
    requires WordsFit(words, L)
  {
    SearchFrom(words, L, 2, TotalCost(words, L, 1), 1)
  }

  /** The loop invariant of the search, carried to its end. */
  lemma {:induction false} SearchFromSpec(words: seq<string>, L: int, j: nat, minimum: int, last: nat)
    requires WordsFit(words, L)
    requires 1 <= last < j && Tried(words, L, last) && minimum == TotalCost(words, L, last)
    requires forall t: nat :: t < j && Tried(words, L, t) ==> minimum <= TotalCost(words, L, t)
    requires forall t: nat :: t < last && Tried(words, L, t) ==> minimum < TotalCost(words, L, t)
    ensures var (m, b) := SearchFrom(words, L, j, minimum, last);
      1 <= b && Tried(words, L, b) && m == TotalCost(words, L, b) &&
      (forall t: nat :: Tried(words, L, t) ==> m <= TotalCost(words, L, t)) &&
      (forall t: nat :: t < b && Tried(words, L, t) ==> m < TotalCost(words, L, t))
    decreases |words| + 1 - j
  {
    if j <= |words| {
      if TailFits(words, L, j) && minimum > TotalCost(words, L, j) {
        SearchFromSpec(words, L, j + 1, TotalCost(words, L, j), j);
      } else {
        SearchFromSpec(words, L, j + 1, minimum, last);
      }
    }
  }

  /** The chosen tail length is tried, its cost is the minimum over all
      tried tail lengths, and every smaller tried tail length costs strictly
      more (ties keep the smaller tail length). */
  lemma BestTailSpec(words: seq<string>, L: int)
    requires WordsFit(words, L)
    ensures var (m, b) := BestTail(words, L);
      1 <= b && (|words| >= 1 ==> b <= |words|) && Tried(words, L, b) &&
      m == TotalCost(words, L, b) &&
      (forall t: nat :: Tried(words, L, t) ==> m <= TotalCost(words, L, t)) &&
      (forall t: nat :: t < b && Tried(words, L, t) ==> m < TotalCost(words, L, t))
  {
    SearchFromSpec(words, L, 2, TotalCost(words, L, 1), 1);
  }

  /** The chosen pair is the only one with the properties of BestTailSpec:
      the least tried tail length among those of least cost. */
  lemma BestTailUnique(words: seq<string>, L: int, m: int, b: nat)
    requires WordsFit(words, L)
    requires Tried(words, L, b) && m == TotalCost(words, L, b)
    requires forall t: nat :: Tried(words, L, t) ==> m <= TotalCost(words, L, t)
    requires forall t: nat :: t < b && Tried(words, L, t) ==> m < TotalCost(words, L, t)
    ensures BestTail(words, L) == (m, b)
  {
    BestTailSpec(words, L);
  }

  /** The winning layout: following the offsets for the chosen tail length
      lays out the first `n - last` words at the reported cost. */
  lemma BestLayoutAchieved(words: seq<string>, L: int)
    requires WordsFit(words, L) && |words| >= 1
    ensures var (m, b) := BestTail(words, L);
      IsLayout(words, L, |words| - b, 0, OptSizes(words, L, b, 0)) &&
      LayoutCost(words, L, 0, OptSizes(words, L, b, 0)) == m
  {
    BestTailSpec(words, L);
    OptAchieved(words, L, BestTail(words, L).1, 0);
  }

  /** No layout of the paragraph costs less than the chosen one, whatever
      tried tail length it reserves for its final line. */
  lemma BestLayoutOptimal(words: seq<string>, L: int, j: nat, sizes: seq<nat>)
    requires WordsFit(words, L)
    requires Tried(words, L, j) && IsLayout(words, L, |words| - j, 0, sizes)
    ensures BestTail(words, L).0 <= LayoutCost(words, L, 0, sizes)
  {
    BestTailSpec(words, L);
    OptMinimal(words, L, j, 0, sizes);
  }
}
