/**
 * The width of a candidate line and its raggedness, `w(i, j)` and `r(i, j)`
 * of the source.  A candidate line holds the words `i` through `j`
 * (inclusive) of the paragraph; the width 0 stands for "not a valid line".
 */
module Cost {
  import opened Text

  /** Every word is non-empty and no longer than the line width. */
  predicate WordsFit(words: seq<string>, L: int)
  {
    forall t :: 0 <= t < |words| ==> 1 <= |words[t]| <= L
  }

  /** The sum of `|words[t]| + 1` over `t` in `[i, j)`: the width loop's total
      before it takes off the space after the last word. */
  function Spaced(words: seq<string>, i: nat, j: int): int
    requires j <= |words|
    decreases j - i
  {
    if j <= i then 0 else Spaced(words, i, j - 1) + |words[j - 1]| + 1
  }

  /** `w(i, j)`: the printed width of words `i..j`, or 0 when `j` is past the
      last word or the width is not in `(0, L]`. */
  function Width(words: seq<string>, L: int, i: nat, j: int): (r: int)
    requires i <= j + 1
    ensures j >= |words| ==> r == 0
    ensures r == 0 || 0 < r <= L
  {
    if j + 1 > |words| then 0
    else
      var width := Spaced(words, i, j + 1) - 1;
      if width > 0 && width <= L then width else 0
  }

  /** `r(i, j)`: the squared slack of a line of words `i..j`. */
  function Raggedness(words: seq<string>, L: int, i: nat, j: int): (r: int)
    requires i <= j + 1
    ensures r >= 0
    ensures r == 0 <==> Width(words, L, i, j) == L
  {
    var slack := L - Width(words, L, i, j);
    SquareFacts(slack);
    slack * slack
  }

  lemma SquareFacts(x: int)
    ensures x * x >= 0
    ensures x * x == 0 <==> x == 0
  {
    if x < 0 {
      assert x * x == (-x) * (-x);
    }
  }

  /** The printed width is the length of the words joined by single spaces. */
  lemma {:induction false} SpacedIsJoinedLength(words: seq<string>, i: nat, j: nat)
    requires i < j <= |words|
    ensures |Joined(words[i..j])| == Spaced(words, i, j) - 1
    decreases j - i
  {
    if j - i > 1 {
      SpacedIsJoinedLength(words, i, j - 1);
      assert words[i..j][..j - i - 1] == words[i..j - 1];
    } else {
      assert Spaced(words, i, j - 1) == 0;
    }
  }

  /** `w(i, j)` agrees with the length of the printed line `words[i..j]`:
      it is that length when the line is non-empty and fits, and 0 otherwise. */
  lemma WidthIsPrintedLength(words: seq<string>, L: int, i: nat, j: int)
    requires i <= j + 1
    ensures j < |words| ==>
      var printed := |Joined(words[i..j + 1])|;
      Width(words, L, i, j) == if 0 < printed <= L then printed else 0
  {
    if j < |words| {
      if i <= j {
        SpacedIsJoinedLength(words, i, j + 1);
      } else {
        assert words[i..j + 1] == [];
      }
    }
  }

  /** While every word is non-empty, a line gets wider by at least two
      columns per word added. */
  lemma {:induction false} SpacedGrows(words: seq<string>, L: int, i: nat, j: int, j': int)
    requires WordsFit(words, L)
    requires i <= j <= j' <= |words|
    ensures Spaced(words, i, j') >= Spaced(words, i, j) + 2 * (j' - j)
    decreases j' - j
  {
    if j < j' {
      SpacedGrows(words, L, i, j, j' - 1);
    }
  }

  /** A single word always forms a valid line. */
  lemma SingleWordFits(words: seq<string>, L: int, i: nat)
    requires WordsFit(words, L) && i < |words|
    ensures Width(words, L, i, i) == |words[i]|
  {
    assert Spaced(words, i, i + 1) == |words[i]| + 1;
  }

  /** If words `i..j` fit on a line, so do words `i..j'` for `i <= j' <= j`. */
  lemma ShorterLineFits(words: seq<string>, L: int, i: nat, j': int, j: int)
    requires WordsFit(words, L)
    requires i <= j' <= j && Width(words, L, i, j) > 0
    ensures Width(words, L, i, j') > 0
  {
    SpacedGrows(words, L, i, j' + 1, j + 1);
    SpacedGrows(words, L, i, i, j' + 1);
  }
}
