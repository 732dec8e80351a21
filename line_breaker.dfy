/**
 * The line breaker's state and its methods: the paragraph, the line width,
 * the memo table of `c` and the number of words on the last line, the last
 * two updated in place as the program does.  Each method is proved against
 * the functions of the other modules.
 */
module LineBreaking {
  import opened Text
  import opened Cost
  import opened Recurrence
  import opened Memo
  import opened TailSearch
  import opened Reconstruction

  class LineBreaker {
    const L: int
    const words: seq<string>
    var lastLineWords: int
    var memo: Table

    /** A breaker for one paragraph of the input: its line width and its
        words, with an empty memo. */
    constructor (width: int, paragraph: seq<string>)
      ensures L == width && words == paragraph
      ensures lastLineWords == 0 && memo == map[]
    {
      L := width;
      words := paragraph;
      lastLineWords := 0;
      memo := map[];
    }

    /** `w(i, j)`: the width loop over words `i..j`. */
    method W(i: nat, j: int) returns (width: int)
      requires i <= j + 1
      ensures width == Width(words, L, i, j)
    {
      width := 0;
      if j + 1 > |words| {
        return 0;
      }
      var t := i;
      while t < j + 1
        invariant i <= t <= j + 1
        invariant width == Spaced(words, i, t)
      {
        width := width + |words[t]| + 1;
        t := t + 1;
      }
      width := width - 1;
      if !(width > 0 && width <= L) {
        width := 0;
      }
    }

    /** `r(i, j)`: the square of the slack of the line `i..j`. */
    method R(i: nat, j: int) returns (r: int)
      requires i <= j + 1
      ensures r == Raggedness(words, L, i, j)
    {
      var width := W(i, j);
      var slack := L - width;
      r := slack * slack;
    }

    /** `c(i, k, last)`: computes the recurrence's value at `i`, filling the
        memo with the entries after every fitting first line and with its own
        entry.  The memo stays consistent and closed and only grows. */
    method C(i: nat, k: int, last: nat) returns (cost: int, offset: int)
      requires WordsFit(words, L) && Agrees(words, L, last, memo) && Closed(memo)
      modifies this`memo
      ensures Entry(cost, offset) == Opt(words, L, last, i)
      ensures Agrees(words, L, last, memo) && Closed(memo)
      ensures old(memo).Keys <= memo.Keys
      ensures offset >= 0 ==> (i, k) in memo
      decreases |words| - i, 1
    {
      if i > |words| - 1 - last {
        return 0, -1;
      }
      SingleWordFits(words, L, i);
      var next := k + 1;
      var raggedness: seq<int> := [];
      var l := i;
      var width := W(i, l);
      while width > 0 && l <= |words| - 1 - last
        invariant i <= l
        invariant width == Width(words, L, i, l)
        invariant raggedness == Scanned(words, L, last, i, l)
        invariant i < l ==> Fits(words, L, last, i, l - 1)
        invariant forall m :: i < m <= l ==> (m, next) in memo
        invariant Agrees(words, L, last, memo) && Closed(memo)
        invariant old(memo).Keys <= memo.Keys
        decreases |words| - l
      {
        var after := Lookup(l, next, last);
        var r := R(i, l);
        raggedness := raggedness + [r + after];
        l := l + 1;
        width := W(i, l);
      }
      var minimum := SeqMin(raggedness);
      var index := FirstIndex(raggedness, minimum);
      StoreScanned(words, L, last, memo, i, k, next, l);
      memo := memo[(i, k) := Entry(minimum, index)];
      return minimum, index;
    }

    /** The memo access of the scan of `c` at line end `l` (line `k` being
        the next line): the entry for key `(l + 1, k)` is computed and stored
        if it is missing, and its cost is read. */
    method Lookup(l: nat, k: int, last: nat) returns (cost: int)
      requires WordsFit(words, L) && Agrees(words, L, last, memo) && Closed(memo)
      requires l <= |words| - 1 - last
      modifies this`memo
      ensures cost == Opt(words, L, last, l + 1).cost
      ensures Agrees(words, L, last, memo) && Closed(memo)
      ensures old(memo).Keys <= memo.Keys && (l + 1, k) in memo
      decreases |words| - l, 0
    {
      var key := (l + 1, k);
      if key !in memo {
        var c, o := C(l + 1, k, last);
        StoreKeeps(words, L, last, memo, key, Entry(c, o));
        memo := memo[key := Entry(c, o)];
      }
      cost := memo[key].cost;
    }

    /** `minimizeTotalRaggedness()`: tries every tail length in `2..n` whose
        words fit on one line, keeps the first cheapest, then fills the memo
        once more for the chosen one. */
    method MinimizeTotalRaggedness() returns (minimum: int, last: nat)
      requires WordsFit(words, L)
      modifies this`memo
      ensures (minimum, last) == BestTail(words, L)
      ensures Agrees(words, L, last, memo) && Closed(memo)
      ensures last < |words| ==> (0, 0) in memo
    {
      memo := map[];
      last := 1;
      var i := 2;
      var offset;
      minimum, offset := C(0, 0, last);
      while i <= |words|
        invariant 2 <= i
        invariant SearchFrom(words, L, i, minimum, last) == BestTail(words, L)
        decreases |words| + 1 - i
      {
        var w1 := W(|words| - i, |words| - 1);
        var w2 := W(|words| - i, |words| - 1);
        if w1 > 0 && w2 <= L {
          memo := map[];
          var candidate, _ := C(0, 0, i);
          if minimum > candidate {
            minimum, offset := C(0, 0, i);
            last := i;
          }
        }
        i := i + 1;
      }
      memo := map[];
      var _, final := C(0, 0, last);
      OptHasLine(words, L, last, 0);
    }

    /** Appends the words `i .. j-1`, each followed by a space, then drops the
        trailing space: the words joined by single spaces. */
    method AppendLine(s: string, i: nat, j: nat) returns (t: string)
      requires i < j <= |words|
      ensures t == s + Joined(words[i..j])
    {
      t := s;
      var idx := i;
      while idx < j
        invariant i <= idx <= j
        invariant t == s + WithSpaces(words[i..idx])
      {
        assert words[i..idx + 1][..idx - i] == words[i..idx];
        t := t + words[idx] + " ";
        idx := idx + 1;
      }
      WithSpacesIsJoined(words[i..j]);
      t := t[..|t| - 1];
    }

    /** `backtracking()`: the whole paragraph on one line when the last line
        holds every word; otherwise the lines the memo names from key
        `(0, 0)` on, then the last line's words, without a trailing newline. */
    method Backtracking() returns (s: string)
      requires WordsFit(words, L) && lastLineWords >= 0
      // the one-line case takes a trailing space off, so it must print a word
      requires lastLineWords == |words| ==> |words| > 0
      requires Agrees(words, L, lastLineWords, memo)
      ensures s == BacktrackText(words, L, lastLineWords, memo)
    {
      var last: nat := lastLineWords;
      s := "";
      if lastLineWords == |words| {
        s := AppendLine(s, 0, |words|);
        assert words[0..|words|] == words;
        return s;
      }
      if (0, 0) !in memo {
        return s;
      }
      s := FollowWinners();
      s := AppendLastLine(s);
      s := DropTrailingNewline(s);
    }

    /** The last line of `backtracking()`: the final `lastLineWords` words,
        when there are some and they are not the whole paragraph. */
    method AppendLastLine(s: string) returns (t: string)
      ensures t == s + LastLine(words, lastLineWords)
    {
      t := s;
      if lastLineWords > 0 && lastLineWords < |words| {
        t := AppendLine(t, |words| - lastLineWords, |words|);
        assert words[|words| - lastLineWords..|words|] == words[|words| - lastLineWords..];
      } else {
        assert t + "" == t;
      }
    }

    /** Removes the final character of `s` when it is a newline. */
    method DropTrailingNewline(s: string) returns (t: string)
      ensures t == DropNewline(s)
    {
      t := s;
      if |t| > 0 && t[|t| - 1] == '\n' {
        t := t[..|t| - 1];
      }
    }

    /** The loop of `backtracking()` that follows the winners: from key
        `(0, 0)` it prints the line each stored offset names and moves to the
        key after it, until an offset of -1 or a key that is not stored. */
    method FollowWinners() returns (s: string)
      requires WordsFit(words, L) && lastLineWords >= 0
      requires Agrees(words, L, lastLineWords, memo) && (0, 0) in memo
      ensures s == WalkText(words, L, lastLineWords, memo, 0, 0)
    {
      var last: nat, table := lastLineWords, memo;
      s := "";
      var i: nat := 0;
      var k := 0;
      var winner := table[(i, k)].offset;
      while winner > -1
        invariant i <= |words|
        invariant (i, k) in table && winner == table[(i, k)].offset
        invariant s + WalkText(words, L, last, table, i, k) == WalkText(words, L, last, table, 0, 0)
        decreases |words| - i
      {
        WalkAppend(words, L, last, table, s, i, k);
        if i + winner + 1 <= |words| {
          s := AppendLine(s, i, i + winner + 1);
          s := s + "\n";
        }
        i := i + winner + 1;
        k := k + 1;
        if (i, k) !in table {
          assert s + "" == s;
          break;
        }
        winner := table[(i, k)].offset;
      }
      assert s + "" == s;
    }

    /** One paragraph of the main loop: a single word is answered as it is;
        otherwise the search runs, its tail length is stored and the
        reconstructed text is answered. */
    method Solve() returns (text: string)
      requires |words| == 1 || WordsFit(words, L)
      modifies this
      ensures text == Format(words, L)
      ensures |words| == 1 ==> lastLineWords == old(lastLineWords) && memo == old(memo)
      ensures |words| != 1 ==>
        lastLineWords == BestTail(words, L).1 &&
        Agrees(words, L, BestTail(words, L).1, memo) && Closed(memo)
    {
      if |words| == 1 {
        return words[0];
      }
      var minimum, last := MinimizeTotalRaggedness();
      BestTailSpec(words, L);
      lastLineWords := last;
      text := Backtracking();
      BacktrackPrintsRendered(words, L, last, memo);
    }
  }
}
