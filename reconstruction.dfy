/**
 * `backtracking()` as a function of the memo table, the layout it prints,
 * and the properties of the text of a whole paragraph.
 */
module Reconstruction {
  import opened Text
  import opened Cost
  import opened Recurrence
  import opened Memo
  import opened TailSearch

  /** The lines the reconstruction loop prints from key `(i, k)` on: it
      follows the stored offsets and stops at an offset of -1 or at a key
      that is not stored. */
  function WalkText(words: seq<string>, L: int, last: nat, memo: Table, i: nat, k: int): string
    requires WordsFit(words, L) && Agrees(words, L, last, memo)
    decreases |words| - i
  {
    if (i, k) !in memo then ""
    else
      var d := memo[(i, k)].offset;
      if d <= -1 then ""
      else
        OptRecurrence(words, L, last, i);
        Joined(words[i..i + d + 1]) + "\n" + WalkText(words, L, last, memo, i + d + 1, k + 1)
  }

  /** The string `backtracking()` returns for the tail length `last`. */
  function BacktrackText(words: seq<string>, L: int, last: nat, memo: Table): string
    requires WordsFit(words, L) && Agrees(words, L, last, memo)
  {
    if last == |words| then Joined(words)
    else if (0, 0) !in memo then ""
    else DropNewline(WalkText(words, L, last, memo, 0, 0) + LastLine(words, last))
  }

  /** The last line's words, joined, when there are some and they are not
      the whole paragraph. */
  function LastLine(words: seq<string>, last: int): string
  {
    if 0 < last < |words| then Joined(words[|words| - last..]) else ""
  }

  /** The words of each line of a layout starting at word `i`; a line
      that would run past the last word ends the list. */
  function Lines(words: seq<string>, i: nat, sizes: seq<nat>): seq<seq<string>>
    decreases |sizes|
  {
    if sizes == [] || i + sizes[0] > |words| then []
    else [words[i..i + sizes[0]]] + Lines(words, i + sizes[0], sizes[1..])
  }

  /** Each line printed as its words separated by single spaces. */
  function Printed(lines: seq<seq<string>>): (ps: seq<string>)
    ensures |ps| == |lines|
    decreases |lines|
  {
    if lines == [] then [] else [Joined(lines[0])] + Printed(lines[1..])
  }

  /** The total raggedness of printed lines, measured on the printed text. */
  function PrintedCost(L: int, lines: seq<seq<string>>): int
    decreases |lines|
  {
    if lines == [] then 0
    else
      var slack := L - |Joined(lines[0])|;
      slack * slack + PrintedCost(L, lines[1..])
  }

  /** Every line is non-empty and its printed width is at most `L`. */
  predicate LinesFit(L: int, lines: seq<seq<string>>)
  {
    forall t :: 0 <= t < |lines| ==> |lines[t]| > 0 && |Joined(lines[t])| <= L
  }

  /** The layout for tail length `last` printed as text: the winning lines,
      then the reserved tail on a line of its own. */
  function Rendered(words: seq<string>, L: int, last: nat): string
    requires WordsFit(words, L) && 1 <= last
  {
    if last == |words| then Joined(words)
    else if last > |words| then ""
    else
      var lines := Lines(words, 0, OptSizes(words, L, last, 0));
      DropNewline(Terminated(Printed(lines)) + Joined(words[|words| - last..]))
  }

  /** The text of a paragraph: a single word as it is, otherwise the
      cheapest layout over all tried tail lengths. */
  function Format(words: seq<string>, L: int): string
    requires |words| == 1 || WordsFit(words, L)
  {
    if |words| == 1 then words[0]
    else
      BestTailSpec(words, L);
      Rendered(words, L, BestTail(words, L).1)
  }

  /** Walking a consistent, closed memo prints exactly the winning lines. */
  lemma {:induction false} WalkPrintsOptimalLines(words: seq<string>, L: int, last: nat, memo: Table, i: nat, k: int)
    requires WordsFit(words, L) && Agrees(words, L, last, memo) && Closed(memo)
    requires i <= |words| - last && ((i, k) in memo || i == |words| - last)
    ensures WalkText(words, L, last, memo, i, k) ==
      Terminated(Printed(Lines(words, i, OptSizes(words, L, last, i))))
    decreases |words| - i
  {
    OptRecurrence(words, L, last, i);
    var e := Opt(words, L, last, i);
    if e.offset >= 0 {
      var next := i + e.offset + 1;
      assert memo[(i, k)] == e;
      WalkStep(words, L, last, memo, i, k);
      WalkPrintsOptimalLines(words, L, last, memo, next, k + 1);
      OptLinesStep(words, L, last, i);
      PrintedCons(words[i..next], Lines(words, next, OptSizes(words, L, last, next)));
    } else {
      assert OptSizes(words, L, last, i) == [];
      assert WalkText(words, L, last, memo, i, k) == "";
    }
  }

  /** One step of the walk: the stored first line, then the walk from the
      entry after it. */
  lemma WalkStep(words: seq<string>, L: int, last: nat, memo: Table, i: nat, k: int)
    requires WordsFit(words, L) && Agrees(words, L, last, memo)
    requires (i, k) in memo && memo[(i, k)].offset >= 0
    ensures var next := i + memo[(i, k)].offset + 1;
      next <= |words| - last &&
      WalkText(words, L, last, memo, i, k) ==
        Joined(words[i..next]) + "\n" + WalkText(words, L, last, memo, next, k + 1)
  {
    OptRecurrence(words, L, last, i);
  }

  /** One step of the walk after the text `s` printed so far. */
  lemma WalkAppend(words: seq<string>, L: int, last: nat, memo: Table, s: string, i: nat, k: int)
    requires WordsFit(words, L) && Agrees(words, L, last, memo)
    requires (i, k) in memo && memo[(i, k)].offset >= 0
    ensures var next := i + memo[(i, k)].offset + 1;
      next <= |words| - last &&
      s + WalkText(words, L, last, memo, i, k) ==
        (s + Joined(words[i..next]) + "\n") + WalkText(words, L, last, memo, next, k + 1)
  {
    WalkStep(words, L, last, memo, i, k);
    var next := i + memo[(i, k)].offset + 1;
    var line := Joined(words[i..next]);
    var rest := WalkText(words, L, last, memo, next, k + 1);
    assert s + (line + "\n" + rest) == (s + line + "\n") + rest;
  }

  /** One step of the winning layout: its first line, then the winning
      layout from the word after it. */
  lemma OptLinesStep(words: seq<string>, L: int, last: nat, i: nat)
    requires WordsFit(words, L) && Opt(words, L, last, i).offset >= 0
    ensures var next := i + Opt(words, L, last, i).offset + 1;
      next <= |words| - last &&
      Lines(words, i, OptSizes(words, L, last, i)) ==
        [words[i..next]] + Lines(words, next, OptSizes(words, L, last, next))
  {
    OptHasLine(words, L, last, i);
    OptStep(words, L, last, i);
  }

  lemma PrintedCons(first: seq<string>, rest: seq<seq<string>>)
    ensures Terminated(Printed([first] + rest)) == Joined(first) + "\n" + Terminated(Printed(rest))
  {
    assert ([first] + rest)[1..] == rest;
  }

  /** With the memo that the search leaves behind, `backtracking()` prints
      the winning layout. */
  lemma BacktrackPrintsRendered(words: seq<string>, L: int, last: nat, memo: Table)
    requires WordsFit(words, L) && 1 <= last
    requires Agrees(words, L, last, memo) && Closed(memo)
    requires last < |words| ==> (0, 0) in memo
    ensures BacktrackText(words, L, last, memo) == Rendered(words, L, last)
  {
    if last < |words| {
      WalkPrintsOptimalLines(words, L, last, memo, 0, 0);
    } else if last > |words| {
      if (0, 0) in memo {
        assert memo[(0, 0)] == Opt(words, L, last, 0);
      }
    }
  }

  /** The lines of a layout of words `i .. end-1` are that run of words, in order. */
  lemma {:induction false} LinesCover(words: seq<string>, L: int, end: int, i: nat, sizes: seq<nat>)
    requires end <= |words| && IsLayout(words, L, end, i, sizes)
    ensures i <= end
    ensures Concat(Lines(words, i, sizes)) == words[i..end]
    decreases |sizes|
  {
    if sizes != [] {
      var next := i + sizes[0];
      LinesCover(words, L, end, next, sizes[1..]);
      assert words[i..next] + words[next..end] == words[i..end];
    }
  }

  /** Every line of a layout is non-empty and fits, and the raggedness the
      solver adds up is the raggedness of the printed lines. */
  lemma {:induction false} LinesMeasured(words: seq<string>, L: int, end: int, i: nat, sizes: seq<nat>)
    requires end <= |words| && IsLayout(words, L, end, i, sizes)
    ensures LinesFit(L, Lines(words, i, sizes))
    ensures PrintedCost(L, Lines(words, i, sizes)) == LayoutCost(words, L, i, sizes)
    decreases |sizes|
  {
    if sizes != [] {
      var next := i + sizes[0];
      LinesMeasured(words, L, end, next, sizes[1..]);
      WidthIsPrintedLength(words, L, i, next - 1);
      assert words[i..next - 1 + 1] == words[i..next];
      var lines := Lines(words, i, sizes);
      assert lines[1..] == Lines(words, next, sizes[1..]);
      forall t | 0 <= t < |lines|
        ensures |lines[t]| > 0 && |Joined(lines[t])| <= L
      {
        if t > 0 {
          assert lines[t] == lines[1..][t - 1];
        }
      }
    }
  }

  /** The line sizes of a sequence of lines. */
  function Sizes(lines: seq<seq<string>>): (sizes: seq<nat>)
    ensures |sizes| == |lines|
    decreases |lines|
  {
    if lines == [] then [] else [|lines[0]|] + Sizes(lines[1..])
  }

  /** Any breaking of words `i .. end-1` into non-empty lines that fit is a
      layout the solver considers, at the same raggedness. */
  lemma {:induction false} LinesAreLayout(words: seq<string>, L: int, end: int, i: nat, lines: seq<seq<string>>)
    requires WordsFit(words, L)
    requires i <= end <= |words| && Concat(lines) == words[i..end] && LinesFit(L, lines)
    ensures IsLayout(words, L, end, i, Sizes(lines))
    ensures LayoutCost(words, L, i, Sizes(lines)) == PrintedCost(L, lines)
    decreases |lines|
  {
    if lines != [] {
      var first := lines[0];
      var next := i + |first|;
      LinesFitTail(L, lines);
      ConcatParts(words, i, end, lines);
      LinesAreLayout(words, L, end, next, lines[1..]);
      FittingLineWidth(words, L, i, next);
      assert Sizes(lines) == [|first|] + Sizes(lines[1..]);
    }
  }

  /** Breaking off the first line of a breaking of words `i .. end-1`. */
  lemma ConcatParts(words: seq<string>, i: nat, end: int, lines: seq<seq<string>>)
    requires i <= end <= |words| && Concat(lines) == words[i..end] && lines != []
    requires |lines[0]| > 0
    ensures i + |lines[0]| <= end
    ensures lines[0] == words[i..i + |lines[0]|]
    ensures Concat(lines[1..]) == words[i + |lines[0]|..end]
  {
    var first := lines[0];
    assert words[i..end] == first + Concat(lines[1..]);
    assert words[i..end][..|first|] == first;
    assert words[i..end][|first|..] == Concat(lines[1..]);
  }

  lemma LinesFitTail(L: int, lines: seq<seq<string>>)
    requires LinesFit(L, lines) && lines != []
    ensures |lines[0]| > 0 && |Joined(lines[0])| <= L
    ensures LinesFit(L, lines[1..])
  {
    var rest := lines[1..];
    forall t | 0 <= t < |rest|
      ensures |rest[t]| > 0 && |Joined(rest[t])| <= L
    {
      assert rest[t] == lines[t + 1];
    }
  }

  /** A printed line of words `i .. next-1` that is at most `L` wide has that
      width as `w(i, next-1)`. */
  lemma FittingLineWidth(words: seq<string>, L: int, i: nat, next: nat)
    requires WordsFit(words, L) && i < next <= |words| && |Joined(words[i..next])| <= L
    ensures Width(words, L, i, next - 1) == |Joined(words[i..next])| > 0
  {
    var line := words[i..next];
    assert line[|line| - 1] == words[next - 1];
    Text.JoinedLast(line);
    WidthIsPrintedLength(words, L, i, next - 1);
    assert words[i..next - 1 + 1] == line;
  }

  /** A single-word paragraph prints the same whether or not the search runs. */
  lemma SingleWordShortcut(words: seq<string>, L: int)
    requires WordsFit(words, L) && |words| == 1
    ensures Rendered(words, L, BestTail(words, L).1) == words[0]
  {
    BestTailSpec(words, L);
  }
}
