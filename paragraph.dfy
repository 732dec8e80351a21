/**
 * What the printed text of one paragraph is: the lines of the cheapest
 * layout over all tried tail lengths, then the reserved tail, and what
 * reading that text back gives.
 */
module Paragraph {
  import opened Text
  import opened Cost
  import opened Recurrence
  import opened TailSearch
  import opened Reconstruction

  /** The lines before the final one in the chosen layout. */
  function WinningLines(words: seq<string>, L: int): seq<seq<string>>
    requires WordsFit(words, L)
  {
    Lines(words, 0, OptSizes(words, L, BestTail(words, L).1, 0))
  }

  /** The final line of the chosen layout: the reserved tail. */
  function FinalLine(words: seq<string>, L: int): seq<string>
    requires WordsFit(words, L) && |words| >= 1
  {
    BestTailSpec(words, L);
    words[|words| - BestTail(words, L).1..]
  }

  /** The text is the winning lines and then the final line, joined by
      newlines, each line's words joined by single spaces. */
  lemma FormatText(words: seq<string>, L: int)
    requires WordsFit(words, L) && |words| >= 1 && Free(words, '\n')
    ensures Format(words, L) == JoinLines(Printed(WinningLines(words, L)) + [Joined(FinalLine(words, L))])
  {
    BestTailSpec(words, L);
    var b := BestTail(words, L).1;
    RenderedText(words, L, b);
    if |words| == 1 {
      assert Joined(words) == words[0];
    }
  }

  /** For any tail length, the rendered text is the winning lines and then
      the tail, joined by newlines. */
  lemma RenderedText(words: seq<string>, L: int, last: nat)
    requires WordsFit(words, L) && 1 <= last <= |words| && Free(words, '\n')
    ensures Rendered(words, L, last) ==
      JoinLines(Printed(Lines(words, 0, OptSizes(words, L, last, 0))) + [Joined(words[|words| - last..])])
  {
    var n := |words|;
    var tail := words[n - last..];
    var printed := Printed(Lines(words, 0, OptSizes(words, L, last, 0)));
    if last == n {
      assert OptSizes(words, L, last, 0) == [];
      assert printed == [];
      assert tail == words;
      assert [] + [Joined(tail)] == [Joined(tail)];
    } else {
      TerminatedThenLast(printed, Joined(tail));
      EndsWithLastWord(words, tail);
      EndsWithLastLine(printed, Joined(tail));
    }
  }

  /** The tail of a paragraph free of newlines prints to a line that does
      not end in one. */
  lemma EndsWithLastWord(words: seq<string>, tail: seq<string>)
    requires |tail| >= 1 && |tail| <= |words| && words[|words| - |tail|..] == tail
    requires Free(words, '\n') && forall t :: 0 <= t < |words| ==> |words[t]| > 0
    ensures |Joined(tail)| > 0 && Joined(tail)[|Joined(tail)| - 1] != '\n'
  {
    JoinedLast(tail);
    var lastWord := tail[|tail| - 1];
    assert lastWord == words[|words| - 1];
    assert lastWord[|lastWord| - 1] in lastWord;
  }

  lemma EndsWithLastLine(ls: seq<string>, t: string)
    requires |t| > 0
    ensures var text := JoinLines(ls + [t]);
      |text| > 0 && text[|text| - 1] == t[|t| - 1]
  {
    var all := ls + [t];
    if |all| > 1 {
      assert all[|all| - 1] == t;
    }
  }

  /** The lines cover the paragraph: the winning lines, read in order, are
      the words before the tail, and the final line is the tail.  Every line
      is non-empty and at most `L` wide. */
  lemma FormatCoversWords(words: seq<string>, L: int)
    requires WordsFit(words, L) && |words| >= 1
    ensures Concat(WinningLines(words, L)) + FinalLine(words, L) == words
    ensures LinesFit(L, WinningLines(words, L))
    ensures LinesFit(L, [FinalLine(words, L)])
  {
    BestTailSpec(words, L);
    var b := BestTail(words, L).1;
    LayoutCovers(words, L, b);
    TriedTailFits(words, L, b);
  }

  /** For any tail length, the winning lines cover the words before the
      tail, in order, and each is non-empty and fits. */
  lemma LayoutCovers(words: seq<string>, L: int, last: nat)
    requires WordsFit(words, L) && 1 <= last <= |words|
    ensures var lines := Lines(words, 0, OptSizes(words, L, last, 0));
      Concat(lines) + words[|words| - last..] == words && LinesFit(L, lines)
  {
    var n := |words|;
    var sizes := OptSizes(words, L, last, 0);
    OptAchieved(words, L, last, 0);
    LinesCover(words, L, n - last, 0, sizes);
    LinesMeasured(words, L, n - last, 0, sizes);
    assert words[0..n - last] + words[n - last..] == words;
  }

  /** The tail of a tried tail length is non-empty and fits on a line. */
  lemma TriedTailFits(words: seq<string>, L: int, last: nat)
    requires WordsFit(words, L) && 1 <= last <= |words| && Tried(words, L, last)
    ensures LinesFit(L, [words[|words| - last..]])
  {
    var n := |words|;
    var tail := words[n - last..];
    if last == 1 {
      assert tail == [words[n - 1]];
      JoinedLast(tail);
    } else {
      WidthIsPrintedLength(words, L, n - last, n - 1);
      assert words[n - last..n - 1 + 1] == tail;
    }
  }

  /** The raggedness of the printed lines before the final one is the
      minimum the search returns. */
  lemma FormatCost(words: seq<string>, L: int)
    requires WordsFit(words, L) && |words| >= 1
    ensures PrintedCost(L, WinningLines(words, L)) == BestTail(words, L).0
  {
    BestLayoutAchieved(words, L);
    var b := BestTail(words, L).1;
    LinesMeasured(words, L, |words| - b, 0, OptSizes(words, L, b, 0));
  }

  /** No other breaking of the paragraph into lines that fit, with a final
      line that fits, has less raggedness before its final line. */
  lemma FormatOptimal(words: seq<string>, L: int, lines: seq<seq<string>>, tail: seq<string>)
    requires WordsFit(words, L)
    requires Concat(lines) + tail == words && LinesFit(L, lines) && LinesFit(L, [tail])
    ensures BestTail(words, L).0 <= PrintedCost(L, lines)
  {
    var j := |tail|;
    SplitAtTail(words, lines, tail);
    LinesAreLayout(words, L, |words| - j, 0, lines);
    assert [tail][0] == tail;
    TailIsTried(words, L, tail);
    BestLayoutOptimal(words, L, j, Sizes(lines));
  }

  lemma SplitAtTail(words: seq<string>, lines: seq<seq<string>>, tail: seq<string>)
    requires Concat(lines) + tail == words
    ensures words[..|words| - |tail|] == Concat(lines)
    ensures words[|words| - |tail|..] == tail
  {
  }

  /** A final line that fits is a tail length the search tries. */
  lemma TailIsTried(words: seq<string>, L: int, tail: seq<string>)
    requires WordsFit(words, L)
    requires |tail| <= |words| && words[|words| - |tail|..] == tail
    requires |tail| > 0 && |Joined(tail)| <= L
    ensures Tried(words, L, |tail|)
  {
    var n := |words|;
    var j := |tail|;
    if j >= 2 {
      assert words[n - j..n] == tail;
      FittingLineWidth(words, L, n - j, n);
    }
  }

  /** Each line of a text split into its words. */
  function SplitWords(ls: seq<string>): (wss: seq<seq<string>>)
    ensures |wss| == |ls|
    decreases |ls|
  {
    if ls == [] then [] else [Split(ls[0], ' ')] + SplitWords(ls[1..])
  }

  /** The words of a text, line after line. */
  function Reread(text: string): seq<string>
  {
    Concat(SplitWords(Split(text, '\n')))
  }

  lemma {:induction false} SplitWordsPrinted(lines: seq<seq<string>>)
    requires forall t :: 0 <= t < |lines| ==> |lines[t]| > 0 && Separable(lines[t], ' ')
    ensures SplitWords(Printed(lines)) == lines
    decreases |lines|
  {
    if lines != [] {
      SplitJoined(lines[0]);
      var rest := lines[1..];
      assert forall t :: 0 <= t < |rest| ==> rest[t] == lines[t + 1];
      SplitWordsPrinted(rest);
    }
  }

  lemma {:induction false} PrintedAppend(lines: seq<seq<string>>, x: seq<string>)
    ensures Printed(lines + [x]) == Printed(lines) + [Joined(x)]
    decreases |lines|
  {
    if lines != [] {
      assert (lines + [x])[1..] == lines[1..] + [x];
      PrintedAppend(lines[1..], x);
    }
  }

  lemma {:induction false} PrintedFree(lines: seq<seq<string>>)
    requires forall t :: 0 <= t < |lines| ==> Free(lines[t], '\n')
    ensures Free(Printed(lines), '\n')
    decreases |lines|
  {
    if lines != [] {
      JoinedChars(lines[0], '\n');
      var rest := lines[1..];
      assert forall t :: 0 <= t < |rest| ==> rest[t] == lines[t + 1];
      PrintedFree(rest);
    }
  }

  /** Reading the words back out of the text, line by line and space by
      space, gives the paragraph: the layout only chooses where the lines
      break. */
  lemma FormatRereads(words: seq<string>, L: int)
    requires WordsFit(words, L) && |words| >= 1
    requires Separable(words, ' ') && Free(words, '\n')
    ensures Reread(Format(words, L)) == words
  {
    FormatText(words, L);
    FormatCoversWords(words, L);
    var lines := WinningLines(words, L);
    var tail := FinalLine(words, L);
    var all := lines + [tail];
    ConcatAppend(lines, tail);
    PrintedAppend(lines, tail);
    assert Concat(all) == words;
    forall t | 0 <= t < |all|
      ensures |all[t]| > 0 && Separable(all[t], ' ') && Free(all[t], '\n')
    {
      WordsOfLine(words, all, t);
    }
    PrintedFree(all);
    SplitJoinLines(Printed(all));
    SplitWordsPrinted(all);
  }

  /** A line of a breaking of `words` holds only words of `words`. */
  lemma {:induction false} WordsOfLine(words: seq<string>, lines: seq<seq<string>>, t: nat)
    requires Concat(lines) == words && t < |lines|
    requires Separable(words, ' ') && Free(words, '\n')
    requires forall u :: 0 <= u < |lines| ==> |lines[u]| > 0
    ensures |lines[t]| > 0 && Separable(lines[t], ' ') && Free(lines[t], '\n')
    decreases t
  {
    var rest := Concat(lines[1..]);
    assert words == lines[0] + rest;
    if t == 0 {
      forall u | 0 <= u < |lines[0]|
        ensures |lines[0][u]| > 0 && ' ' !in lines[0][u] && '\n' !in lines[0][u]
      {
        assert lines[0][u] == words[u];
      }
    } else {
      forall u | 0 <= u < |rest|
        ensures |rest[u]| > 0 && ' ' !in rest[u] && '\n' !in rest[u]
      {
        assert rest[u] == words[|lines[0]| + u];
      }
      assert forall u :: 0 <= u < |lines[1..]| ==> lines[1..][u] == lines[u + 1];
      WordsOfLine(rest, lines[1..], t - 1);
    }
  }
}
