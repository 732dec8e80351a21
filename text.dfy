/**
 * How the line breaker turns words into printed text: words of one line are
 * separated by single spaces, lines are separated by newlines.  The
 * functions that model an appending loop are defined from the back of their
 * sequence, the order in which the loop appends to its string.
 */
module Text {

  /** The words of `ws` separated by single spaces. */
  function Joined(ws: seq<string>): string
    decreases |ws|
  {
    if |ws| == 0 then ""
    else if |ws| == 1 then ws[0]
    else Joined(ws[..|ws| - 1]) + " " + ws[|ws| - 1]
  }

  /** What a loop appending `word + ' '` for every word of `ws` produces. */
  function WithSpaces(ws: seq<string>): string
    decreases |ws|
  {
    if |ws| == 0 then "" else WithSpaces(ws[..|ws| - 1]) + ws[|ws| - 1] + " "
  }

  /** The lines of `ls` separated by newlines, with no trailing newline. */
  function JoinLines(ls: seq<string>): string
    decreases |ls|
  {
    if |ls| == 0 then ""
    else if |ls| == 1 then ls[0]
    else JoinLines(ls[..|ls| - 1]) + "\n" + ls[|ls| - 1]
  }

  /** Every line of `ls` followed by a newline. */
  function Terminated(ls: seq<string>): string
    decreases |ls|
  {
    if |ls| == 0 then "" else ls[0] + "\n" + Terminated(ls[1..])
  }

  /** `s` with one trailing newline removed, if it has one. */
  function DropNewline(s: string): (r: string)
    ensures |s| > 0 && s[|s| - 1] == '\n' ==> s == r + "\n"
    ensures !(|s| > 0 && s[|s| - 1] == '\n') ==> r == s
  {
    if |s| > 0 && s[|s| - 1] == '\n' then s[..|s| - 1] else s
  }

  /** The concatenation of the word sequences of `lines`, in order. */
  function Concat(lines: seq<seq<string>>): seq<string>
    decreases |lines|
  {
    if |lines| == 0 then [] else lines[0] + Concat(lines[1..])
  }

  /** The pieces of `s` between occurrences of `sep`, empty pieces at the
      end included (unlike Java's `String.split`, which drops them).  It is
      only used to read a printed text back into its words. */
  function Split(s: string, sep: char): (parts: seq<string>)
    ensures |parts| >= 1
    decreases |s|
  {
    if |s| == 0 then [""]
    else
      var init := Split(s[..|s| - 1], sep);
      if s[|s| - 1] == sep then init + [""]
      else init[..|init| - 1] + [init[|init| - 1] + [s[|s| - 1]]]
  }

  /** No string of `ws` is empty or contains `sep`. */
  predicate Separable(ws: seq<string>, sep: char)
  {
    forall t :: 0 <= t < |ws| ==> |ws[t]| > 0 && sep !in ws[t]
  }

  lemma {:induction false} WithSpacesIsJoined(ws: seq<string>)
    requires |ws| > 0
    ensures WithSpaces(ws) == Joined(ws) + " "
    decreases |ws|
  {
    if |ws| > 1 {
      WithSpacesIsJoined(ws[..|ws| - 1]);
    }
  }

  /** Appending lines one by one and then the last line gives the joined text. */
  lemma {:induction false} TerminatedThenLast(ls: seq<string>, t: string)
    ensures Terminated(ls) + t == JoinLines(ls + [t])
    decreases |ls|
  {
    if |ls| > 0 {
      TerminatedThenLast(ls[1..], t);
      JoinLinesCons(ls[0], ls[1..] + [t]);
      assert [ls[0]] + (ls[1..] + [t]) == ls + [t];
    }
  }

  lemma {:induction false} JoinLinesCons(x: string, rest: seq<string>)
    requires |rest| > 0
    ensures JoinLines([x] + rest) == x + "\n" + JoinLines(rest)
    decreases |rest|
  {
    var all := [x] + rest;
    if |rest| > 1 {
      JoinLinesCons(x, rest[..|rest| - 1]);
      assert all[..|all| - 1] == [x] + rest[..|rest| - 1];
    } else {
      assert all[..|all| - 1] == [x];
    }
  }

  /** A text ending in a non-separator: splitting it after one more separator. */
  lemma {:induction false} SplitAppend(a: string, sep: char, b: string)
    requires sep !in b
    ensures Split(a + [sep] + b, sep) == Split(a, sep) + [b]
    decreases |b|
  {
    var s := a + [sep] + b;
    if |b| == 0 {
      assert s[..|s| - 1] == a;
    } else {
      var b' := b[..|b| - 1];
      assert s[..|s| - 1] == a + [sep] + b';
      SplitAppend(a, sep, b');
      assert b' + [b[|b| - 1]] == b;
    }
  }

  lemma {:induction false} SplitPlain(b: string, sep: char)
    requires sep !in b
    ensures Split(b, sep) == [b]
    decreases |b|
  {
    if |b| > 0 {
      var b' := b[..|b| - 1];
      SplitPlain(b', sep);
      assert b' + [b[|b| - 1]] == b;
    }
  }

  /** Splitting joined words on the space gives the words back. */
  lemma {:induction false} SplitJoined(ws: seq<string>)
    requires |ws| > 0 && Separable(ws, ' ')
    ensures Split(Joined(ws), ' ') == ws
    decreases |ws|
  {
    if |ws| == 1 {
      SplitPlain(ws[0], ' ');
    } else {
      var init := ws[..|ws| - 1];
      SplitJoined(init);
      assert Joined(ws) == Joined(init) + [' '] + ws[|ws| - 1];
      SplitAppend(Joined(init), ' ', ws[|ws| - 1]);
      assert init + [ws[|ws| - 1]] == ws;
    }
  }

  /** No string of `ls` contains `sep`. */
  predicate Free(ls: seq<string>, sep: char)
  {
    forall t :: 0 <= t < |ls| ==> sep !in ls[t]
  }

  /** Splitting joined lines on the newline gives the lines back. */
  lemma {:induction false} SplitJoinLines(ls: seq<string>)
    requires |ls| > 0 && Free(ls, '\n')
    ensures Split(JoinLines(ls), '\n') == ls
    decreases |ls|
  {
    if |ls| == 1 {
      SplitPlain(ls[0], '\n');
    } else {
      var init := ls[..|ls| - 1];
      var x := ls[|ls| - 1];
      assert Free(init, '\n');
      SplitJoinLines(init);
      assert '\n' !in x;
      var j := JoinLines(init);
      assert JoinLines(ls) == j + ['\n'] + x;
      SplitAppend(j, '\n', x);
      assert init + [x] == ls;
    }
  }

  /** A character occurs in joined words only inside a word or as the space. */
  lemma {:induction false} JoinedChars(ws: seq<string>, c: char)
    requires c != ' ' && forall t :: 0 <= t < |ws| ==> c !in ws[t]
    ensures c !in Joined(ws)
    decreases |ws|
  {
    if |ws| > 1 {
      JoinedChars(ws[..|ws| - 1], c);
    }
  }

  /** The last character of joined non-empty words is the last word's. */
  lemma {:induction false} JoinedLast(ws: seq<string>)
    requires |ws| > 0 && |ws[|ws| - 1]| > 0
    ensures |Joined(ws)| > 0
    ensures Joined(ws)[|Joined(ws)| - 1] == ws[|ws| - 1][|ws[|ws| - 1]| - 1]
  {
  }

  lemma {:induction false} ConcatAppend(a: seq<seq<string>>, b: seq<string>)
    ensures Concat(a + [b]) == Concat(a) + b
    decreases |a|
  {
    if |a| > 0 {
      ConcatAppend(a[1..], b);
      assert (a + [b])[1..] == a[1..] + [b];
    }
  }
}
