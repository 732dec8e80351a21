# Minimum-raggedness line breaker

This project models the core of a line breaker that lays out one paragraph of
words at a time (`5945/java/Main.java`). The words of a paragraph are broken into
lines at most `L` columns wide. Words on a line are separated by single
spaces.

A layout's cost is the sum of `(L - width)²` over every line but the last one.
The last line holds a reserved tail of the final `last` words and is not
scored. The program works in four steps:

- It computes the cheapest layout of the remaining words with a memoised
  recursion `c(i, k, last)`. The memo is keyed by word position `i` and line
  number `k`.
- It tries every tail length whose words fit on one line and keeps the first
  cheapest one (`minimizeTotalRaggedness`).
- It prints the layout again by following the winning offsets stored in the
  memo (`backtracking`).
- A paragraph of a single word is printed as it is.

The model is in eight modules:

- `Text` (`text.dfy`): joining words with spaces and lines with newlines,
  and splitting them again.
- `Cost` (`cost.dfy`): `w` and `r` as functions, with their relation to the
  printed line.
- `Recurrence` (`recurrence.dfy`): what `c` computes, as the function `Opt`.
  It holds the recurrence, the first-minimum tie-break, and the proof that
  following the offsets gives the cheapest layout.
- `Memo` (`memo.dfy`): the memo table and the two invariants `c` keeps.
  - `Agrees`: every entry is the recurrence's value for the active tail
    length.
  - `Closed`: an entry that names a first line has the entry after that line
    stored too.
- `TailSearch` (`tail_search.dfy`): the search over tail lengths, as a fold
  with its specification.
- `Reconstruction` (`reconstruction.dfy`): the text `backtracking` prints,
  as a function of the memo, and the layout it prints.
- `Paragraph` (`paragraph.dfy`): the properties of the text for a whole
  paragraph.
  - Its lines cover the words in order, and each line fits.
  - The cost before the final line is the reported minimum, and no other
    breaking costs less.
  - Reading the text back gives the words.
- `LineBreaking` (`line_breaker.dfy`): the class `LineBreaker`, which holds
  the paragraph, `L`, the memo and `lastLineWords`. Its methods are the
  program's loops and its memo updates, each proved against the functions
  above.

## Model

| member | source | states |
|---|---|---|
| Cost.Width | 5945/java/Main.java:20-36 | `w` is 0 when the last word index is past the paragraph. Otherwise it is 0 or a width in `(0, L]`. |
| Cost.WidthIsPrintedLength | 5945/java/Main.java:20-36 | For `j < n`, `w(i, j)` is the length of words `i..j` joined by single spaces when that is in `(0, L]`, and 0 otherwise. |
| Cost.SpacedIsJoinedLength | 5945/java/Main.java:28-33 | The loop's sum of `length + 1` per word, minus one, is the length of the joined line. |
| Cost.Raggedness | 5945/java/Main.java:46-48 | `r` is never negative, and it is 0 exactly when the line is `L` wide. |
| Cost.SingleWordFits | 5945/java/Main.java:68 | When every word fits, one word alone is a valid line, so the scan of `c` takes at least one candidate. |
| Cost.ShorterLineFits | 5945/java/Main.java:68 | Once words `i..l` fit, every shorter line from `i` fits, so the scan stops at the first line that does not fit. |
| Cost.SpacedGrows | 5945/java/Main.java:28-31 | Each word added to a line makes it at least two columns wider. |
| Recurrence.SeqMin | 5945/java/Main.java:82 | `Collections.min` returns an element of the list that is no larger than any other. |
| Recurrence.FirstIndex | 5945/java/Main.java:83-85 | `indexOf` returns the first position holding the value, or -1 when the value is absent. |
| Recurrence.Costs | 5945/java/Main.java:67-79 | The `raggedness` list `c` builds: one candidate cost per fitting line end. Its meaning is given by `CostsAreCandidates`. |
| Recurrence.Opt | 5945/java/Main.java:59-86 | The pair `c(i, k, last)` returns, for any `k`. Its meaning is given by `OptRecurrence` (base case, least candidate, first minimum), `OptAchieved` and `OptMinimal` (the least raggedness over all layouts). |
| TailSearch.SearchFrom | 5945/java/Main.java:102-116 | The search loop from a tail length on. Its meaning is given by `SearchFromSpec`. |
| TailSearch.BestTail | 5945/java/Main.java:99-123 | The pair `minimizeTotalRaggedness` returns. Its meaning is given by `BestTailSpec`, `BestTailUnique`, `BestLayoutAchieved` and `BestLayoutOptimal`. |
| Reconstruction.WalkText | 5945/java/Main.java:146-177 | The text the output loop prints from a key. Its meaning is given by `WalkPrintsOptimalLines`. |
| Reconstruction.BacktrackText | 5945/java/Main.java:132-194 | The string `backtracking` returns. Its meaning is given by `BacktrackPrintsRendered`. |
| Reconstruction.Format | 5945/java/Main.java:246-256 | The text one paragraph adds to the answer. Its meaning is given by `FormatText`, `FormatCoversWords`, `FormatCost`, `FormatOptimal` and `FormatRereads`. |
| Recurrence.CostsAreCandidates | 5945/java/Main.java:67-79 | The `raggedness` list holds one cost per fitting line end, in order, and no fitting end is left out. |
| Recurrence.OptRecurrence | 5945/java/Main.java:59-86 | The offset is -1, and the cost 0, exactly when `i > n-1-last`. Otherwise the offset names a fitting first line whose candidate cost is the least of all fitting first lines. Every smaller offset costs strictly more. |
| Recurrence.Scanned | 5945/java/Main.java:77 | The list the scan has collected when it reaches `l` has one entry per line end `i..l-1`. |
| Recurrence.ScannedAt | 5945/java/Main.java:77 | Entry `d` of that list is the candidate cost of the line `i..i+d`. |
| Recurrence.OptFromScan | 5945/java/Main.java:67-85 | When the scan stops at the first line end that does not fit, its list is non-empty. Its minimum and the first position of the minimum are the recurrence's value. |
| Recurrence.OptHasLine | 5945/java/Main.java:63-65 | The recurrence names a first line exactly when there are words before the reserved tail. |
| Recurrence.OptStep | 5945/java/Main.java:77-85 | The winning first line fits and ends before the tail. The cost is its raggedness plus the winning cost after it. |
| Recurrence.OptIsLayout | 5945/java/Main.java:51-52 | Following the offsets from `i` gives a layout of words `i..n-1-last` into non-empty lines that fit. |
| Recurrence.OptCostAchieved | 5945/java/Main.java:51-52 | That layout's total raggedness is the cost `c` returns. |
| Recurrence.OptAchieved | 5945/java/Main.java:51-52 | Both of the above together. |
| Recurrence.OptMinimal | 5945/java/Main.java:51-52 | No layout of the scored words costs less than `c` returns. |
| Memo.StoreKeeps | 5945/java/Main.java:72-74 | Storing the recurrence's value keeps the table consistent. It keeps the table closed when the entry after the stored line is present. |
| Memo.StoreScanned | 5945/java/Main.java:82-83 | The entry `c` stores after its scan is the recurrence's value, and storing it keeps the table consistent and closed. |
| Memo.StoredLineFits | 5945/java/Main.java:156-170 | A stored offset `d >= 0` at position `i` names a line `i..i+d` with `0 < w <= L` that ends before the tail. So the guard at line 158 holds and each step moves forward. |
| TailSearch.SearchFromSpec | 5945/java/Main.java:102-116 | The search loop ends with the least cost over all tried tail lengths, reached at its smallest tried tail length. |
| TailSearch.BestTailSpec | 5945/java/Main.java:94-124 | The result's tail length `b` satisfies `1 <= b`, and `b <= n` when the paragraph has a word (an empty paragraph keeps `b = 1`, as the loop never runs). `b` is tried. Its cost is `c(0, 0, b)[0]`, which is at most the cost of every tried tail length. Every smaller tried tail length costs strictly more. |
| TailSearch.BestTailUnique | 5945/java/Main.java:110 | The strict `>` makes the result the only pair with these properties: ties keep the smaller tail length. |
| TailSearch.BestLayoutAchieved | 5945/java/Main.java:94-124 | Following the offsets for the chosen tail length lays out the scored words at the returned minimum. |
| TailSearch.BestLayoutOptimal | 5945/java/Main.java:94-124 | No layout of the paragraph costs less, for any tried tail length. |
| Reconstruction.WalkStep | 5945/java/Main.java:156-170 | One step of the walk prints the stored line and then the walk from the key after it. That line ends before the tail. |
| Reconstruction.WalkAppend | 5945/java/Main.java:158-170 | The same step, appended to the text printed so far. |
| Reconstruction.WalkPrintsOptimalLines | 5945/java/Main.java:146-177 | On a consistent, closed memo, the walk prints exactly the lines of the winning layout, each followed by a newline. |
| Reconstruction.OptLinesStep | 5945/java/Main.java:158-170 | The winning layout's lines are its first line and then the winning lines after it. |
| Reconstruction.PrintedCons | 5945/java/Main.java:159-165 | Printing a first line and then the rest gives the first line, a newline, then the rest. |
| Reconstruction.BacktrackPrintsRendered | 5945/java/Main.java:132-194 | With the memo the search leaves behind, `backtracking` prints the winning layout and then the tail on its own line. |
| Reconstruction.LinesCover | 5945/java/Main.java:156-170 | The lines of a layout of words `i..end-1`, read in order, are exactly those words. |
| Reconstruction.LinesMeasured | 5945/java/Main.java:77 | Every line of a layout is non-empty and fits. The raggedness the solver adds up equals the raggedness of the printed lines. |
| Reconstruction.LinesAreLayout | 5945/java/Main.java:51-52 | Any breaking of the words into non-empty lines that fit is a layout the solver considers, at the same raggedness. |
| Reconstruction.FittingLineWidth | 5945/java/Main.java:20-36 | A printed line at most `L` wide has its length as `w`, and that length is positive. |
| Reconstruction.SingleWordShortcut | 5945/java/Main.java:246-250 | For a one-word paragraph whose word fits, running the search would print the same word. |
| Paragraph.FormatText | 5945/java/Main.java:246-256 | The paragraph's text is the printed winning lines and then the final line, joined by newlines. |
| Paragraph.RenderedText | 5945/java/Main.java:179-191 | For any tail length, dropping the trailing newline leaves exactly the winning lines and the tail joined by newlines, with no trailing newline. |
| Paragraph.EndsWithLastWord | 5945/java/Main.java:189-191 | The tail's printed line does not end in a newline. |
| Paragraph.FormatCoversWords | 5945/java/Main.java:246-256 | The winning lines and then the final line, read in order, are the paragraph. Every line is non-empty and at most `L` wide. |
| Paragraph.LayoutCovers | 5945/java/Main.java:146-186 | For any tail length, the winning lines cover the words before the tail, in order, and each line fits. |
| Paragraph.TriedTailFits | 5945/java/Main.java:105 | The tail of a tried tail length is non-empty and fits on one line. |
| Paragraph.FormatCost | 5945/java/Main.java:252-256 | The raggedness of the printed lines before the final one is the minimum the search returns. |
| Paragraph.FormatOptimal | 5945/java/Main.java:94-124 | No breaking of the paragraph into fitting lines, with a fitting final line, has less raggedness before its final line. |
| Paragraph.TailIsTried | 5945/java/Main.java:105 | A final line that fits has a tail length the search tries. |
| Paragraph.FormatRereads | 5945/java/Main.java:246-256 | Splitting the text on newlines and then on spaces gives back the paragraph's words. |
| Text.WithSpacesIsJoined | 5945/java/Main.java:137-141 | Appending each word and a space, then taking off the last character, gives the words joined by single spaces. |
| Text.DropNewline | 5945/java/Main.java:189-191 | When the string ends in a newline, the result is the string less that one newline; otherwise it is the string itself. |
| LineBreaking.LineBreaker.constructor | 5945/java/Main.java:5-9 | A breaker for one paragraph starts with an empty memo and no last-line count. |
| LineBreaking.LineBreaker.W | 5945/java/Main.java:20-36 | The width loop computes `Width`. |
| LineBreaking.LineBreaker.R | 5945/java/Main.java:46-48 | Computes `Raggedness`. |
| LineBreaking.LineBreaker.C | 5945/java/Main.java:59-86 | Returns the recurrence's value at `i` for any line number. It keeps the memo consistent and closed, only adds keys, and stores its own key whenever it names a line. |
| LineBreaking.LineBreaker.Lookup | 5945/java/Main.java:69-77 | The memo access of the scan returns the recurrence's cost after the line. It leaves that key stored and keeps the memo's invariants. |
| LineBreaking.LineBreaker.MinimizeTotalRaggedness | 5945/java/Main.java:94-124 | Returns the search's pair. On exit the memo holds consistent, closed entries for the chosen tail length only, including key `(0, 0)` when a line is left to lay out. |
| LineBreaking.LineBreaker.AppendLine | 5945/java/Main.java:159-163 | Appends the words `i..j-1` joined by single spaces. |
| LineBreaking.LineBreaker.FollowWinners | 5945/java/Main.java:146-177 | The output loop prints the text of the walk from key `(0, 0)`. |
| LineBreaking.LineBreaker.AppendLastLine | 5945/java/Main.java:179-186 | Appends the tail's words when there are some and they are not the whole paragraph. |
| LineBreaking.LineBreaker.DropTrailingNewline | 5945/java/Main.java:188-191 | Removes one trailing newline. |
| LineBreaking.LineBreaker.Backtracking | 5945/java/Main.java:132-194 | Returns the reconstruction's text for the current memo and `lastLineWords`, including the early returns. |
| LineBreaking.LineBreaker.Solve | 5945/java/Main.java:246-256 | One paragraph's answer is `Format`: the word itself for a one-word paragraph, otherwise the winning layout. A one-word paragraph leaves the state alone; otherwise `lastLineWords` is the chosen tail length and the memo is consistent and closed for it. |

## Left out

- The `main` I/O loop (`5945/java/Main.java:196-245`, `257-258`) is not modelled:
  - reading the width header and the word lines;
  - the `L == 0` sentinel and the 250-line cap;
  - `split(" ")`;
  - the `answer` accumulator, the `"\n===\n"` separators and printing.

  `Solve` returns the text one paragraph adds to the answer, before its separator. A `LineBreaker` is made per paragraph, so `words` and `L` are constant fields.
- `Math.pow` at line 47 goes through floating point. It is modelled as the exact integer square.
- Cost.Width: a word's length is its number of Dafny `char`s (Unicode scalar values). Java's `length()` at line 30 counts UTF-16 code units, so a character outside the Basic Multilingual Plane counts 1 here and 2 in the program, and widths, raggedness and the chosen layout can differ for such words.
- Java `int` overflow is not modelled. Word lengths, `L` and the cost sums are unbounded integers.
- The string memo key `i + ", " + k` is modelled as the integer pair `(i, k)`.
- The caught exceptions on a missing memo entry (lines 148-153, 171-176) are modelled as checks of whether the key is stored.
- `c`'s memo access (lines 69-77), the output loop (lines 146-177) and the tail and newline steps (lines 179-191) are separate helper methods. These are `Lookup`, `FollowWinners`, `AppendLastLine` and `DropTrailingNewline`, and each does what its lines do.
- LineBreaking.LineBreaker.C and LineBreaking.LineBreaker.MinimizeTotalRaggedness require every word to be non-empty and at most `L` wide. LineBreaking.LineBreaker.Solve requires this only for paragraphs of two or more words, because a one-word paragraph is printed without calling `c` (lines 246-249), whatever the word's width.
  - Otherwise `Collections.min` at line 82 throws on an empty candidate list.
  - The only exception: for a paragraph of two or more words, the program also completes when just the final word is wider than `L` (or empty). Such a paragraph is not modelled.
  - The code has no fallback that places an over-wide word alone on a line, and the model adds none.
- LineBreaking.LineBreaker.Backtracking requires `lastLineWords` to be non-negative. In the one-line case it requires at least one word, because line 141 takes a character off the string it built.
- The paragraph properties of `Paragraph` assume that no word contains a space or a newline (`Separable`, `Free`). This is the reading of the text back into words.
