/**
 * The memo table of `c`.  Its key is the pair (position, line number) and
 * leaves out the tail length, so its entries are only meaningful for the
 * tail length that was active when they were stored.
 */
module Memo {
  import opened Cost
  import opened Recurrence

  type Key = (int, int)
  type Table = map<Key, Entry>

  /** Every stored entry is the recurrence's value at its position, for the
      tail length `last`. */
  predicate Agrees(words: seq<string>, L: int, last: nat, memo: Table)
    requires WordsFit(words, L)
  {
    forall key {:trigger memo[key]} | key in memo :: key.0 >= 0 && memo[key] == Opt(words, L, last, key.0)
  }

  /** Every stored entry that names a first line has the entry for the
      position and line after that line stored too.  (Both predicates are
      triggered on `memo[key]` only, so that one's conclusion does not start
      the other over again.) */
  predicate Closed(memo: Table)
  {
    forall key {:trigger memo[key]} | key in memo && memo[key].offset >= 0 :: (key.0 + memo[key].offset + 1, key.1 + 1) in memo
  }

  /** A stored offset `d >= 0` at `(i, k)` names a first line `i..i+d` that
      fits and ends before the reserved tail, so the reconstruction's guard
      holds and each of its steps moves forward. */
  lemma StoredLineFits(words: seq<string>, L: int, last: nat, memo: Table, key: Key)
    requires WordsFit(words, L) && Agrees(words, L, last, memo)
    requires key in memo && memo[key].offset >= 0
    ensures var (i, d) := (key.0, memo[key].offset);
      0 <= i && i + d <= |words| - 1 - last && 0 < Width(words, L, i, i + d) <= L
  {
    OptRecurrence(words, L, last, key.0);
  }

  /** Storing the recurrence's value at a position keeps the table
      consistent, and keeps it closed when the entry after its first line
      is already stored. */
  lemma StoreKeeps(words: seq<string>, L: int, last: nat, memo: Table, key: Key, e: Entry)
    requires WordsFit(words, L) && Agrees(words, L, last, memo) && Closed(memo)
    requires key.0 >= 0 && e == Opt(words, L, last, key.0)
    requires e.offset >= 0 ==> (key.0 + e.offset + 1, key.1 + 1) in memo
    ensures Agrees(words, L, last, memo[key := e]) && Closed(memo[key := e])
  {
    var m := memo[key := e];
    forall key' | key' in m && m[key'].offset >= 0
      ensures (key'.0 + m[key'].offset + 1, key'.1 + 1) in m
    {
      if key' != key {
        assert m[key'] == memo[key'];
      }
    }
  }

  /** The entry `c` stores once its scan has stopped at the first line end
      `l` that does not fit, with the entries after every fitting first line
      already stored: it is the recurrence's value, and storing it keeps the
      table consistent and closed. */
  lemma StoreScanned(words: seq<string>, L: int, last: nat, memo: Table, i: nat, k: int, next: int, l: nat)
    requires WordsFit(words, L) && Agrees(words, L, last, memo) && Closed(memo)
    requires i <= l && i <= |words| - 1 - last && next == k + 1
    requires !Fits(words, L, last, i, l) && (i < l ==> Fits(words, L, last, i, l - 1))
    requires forall m :: i < m <= l ==> (m, next) in memo
    ensures var costs := Scanned(words, L, last, i, l);
      |costs| > 0 &&
      var e := Entry(SeqMin(costs), FirstIndex(costs, SeqMin(costs)));
      e == Opt(words, L, last, i) &&
      Agrees(words, L, last, memo[(i, k) := e]) && Closed(memo[(i, k) := e])
  {
    OptFromScan(words, L, last, i, l);
    var costs := Scanned(words, L, last, i, l);
    var e := Entry(SeqMin(costs), FirstIndex(costs, SeqMin(costs)));
    assert 0 <= e.offset < l - i;
    assert (i + e.offset + 1, next) in memo;
    StoreKeeps(words, L, last, memo, (i, k), e);
  }
}
