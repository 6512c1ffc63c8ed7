/**
 * `find_year_month`: the first cell, column by column and then row by row, whose text
 * contains a `YYYY년 M월` stamp with a month in 1..12.
 */
module YearMonth {
  import opened Wrappers
  import opened Strings
  import opened Sheet

  const YearMark := '년'
  const MonthMark := '월'

  predicate AllSpace(s: string) { forall k :: 0 <= k < |s| ==> IsSpace(s[k]) }

  /** The end of the longest run of characters satisfying `p` that starts at `i`. */
  function RunEnd(s: string, i: nat, p: char -> bool): (j: nat)
    requires i <= |s|
    ensures i <= j <= |s| && (j == |s| || !p(s[j]))
    decreases |s| - i
  {
    if i == |s| || !p(s[i]) then i else RunEnd(s, i + 1, p)
  }

  /** Every character of the run satisfies `p`. */
  lemma {:induction false} RunEndRun(s: string, i: nat, p: char -> bool)
    requires i <= |s|
    ensures forall k :: i <= k < RunEnd(s, i, p) ==> p(s[k])
    decreases |s| - i
  {
    if i < |s| && p(s[i]) {
      RunEndRun(s, i + 1, p);
    }
  }

  lemma SpaceRun(s: string, i: nat)
    requires i <= |s|
    ensures AllSpace(s[i..RunEnd(s, i, IsSpace)])
  {
    RunEndRun(s, i, IsSpace);
    var j := RunEnd(s, i, IsSpace);
    forall k | 0 <= k < j - i ensures IsSpace(s[i..j][k]) {
      assert s[i..j][k] == s[i + k];
    }
  }

  lemma DigitRun(s: string, i: nat)
    requires i <= |s|
    ensures AllDigits(s[i..RunEnd(s, i, IsDigit)])
  {
    RunEndRun(s, i, IsDigit);
    var j := RunEnd(s, i, IsDigit);
    forall k | 0 <= k < j - i ensures IsDigit(s[i..j][k]) {
      assert s[i..j][k] == s[i + k];
    }
  }

  /**
   * The regular expression `(\d{4})\s*년\s*(\d{1,2})\s*월` matches `s[i..c + 1]`, with the
   * year group `s[i..i + 4]` and the month group `s[b..e]`: the language of the pattern,
   * with every split point named.
   */
  predicate Splits(s: string, i: nat, a: nat, b: nat, e: nat, c: nat) {
    && i + 4 <= a < b < e <= c < |s|
    && e <= b + 2
    && AllDigits(s[i..i + 4]) && AllSpace(s[i + 4..a]) && s[a] == YearMark
    && AllSpace(s[a + 1..b]) && AllDigits(s[b..e]) && AllSpace(s[e..c]) && s[c] == MonthMark
  }

  /**
   * The match starting at `i`, computed as the backtracking matcher finds it: whitespace runs
   * are maximal, and the month group takes two digits when it can, so a run of three or more
   * digits never matches.
   */
  function MatchAt(s: string, i: nat): Option<(nat, nat)> {
    if i + 4 <= |s| && AllDigits(s[i..i + 4]) then
      var a := RunEnd(s, i + 4, IsSpace);
      if a < |s| && s[a] == YearMark then
        var b := RunEnd(s, a + 1, IsSpace);
        var e := RunEnd(s, b, IsDigit);
        if b < e <= b + 2 then
          var c := RunEnd(s, e, IsSpace);
          if c < |s| && s[c] == MonthMark then
            DigitRun(s, b);
            Some((DigitsValue(s[i..i + 4]), DigitsValue(s[b..e])))
          else None
        else None
      else None
    else None
  }

  /** The computed match is exactly the pattern's language, and its groups are the matched digits. */
  lemma MatchAtIsPattern(s: string, i: nat, y: nat, m: nat)
    ensures MatchAt(s, i) == Some((y, m)) <==>
      exists a: nat, b: nat, e: nat, c: nat :: Splits(s, i, a, b, e, c) && y == DigitsValue(s[i..i + 4]) && m == DigitsValue(s[b..e])
  {
    if MatchAt(s, i) == Some((y, m)) {
      var a, b, e, c := MatchAtSplits(s, i);
    }
    if exists a: nat, b: nat, e: nat, c: nat :: Splits(s, i, a, b, e, c) && y == DigitsValue(s[i..i + 4]) && m == DigitsValue(s[b..e]) {
      var a: nat, b: nat, e: nat, c: nat :| Splits(s, i, a, b, e, c) && y == DigitsValue(s[i..i + 4]) && m == DigitsValue(s[b..e]);
      SplitIsGreedy(s, i, a, b, e, c);
      SplitMatches(s, i, a, b, e, c);
    }
  }

  /** The split points of a computed match. */
  lemma MatchAtSplits(s: string, i: nat) returns (a: nat, b: nat, e: nat, c: nat)
    requires MatchAt(s, i).Some?
    ensures Splits(s, i, a, b, e, c)
    ensures MatchAt(s, i) == Some((DigitsValue(s[i..i + 4]), DigitsValue(s[b..e])))
  {
    a := RunEnd(s, i + 4, IsSpace);
    b := RunEnd(s, a + 1, IsSpace);
    e := RunEnd(s, b, IsDigit);
    c := RunEnd(s, e, IsSpace);
    SpaceRun(s, i + 4);
    SpaceRun(s, a + 1);
    DigitRun(s, b);
    SpaceRun(s, e);
  }

  /** A split at the greedy points is a computed match. */
  lemma SplitMatches(s: string, i: nat, a: nat, b: nat, e: nat, c: nat)
    requires Splits(s, i, a, b, e, c)
    requires a == RunEnd(s, i + 4, IsSpace) && b == RunEnd(s, a + 1, IsSpace)
    requires e == RunEnd(s, b, IsDigit) && c == RunEnd(s, e, IsSpace)
    ensures MatchAt(s, i) == Some((DigitsValue(s[i..i + 4]), DigitsValue(s[b..e])))
  {
  }

  /** Any split of a match is the one the greedy matcher takes: the character classes do not overlap. */
  lemma SplitIsGreedy(s: string, i: nat, a: nat, b: nat, e: nat, c: nat)
    requires Splits(s, i, a, b, e, c)
    ensures a == RunEnd(s, i + 4, IsSpace) && b == RunEnd(s, a + 1, IsSpace)
    ensures e == RunEnd(s, b, IsDigit) && c == RunEnd(s, e, IsSpace)
  {
    SpaceRunEndsAt(s, i + 4, a);
    SpaceRunEndsAt(s, a + 1, b);
    if e < c {
      assert s[e..c][0] == s[e];
    }
    DigitRunEndsAt(s, b, e);
    SpaceRunEndsAt(s, e, c);
  }

  lemma SpaceRunEndsAt(s: string, i: nat, j: nat)
    requires i <= j < |s| && AllSpace(s[i..j]) && !IsSpace(s[j])
    ensures RunEnd(s, i, IsSpace) == j
  {
    assert forall k :: i <= k < j ==> s[i..j][k - i] == s[k];
    RunEndIsFirstFailure(s, i, j, IsSpace);
  }

  lemma DigitRunEndsAt(s: string, i: nat, j: nat)
    requires i <= j < |s| && AllDigits(s[i..j]) && !IsDigit(s[j])
    ensures RunEnd(s, i, IsDigit) == j
  {
    assert forall k :: i <= k < j ==> s[i..j][k - i] == s[k];
    RunEndIsFirstFailure(s, i, j, IsDigit);
  }

  lemma {:induction false} RunEndIsFirstFailure(s: string, i: nat, j: nat, p: char -> bool)
    requires i <= j < |s| && !p(s[j])
    requires forall k :: i <= k < j ==> p(s[k])
    ensures RunEnd(s, i, p) == j
    decreases j - i
  {
    if i < j {
      RunEndIsFirstFailure(s, i + 1, j, p);
    }
  }

  /** No match starts in `[i, k)`. */
  predicate NoMatchBetween(s: string, i: nat, k: nat) {
    forall l :: i <= l < k ==> MatchAt(s, l).None?
  }

  /** `pattern.search(s)` from position `i`: the leftmost match. */
  function SearchFrom(s: string, i: nat): (r: Option<(nat, nat)>)
    requires i <= |s|
    ensures r.Some? ==> exists k :: i <= k <= |s| && MatchAt(s, k) == r && NoMatchBetween(s, i, k)
    ensures r.None? ==> NoMatchBetween(s, i, |s| + 1)
    decreases |s| - i
  {
    var here := MatchAt(s, i);
    if here.Some? then here
    else if i == |s| then None
    else SearchFrom(s, i + 1)
  }

  function Search(s: string): Option<(nat, nat)> {
    SearchFrom(s, 0)
  }

  /** What one cell's text contributes: its first match, when that match's month is in 1..12. */
  function Stamp(text: string): Option<(nat, nat)> {
    match Search(text)
    case Some((y, m)) => if 1 <= m <= 12 then Some((y, m)) else None
    case None => None
  }

  function TextAt(g: Grid, show: Cell -> string, col: nat, row: nat): string
    requires row < |g|
  {
    show(CellAt(g[row], col))
  }

  /** Cell (`col`, `row`) comes before cell (`col'`, `row'`) in column-major order. */
  predicate Before(col: nat, row: nat, col': nat, row': nat) {
    col < col' || (col == col' && row < row')
  }

  /** No cell of the `width` by `height` table from (`col`, `row`) up to, but not including, (`col'`, `row'`) is marked. */
  predicate NoneBetween<T>(mark: (nat, nat) -> Option<T>, width: nat, height: nat, col: nat, row: nat, col': nat, row': nat) {
    forall c: nat, r: nat :: c < width && r < height && !Before(c, r, col, row) && Before(c, r, col', row') ==> mark(c, r).None?
  }

  /** Cell (`c`, `w`), at or after (`col`, `row`), is the first marked one there. */
  predicate FirstMarkedAt<T>(mark: (nat, nat) -> Option<T>, width: nat, height: nat, col: nat, row: nat, c: nat, w: nat) {
    && c < width && w < height && !Before(c, w, col, row)
    && mark(c, w).Some?
    && NoneBetween(mark, width, height, col, row, c, w)
  }

  /** `for col in df.columns: for v in df[col]: ...`, returning at the first marked cell from (`col`, `row`) on. */
  function ScanFrom<T>(mark: (nat, nat) -> Option<T>, width: nat, height: nat, col: nat, row: nat): Option<T>
    requires col <= width && row <= height
    decreases width - col, height - row
  {
    if col == width then None
    else if row == height then ScanFrom(mark, width, height, col + 1, 0)
    else match mark(col, row)
      case Some(x) => Some(x)
      case None => ScanFrom(mark, width, height, col, row + 1)
  }

  /** The scan returns the mark of the first marked cell from (`col`, `row`) on, or None if there is none. */
  lemma {:induction false} ScanFromIsFirst<T>(mark: (nat, nat) -> Option<T>, width: nat, height: nat, col: nat, row: nat)
    requires col <= width && row <= height
    ensures var r := ScanFrom(mark, width, height, col, row);
      && (r.Some? ==> exists c: nat, w: nat :: FirstMarkedAt(mark, width, height, col, row, c, w) && mark(c, w) == r)
      && (r.None? ==> NoneBetween(mark, width, height, col, row, width, 0))
    decreases width - col, height - row
  {
    var r := ScanFrom(mark, width, height, col, row);
    if col == width {
    } else if row == height {
      ScanFromIsFirst(mark, width, height, col + 1, 0);
      if r.Some? {
        var c: nat, w: nat :| FirstMarkedAt(mark, width, height, col + 1, 0, c, w) && mark(c, w) == r;
        assert FirstMarkedAt(mark, width, height, col, row, c, w);
      }
    } else if mark(col, row).Some? {
      assert FirstMarkedAt(mark, width, height, col, row, col, row);
    } else {
      ScanFromIsFirst(mark, width, height, col, row + 1);
      if r.Some? {
        var c: nat, w: nat :| FirstMarkedAt(mark, width, height, col, row + 1, c, w) && mark(c, w) == r;
        assert FirstMarkedAt(mark, width, height, col, row, c, w);
      }
    }
  }

  /** The stamp of cell (`col`, `row`) of the frame, with every cell read as `astype(str)` gives it. */
  function StampAt(g: Grid, show: Cell -> string): (nat, nat) -> Option<(nat, nat)> {
    (c: nat, w: nat) => if w < |g| then Stamp(show(CellAt(g[w], c))) else None
  }

  /** `find_year_month(df)`: (year, month) of the first stamped cell, or None. */
  function FindYearMonth(g: Grid, show: Cell -> string): Option<(nat, nat)> {
    ScanFrom(StampAt(g, show), Width(g), |g|, 0, 0)
  }

  /**
   * The result is the first match, with a month in 1..12, of some cell, and no cell before
   * it in column-major order has such a match; None means no cell has one.
   */
  lemma FindYearMonthIsFirstStamp(g: Grid, show: Cell -> string)
    ensures var r := FindYearMonth(g, show);
      && (r.Some? ==> 1 <= r.value.1 <= 12 && exists c: nat, w: nat ::
            FirstMarkedAt(StampAt(g, show), Width(g), |g|, 0, 0, c, w) && Search(show(CellAt(g[w], c))) == r)
      && (r.None? ==> forall c: nat, w: nat :: c < Width(g) && w < |g| ==> Stamp(show(CellAt(g[w], c))).None?)
  {
    var mark := StampAt(g, show);
    ScanFromIsFirst(mark, Width(g), |g|, 0, 0);
    var r := FindYearMonth(g, show);
    if r.Some? {
      var c: nat, w: nat :| FirstMarkedAt(mark, Width(g), |g|, 0, 0, c, w) && mark(c, w) == r;
      assert Stamp(show(CellAt(g[w], c))) == r;
    } else {
      forall c: nat, w: nat | c < Width(g) && w < |g| ensures Stamp(show(CellAt(g[w], c))).None? {
        assert Before(c, w, Width(g), 0);
        assert mark(c, w).None?;
      }
    }
  }
}
