/** The text-table formatter of the command-line tools: the width of each
    column, shrinking the columns until the table fits the terminal, and
    wrapping long cells over several lines. The terminal width is a
    parameter and the table is returned as its lines instead of printed. */
module Table {
  import opened Base

  /** The terminal width assumed when the real one cannot be read. */
  const DefaultWidth: nat := 80

  /** `nones(n)`: a list of `n` Nones, empty for a negative count. */
  function Nones<T>(n: int): (r: seq<Option<T>>)
    ensures |r| == Max(n, 0)
    ensures forall i :: 0 <= i < |r| ==> r[i] == None
  {
    if n <= 0 then [] else Nones(n - 1) + [None]
  }

  /** The Python values `bools` is applied to. */
  datatype PyValue = PyNone | PyBool(b: bool) | PyInt(i: int) | PyStr(s: string)

  /** Python truthiness: `None`, `False`, zero and the empty string are
      false, everything else is true. */
  predicate Truthy(v: PyValue) {
    match v
    case PyNone => false
    case PyBool(b) => b
    case PyInt(i) => i != 0
    case PyStr(s) => s != ""
  }

  /** `bools(x)`: `yes` for a truthy value, `no` otherwise. */
  function Bools(v: PyValue): (r: string)
    ensures r == "yes" || r == "no"
    ensures r == "yes" <==> Truthy(v)
  {
    if Truthy(v) then "yes" else "no"
  }

  /** The answers the tests expect, negative numbers and strings included. */
  lemma BoolsExamples()
    ensures Bools(PyInt(1)) == "yes" && Bools(PyInt(0)) == "no" && Bools(PyNone) == "no"
    ensures Bools(PyInt(-1)) == "yes" && Bools(PyStr("hello")) == "yes"
  {
  }

  // ---------------------------------------------------------------------
  // Column widths

  /** The width of one column: the header's length capped at `size`, then
      raised to each cell's capped length in turn. */
  function ColumnWidth(header: string, column: seq<string>, size: int): (w: int)
    ensures w <= size
    ensures w >= Min(|header|, size)
    ensures forall i :: 0 <= i < |column| ==> w >= Min(|column[i]|, size)
    ensures w == Min(|header|, size) || exists i :: 0 <= i < |column| && w == Min(|column[i]|, size)
  {
    if column == [] then Min(|header|, size)
    else
      var init := column[..|column| - 1];
      var w := ColumnWidth(header, init, size);
      assert forall i :: 0 <= i < |init| ==> init[i] == column[i];
      Max(Min(|column[|column| - 1]|, size), w)
  }

  /** The length of the longest text of a column, header included. */
  function Longest(header: string, column: seq<string>): (n: nat)
    ensures n >= |header| && forall i :: 0 <= i < |column| ==> n >= |column[i]|
    ensures n == |header| || exists i :: 0 <= i < |column| && n == |column[i]|
  {
    if column == [] then |header|
    else
      var rest := Longest(header, column[1..]);
      assert forall i :: 1 <= i < |column| ==> column[1..][i - 1] == column[i];
      Max(|column[0]|, rest)
  }

  /** A column is as wide as its longest text, but no wider than asked. */
  lemma ColumnWidthFormula(header: string, column: seq<string>, size: int)
    ensures ColumnWidth(header, column, size) == Min(size, Longest(header, column))
  {
  }

  /** Whether the headers and every row have a cell for each of `k`
      columns. */
  predicate HasColumns(headers: seq<string>, rows: seq<seq<string>>, k: nat) {
    k <= |headers| && forall i :: 0 <= i < |rows| ==> k <= |rows[i]|
  }

  /** The cells of column `n`, one per row. */
  function Column(rows: seq<seq<string>>, n: nat): (c: seq<string>)
    requires forall i :: 0 <= i < |rows| ==> n < |rows[i]|
    ensures |c| == |rows| && forall i :: 0 <= i < |rows| ==> c[i] == rows[i][n]
  {
    seq(|rows|, i requires 0 <= i < |rows| => rows[i][n])
  }

  /** The widths before shrinking, one per entry of `sizes`; a header or
      row without a cell for some column raises `IndexError`. */
  function Widths(headers: seq<string>, rows: seq<seq<string>>, sizes: seq<int>): (r: Result<seq<int>>)
    ensures r.Ok? <==> HasColumns(headers, rows, |sizes|)
    ensures r.Err? ==> r.error == IndexOutOfRange
    ensures r.Ok? ==> (|r.value| == |sizes|
      && forall n :: 0 <= n < |sizes| ==> r.value[n] == ColumnWidth(headers[n], Column(rows, n), sizes[n]))
  {
    if !HasColumns(headers, rows, |sizes|) then Err(IndexOutOfRange)
    else Ok(seq(|sizes|, n requires 0 <= n < |sizes| => ColumnWidth(headers[n], Column(rows, n), sizes[n])))
  }

  // ---------------------------------------------------------------------
  // Shrinking to the terminal

  /** The printed width `fit_to_term` counts: the columns and one space
      between neighbours. */
  function Span(ws: seq<int>): int {
    Sum(ws) + |ws| - 1
  }

  /** The first of the widest columns. */
  function Widest(ws: seq<int>): (i: nat)
    requires ws != []
    ensures i < |ws|
    ensures forall j :: 0 <= j < |ws| ==> ws[j] <= ws[i]
    ensures forall j :: 0 <= j < i ==> ws[j] < ws[i]
  {
    if |ws| == 1 then 0
    else
      var i := Widest(ws[1..]);
      assert forall j :: 1 <= j < |ws| ==> ws[1..][j - 1] == ws[j];
      if ws[0] >= ws[1..][i] then 0 else i + 1
  }

  lemma {:induction false} SumUpdate(ws: seq<int>, i: nat, v: int)
    requires i < |ws|
    ensures Sum(ws[i := v]) == Sum(ws) - ws[i] + v
  {
    if i == 0 {
      assert ws[i := v][1..] == ws[1..];
    } else {
      assert ws[i := v][1..] == ws[1..][i - 1 := v];
      SumUpdate(ws[1..], i - 1, v);
    }
  }

  /** `fit_to_term`: while the table is wider than `x`, narrow the first
      widest column by one. Each step takes exactly one column off the
      width, so a table that did not fit ends exactly `x` wide. */
  function FitToTerm(ws: seq<int>, x: nat): (r: seq<int>)
    ensures |r| == |ws|
    ensures Span(ws) <= x ==> r == ws
    ensures Span(ws) > x ==> Span(r) == x
    ensures forall i :: 0 <= i < |ws| ==> r[i] <= ws[i]
    decreases Span(ws) - x
  {
    if Span(ws) <= x then ws
    else
      var i := Widest(ws);
      SumUpdate(ws, i, ws[i] - 1);
      FitToTerm(ws[i := ws[i] - 1], x)
  }

  /** Every column that was narrowed is at most one narrower than the
      widest column. */
  predicate Balanced(orig: seq<int>, cur: seq<int>)
    requires |orig| == |cur|
  {
    forall i, j :: 0 <= i < |cur| && 0 <= j < |cur| && cur[i] < orig[i] ==> cur[j] <= cur[i] + 1
  }

  /** Narrowing the first widest column keeps the columns balanced. */
  lemma BalancedStep(orig: seq<int>, cur: seq<int>)
    requires |orig| == |cur| && cur != [] && Balanced(orig, cur)
    requires forall i :: 0 <= i < |cur| ==> cur[i] <= orig[i]
    ensures Balanced(orig, cur[Widest(cur) := cur[Widest(cur)] - 1])
    ensures forall i :: 0 <= i < |cur| ==> cur[Widest(cur) := cur[Widest(cur)] - 1][i] <= orig[i]
  {
  }

  lemma {:induction false} FitStaysBalanced(orig: seq<int>, cur: seq<int>, x: nat)
    requires |orig| == |cur| && Balanced(orig, cur)
    requires forall i :: 0 <= i < |cur| ==> cur[i] <= orig[i]
    ensures Balanced(orig, FitToTerm(cur, x))
    decreases Span(cur) - x
  {
    if Span(cur) > x {
      var w := Widest(cur);
      SumUpdate(cur, w, cur[w] - 1);
      BalancedStep(orig, cur);
      FitStaysBalanced(orig, cur[w := cur[w] - 1], x);
    }
  }

  /** Shrinking spreads the loss: no narrowed column ends more than one
      narrower than any other column. */
  lemma FitIsBalanced(ws: seq<int>, x: nat)
    ensures Balanced(ws, FitToTerm(ws, x))
  {
    FitStaysBalanced(ws, ws, x);
  }

  // ---------------------------------------------------------------------
  // Wrapping cells

  predicate Positive(ws: seq<int>) {
    forall i :: 0 <= i < |ws| ==> ws[i] > 0
  }

  predicate NonNegative(ws: seq<int>) {
    forall i :: 0 <= i < |ws| ==> ws[i] >= 0
  }

  /** Every cell with text sits in a column that can show some of it, so
      each line of the row uses up some text. */
  predicate Wraps(row: seq<string>, ws: seq<int>)
    requires |row| == |ws|
  {
    forall i :: 0 <= i < |row| && |row[i]| > 0 ==> ws[i] > 0
  }

  /** Python `any(row)` on strings: some cell is not empty. */
  predicate AnyText(row: seq<string>) {
    exists i :: 0 <= i < |row| && |row[i]| > 0
  }

  /** `c * n` for a one-character string `c`: empty when `n <= 0`. */
  function Repeat(c: char, n: int): (r: string)
    ensures |r| == Max(n, 0) && forall k :: 0 <= k < |r| ==> r[k] == c
  {
    if n <= 0 then [] else [c] + Repeat(c, n - 1)
  }

  /** Where `s[:w]` ends for a positive `w`. */
  function Cut(s: string, w: int): (k: nat)
    ensures k <= |s|
    ensures w > 0 && s != "" ==> k > 0
    ensures w > 0 ==> k == Min(|s|, w)
  {
    if |s| <= w then |s| else if w < 0 then 0 else w
  }

  /** The slices one emitted line shows, per column: `s[:w]`. */
  function Heads(row: seq<string>, ws: seq<int>): (r: seq<string>)
    requires |row| == |ws|
    ensures |r| == |row| && forall i {:trigger r[i]} :: 0 <= i < |row| ==> r[i] == row[i][..Cut(row[i], ws[i])]
  {
    seq(|row|, i requires 0 <= i < |row| => row[i][..Cut(row[i], ws[i])])
  }

  /** What each cell still has to show after one line: `s[w:]`. */
  function Tails(row: seq<string>, ws: seq<int>): (r: seq<string>)
    requires |row| == |ws|
    ensures |r| == |row| && forall i {:trigger r[i]} :: 0 <= i < |row| ==> r[i] == row[i][Cut(row[i], ws[i])..]
  {
    seq(|row|, i requires 0 <= i < |row| => row[i][Cut(row[i], ws[i])..])
  }

  /** The number of characters left in a row. */
  function Total(row: seq<string>): nat {
    if row == [] then 0 else |row[0]| + Total(row[1..])
  }

  lemma {:induction false} TailsShrink(row: seq<string>, ws: seq<int>)
    requires |row| == |ws| && Wraps(row, ws)
    ensures Wraps(Tails(row, ws), ws)
    ensures Total(Tails(row, ws)) <= Total(row)
    ensures AnyText(row) ==> Total(Tails(row, ws)) < Total(row)
  {
    if row != [] {
      TailsShrink(row[1..], ws[1..]);
      assert Tails(row, ws)[1..] == Tails(row[1..], ws[1..]);
      if AnyText(row) && row[0] == "" {
        var i :| 0 <= i < |row| && |row[i]| > 0;
        assert |row[1..][i - 1]| > 0;
      }
    }
  }

  /** The slices of every line `process_row` emits for a row: each line
      takes the next slice of each cell, until every cell is used up. */
  function Wrap(row: seq<string>, ws: seq<int>): (lines: seq<seq<string>>)
    requires |row| == |ws| && Wraps(row, ws)
    ensures forall j :: 0 <= j < |lines| ==> |lines[j]| == |row|
    decreases Total(row)
  {
    if !AnyText(row) then []
    else
      TailsShrink(row, ws);
      var rest := Wrap(Tails(row, ws), ws);
      assert forall j :: 1 <= j < |rest| + 1 ==> ([Heads(row, ws)] + rest)[j] == rest[j - 1];
      [Heads(row, ws)] + rest
  }

  /** Line `j + 1` of a row is line `j` of what the first line leaves. */
  lemma WrapNext(row: seq<string>, ws: seq<int>)
    requires |row| == |ws| && Wraps(row, ws) && AnyText(row)
    ensures Wrap(row, ws) == [Heads(row, ws)] + Wrap(Tails(row, ws), ws)
  {
  }

  /** A row emits no line exactly when all its cells are empty. */
  lemma WrapNone(row: seq<string>, ws: seq<int>)
    requires |row| == |ws| && Wraps(row, ws)
    ensures Wrap(row, ws) == [] <==> !AnyText(row)
  {
  }

  lemma ConsAt<T>(x: T, xs: seq<T>, k: nat)
    requires 0 < k <= |xs|
    ensures ([x] + xs)[k] == xs[k - 1]
  {
  }

  /** The first line of a row shows the first slice of each cell. */
  lemma WrapFirst(row: seq<string>, ws: seq<int>)
    requires |row| == |ws| && Wraps(row, ws) && Wrap(row, ws) != []
    ensures AnyText(row) && Wrap(row, ws)[0] == Heads(row, ws)
  {
  }

  /** Line `j + 1` of a row is line `j` of what the first line leaves. */
  lemma WrapLater(row: seq<string>, ws: seq<int>, j: nat)
    requires |row| == |ws| && Wraps(row, ws) && 0 < j < |Wrap(row, ws)|
    ensures AnyText(row) && |Wrap(row, ws)| == |Wrap(Tails(row, ws), ws)| + 1
    ensures Wrap(row, ws)[j] == Wrap(Tails(row, ws), ws)[j - 1]
  {
    WrapNext(row, ws);
    ConsAt(Heads(row, ws), Wrap(Tails(row, ws), ws), j);
  }

  /** No slice is wider than its column. */
  lemma {:induction false} WrapFits(row: seq<string>, ws: seq<int>, j: nat, n: nat)
    requires |row| == |ws| && Wraps(row, ws) && j < |Wrap(row, ws)| && n < |row|
    ensures |Wrap(row, ws)[j][n]| <= Max(ws[n], 0)
    decreases Total(row)
  {
    if j == 0 {
      WrapFirst(row, ws);
    } else {
      WrapLater(row, ws, j);
      TailsShrink(row, ws);
      WrapFits(Tails(row, ws), ws, j - 1, n);
    }
  }

  /** The slices of column `n` down the lines. */
  function Slices(lines: seq<seq<string>>, n: nat): (r: seq<string>)
    requires forall j :: 0 <= j < |lines| ==> n < |lines[j]|
    ensures |r| == |lines| && forall j {:trigger r[j]} :: 0 <= j < |lines| ==> r[j] == lines[j][n]
  {
    if lines == [] then [] else [lines[0][n]] + Slices(lines[1..], n)
  }

  /** A cell's slices down the lines: its first slice, then the slices of
      what the first line left. */
  lemma ColumnStep(lines: seq<seq<string>>, line: seq<string>, rest: seq<seq<string>>, n: nat, cell: string, k: nat)
    requires lines == [line] + rest && n < |line| && forall j :: 0 <= j < |rest| ==> n < |rest[j]|
    requires k <= |cell| && line[n] == cell[..k] && Flatten(Slices(rest, n)) == cell[k..]
    ensures Flatten(Slices(lines, n)) == cell
  {
    assert lines[1..] == rest;
    assert cell[..k] + cell[k..] == cell;
  }

  /** One line of a row plus the rest of its lines gives back each cell. */
  lemma RowRecovers(row: seq<string>, ws: seq<int>, n: nat)
    requires |row| == |ws| && Wraps(row, ws) && n < |row| && AnyText(row)
    requires Flatten(Slices(Wrap(Tails(row, ws), ws), n)) == Tails(row, ws)[n]
    ensures Flatten(Slices(Wrap(row, ws), n)) == row[n]
  {
    WrapNext(row, ws);
    var rest := Wrap(Tails(row, ws), ws);
    assert forall j :: 0 <= j < |rest| ==> n < |rest[j]|;
    ColumnStep(Wrap(row, ws), Heads(row, ws), rest, n, row[n], Cut(row[n], ws[n]));
  }

  /** Reading a column's slices in order gives back the cell. */
  lemma {:induction false} WrapRecovers(row: seq<string>, ws: seq<int>, n: nat)
    requires |row| == |ws| && Wraps(row, ws) && n < |row|
    ensures Flatten(Slices(Wrap(row, ws), n)) == row[n]
    decreases Total(row)
  {
    if AnyText(row) {
      TailsShrink(row, ws);
      WrapRecovers(Tails(row, ws), ws, n);
      RowRecovers(row, ws, n);
    } else {
      assert row[n] == "";
    }
  }

  lemma FirstLineShowsText(row: seq<string>, ws: seq<int>)
    requires |row| == |ws| && Wraps(row, ws) && Wrap(row, ws) != []
    ensures AnyText(Wrap(row, ws)[0])
  {
    WrapFirst(row, ws);
    var i :| 0 <= i < |row| && |row[i]| > 0;
    assert |Heads(row, ws)[i]| > 0;
  }

  /** Every line shows something: a row takes exactly as many lines as its
      longest cell needs. */
  lemma {:induction false} WrapLinesShowText(row: seq<string>, ws: seq<int>, j: nat)
    requires |row| == |ws| && Wraps(row, ws) && j < |Wrap(row, ws)|
    ensures AnyText(Wrap(row, ws)[j])
    decreases Total(row)
  {
    if j == 0 {
      FirstLineShowsText(row, ws);
    } else {
      WrapLater(row, ws, j);
      TailsShrink(row, ws);
      WrapLinesShowText(Tails(row, ws), ws, j - 1);
    }
  }

  /** An empty cell shows nothing on any line. */
  lemma {:induction false} WrapEmptyCell(row: seq<string>, ws: seq<int>, n: nat, j: nat)
    requires |row| == |ws| && Wraps(row, ws) && n < |row| && |row[n]| == 0 && j < |Wrap(row, ws)|
    ensures |Wrap(row, ws)[j][n]| == 0
    decreases Total(row)
  {
    if j == 0 {
      WrapFirst(row, ws);
    } else {
      TailsShrink(row, ws);
      WrapLater(row, ws, j);
      WrapEmptyCell(Tails(row, ws), ws, n, j - 1);
    }
  }

  /** A slice shorter than its column took the rest of the cell. */
  lemma CutShort(s: string, w: int)
    requires |s[..Cut(s, w)]| < w
    ensures |s[Cut(s, w)..]| == 0
  {
  }

  /** A first slice shorter than its column leaves nothing for the next
      lines. */
  lemma ShortFirstEnds(row: seq<string>, ws: seq<int>, n: nat, k: nat)
    requires |row| == |ws| && Wraps(row, ws) && n < |row|
    requires 0 < k < |Wrap(row, ws)| && |Wrap(row, ws)[0][n]| < ws[n]
    ensures |Wrap(row, ws)[k][n]| == 0
  {
    WrapFirst(row, ws);
    CutShort(row[n], ws[n]);
    TailsShrink(row, ws);
    WrapLater(row, ws, k);
    WrapEmptyCell(Tails(row, ws), ws, n, k - 1);
  }

  /** Only the last slice of a cell may be shorter than its column: once a
      slice comes up short, the cell is used up. */
  lemma {:induction false} WrapShortSliceEnds(row: seq<string>, ws: seq<int>, n: nat, j: nat, k: nat)
    requires |row| == |ws| && Wraps(row, ws) && n < |row|
    requires j < k < |Wrap(row, ws)| && |Wrap(row, ws)[j][n]| < ws[n]
    ensures |Wrap(row, ws)[k][n]| == 0
    decreases Total(row)
  {
    if j == 0 {
      ShortFirstEnds(row, ws, n, k);
    } else {
      TailsShrink(row, ws);
      WrapLater(row, ws, j);
      WrapLater(row, ws, k);
      WrapShortSliceEnds(Tails(row, ws), ws, n, j - 1, k - 1);
    }
  }

  /** `"{:<w}".format(s)`: `s` padded with spaces to at least `w`. */
  function Pad(s: string, w: int): (r: string)
    ensures |r| == Max(|s|, w) && r[..|s|] == s
    ensures forall k :: |s| <= k < |r| ==> r[k] == ' '
  {
    s + Repeat(' ', w - |s|)
  }

  /** One line of the template: each cell padded to its column, followed by
      one space. */
  function Render(cells: seq<string>, ws: seq<int>): (line: string)
    requires |cells| == |ws|
    ensures (forall i :: 0 <= i < |ws| ==> |cells[i]| <= ws[i]) ==> |line| == Sum(ws) + |ws|
  {
    if cells == [] then "" else Pad(cells[0], ws[0]) + " " + Render(cells[1..], ws[1..])
  }

  function RenderAll(lines: seq<seq<string>>, ws: seq<int>): (r: seq<string>)
    requires forall j :: 0 <= j < |lines| ==> |lines[j]| == |ws|
    ensures |r| == |lines| && forall j :: 0 <= j < |lines| ==> r[j] == Render(lines[j], ws)
  {
    seq(|lines|, j requires 0 <= j < |lines| => Render(lines[j], ws))
  }

  lemma WrapAllFit(row: seq<string>, ws: seq<int>)
    requires |row| == |ws| && Wraps(row, ws)
    ensures forall j, n :: 0 <= j < |Wrap(row, ws)| && 0 <= n < |row| ==> |Wrap(row, ws)[j][n]| <= Max(ws[n], 0)
  {
    forall j, n | 0 <= j < |Wrap(row, ws)| && 0 <= n < |row| {
      WrapFits(row, ws, j, n);
    }
  }

  /** Some of the first `m` columns has a negative width. */
  predicate NegativeAmong(ws: seq<int>, m: nat) {
    exists i :: 0 <= i < m && i < |ws| && ws[i] < 0
  }

  /** `process_row`: an all-empty row emits nothing. Otherwise the first
      line already fails when the row has more cells than columns (the
      slicing raises `IndexError`), when one of its cells meets a negative
      width (`format` raises `ValueError`) or when it has fewer cells than
      columns (`format` raises `IndexError`); a matching row with text in a
      column of width 0 never finishes; every other row emits its wrapped
      lines, all as wide as the table. */
  function ProcessRow(row: seq<string>, ws: seq<int>): (r: Result<seq<string>>)
    ensures !AnyText(row) ==> r == Ok([])
    ensures AnyText(row) && |row| > |ws| ==> r == Err(IndexOutOfRange)
    ensures AnyText(row) && |row| <= |ws| && NegativeAmong(ws, |row|) ==> r == Err(NegativeWidth)
    ensures AnyText(row) && |row| < |ws| && !NegativeAmong(ws, |row|) ==> r == Err(IndexOutOfRange)
    ensures AnyText(row) && |row| == |ws| && NonNegative(ws) && !Wraps(row, ws) ==> r == Err(WrapsForever)
    ensures r.Ok? <==> !AnyText(row) || (|row| == |ws| && NonNegative(ws) && Wraps(row, ws))
    ensures r.Ok? && |row| == |ws| ==> Wraps(row, ws) && r.value == RenderAll(Wrap(row, ws), ws)
    ensures r.Ok? ==> forall j :: 0 <= j < |r.value| ==> |r.value[j]| == Sum(ws) + |ws|
  {
    if !AnyText(row) then Ok([])
    else if |row| > |ws| then Err(IndexOutOfRange)
    else if NegativeAmong(ws, |row|) then Err(NegativeWidth)
    else if |row| < |ws| then Err(IndexOutOfRange)
    else if !Wraps(row, ws) then Err(WrapsForever)
    else
      WrapAllFit(row, ws);
      Ok(RenderAll(Wrap(row, ws), ws))
  }

  /** The rule under the headers. */
  function Dashes(ws: seq<int>): (r: seq<string>)
    ensures |r| == |ws| && forall i :: 0 <= i < |ws| ==> r[i] == Repeat('-', ws[i])
  {
    seq(|ws|, i requires 0 <= i < |ws| => Repeat('-', ws[i]))
  }

  /** A row whose cells all fit their columns takes exactly one line. */
  lemma WrapFitting(row: seq<string>, ws: seq<int>)
    requires |row| == |ws| && Wraps(row, ws) && AnyText(row)
    requires forall i :: 0 <= i < |row| ==> |row[i]| <= ws[i]
    ensures Wrap(row, ws) == [row]
  {
    forall i | 0 <= i < |row|
      ensures Heads(row, ws)[i] == row[i] && |Tails(row, ws)[i]| == 0
    {
      assert Cut(row[i], ws[i]) == |row[i]|;
      assert row[i][..|row[i]|] == row[i];
    }
    assert Heads(row, ws) == row;
    assert !AnyText(Tails(row, ws));
    WrapNext(row, ws);
  }

  /** The rule takes exactly one line when there is a column. */
  lemma DashesOneLine(ws: seq<int>)
    requires Positive(ws) && ws != []
    ensures Wrap(Dashes(ws), ws) == [Dashes(ws)]
  {
    assert |Dashes(ws)[0]| > 0;
    WrapFitting(Dashes(ws), ws);
  }

  /** The data rows in order, each through `process_row`; the first failure
      stops the table. */
  function ProcessRows(rows: seq<seq<string>>, ws: seq<int>): (r: Result<seq<string>>)
    ensures r.Err? <==> exists i :: 0 <= i < |rows| && ProcessRow(rows[i], ws).Err?
    ensures r.Ok? ==> forall j :: 0 <= j < |r.value| ==> |r.value[j]| == Sum(ws) + |ws|
  {
    if rows == [] then Ok([])
    else
      assert forall i :: 1 <= i < |rows| ==> rows[1..][i - 1] == rows[i];
      match ProcessRow(rows[0], ws)
      case Err(e) => Err(e)
      case Ok(first) =>
        match ProcessRows(rows[1..], ws)
        case Err(e) => Err(e)
        case Ok(rest) => Ok(first + rest)
  }

  // ---------------------------------------------------------------------
  // The whole table

  /** The `rows` argument: a flat list of strings is one row. */
  datatype Rows = Flat(cells: seq<string>) | Nested(rows: seq<seq<string>>)

  /** `rows[0]` raises `IndexError` on an empty list. */
  function RowList(rows: Rows): (r: Result<seq<seq<string>>>)
    ensures r.Err? <==> (rows.Flat? && rows.cells == []) || (rows.Nested? && rows.rows == [])
    ensures r.Err? ==> r.error == IndexOutOfRange
    ensures r.Ok? && rows.Flat? ==> r.value == [rows.cells]
    ensures r.Ok? && rows.Nested? ==> r.value == rows.rows
  {
    match rows
    case Flat(cells) => if cells == [] then Err(IndexOutOfRange) else Ok([cells])
    case Nested(rs) => if rs == [] then Err(IndexOutOfRange) else Ok(rs)
  }

  function TermWidth(term: Option<nat>): nat {
    if term.Some? then term.value else DefaultWidth
  }

  /** The final column widths: measured, then shrunk to the terminal; a
      header or row without a cell for some column raises `IndexError`. */
  function Layout(headers: seq<string>, rows: seq<seq<string>>, sizes: seq<int>, term: Option<nat>): (r: Result<seq<int>>)
    ensures r.Err? <==> !HasColumns(headers, rows, |sizes|)
    ensures r.Err? ==> r.error == IndexOutOfRange
    ensures r.Ok? ==> |r.value| == |sizes| && Span(r.value) <= TermWidth(term)
    ensures r.Ok? ==> forall n :: 0 <= n < |sizes| ==> r.value[n] <= sizes[n]
    ensures r.Ok? ==> Span(Widths(headers, rows, sizes).value) > TermWidth(term) ==> Span(r.value) == TermWidth(term)
  {
    var widths :- Widths(headers, rows, sizes);
    Ok(FitToTerm(widths, TermWidth(term)))
  }

  /** The lines of a table whose widths are settled: the header lines, the
      rule, then the lines of each data row, all as wide as the table. */
  function Assemble(headers: seq<string>, rows: seq<seq<string>>, ws: seq<int>): (r: Result<seq<string>>)
    ensures r.Err? <==> (ProcessRow(headers, ws).Err? || ProcessRow(Dashes(ws), ws).Err?
      || ProcessRows(rows, ws).Err?)
    ensures r.Ok? ==> forall j :: 0 <= j < |r.value| ==> |r.value[j]| == Sum(ws) + |ws|
    ensures r.Ok? && Positive(ws) && ws != [] ==> (ProcessRow(headers, ws).Ok?
      && |ProcessRow(headers, ws).value| < |r.value|
      && r.value[|ProcessRow(headers, ws).value|] == Render(Dashes(ws), ws))
  {
    var head :- ProcessRow(headers, ws);
    var rule :- ProcessRow(Dashes(ws), ws);
    var body :- ProcessRows(rows, ws);
    if Positive(ws) && ws != [] then
      DashesLine(ws);
      assert (head + rule + body)[|head|] == rule[0];
      Ok(head + rule + body)
    else
      Ok(head + rule + body)
  }

  /** `print_table`, returning its lines: an empty `rows` fails first, then
      a missing cell, then the lines are laid out. */
  function PrintTable(headers: seq<string>, rows: Rows, sizes: seq<int>, term: Option<nat>): (r: Result<seq<string>>)
    ensures RowList(rows).Err? ==> r == Err(IndexOutOfRange)
    ensures RowList(rows).Ok? && Layout(headers, RowList(rows).value, sizes, term).Err? ==>
      r == Err(Layout(headers, RowList(rows).value, sizes, term).error)
    ensures RowList(rows).Ok? && Layout(headers, RowList(rows).value, sizes, term).Ok? ==>
      r == Assemble(headers, RowList(rows).value, Layout(headers, RowList(rows).value, sizes, term).value)
  {
    var rs :- RowList(rows);
    var ws :- Layout(headers, rs, sizes, term);
    Assemble(headers, rs, ws)
  }

  /** The rule is one line, or none without columns. */
  lemma DashesLine(ws: seq<int>)
    requires Positive(ws)
    ensures ws != [] ==> ProcessRow(Dashes(ws), ws) == Ok([Render(Dashes(ws), ws)])
    ensures ws == [] ==> ProcessRow(Dashes(ws), ws) == Ok([])
  {
    if ws != [] {
      DashesOneLine(ws);
      assert RenderAll([Dashes(ws)], ws) == [Render(Dashes(ws), ws)];
    }
  }

  /** A table that had to be shrunk prints every line one character wider
      than the terminal: the shrinking counts the spaces between columns,
      but the template also writes one after the last column. */
  lemma ShrunkLinesOverflow(headers: seq<string>, rows: Rows, sizes: seq<int>, term: Option<nat>, j: nat)
    requires PrintTable(headers, rows, sizes, term).Ok?
    requires Span(Widths(headers, RowList(rows).value, sizes).value) > TermWidth(term)
    requires j < |PrintTable(headers, rows, sizes, term).value|
    ensures |PrintTable(headers, rows, sizes, term).value[j]| == TermWidth(term) + 1
  {
  }
}
