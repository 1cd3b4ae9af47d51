/** The table the formatter's own test prints, worked through the model. */
module TableExamples {
  import opened Base
  import opened Table

  const Headers: seq<string> := ["#", "one", "three", "giraffe"]
  const Long: string := Repeat('+', 25)
  const Rows: seq<seq<string>> := [["1", "two", "four", "monkey"], ["2", Long, "five", "."]]
  const Sizes: seq<int> := [100, 6, 100, 100]

  lemma ExampleColumns()
    ensures Column(Rows, 0) == ["1", "2"] && Column(Rows, 1) == ["two", Long]
    ensures Column(Rows, 2) == ["four", "five"] && Column(Rows, 3) == ["monkey", "."]
  {
  }

  lemma ExampleColumnWidths()
    ensures ColumnWidth("#", ["1", "2"], 100) == 1
    ensures ColumnWidth("one", ["two", Long], 6) == 6
    ensures ColumnWidth("three", ["four", "five"], 100) == 5
    ensures ColumnWidth("giraffe", ["monkey", "."], 100) == 7
  {
    assert |Long| == 25;
    ColumnWidthFormula("one", ["two", Long], 6);
  }

  /** The second column is capped at 6; the others take their longest text. */
  lemma ExampleWidths()
    ensures Widths(Headers, Rows, Sizes) == Ok([1, 6, 5, 7])
  {
    ExampleColumns();
    ExampleColumnWidths();
    assert HasColumns(Headers, Rows, |Sizes|);
    var r := Widths(Headers, Rows, Sizes).value;
    assert r[0] == 1 && r[1] == 6 && r[2] == 5 && r[3] == 7;
    assert r == [1, 6, 5, 7];
  }

  /** 22 columns fit the default terminal width of 80: nothing shrinks. */
  lemma ExampleLayout()
    ensures Layout(Headers, Rows, Sizes, None) == Ok([1, 6, 5, 7])
  {
    ExampleWidths();
  }

  const W: seq<int> := [1, 6, 5, 7]

  /** A cell of the wrapped second column: `n` plus signs, nothing beside it. */
  function Plus(n: int): seq<string> {
    ["", Repeat('+', n), "", ""]
  }

  /** The first line of the second row. */
  const LongHead: seq<string> := ["2", Repeat('+', 6), "five", "."]

  /** The lines the formatter's test expects, blanks at the line ends included. */
  const Expected: seq<string> := [
    "# one    three giraffe ",
    "- ------ ----- ------- ",
    "1 two    four  monkey  ",
    "2 ++++++ five  .       ",
    "  ++++++               ",
    "  ++++++               ",
    "  ++++++               ",
    "  +                    "
  ]

  lemma RepeatSplit(c: char, n: int, k: nat)
    requires k <= n
    ensures Repeat(c, n)[..k] == Repeat(c, k) && Repeat(c, n)[k..] == Repeat(c, n - k)
  {
  }

  /** The second cell runs on for `n - 6` more characters after a line. */
  lemma PlusLine(n: int)
    requires n > 0
    ensures Wraps(Plus(n), W) && AnyText(Plus(n))
    ensures n <= 6 ==> Wrap(Plus(n), W) == [Plus(n)]
    ensures n > 6 ==> Wrap(Plus(n), W) == [Plus(6)] + Wrap(Plus(n - 6), W)
  {
    assert |Plus(n)[1]| > 0;
    if n <= 6 {
      WrapFitting(Plus(n), W);
    } else {
      RepeatSplit('+', n, 6);
      assert Heads(Plus(n), W) == Plus(6);
      assert Tails(Plus(n), W) == Plus(n - 6);
      WrapNext(Plus(n), W);
    }
  }

  /** The first line of the second row shows six of its 25 plus signs. */
  lemma LongFirst()
    ensures Wraps(Rows[1], W) && AnyText(Rows[1])
    ensures Heads(Rows[1], W) == LongHead
    ensures Tails(Rows[1], W) == Plus(19)
  {
    var row := Rows[1];
    assert |row[0]| > 0;
    RepeatSplit('+', 25, 6);
    assert Heads(row, W)[0] == "2" && Heads(row, W)[2] == "five" && Heads(row, W)[3] == ".";
  }

  /** The lines a run of `n` plus signs in the second column takes: six
      signs a line, the remainder last. */
  function Runs(n: int): seq<seq<string>>
    requires n > 0
  {
    if n <= 6 then [Plus(n)] else [Plus(6)] + Runs(n - 6)
  }

  lemma {:induction false} PlusWrap(n: int)
    requires n > 0
    ensures Wrap(Plus(n), W) == Runs(n)
  {
    PlusLine(n);
    if n > 6 {
      PlusWrap(n - 6);
    }
  }

  /** A row whose first line leaves `n` plus signs in the second column. */
  lemma LeavesRun(row: seq<string>, first: seq<string>, n: int)
    requires |row| == 4 && Wraps(row, W) && AnyText(row) && n > 0
    requires Heads(row, W) == first && Tails(row, W) == Plus(n)
    ensures Wrap(row, W) == [first] + Runs(n)
  {
    WrapNext(row, W);
    PlusWrap(n);
  }

  lemma RunsNineteen()
    ensures Runs(19) == [Plus(6), Plus(6), Plus(6), Plus(1)]
  {
    var six, one := Plus(6), Plus(1);
    assert Runs(7) == [six, one];
    assert Runs(13) == [six] + [six, one];
  }

  lemma LeavesNineteen(row: seq<string>, first: seq<string>)
    requires |row| == 4 && Wraps(row, W) && AnyText(row)
    requires Heads(row, W) == first && Tails(row, W) == Plus(19)
    ensures Wrap(row, W) == [first, Plus(6), Plus(6), Plus(6), Plus(1)]
  {
    LeavesRun(row, first, 19);
    AfterFirst(first);
  }

  lemma AfterFirst(first: seq<string>)
    ensures [first] + Runs(19) == [first, Plus(6), Plus(6), Plus(6), Plus(1)]
  {
    RunsNineteen();
  }

  /** The second row takes five lines: its 25 plus signs in runs of six. */
  lemma LongLines()
    ensures Wraps(Rows[1], W) && AnyText(Rows[1])
    ensures Wrap(Rows[1], W) == [LongHead, Plus(6), Plus(6), Plus(6), Plus(1)]
  {
    LongFirst();
    LeavesNineteen(Rows[1], LongHead);
  }

  // ---------------------------------------------------------------------
  // The rendered text of each line

  lemma HeaderJoin()
    ensures ("#" + " ") + (("one   " + " ") + (("three" + " ") + ("giraffe" + " "))) == "# one    three giraffe "
  {
  }

  lemma RuleJoin()
    ensures ("-" + " ") + (("------" + " ") + (("-----" + " ") + ("-------" + " "))) == "- ------ ----- ------- "
  {
  }

  lemma FirstRowJoin()
    ensures ("1" + " ") + (("two   " + " ") + (("four " + " ") + ("monkey " + " "))) == "1 two    four  monkey  "
  {
  }

  lemma LongJoin()
    ensures ("2" + " ") + (("++++++" + " ") + (("five " + " ") + (".      " + " "))) == "2 ++++++ five  .       "
  {
  }

  lemma SixJoin()
    ensures (" " + " ") + (("++++++" + " ") + (("     " + " ") + ("       " + " "))) == "  ++++++               "
  {
  }

  lemma OneJoin()
    ensures (" " + " ") + (("+     " + " ") + (("     " + " ") + ("       " + " "))) == "  +                    "
  {
  }

  lemma PadPlus()
    ensures Pad(Repeat('+', 6), 6) == "++++++" && Pad(Repeat('+', 1), 6) == "+     "
  {
  }

  /** `Render` peels off the first cell. */
  lemma RenderStep(row: seq<string>, ws: seq<int>, a: string)
    requires |row| == |ws| > 0 && Pad(row[0], ws[0]) == a
    ensures Render(row, ws) == (a + " ") + Render(row[1..], ws[1..])
  {
  }

  /** A line of four cells from its padded cells. */
  lemma RenderCells(row: seq<string>, ws: seq<int>, a: string, b: string, c: string, d: string)
    requires |row| == |ws| == 4
    requires Pad(row[0], ws[0]) == a && Pad(row[1], ws[1]) == b
    requires Pad(row[2], ws[2]) == c && Pad(row[3], ws[3]) == d
    ensures Render(row, ws) == (a + " ") + ((b + " ") + ((c + " ") + (d + " ")))
  {
    var r1, w1 := row[1..], ws[1..];
    var r2, w2 := r1[1..], w1[1..];
    var r3, w3 := r2[1..], w2[1..];
    assert r1[0] == row[1] && r2[0] == row[2] && r3[0] == row[3] && w1[0] == ws[1] && w2[0] == ws[2] && w3[0] == ws[3];
    assert r3[1..] == [] && w3[1..] == [];
    RenderStep(r3, w3, d);
    RenderStep(r2, w2, c);
    RenderStep(r1, w1, b);
    RenderStep(row, ws, a);
  }

  lemma HeaderCells()
    ensures Pad(Headers[0], W[0]) == "#" && Pad(Headers[1], W[1]) == "one   "
    ensures Pad(Headers[2], W[2]) == "three" && Pad(Headers[3], W[3]) == "giraffe"
  {
  }

  lemma HeaderText()
    ensures Render(Headers, W) == "# one    three giraffe "
  {
    HeaderCells();
    RenderCells(Headers, W, "#", "one   ", "three", "giraffe");
    HeaderJoin();
  }

  lemma RuleCells()
    ensures Pad(Dashes(W)[0], W[0]) == "-" && Pad(Dashes(W)[1], W[1]) == "------"
    ensures Pad(Dashes(W)[2], W[2]) == "-----" && Pad(Dashes(W)[3], W[3]) == "-------"
  {
    assert Pad(Repeat('-', 1), 1) == "-" && Pad(Repeat('-', 6), 6) == "------";
    assert Pad(Repeat('-', 5), 5) == "-----" && Pad(Repeat('-', 7), 7) == "-------";
  }

  lemma RuleText()
    ensures Render(Dashes(W), W) == "- ------ ----- ------- "
  {
    RuleCells();
    RenderCells(Dashes(W), W, "-", "------", "-----", "-------");
    RuleJoin();
  }

  lemma FirstRowCells()
    ensures Pad(Rows[0][0], W[0]) == "1" && Pad(Rows[0][1], W[1]) == "two   "
    ensures Pad(Rows[0][2], W[2]) == "four " && Pad(Rows[0][3], W[3]) == "monkey "
  {
  }

  lemma FirstRowText()
    ensures Render(Rows[0], W) == "1 two    four  monkey  "
  {
    FirstRowCells();
    RenderCells(Rows[0], W, "1", "two   ", "four ", "monkey ");
    FirstRowJoin();
  }

  lemma LongCells()
    ensures Pad(LongHead[0], W[0]) == "2" && Pad(LongHead[1], W[1]) == "++++++"
    ensures Pad(LongHead[2], W[2]) == "five " && Pad(LongHead[3], W[3]) == ".      "
  {
    assert Pad(Repeat('+', 6), 6) == "++++++";
  }

  lemma LongText()
    ensures Render(LongHead, W) == "2 ++++++ five  .       "
  {
    LongCells();
    RenderCells(LongHead, W, "2", "++++++", "five ", ".      ");
    LongJoin();
  }

  /** The padded cells of a line of the wrapped second row. */
  lemma PlusCells(n: int)
    requires 0 < n <= 6
    ensures Pad(Plus(n)[0], W[0]) == " " && Pad(Plus(n)[2], W[2]) == "     "
    ensures Pad(Plus(n)[3], W[3]) == "       " && Pad(Plus(n)[1], W[1]) == Pad(Repeat('+', n), 6)
  {
    assert Pad("", 1) == " " && Pad("", 5) == "     " && Pad("", 7) == "       ";
  }

  lemma SixText()
    ensures Render(Plus(6), W) == "  ++++++               "
  {
    PlusCells(6);
    PadPlus();
    RenderCells(Plus(6), W, " ", "++++++", "     ", "       ");
    SixJoin();
  }

  lemma OneText()
    ensures Render(Plus(1), W) == "  +                    "
  {
    PlusCells(1);
    PadPlus();
    RenderCells(Plus(1), W, " ", "+     ", "     ", "       ");
    OneJoin();
  }

  // ---------------------------------------------------------------------
  // The lines of each row and of the whole table

  /** `process_row` on a row whose cells all fit: its one rendered line. */
  lemma OneLine(row: seq<string>, ws: seq<int>)
    requires |row| == |ws| && Positive(ws) && AnyText(row)
    requires forall i :: 0 <= i < |row| ==> |row[i]| <= ws[i]
    ensures ProcessRow(row, ws) == Ok([Render(row, ws)])
  {
    WrapFitting(row, ws);
    assert RenderAll([row], ws) == [Render(row, ws)];
  }

  /** `process_row` on a row that wraps into known lines. */
  lemma WrappedLines(row: seq<string>, ws: seq<int>, lines: seq<seq<string>>)
    requires |row| == |ws| && Positive(ws) && AnyText(row)
    requires Wrap(row, ws) == lines
    ensures ProcessRow(row, ws) == Ok(RenderAll(lines, ws))
  {
  }

  /** The table's lines from the lines of its header, rule and two rows. */
  lemma TwoRows(headers: seq<string>, r0: seq<string>, r1: seq<string>, ws: seq<int>,
                a: seq<string>, b: seq<string>, c: seq<string>, d: seq<string>)
    requires ProcessRow(headers, ws) == Ok(a) && ProcessRow(Dashes(ws), ws) == Ok(b)
    requires ProcessRow(r0, ws) == Ok(c) && ProcessRow(r1, ws) == Ok(d)
    ensures Assemble(headers, [r0, r1], ws) == Ok(a + b + (c + d))
  {
    assert [r0, r1][1..] == [r1] && [r1][1..] == [];
    assert ProcessRows([r1], ws) == Ok(d + []);
    assert d + [] == d;
  }

  lemma HeaderLines()
    ensures ProcessRow(Headers, W) == Ok(["# one    three giraffe "])
  {
    assert |Headers[0]| > 0;
    OneLine(Headers, W);
    HeaderText();
  }

  lemma RuleLines()
    ensures ProcessRow(Dashes(W), W) == Ok(["- ------ ----- ------- "])
  {
    DashesLine(W);
    RuleText();
  }

  lemma FirstRowLines()
    ensures ProcessRow(Rows[0], W) == Ok(["1 two    four  monkey  "])
  {
    assert |Rows[0][0]| > 0;
    OneLine(Rows[0], W);
    FirstRowText();
  }

  /** `RenderAll` distributes over concatenation. */
  lemma RenderAppend(a: seq<seq<string>>, b: seq<seq<string>>, ws: seq<int>)
    requires forall j :: 0 <= j < |a| ==> |a[j]| == |ws|
    requires forall j :: 0 <= j < |b| ==> |b[j]| == |ws|
    ensures RenderAll(a + b, ws) == RenderAll(a, ws) + RenderAll(b, ws)
  {
    assert forall j :: 0 <= j < |b| ==> (a + b)[|a| + j] == b[j];
  }

  lemma RenderTwo(l0: seq<string>, l1: seq<string>, ws: seq<int>, t0: string, t1: string)
    requires |l0| == |l1| == |ws|
    requires Render(l0, ws) == t0 && Render(l1, ws) == t1
    ensures RenderAll([l0, l1], ws) == [t0, t1]
  {
    var r := RenderAll([l0, l1], ws);
    assert r[0] == t0 && r[1] == t1;
  }

  lemma RenderThree(l0: seq<string>, l1: seq<string>, l2: seq<string>, ws: seq<int>, t0: string, t1: string, t2: string)
    requires |l0| == |l1| == |l2| == |ws|
    requires Render(l0, ws) == t0 && Render(l1, ws) == t1 && Render(l2, ws) == t2
    ensures RenderAll([l0, l1, l2], ws) == [t0, t1, t2]
  {
    var r := RenderAll([l0, l1, l2], ws);
    assert r[0] == t0 && r[1] == t1 && r[2] == t2;
  }

  lemma RenderFive(l0: seq<string>, l1: seq<string>, l2: seq<string>, l3: seq<string>, l4: seq<string>, ws: seq<int>,
                   t0: string, t1: string, t2: string, t3: string, t4: string)
    requires |l0| == |l1| == |l2| == |l3| == |l4| == |ws|
    requires Render(l0, ws) == t0 && Render(l1, ws) == t1 && Render(l2, ws) == t2
    requires Render(l3, ws) == t3 && Render(l4, ws) == t4
    ensures RenderAll([l0, l1, l2, l3, l4], ws) == [t0, t1, t2, t3, t4]
  {
    RenderTwo(l0, l1, ws, t0, t1);
    RenderThree(l2, l3, l4, ws, t2, t3, t4);
    RenderAppend([l0, l1], [l2, l3, l4], ws);
    assert [l0, l1] + [l2, l3, l4] == [l0, l1, l2, l3, l4];
  }

  const Six: string := "  ++++++               "
  const One: string := "  +                    "

  lemma WrappedText()
    ensures RenderAll([LongHead, Plus(6), Plus(6), Plus(6), Plus(1)], W) == ["2 ++++++ five  .       ", Six, Six, Six, One]
  {
    LongText();
    SixText();
    OneText();
    RenderFive(LongHead, Plus(6), Plus(6), Plus(6), Plus(1), W, "2 ++++++ five  .       ", Six, Six, Six, One);
  }

  lemma LongLinesText()
    ensures ProcessRow(Rows[1], W) == Ok(["2 ++++++ five  .       ", Six, Six, Six, One])
  {
    LongLines();
    WrappedLines(Rows[1], W, [LongHead, Plus(6), Plus(6), Plus(6), Plus(1)]);
    WrappedText();
  }

  /** `print_table` on a nested table from its widths and its lines. */
  lemma Printed(headers: seq<string>, rows: seq<seq<string>>, sizes: seq<int>, ws: seq<int>, out: seq<string>)
    requires rows != [] && Layout(headers, rows, sizes, None) == Ok(ws)
    requires Assemble(headers, rows, ws) == Ok(out)
    ensures PrintTable(headers, Nested(rows), sizes, None) == Ok(out)
  {
  }

  lemma ExpectedParts()
    ensures ["# one    three giraffe "] + ["- ------ ----- ------- "]
      + (["1 two    four  monkey  "] + ["2 ++++++ five  .       ", Six, Six, Six, One]) == Expected
  {
  }

  /** The formatter's test table prints exactly the eight lines its test
      expects: the header, the rule, the first row, and the second row
      wrapped into five lines of at most six plus signs. */
  lemma ExampleOutput()
    ensures PrintTable(Headers, Nested(Rows), Sizes, None) == Ok(Expected)
  {
    ExampleLayout();
    HeaderLines();
    RuleLines();
    FirstRowLines();
    LongLinesText();
    assert Rows == [Rows[0], Rows[1]];
    TwoRows(Headers, Rows[0], Rows[1], W, ["# one    three giraffe "], ["- ------ ----- ------- "],
      ["1 two    four  monkey  "], ["2 ++++++ five  .       ", Six, Six, Six, One]);
    ExpectedParts();
    Printed(Headers, Rows, Sizes, W, Expected);
  }
}
