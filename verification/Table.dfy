/** internal/jobreport/render.go: box tables. A string is a sequence of runes. */
module Table {
  import opened Sequences

  function Min(a: int, b: int): int { if a < b then a else b }

  function Repeat(c: char, n: nat): string { seq(n, _ => c) }

  // ----- cells and widths -----------------------------------------------------------------------

  function FirstRunes(s: string, n: int): string {
    if n <= 0 then "" else s[..Min(n, |s|)]
  }

  /** truncRunes. */
  method TruncRunes(s: string, n: int) returns (r: string)
    ensures r == FirstRunes(s, n)
  {
    if n <= 0 { return ""; }
    var cnt := 0;
    for i := 0 to |s|
      invariant cnt == i <= n
    {
      if cnt == n { return s[..i]; }
      cnt := cnt + 1;
    }
    return s;
  }

  function Shorten(v: string, maxw: int): string {
    if |v| > maxw then FirstRunes(v, maxw - 3) + "..." else v
  }

  function Columns(rows: seq<seq<string>>): nat {
    if rows == [] then 0
    else
      var front := Columns(rows[..|rows| - 1]);
      if |rows[|rows| - 1]| > front then |rows[|rows| - 1]| else front
  }

  function Cell(row: seq<string>, maxw: int, j: nat): string {
    Shorten(if j < |row| then row[j] else "", maxw)
  }

  /** The longest cell of column j. */
  function Width(rows: seq<seq<string>>, maxw: int, j: nat): nat {
    if rows == [] then 0
    else
      var front := Width(rows[..|rows| - 1], maxw, j);
      var len := |Cell(rows[|rows| - 1], maxw, j)|;
      if len > front then len else front
  }

  function Widths(rows: seq<seq<string>>, maxw: int): seq<nat> {
    seq(Columns(rows), j requires 0 <= j < Columns(rows) => Width(rows, maxw, j))
  }

  /** A cell fits the limit exactly when the limit leaves room for the three dots or
      nothing had to be cut; cut or not, it begins with what is kept of the value. */
  lemma {:induction false} CellFits(v: string, maxw: int)
    ensures |Shorten(v, maxw)| <= maxw <==> (maxw >= 3 || |v| <= maxw)
    ensures |v| > maxw >= 3 ==> |Shorten(v, maxw)| == maxw && Shorten(v, maxw)[..maxw - 3] == v[..maxw - 3]
  {
  }

  lemma {:induction false} WidthHolds(rows: seq<seq<string>>, maxw: int, i: nat, j: nat)
    requires i < |rows|
    ensures |Cell(rows[i], maxw, j)| <= Width(rows, maxw, j)
  {
    if i < |rows| - 1 {
      WidthHolds(rows[..|rows| - 1], maxw, i, j);
    }
  }

  /** A column is as wide as its widest cell, so never wider than the limit, from 3 up. */
  lemma {:induction false} WidthIsNeeded(rows: seq<seq<string>>, maxw: int, j: nat)
    requires rows != []
    ensures exists i :: 0 <= i < |rows| && |Cell(rows[i], maxw, j)| == Width(rows, maxw, j)
    ensures maxw >= 3 ==> Width(rows, maxw, j) <= maxw
  {
    var n := |rows| - 1;
    CellFits(if j < |rows[n]| then rows[n][j] else "", maxw);
    if Width(rows, maxw, j) > |Cell(rows[n], maxw, j)| {
      WidthIsNeeded(rows[..n], maxw, j);
      var i :| 0 <= i < n && |Cell(rows[..n][i], maxw, j)| == Width(rows[..n], maxw, j);
      assert rows[..n][i] == rows[i];
    }
  }

  lemma {:induction false} ColumnsHold(rows: seq<seq<string>>, i: nat)
    requires i < |rows|
    ensures |rows[i]| <= Columns(rows)
  {
    if i < |rows| - 1 { ColumnsHold(rows[..|rows| - 1], i); }
  }

  /** Some row has exactly as many cells as the table has columns. */
  lemma {:induction false} ColumnsAreNeeded(rows: seq<seq<string>>)
    requires rows != []
    ensures exists i :: 0 <= i < |rows| && |rows[i]| == Columns(rows)
  {
    var n := |rows| - 1;
    if Columns(rows) != |rows[n]| {
      assert n > 0 && Columns(rows[..n]) == Columns(rows);
      ColumnsAreNeeded(rows[..n]);
      var i :| 0 <= i < n && |rows[..n][i]| == Columns(rows[..n]);
      assert rows[i] == rows[..n][i];
    }
  }

  /** What a cell shows of a value: all of it if it fits, else its beginning and three dots. */
  lemma CellShows(v: string, maxw: int)
    ensures |v| <= maxw ==> Shorten(v, maxw) == v
    ensures |v| > maxw >= 3 ==> Shorten(v, maxw) == v[..maxw - 3] + ['.', '.', '.']
    ensures |v| > maxw && maxw < 3 ==> Shorten(v, maxw) == ['.', '.', '.']
  {
  }

  // ----- lines ----------------------------------------------------------------------------------

  datatype Corners = Corners(left: char, mid: char, right: char)

  const TOP := Corners('┌', '┬', '┐')
  const MIDDLE := Corners('├', '┼', '┤')
  const BOTTOM := Corners('└', '┴', '┘')
  const BAR := '│'
  const DASH := '─'

  /** Borders with one column's text between each two: as far as the first j columns. */
  function Join(parts: seq<string>, borders: seq<char>, j: nat): string
    requires j <= |parts| && |borders| == |parts| + 1
  {
    if j == 0 then [borders[0]] else Join(parts, borders, j - 1) + parts[j - 1] + [borders[j]]
  }

  function Dashes(width: seq<nat>): seq<string> {
    seq(|width|, j requires 0 <= j < |width| => Repeat(DASH, width[j] + 2))
  }

  function RuleBorders(c: Corners, n: nat): seq<char>
    requires n > 0
  {
    [c.left] + seq(n - 1, _ => c.mid) + [c.right]
  }

  function RuleLine(width: seq<nat>, c: Corners): string {
    if width == [] then [c.left, c.right] else Join(Dashes(width), RuleBorders(c, |width|), |width|)
  }

  /** One column of a row, centred in the header and left-aligned in the body. */
  function Padded(cell: string, width: nat, header: bool): (r: string)
    requires |cell| <= width
    ensures |r| == width + 2
  {
    var pad := width - |cell|;
    if header then " " + Repeat(' ', pad / 2) + cell + Repeat(' ', pad - pad / 2) + " "
    else " " + cell + Repeat(' ', pad) + " "
  }

  ghost predicate Fits(row: seq<string>, maxw: int, width: seq<nat>) {
    forall j :: 0 <= j < |width| ==> |Cell(row, maxw, j)| <= width[j]
  }

  function PaddedCells(row: seq<string>, maxw: int, width: seq<nat>, header: bool): (parts: seq<string>)
    requires Fits(row, maxw, width)
    ensures |parts| == |width| && forall j :: 0 <= j < |width| ==> |parts[j]| == width[j] + 2
  {
    seq(|width|, j requires 0 <= j < |width| && Fits(row, maxw, width) => Padded(Cell(row, maxw, j), width[j], header))
  }

  function RowLine(row: seq<string>, maxw: int, width: seq<nat>, header: bool): string
    requires Fits(row, maxw, width)
  {
    Join(PaddedCells(row, maxw, width, header), Repeat(BAR, |width| + 1), |width|)
  }

  /** The lines of the table as far as its first n rows. */
  function LinesUpTo(rows: seq<seq<string>>, maxw: int, width: seq<nat>, n: nat): seq<string>
    requires n <= |rows| && forall i :: 0 <= i < |rows| ==> Fits(rows[i], maxw, width)
  {
    if n == 0 then [RuleLine(width, TOP)]
    else
      LinesUpTo(rows, maxw, width, n - 1) +
      [RowLine(rows[n - 1], maxw, width, n == 1), RuleLine(width, RuleAfter(n - 1, |rows|))]
  }

  /** The rule under row i: the header always gets a middle rule, even when it is alone. */
  function RuleAfter(i: nat, n: nat): Corners {
    if i == 0 || i + 1 < n then MIDDLE else BOTTOM
  }

  lemma AllFit(rows: seq<seq<string>>, maxw: int)
    ensures forall i :: 0 <= i < |rows| ==> Fits(rows[i], maxw, Widths(rows, maxw))
  {
    forall i, j | 0 <= i < |rows| && 0 <= j < Columns(rows) ensures |Cell(rows[i], maxw, j)| <= Widths(rows, maxw)[j] {
      WidthHolds(rows, maxw, i, j);
    }
  }

  function Lines(rows: seq<seq<string>>, maxw: int): seq<string> {
    if rows == [] then []
    else AllFit(rows, maxw); LinesUpTo(rows, maxw, Widths(rows, maxw), |rows|)
  }

  /** The lines, each with its newline. */
  function Text(lines: seq<string>): string {
    if lines == [] then "" else Text(lines[..|lines| - 1]) + lines[|lines| - 1] + "\n"
  }

  // ----- what the layout is -----------------------------------------------------------------------

  /** Where the border before column j stands: after the cells so far and three more runes each. */
  function Edge(width: seq<nat>, j: nat): nat
    requires j <= |width|
  {
    if j == 0 then 0 else Edge(width, j - 1) + width[j - 1] + 3
  }

  /** The line has its borders at the edges, its parts between them, and nothing else. */
  ghost predicate Framed(line: string, width: seq<nat>, parts: seq<string>, borders: seq<char>) {
    var n := |width|;
    && |parts| == n && |borders| == n + 1
    && |line| == Edge(width, n) + 1
    && (forall k :: 0 <= k <= n ==> Drawn(line, Edge(width, k), [borders[k]]))
    && (forall k :: 0 <= k < n ==> |parts[k]| == width[k] + 2 && Drawn(line, Edge(width, k) + 1, parts[k]))
  }

  /** `part` stands in the line from position `at`. */
  predicate Drawn(line: string, at: nat, part: string) {
    at + |part| <= |line| && line[at..at + |part|] == part
  }

  lemma DrawnStays(line: string, at: nat, part: string, more: string)
    requires Drawn(line, at, part)
    ensures Drawn(line + more, at, part)
  {
  }

  lemma DrawnAtEnd(line: string, part: string, more: string)
    ensures Drawn(line + part + more, |line|, part)
  {
  }

  ghost predicate SameWidths(width: seq<nat>, parts: seq<string>, borders: seq<char>) {
    && |parts| == |width| && |borders| == |width| + 1
    && forall k :: 0 <= k < |width| ==> |parts[k]| == width[k] + 2
  }

  lemma {:induction false} JoinLength(width: seq<nat>, parts: seq<string>, borders: seq<char>, j: nat)
    requires SameWidths(width, parts, borders) && j <= |width|
    ensures |Join(parts, borders, j)| == Edge(width, j) + 1
  {
    if j > 0 { JoinLength(width, parts, borders, j - 1); }
  }

  lemma {:induction false} JoinHas(width: seq<nat>, parts: seq<string>, borders: seq<char>, j: nat, k: nat)
    requires SameWidths(width, parts, borders) && k <= j <= |width|
    ensures Drawn(Join(parts, borders, j), Edge(width, k), [borders[k]])
    ensures k < j ==> Drawn(Join(parts, borders, j), Edge(width, k) + 1, parts[k])
  {
    if j > 0 {
      var before, part, border := Join(parts, borders, j - 1), parts[j - 1], [borders[j]];
      JoinLength(width, parts, borders, j - 1);
      assert Edge(width, j) == Edge(width, j - 1) + |part| + 1;
      assert Join(parts, borders, j) == before + part + border;
      hide Drawn, Join, Edge;
      assert before + part + border == before + (part + border);
      assert before + part + border + "" == before + part + border;
      DrawnAtEnd(before, part, border);
      DrawnAtEnd(before + part, border, "");
      if k < j {
        JoinHas(width, parts, borders, j - 1, k);
        DrawnStays(before, Edge(width, k), [borders[k]], part + border);
        if k < j - 1 { DrawnStays(before, Edge(width, k) + 1, parts[k], part + border); }
      }
    }
  }

  lemma JoinIsFramed(width: seq<nat>, parts: seq<string>, borders: seq<char>)
    requires SameWidths(width, parts, borders)
    ensures Framed(Join(parts, borders, |width|), width, parts, borders)
  {
    hide Drawn, Join, Edge;
    JoinLength(width, parts, borders, |width|);
    var line := Join(parts, borders, |width|);
    forall k | 0 <= k <= |width|
      ensures Drawn(line, Edge(width, k), [borders[k]])
      ensures k < |width| ==> Drawn(line, Edge(width, k) + 1, parts[k])
    {
      JoinHas(width, parts, borders, |width|, k);
    }
  }

  ghost predicate IsRule(line: string, width: seq<nat>, c: Corners) {
    width != [] && Framed(line, width, Dashes(width), RuleBorders(c, |width|))
  }

  /** The row's cells, padded, between bars. */
  ghost predicate IsRow(line: string, row: seq<string>, maxw: int, width: seq<nat>, header: bool) {
    Fits(row, maxw, width) && Framed(line, width, PaddedCells(row, maxw, width, header), Repeat(BAR, |width| + 1))
  }

  lemma RuleIsFramed(width: seq<nat>, c: Corners)
    requires width != []
    ensures IsRule(RuleLine(width, c), width, c)
  {
    JoinIsFramed(width, Dashes(width), RuleBorders(c, |width|));
  }

  lemma RowIsFramed(row: seq<string>, maxw: int, width: seq<nat>, header: bool)
    requires Fits(row, maxw, width)
    ensures IsRow(RowLine(row, maxw, width, header), row, maxw, width, header)
  {
    JoinIsFramed(width, PaddedCells(row, maxw, width, header), Repeat(BAR, |width| + 1));
  }

  /** Line 2i+1 is row i; the lines around the rows are the rules. */
  lemma {:induction false} LinesAre(rows: seq<seq<string>>, maxw: int, width: seq<nat>, n: nat)
    requires n <= |rows| && forall i :: 0 <= i < |rows| ==> Fits(rows[i], maxw, width)
    ensures var lines := LinesUpTo(rows, maxw, width, n);
      && |lines| == 2 * n + 1
      && lines[0] == RuleLine(width, TOP)
      && (forall i :: 0 <= i < n ==> lines[2 * i + 1] == RowLine(rows[i], maxw, width, i == 0))
      && (forall i :: 0 <= i < n ==> lines[2 * i + 2] == RuleLine(width, RuleAfter(i, |rows|)))
  {
    hide Fits, RowLine, RuleLine, RuleAfter;
    if n > 0 { LinesAre(rows, maxw, width, n - 1); }
  }

  lemma FramedWidth(line: string, width: seq<nat>, parts: seq<string>, borders: seq<char>)
    requires Framed(line, width, parts, borders)
    ensures |line| == Sum(width) + 3 * |width| + 1
  {
    EdgeIsSum(width, |width|);
    assert width[..|width|] == width;
  }

  /** Row i of the table and the rule under it. */
  ghost predicate RowAndRule(rows: seq<seq<string>>, maxw: int, i: nat)
    requires i < |rows| && 2 * i + 2 < |Lines(rows, maxw)|
  {
    var lines, width := Lines(rows, maxw), Widths(rows, maxw);
    && IsRow(lines[2 * i + 1], rows[i], maxw, width, i == 0)
    && IsRule(lines[2 * i + 2], width, RuleAfter(i, |rows|))
    && |lines[2 * i + 1]| == |lines[2 * i + 2]| == Sum(width) + 3 * |width| + 1
  }

  /** The two lines row i contributes. */
  lemma LinesOfRow(rows: seq<seq<string>>, maxw: int, i: nat)
    requires i < |rows|
    ensures Fits(rows[i], maxw, Widths(rows, maxw))
    ensures |Lines(rows, maxw)| == 2 * |rows| + 1
    ensures Lines(rows, maxw)[2 * i + 1] == RowLine(rows[i], maxw, Widths(rows, maxw), i == 0)
    ensures Lines(rows, maxw)[2 * i + 2] == RuleLine(Widths(rows, maxw), RuleAfter(i, |rows|))
  {
    AllFit(rows, maxw);
    hide Fits, RowLine, RuleLine, RuleAfter, Widths, LinesUpTo;
    LinesAre(rows, maxw, Widths(rows, maxw), |rows|);
  }

  lemma RowWidth(row: seq<string>, maxw: int, width: seq<nat>, header: bool)
    requires Fits(row, maxw, width)
    ensures IsRow(RowLine(row, maxw, width, header), row, maxw, width, header)
    ensures |RowLine(row, maxw, width, header)| == Sum(width) + 3 * |width| + 1
  {
    RowIsFramed(row, maxw, width, header);
    hide Framed, Sum, RowLine, Fits;
    var parts := PaddedCells(row, maxw, width, header);
    FramedWidth(RowLine(row, maxw, width, header), width, parts, Repeat(BAR, |width| + 1));
  }

  lemma RuleWidth(width: seq<nat>, c: Corners)
    requires width != []
    ensures IsRule(RuleLine(width, c), width, c)
    ensures |RuleLine(width, c)| == Sum(width) + 3 * |width| + 1
  {
    RuleIsFramed(width, c);
    hide Framed, Sum, RuleLine;
    FramedWidth(RuleLine(width, c), width, Dashes(width), RuleBorders(c, |width|));
  }

  lemma WidthPerColumn(rows: seq<seq<string>>, maxw: int)
    ensures |Widths(rows, maxw)| == Columns(rows)
  {
  }

  lemma RowAndRuleHold(rows: seq<seq<string>>, maxw: int, i: nat)
    requires i < |rows| && Columns(rows) > 0 && |Lines(rows, maxw)| == 2 * |rows| + 1
    ensures RowAndRule(rows, maxw, i)
  {
    hide Lines, Widths, Columns, Fits, IsRow, IsRule, RowLine, RuleLine, RuleAfter, Sum;
    WidthPerColumn(rows, maxw);
    var width := Widths(rows, maxw);
    RowWidth(rows[i], maxw, width, i == 0) by { LinesOfRow(rows, maxw, i); }
    RuleWidth(width, RuleAfter(i, |rows|));
    LinesOfRow(rows, maxw, i);
  }

  lemma FirstLine(rows: seq<seq<string>>, maxw: int)
    requires rows != [] && Columns(rows) > 0
    ensures |Lines(rows, maxw)| == 2 * |rows| + 1
    ensures IsRule(Lines(rows, maxw)[0], Widths(rows, maxw), TOP)
    ensures |Lines(rows, maxw)[0]| == Sum(Widths(rows, maxw)) + 3 * Columns(rows) + 1
  {
    var lines, width := Lines(rows, maxw), Widths(rows, maxw);
    AllFit(rows, maxw);
    LinesAre(rows, maxw, width, |rows|);
    RuleIsFramed(width, TOP);
    hide Fits, RowLine, RuleLine, Framed, Sum;
    FramedWidth(lines[0], width, Dashes(width), RuleBorders(TOP, |width|));
  }

  lemma LineWidth(rows: seq<seq<string>>, maxw: int, k: nat)
    requires rows != [] && Columns(rows) > 0 && k < |Lines(rows, maxw)|
    ensures |Lines(rows, maxw)[k]| == Sum(Widths(rows, maxw)) + 3 * Columns(rows) + 1
  {
    hide Lines, IsRow, IsRule, Sum;
    FirstLine(rows, maxw);
    if k > 0 {
      var i := (k - 1) / 2;
      assert k == 2 * i + 1 || k == 2 * i + 2;
      RowAndRuleHold(rows, maxw, i);
    }
  }

  /** A table with a column has 2n+1 lines of one and the same width, the sum of the
      column widths and three more per column and one. Every row and every rule is there in full,
      all borders standing at the same edges. */
  lemma {:induction false} TableIsABox(rows: seq<seq<string>>, maxw: int)
    requires rows != [] && Columns(rows) > 0
    ensures |Lines(rows, maxw)| == 2 * |rows| + 1
    ensures IsRule(Lines(rows, maxw)[0], Widths(rows, maxw), TOP)
    ensures forall i :: 0 <= i < |rows| ==> RowAndRule(rows, maxw, i)
    ensures forall k :: 0 <= k < |Lines(rows, maxw)| ==>
      |Lines(rows, maxw)[k]| == Sum(Widths(rows, maxw)) + 3 * Columns(rows) + 1
  {
    hide *;
    FirstLine(rows, maxw);
    forall i | 0 <= i < |rows| ensures RowAndRule(rows, maxw, i) {
      RowAndRuleHold(rows, maxw, i);
    }
    forall k | 0 <= k < |Lines(rows, maxw)|
      ensures |Lines(rows, maxw)[k]| == Sum(Widths(rows, maxw)) + 3 * Columns(rows) + 1
    {
      LineWidth(rows, maxw, k);
    }
  }

  /** Where in its padding a cell starts: header cells are centred, the odd blank going right. */
  function Indent(cell: string, width: nat, header: bool): (r: nat)
    requires |cell| <= width
    ensures r <= width - |cell|
  {
    if header then (width - |cell|) / 2 else 0
  }

  /** Body cells start at once; of a header cell's blanks as many stand before it as after it, or one fewer. */
  lemma IndentIsCentred(cell: string, width: nat)
    requires |cell| <= width
    ensures Indent(cell, width, false) == 0
    ensures var before := Indent(cell, width, true);
      var after := width - |cell| - before;
      before == after || before + 1 == after
  {
  }

  /** From position `at` stand a blank, the cell in `width` runes, and a blank. */
  ghost predicate CellStands(line: string, at: nat, cell: string, width: nat, header: bool) {
    && |cell| <= width
    && var indent := Indent(cell, width, header);
    && Drawn(line, at, Repeat(' ', 1 + indent) + cell + Repeat(' ', width - |cell| - indent + 1))
    && Drawn(line, at + 1 + indent, cell)
  }

  /** Each cell can be read back from its row's line; the rest of the column is blank. */
  lemma {:induction false} CellStandsInColumn(row: seq<string>, maxw: int, width: seq<nat>, header: bool, j: nat)
    requires Fits(row, maxw, width) && j < |width|
    ensures CellStands(RowLine(row, maxw, width, header), Edge(width, j) + 1, Cell(row, maxw, j), width[j], header)
  {
    PartDrawn(row, maxw, width, header, j);
    hide *;
    PaddedStands(RowLine(row, maxw, width, header), Edge(width, j) + 1, Cell(row, maxw, j), width[j], header);
  }

  lemma PaddedStands(line: string, at: nat, cell: string, width: nat, header: bool)
    requires |cell| <= width && Drawn(line, at, Padded(cell, width, header))
    ensures CellStands(line, at, cell, width, header)
  {
    PaddedIs(cell, width, header);
    hide Padded, Indent, Drawn;
    var indent := Indent(cell, width, header);
    DrawnInside(line, at, Repeat(' ', 1 + indent), cell, Repeat(' ', width - |cell| - indent + 1));
  }

  lemma PartDrawn(row: seq<string>, maxw: int, width: seq<nat>, header: bool, j: nat)
    requires Fits(row, maxw, width) && j < |width|
    ensures |Cell(row, maxw, j)| <= width[j]
    ensures Drawn(RowLine(row, maxw, width, header), Edge(width, j) + 1, Padded(Cell(row, maxw, j), width[j], header))
  {
    RowIsFramed(row, maxw, width, header);
    PaddedCellAt(row, maxw, width, header, j);
  }

  lemma DrawnInside(line: string, at: nat, left: string, part: string, right: string)
    requires Drawn(line, at, left + part + right)
    ensures Drawn(line, at + |left|, part)
  {
    var whole, to := left + part + right, at + |left|;
    forall k | 0 <= k < |part| ensures line[to..to + |part|][k] == part[k] {
      assert line[at..at + |whole|][|left| + k] == whole[|left| + k] == part[k];
    }
  }

  lemma PaddedIs(cell: string, width: nat, header: bool)
    requires |cell| <= width
    ensures var indent := Indent(cell, width, header);
      Padded(cell, width, header) == Repeat(' ', 1 + indent) + cell + Repeat(' ', width - |cell| - indent + 1)
  {
  }

  lemma {:induction false} EdgeIsSum(width: seq<nat>, j: nat)
    requires j <= |width|
    ensures Edge(width, j) == Sum(width[..j]) + 3 * j
  {
    if j > 0 {
      EdgeIsSum(width, j - 1);
      assert width[..j][..j - 1] == width[..j - 1];
    }
  }

  function Sum(s: seq<nat>): nat {
    if s == [] then 0 else Sum(s[..|s| - 1]) + s[|s| - 1]
  }

  lemma {:induction false} JoinFirst(parts: seq<string>, borders: seq<char>, j: nat)
    requires j <= |parts| && |borders| == |parts| + 1
    ensures Join(parts, borders, j) != [] && Join(parts, borders, j)[0] == borders[0]
  {
    if j > 0 { JoinFirst(parts, borders, j - 1); }
  }

  lemma RuleFirst(width: seq<nat>, c: Corners)
    ensures RuleLine(width, c) != [] && RuleLine(width, c)[0] == c.left
  {
    if width != [] { JoinFirst(Dashes(width), RuleBorders(c, |width|), |width|); }
  }

  /** The box is closed by a bottom rule exactly when there is a row under the header. */
  lemma {:induction false} ClosedIffBody(rows: seq<seq<string>>, maxw: int)
    requires rows != []
    ensures var lines := Lines(rows, maxw);
      lines[|lines| - 1] == RuleLine(Widths(rows, maxw), BOTTOM) <==> |rows| >= 2
  {
    AllFit(rows, maxw);
    LinesAre(rows, maxw, Widths(rows, maxw), |rows|);
    RuleFirst(Widths(rows, maxw), MIDDLE);
    RuleFirst(Widths(rows, maxw), BOTTOM);
  }

  /** All lines are equally wide exactly when some row has a cell. */
  lemma {:induction false} EqualWidthsIffColumns(rows: seq<seq<string>>, maxw: int)
    requires rows != []
    ensures var lines := Lines(rows, maxw);
      (forall k :: 0 <= k < |lines| ==> |lines[k]| == |lines[0]|) <==> Columns(rows) > 0
  {
    if Columns(rows) > 0 {
      TableIsABox(rows, maxw);
    } else {
      AllFit(rows, maxw);
      LinesAre(rows, maxw, Widths(rows, maxw), |rows|);
      assert |Lines(rows, maxw)[0]| == 2;
      assert Lines(rows, maxw)[2 * 0 + 1] == RowLine(rows[0], maxw, Widths(rows, maxw), true);
    }
  }

  // ----- reading the lines back -----------------------------------------------------------------

  /** strings.Split(s, "\n"). */
  function Split(s: string): (r: seq<string>)
    ensures r != []
  {
    if s == "" then [""]
    else if s[0] == '\n' then [""] + Split(s[1..])
    else [[s[0]] + Split(s[1..])[0]] + Split(s[1..])[1..]
  }

  lemma {:induction false} SplitLine(line: string, rest: string)
    requires OneLine(line)
    ensures Split(line + "\n" + rest) == [line] + Split(rest)
  {
    var s := line + "\n" + rest;
    if line == "" {
      assert s == "\n" + rest;
    } else {
      assert s[1..] == line[1..] + "\n" + rest;
      SplitLine(line[1..], rest);
      assert line == [line[0]] + line[1..];
    }
  }

  lemma TextLast(lines: seq<string>, rest: string)
    requires lines != []
    ensures Text(lines) + rest == Text(lines[..|lines| - 1]) + (lines[|lines| - 1] + "\n" + rest)
  {
    Regroup(Text(lines[..|lines| - 1]), lines[|lines| - 1], "\n", rest);
  }

  lemma {:induction false} SplitText(lines: seq<string>, rest: string)
    requires forall k :: 0 <= k < |lines| ==> OneLine(lines[k])
    ensures Split(Text(lines) + rest) == lines + Split(rest)
  {
    if lines == [] {
      assert Text(lines) + rest == rest;
    } else {
      hide *;
      var front, last := lines[..|lines| - 1], lines[|lines| - 1];
      TextLast(lines, rest);
      SplitText(front, last + "\n" + rest);
      SplitLine(last, rest);
      Reassemble(lines, Split(rest));
    }
  }

  lemma Reassemble<T>(s: seq<T>, tail: seq<T>)
    requires s != []
    ensures s[..|s| - 1] + ([s[|s| - 1]] + tail) == s + tail
  {
  }

  ghost predicate OneLine(s: string) { '\n' !in s }

  lemma {:induction false} JoinOneLine(parts: seq<string>, borders: seq<char>, j: nat)
    requires j <= |parts| && |borders| == |parts| + 1 && OneLine(borders)
    requires forall k :: 0 <= k < |parts| ==> OneLine(parts[k])
    ensures OneLine(Join(parts, borders, j))
  {
    if j > 0 { JoinOneLine(parts, borders, j - 1); }
  }

  ghost predicate NewlineFree(rows: seq<seq<string>>) {
    forall i, j :: 0 <= i < |rows| && 0 <= j < |rows[i]| ==> OneLine(rows[i][j])
  }

  lemma RowOneLine(row: seq<string>, maxw: int, width: seq<nat>, header: bool)
    requires Fits(row, maxw, width) && forall j :: 0 <= j < |row| ==> OneLine(row[j])
    ensures OneLine(RowLine(row, maxw, width, header))
  {
    var parts := PaddedCells(row, maxw, width, header);
    forall k | 0 <= k < |width| ensures OneLine(parts[k]) {
      assert OneLine(Cell(row, maxw, k));
    }
    JoinOneLine(parts, Repeat(BAR, |width| + 1), |width|);
  }

  lemma RuleOneLine(width: seq<nat>, c: Corners)
    requires c == TOP || c == MIDDLE || c == BOTTOM
    ensures OneLine(RuleLine(width, c))
  {
    if width != [] {
      JoinOneLine(Dashes(width), RuleBorders(c, |width|), |width|);
    }
  }

  lemma LineOneLine(rows: seq<seq<string>>, maxw: int, k: nat)
    requires NewlineFree(rows) && rows != [] && k < |Lines(rows, maxw)|
    ensures OneLine(Lines(rows, maxw)[k])
  {
    hide Fits, Widths, RuleLine, RowLine, OneLine, LinesUpTo;
    var width := Widths(rows, maxw);
    if k == 0 {
      TopLine(rows, maxw);
      RuleOneLine(width, TOP);
    } else {
      hide Lines;
      var i := (k - 1) / 2;
      LinesOfRow(rows, maxw, 0);
      assert k == 2 * i + 1 || k == 2 * i + 2;
      LinesOfRow(rows, maxw, i);
      RowOneLine(rows[i], maxw, width, i == 0);
      RuleOneLine(width, RuleAfter(i, |rows|));
    }
  }

  lemma TopLine(rows: seq<seq<string>>, maxw: int)
    requires rows != []
    ensures |Lines(rows, maxw)| > 0 && Lines(rows, maxw)[0] == RuleLine(Widths(rows, maxw), TOP)
  {
    AllFit(rows, maxw);
    hide Fits, RuleLine, Widths, LinesUpTo;
    LinesAre(rows, maxw, Widths(rows, maxw), |rows|);
  }

  /** Splitting the text of a table of newline-free cells gives back its lines: n rows print
      as 2n+1 lines, whatever the cells hold. */
  lemma {:induction false} TextSplitsIntoLines(rows: seq<seq<string>>, maxw: int)
    requires NewlineFree(rows)
    ensures Split(Text(Lines(rows, maxw))) == Lines(rows, maxw) + [""]
    ensures rows != [] ==> |Lines(rows, maxw)| == 2 * |rows| + 1
  {
    var lines := Lines(rows, maxw);
    if rows != [] {
      hide *;
      LinesOfRow(rows, maxw, 0);
      forall k | 0 <= k < |lines| ensures OneLine(lines[k]) { LineOneLine(rows, maxw, k); }
    }
    SplitText(lines, "");
    assert Text(lines) + "" == Text(lines);
  }

  // ----- drawing the table ----------------------------------------------------------------------

  /** renderTable. */
  method RenderTable(rows: seq<seq<string>>, maxw: int) returns (b: string)
    ensures b == Text(Lines(rows, maxw))
  {
    if |rows| == 0 { return ""; }
    var ncol := 0;
    for i := 0 to |rows|
      invariant ncol == Columns(rows[..i])
    {
      assert rows[..i + 1][..i] == rows[..i];
      if |rows[i]| > ncol { ncol := |rows[i]|; }
    }
    assert rows[..|rows|] == rows;
    var cells, width := Normalize(rows, maxw, ncol);
    AllFit(rows, maxw);
    b := Draw(cells, width, rows, maxw);
  }

  method Draw(
    cells: array2<string>, width: array<nat>, ghost rows: seq<seq<string>>, ghost maxw: int)
    returns (b: string)
    requires cells.Length0 == |rows| && cells.Length1 == width.Length
    requires forall i, j :: 0 <= i < |rows| && 0 <= j < width.Length ==> cells[i, j] == Cell(rows[i], maxw, j)
    requires forall i :: 0 <= i < |rows| ==> Fits(rows[i], maxw, width[..])
    ensures b == Text(LinesUpTo(rows, maxw, width[..], |rows|))
  {
    hide Text, RowLine, RuleLine, RuleAfter, Fits, Cell, LinesUpTo;
    ghost var w := width[..];
    TextOfTop(rows, maxw, w);
    b := Rule(width, TOP);
    b := b + "\n";
    for i := 0 to cells.Length0
      invariant b == Text(LinesUpTo(rows, maxw, w, i))
    {
      var row := Row(cells, i, width, i == 0, rows, maxw);
      var corners := if i == 0 then MIDDLE else if i < cells.Length0 - 1 then MIDDLE else BOTTOM;
      RuleAfterIs(i, cells.Length0);
      var rule := Rule(width, corners);
      TextOfRow(rows, maxw, w, i);
      b := b + row + "\n" + rule + "\n";
    }
  }

  lemma TextAppend(lines: seq<string>, line: string)
    ensures Text(lines + [line]) == Text(lines) + line + "\n"
  {
    assert (lines + [line])[..|lines|] == lines;
  }

  lemma RuleAfterIs(i: nat, n: nat)
    ensures RuleAfter(i, n) == if i == 0 then MIDDLE else if i < n - 1 then MIDDLE else BOTTOM
  {
  }

  lemma TextOfTop(rows: seq<seq<string>>, maxw: int, width: seq<nat>)
    requires forall k :: 0 <= k < |rows| ==> Fits(rows[k], maxw, width)
    ensures Text(LinesUpTo(rows, maxw, width, 0)) == RuleLine(width, TOP) + "\n"
  {
    TextAppend([], RuleLine(width, TOP));
    assert LinesUpTo(rows, maxw, width, 0) == [] + [RuleLine(width, TOP)];
    hide RuleLine, LinesUpTo;
    assert Text([]) == "";
  }

  lemma TextOfRow(rows: seq<seq<string>>, maxw: int, width: seq<nat>, i: nat)
    requires i < |rows| && forall k :: 0 <= k < |rows| ==> Fits(rows[k], maxw, width)
    ensures Text(LinesUpTo(rows, maxw, width, i + 1)) ==
      Text(LinesUpTo(rows, maxw, width, i)) + RowLine(rows[i], maxw, width, i == 0) + "\n"
      + RuleLine(width, RuleAfter(i, |rows|)) + "\n"
  {
    var before := LinesUpTo(rows, maxw, width, i);
    var row, rule := RowLine(rows[i], maxw, width, i == 0), RuleLine(width, RuleAfter(i, |rows|));
    assert LinesUpTo(rows, maxw, width, i + 1) == before + [row] + [rule];
    hide *;
    TextAppend(before, row);
    TextAppend(before + [row], rule);
  }

  method CutCell(row: seq<string>, maxw: int, j: nat) returns (v: string)
    ensures v == Cell(row, maxw, j)
  {
    v := "";
    if j < |row| { v := row[j]; }
    if |v| > maxw {
      var head := TruncRunes(v, maxw - 3);
      v := head + "...";
    }
  }

  function Max(a: int, b: int): int { if a < b then b else a }

  lemma WidthStep(rows: seq<seq<string>>, maxw: int, i: nat, k: nat)
    requires i < |rows|
    ensures Width(rows[..i + 1], maxw, k) == Max(Width(rows[..i], maxw, k), |Cell(rows[i], maxw, k)|)
  {
    assert rows[..i + 1][..i] == rows[..i];
  }

  /** Row i of the cells, and the widths it needs. */
  method NormalizeRow(cells: array2<string>, width: array<nat>, i: nat, row: seq<string>, maxw: int)
    requires i < cells.Length0 && cells.Length1 == width.Length
    modifies cells, width
    ensures forall k :: 0 <= k < width.Length ==> width[k] == Max(old(width[k]), |Cell(row, maxw, k)|)
    ensures forall k :: 0 <= k < width.Length ==> cells[i, k] == Cell(row, maxw, k)
    ensures forall r, k :: 0 <= r < cells.Length0 && r != i && 0 <= k < width.Length ==> cells[r, k] == old(cells[r, k])
  {
    hide Cell;
    for j := 0 to width.Length
      invariant forall k :: 0 <= k < j ==> width[k] == Max(old(width[k]), |Cell(row, maxw, k)|)
      invariant forall k :: j <= k < width.Length ==> width[k] == old(width[k])
      invariant forall k :: 0 <= k < j ==> cells[i, k] == Cell(row, maxw, k)
      invariant forall r, k :: 0 <= r < cells.Length0 && r != i && 0 <= k < width.Length ==>
        cells[r, k] == old(cells[r, k])
    {
      var v := CutCell(row, maxw, j);
      cells[i, j] := v;
      if |v| > width[j] { width[j] := |v|; }
    }
  }

  /** The cells cut to the limit, and the width of each column. */
  method Normalize(rows: seq<seq<string>>, maxw: int, ncol: nat) returns (cells: array2<string>, width: array<nat>)
    requires ncol == Columns(rows)
    ensures fresh(cells) && fresh(width)
    ensures width[..] == Widths(rows, maxw)
    ensures cells.Length0 == |rows| && cells.Length1 == ncol
    ensures forall i, j :: 0 <= i < |rows| && 0 <= j < ncol ==> cells[i, j] == Cell(rows[i], maxw, j)
  {
    cells := new string[|rows|, ncol]((_, _) => "");
    width := new nat[ncol](_ => 0);
    for i := 0 to |rows|
      invariant forall k :: 0 <= k < ncol ==> width[k] == Width(rows[..i], maxw, k)
      invariant forall r, k :: 0 <= r < i && 0 <= k < ncol ==> cells[r, k] == Cell(rows[r], maxw, k)
    {
      hide Cell, Width, Columns, Max;
      NormalizeRow(cells, width, i, rows[i], maxw);
      forall k | 0 <= k < ncol ensures width[k] == Width(rows[..i + 1], maxw, k) {
        WidthStep(rows, maxw, i, k);
      }
    }
    assert rows[..|rows|] == rows;
  }

  /** One rule, without its newline. */
  method Rule(width: array<nat>, c: Corners) returns (b: string)
    ensures b == RuleLine(width[..], c)
  {
    b := [c.left];
    ghost var w := width[..];
    for j := 0 to width.Length
      invariant b == RuleUpTo(w, c, j)
    {
      RuleTurn(w, c, j);
      hide RuleUpTo;
      b := b + Repeat(DASH, width[j] + 2);
      if j < width.Length - 1 { b := b + [c.mid]; }
    }
    RuleEnd(w, c);
    b := b + [c.right];
  }

  /** A rule as far as its first j columns, and the border after them when there are more. */
  function RuleUpTo(width: seq<nat>, c: Corners, j: nat): string
    requires j <= |width|
  {
    if j == 0 then [c.left]
    else RuleUpTo(width, c, j - 1) + Repeat(DASH, width[j - 1] + 2) + if j < |width| then [c.mid] else ""
  }

  lemma RuleTurn(width: seq<nat>, c: Corners, j: nat)
    requires j < |width|
    ensures var dashed := RuleUpTo(width, c, j) + Repeat(DASH, width[j] + 2);
      RuleUpTo(width, c, j + 1) == if j < |width| - 1 then dashed + [c.mid] else dashed
  {
    hide Repeat;
  }

  lemma RuleEnd(width: seq<nat>, c: Corners)
    ensures RuleLine(width, c) == RuleUpTo(width, c, |width|) + [c.right]
  {
    hide *;
    if width == [] {
      RuleOfNothing(c);
    } else {
      var n := |width|;
      RuleLineLast(width, c);
      RuleIsJoin(width, c, n - 1);
      RuleTurn(width, c, n - 1);
      assert RuleUpTo(width, c, n) == RuleUpTo(width, c, n - 1) + Repeat(DASH, width[n - 1] + 2);
    }
  }

  lemma RuleOfNothing(c: Corners)
    ensures RuleLine([], c) == RuleUpTo([], c, 0) + [c.right]
  {
  }

  lemma RuleLineLast(width: seq<nat>, c: Corners)
    requires width != []
    ensures var n := |width|;
      RuleLine(width, c) == Join(Dashes(width), RuleBorders(c, n), n - 1) + Repeat(DASH, width[n - 1] + 2) + [c.right]
  {
    hide Repeat;
    var n := |width|;
    assert Dashes(width)[n - 1] == Repeat(DASH, width[n - 1] + 2) && RuleBorders(c, n)[n] == c.right;
    hide Dashes, RuleBorders;
  }

  lemma {:induction false} RuleIsJoin(width: seq<nat>, c: Corners, j: nat)
    requires j < |width|
    ensures RuleUpTo(width, c, j) == Join(Dashes(width), RuleBorders(c, |width|), j)
  {
    if j > 0 { RuleIsJoin(width, c, j - 1); }
  }

  /** One row, without its newline. No padding is ever negative. */
  method Row(
    cells: array2<string>, i: nat, width: array<nat>, header: bool, ghost rows: seq<seq<string>>, ghost maxw: int)
    returns (b: string)
    requires i < |rows| == cells.Length0 && cells.Length1 == width.Length
    requires forall j :: 0 <= j < width.Length ==> cells[i, j] == Cell(rows[i], maxw, j)
    requires Fits(rows[i], maxw, width[..])
    ensures b == RowLine(rows[i], maxw, width[..], header)
  {
    b := [BAR];
    ghost var row, w := rows[i], width[..];
    RowStart(row, maxw, w, header);
    hide *;
    for j := 0 to width.Length
      invariant b == RowUpTo(row, maxw, w, header, j)
    {
      b := AddCell(b, cells[i, j], width[j], header, row, maxw, w, j);
    }
  }

  /** One more column of a row, and the bar after it. */
  method AddCell(
    b: string, cell: string, width: nat, header: bool,
    ghost row: seq<string>, ghost maxw: int, ghost w: seq<nat>, ghost j: nat)
    returns (next: string)
    requires j < |w| && Fits(row, maxw, w) && cell == Cell(row, maxw, j) && width == w[j]
    requires b == RowUpTo(row, maxw, w, header, j)
    ensures next == RowUpTo(row, maxw, w, header, j + 1)
  {
    BarTurn(row, maxw, w, header, j);
    hide RowUpTo, Cell, Fits, Repeat;
    var pad, text := width - |cell|, "";
    if header {
      var lp := pad / 2;
      var rp := pad - lp;
      text := " " + Repeat(' ', lp) + cell + Repeat(' ', rp) + " ";
    } else {
      text := " " + cell + Repeat(' ', pad) + " ";
    }
    assert text == Padded(cell, width, header);
    next := b + text + [BAR];
  }

  /** A row as far as its first j columns. */
  ghost function RowUpTo(row: seq<string>, maxw: int, width: seq<nat>, header: bool, j: nat): string
    requires Fits(row, maxw, width) && j <= |width|
  {
    Join(PaddedCells(row, maxw, width, header), Repeat(BAR, |width| + 1), j)
  }

  lemma RowStart(row: seq<string>, maxw: int, width: seq<nat>, header: bool)
    requires Fits(row, maxw, width)
    ensures RowUpTo(row, maxw, width, header, 0) == [BAR]
    ensures RowLine(row, maxw, width, header) == RowUpTo(row, maxw, width, header, |width|)
  {
  }

  lemma BarTurn(row: seq<string>, maxw: int, width: seq<nat>, header: bool, j: nat)
    requires Fits(row, maxw, width) && j < |width|
    ensures |Cell(row, maxw, j)| <= width[j]
    ensures RowUpTo(row, maxw, width, header, j + 1) ==
      RowUpTo(row, maxw, width, header, j) + Padded(Cell(row, maxw, j), width[j], header) + [BAR]
  {
    hide Padded, Cell;
  }

  lemma PaddedCellAt(row: seq<string>, maxw: int, width: seq<nat>, header: bool, j: nat)
    requires Fits(row, maxw, width) && j < |width|
    ensures |Cell(row, maxw, j)| <= width[j]
    ensures PaddedCells(row, maxw, width, header)[j] == Padded(Cell(row, maxw, j), width[j], header)
  {
  }

  // ----- one table, drawn ----------------------------------------------------------------------

  const SOME_ROWS: seq<seq<string>> := [["a", "bc"], ["abcdefgh", "d"]]

  lemma SomeCells()
    ensures Cell(SOME_ROWS[0], 5, 0) == "a" && Cell(SOME_ROWS[0], 5, 1) == "bc"
    ensures Cell(SOME_ROWS[1], 5, 0) == "ab..." && Cell(SOME_ROWS[1], 5, 1) == "d"
  {
  }

  lemma SomeWidths()
    ensures Widths(SOME_ROWS, 5) == [5, 2]
  {
    SomeCells();
    hide Cell;
    assert SOME_ROWS[..1] == [SOME_ROWS[0]] && [SOME_ROWS[0]][..0] == [];
    assert Columns(SOME_ROWS[..1]) == 2 && Columns(SOME_ROWS) == 2;
    assert forall j :: 0 <= j < 2 ==> Width(SOME_ROWS, 5, j) == [5, 2][j];
  }

  lemma JoinTwo(a: string, b: string, borders: seq<char>)
    requires |borders| == 3
    ensures Join([a, b], borders, 2) == [borders[0]] + a + [borders[1]] + b + [borders[2]]
  {
    assert Join([a, b], borders, 0) == [borders[0]];
    assert Join([a, b], borders, 1) == [borders[0]] + a + [borders[1]];
  }

  lemma RuleOfTwo(c: Corners)
    ensures RuleLine([5, 2], c) == [c.left] + "───────" + [c.mid] + "────" + [c.right]
  {
    assert Repeat(DASH, 7) == "───────" && Repeat(DASH, 4) == "────";
    hide Repeat;
    assert Dashes([5, 2]) == ["───────", "────"];
    assert RuleBorders(c, 2) == [c.left, c.mid, c.right];
    hide Dashes, RuleBorders, Join;
    JoinTwo("───────", "────", RuleBorders(c, 2));
  }

  lemma SomeRules()
    ensures RuleLine([5, 2], TOP) == "┌───────┬────┐"
    ensures RuleLine([5, 2], MIDDLE) == "├───────┼────┤"
    ensures RuleLine([5, 2], BOTTOM) == "└───────┴────┘"
  {
    hide RuleLine;
    RuleOfTwo(TOP);
    RuleOfTwo(MIDDLE);
    RuleOfTwo(BOTTOM);
  }

  lemma SomePadding()
    ensures Padded("a", 5, true) == "   a   " && Padded("bc", 2, true) == " bc "
    ensures Padded("ab...", 5, false) == " ab... " && Padded("d", 2, false) == " d  "
  {
    assert Repeat(' ', 0) == "" && Repeat(' ', 1) == " " && Repeat(' ', 2) == "  ";
  }

  lemma RowOfTwo(row: seq<string>, header: bool, a: string, b: string)
    requires Fits(row, 5, [5, 2])
    requires a == Padded(Cell(row, 5, 0), 5, header) && b == Padded(Cell(row, 5, 1), 2, header)
    ensures RowLine(row, 5, [5, 2], header) == "│" + a + "│" + b + "│"
  {
    hide Cell, Padded;
    assert PaddedCells(row, 5, [5, 2], header) == [a, b];
    hide PaddedCells, Join, Fits;
    JoinTwo(a, b, Repeat(BAR, 3));
  }

  lemma SomeRowLines()
    ensures Fits(SOME_ROWS[0], 5, [5, 2]) && Fits(SOME_ROWS[1], 5, [5, 2])
    ensures RowLine(SOME_ROWS[0], 5, [5, 2], true) == "│   a   │ bc │"
    ensures RowLine(SOME_ROWS[1], 5, [5, 2], false) == "│ ab... │ d  │"
  {
    SomeCells();
    SomePadding();
    hide Cell, Padded;
    assert Fits(SOME_ROWS[0], 5, [5, 2]) && Fits(SOME_ROWS[1], 5, [5, 2]);
    hide RowLine, Fits;
    RowOfTwo(SOME_ROWS[0], true, "   a   ", " bc ");
    RowOfTwo(SOME_ROWS[1], false, " ab... ", " d  ");
  }

  /** A header and one row, at most five runes a cell. */
  lemma {:induction false} SomeTable()
    ensures Lines(SOME_ROWS, 5) == [
      "┌───────┬────┐",
      "│   a   │ bc │",
      "├───────┼────┤",
      "│ ab... │ d  │",
      "└───────┴────┘"
    ]
  {
    SomeWidths();
    SomeRules();
    SomeRowLines();
    hide Cell, Widths, RuleLine, RowLine, Fits;
    AllFit(SOME_ROWS, 5);
    LinesAre(SOME_ROWS, 5, [5, 2], 2);
    hide LinesUpTo;
  }
}
