// The lists a document and a package must agree on: reading a column out of a
// Markdown table, and the comparison (scripts/method-check.ts, section,
// tableColumn and compare).
module MarkdownTables {
  import opened Text

  // ---- reading a column ----

  // The characters a delimiter row is made of.
  predicate IsRuleChar(c: char) { IsSpace(c) || c == '|' || c == ':' || c == '-' }

  predicate AllRule(s: string) { forall i | 0 <= i < |s| :: IsRuleChar(s[i]) }

  predicate IsRule(line: string) {
    |line| >= 3 && line[0] == '|' && line[|line| - 1] == '|' && AllRule(line[1..|line| - 1])
  }

  predicate IsTableLine(line: string) {
    "|" <= TrimStart(line) && !IsRule(Trim(line))
  }

  function Filter(lines: seq<string>, keep: string -> bool): seq<string> {
    if lines == [] then []
    else (if keep(lines[0]) then [lines[0]] else []) + Filter(lines[1..], keep)
  }

  function TableLines(lines: seq<string>): seq<string> { Filter(lines, IsTableLine) }

  function CellsOf(line: string): seq<string> {
    var pieces := Split(Trim(line), '|');
    Each(if |pieces| < 2 then [] else pieces[1..|pieces| - 1], Trim)
  }

  function Grid(lines: seq<string>, cells: string -> seq<string>): (r: seq<seq<string>>)
    ensures |r| == |lines|
  {
    if lines == [] then [] else [cells(lines[0])] + Grid(lines[1..], cells)
  }

  // The cells in place i that there are, and that say something.
  function Picked(grid: seq<seq<string>>, i: nat): seq<string> {
    if grid == [] then []
    else (if i < |grid[0]| && grid[0][i] != "" then [grid[0][i]] else []) + Picked(grid[1..], i)
  }

  // One column of a table, without its header.
  function TableColumn(body: string, i: nat): seq<string> {
    var grid := Grid(TableLines(Split(body, '\n')), CellsOf);
    Picked(if grid == [] then [] else grid[1..], i)
  }

  // ---- printing a table ----

  // A cell with the whitespace around its text.
  datatype Cell = Cell(left: string, text: string, right: string)

  // A row, with or without the pipe in front and the pipe behind that a table
  // may leave out.
  datatype Row = Row(indent: string, led: bool, cells: seq<Cell>, ended: bool, trailing: string)

  // A table among other lines: its header, its delimiter row, its rows.
  datatype Table = Table(before: seq<string>, header: Row, rule: Row, rows: seq<Row>, after: seq<string>)

  predicate IsBlank(s: string) { AllSpace(s) && '\n' !in s }

  // A cell's text is trimmed and holds no pipe and no line break.
  predicate IsCell(c: Cell) {
    && IsBlank(c.left) && IsBlank(c.right)
    && '|' !in c.text && '\n' !in c.text
    && (c.text != "" ==> !IsSpace(c.text[0]) && !IsSpace(c.text[|c.text| - 1]))
  }

  // Where there is no outer pipe the row begins or ends with what a cell says.
  predicate IsRow(r: Row) {
    && IsBlank(r.indent) && IsBlank(r.trailing) && r.cells != [] && (forall c | c in r.cells :: IsCell(c))
    && (!r.led ==> r.cells[0].left == "" && r.cells[0].text != "")
    && (!r.ended ==> Last(r).right == "" && Last(r).text != "")
  }

  function Last(r: Row): Cell
    requires r.cells != []
  {
    r.cells[|r.cells| - 1]
  }

  // A delimiter row gives nothing but pipes, colons, hyphens and space.
  predicate LooksRuled(r: Row) {
    r.led && r.ended && |Core(r)| >= 3 && forall c | c in r.cells :: AllRule(c.text)
  }

  // A row the script reads: it has its opening pipe.
  predicate IsRead(r: Row) { r.led && !LooksRuled(r) }

  // The cells it reads of one: without a closing pipe the last one is lost.
  function Heeded(r: Row): seq<Cell> {
    if r.ended || r.cells == [] then r.cells else r.cells[..|r.cells| - 1]
  }

  function Padded(c: Cell): string { c.left + c.text + c.right }

  function PaddedAll(cells: seq<Cell>): (r: seq<string>)
    ensures |r| == |cells|
  {
    if cells == [] then [] else [Padded(cells[0])] + PaddedAll(cells[1..])
  }

  function Pieces(r: Row): seq<string> {
    (if r.led then [""] else []) + PaddedAll(r.cells) + (if r.ended then [""] else [])
  }

  function Core(r: Row): string { Join(Pieces(r), "|") }

  function PrintRow(r: Row): string { r.indent + Core(r) + r.trailing }

  function PrintRows(rows: seq<Row>): seq<string> {
    if rows == [] then [] else [PrintRow(rows[0])] + PrintRows(rows[1..])
  }

  function Printed(t: Table): seq<Row> { [t.header, t.rule] + t.rows }

  function Lines(t: Table): seq<string> {
    t.before + PrintRows(Printed(t)) + t.after
  }

  predicate IsProse(line: string) { '\n' !in line && !("|" <= TrimStart(line)) }

  predicate IsTable(t: Table) {
    && (forall line | line in t.before + t.after :: IsProse(line))
    && (forall r | r in Printed(t) :: IsRow(r))
    && forall c | c in t.rule.cells :: c.text != "" && AllRule(c.text)
  }

  function Print(t: Table): string { Join(Lines(t), "\n") }

  // ---- a row is read as it was printed ----

  lemma {:induction false} PaddedHasNoPipe(cells: seq<Cell>)
    requires forall c | c in cells :: IsCell(c)
    ensures forall piece | piece in PaddedAll(cells) :: '|' !in piece && '\n' !in piece
  {
    if cells != [] {
      assert IsCell(cells[0]);
      var padded := Padded(cells[0]);
      forall k | 0 <= k < |padded| ensures padded[k] != '|' && padded[k] != '\n' {
        assert padded[k] in cells[0].left || padded[k] in cells[0].text || padded[k] in cells[0].right;
      }
      PaddedHasNoPipe(cells[1..]);
    }
  }

  lemma PaddedTrims(c: Cell)
    requires IsCell(c)
    ensures Trim(Padded(c)) == c.text
  {
    TrimPadded(c.left, c.text, c.right);
  }

  // A joined line begins and ends as its pieces do.
  lemma {:induction false} JoinEnds(pieces: seq<string>)
    requires |pieces| >= 1
    ensures Join(pieces + [""], "|") == Join(pieces, "|") + "|"
  {
    if |pieces| == 1 {
      assert (pieces + [""])[1..] == [""];
      assert pieces[0] + "|" + "" == pieces[0] + "|";
    } else {
      assert (pieces + [""])[1..] == pieces[1..] + [""];
      JoinEnds(pieces[1..]);
      Regroup(pieces[0] + "|", Join(pieces[1..], "|"), "|");
    }
  }

  // What stands between the outer pipes of a row.
  function Inner(r: Row): string
    requires r.cells != []
  {
    Join(PaddedAll(r.cells), "|")
  }

  lemma CoreIsFenced(r: Row)
    requires r.cells != [] && r.led && r.ended
    ensures Core(r) == "|" + Inner(r) + "|"
  {
    var padded := PaddedAll(r.cells);
    assert Pieces(r) == ([""] + padded) + [""];
    JoinEnds([""] + padded);
    assert ([""] + padded)[1..] == padded;
    assert Join([""] + padded, "|") == "" + "|" + Join(padded, "|");
  }

  // A joined line begins with its first piece and ends with its last, or with
  // a pipe where that is empty.
  lemma JoinBegins(pieces: seq<string>)
    requires pieces != [] && (pieces[0] == "" ==> |pieces| >= 2)
    ensures Join(pieces, "|") != "" && Join(pieces, "|")[0] == if pieces[0] == "" then '|' else pieces[0][0]
  {
  }

  lemma {:induction false} JoinFinishes(pieces: seq<string>)
    requires pieces != [] && (pieces[|pieces| - 1] == "" ==> |pieces| >= 2)
    ensures
      var line, last := Join(pieces, "|"), pieces[|pieces| - 1];
      line != "" && line[|line| - 1] == if last == "" then '|' else last[|last| - 1]
  {
    if |pieces| == 2 && pieces[1] == "" {
      assert Join(pieces, "|") == pieces[0] + "|" + "";
    } else if |pieces| > 1 {
      JoinFinishes(pieces[1..]);
    }
  }

  lemma PaddedEnds(r: Row)
    requires IsRow(r)
    ensures !r.led ==> PaddedAll(r.cells)[0] != "" && PaddedAll(r.cells)[0][0] == r.cells[0].text[0]
    ensures
      var padded := PaddedAll(r.cells);
      var last := padded[|padded| - 1];
      !r.ended ==> last != "" && last[|last| - 1] == Last(r).text[|Last(r).text| - 1]
  {
    PaddedAt(r.cells, 0);
    PaddedAt(r.cells, |r.cells| - 1);
  }

  lemma {:induction false} PaddedAt(cells: seq<Cell>, k: nat)
    requires k < |cells|
    ensures PaddedAll(cells)[k] == Padded(cells[k])
  {
    if k > 0 {
      PaddedAt(cells[1..], k - 1);
    }
  }

  // What a row begins and ends with says whether it has its outer pipes.
  lemma CoreEnds(r: Row)
    requires IsRow(r)
    ensures Core(r) != "" && !IsSpace(Core(r)[0]) && !IsSpace(Core(r)[|Core(r)| - 1])
    ensures Core(r)[0] == '|' <==> r.led
    ensures Core(r)[|Core(r)| - 1] == '|' <==> r.ended
  {
    PaddedEnds(r);
    assert IsCell(r.cells[0]) && IsCell(Last(r));
    JoinBegins(Pieces(r));
    JoinFinishes(Pieces(r));
  }

  lemma RowTrims(r: Row)
    requires IsRow(r)
    ensures Trim(PrintRow(r)) == Core(r)
    ensures "|" <= TrimStart(PrintRow(r)) <==> r.led
  {
    CoreEnds(r);
    PrintTrims(r.indent, Core(r), r.trailing);
  }

  lemma PrintTrims(indent: string, core: string, trailing: string)
    requires AllSpace(indent) && AllSpace(trailing)
    requires core != "" && !IsSpace(core[0]) && !IsSpace(core[|core| - 1])
    ensures Trim(indent + core + trailing) == core
    ensures "|" <= TrimStart(indent + core + trailing) <==> core[0] == '|'
  {
    TrimPadded(indent, core, trailing);
    Regroup(indent, core, trailing);
    TrimStartPadded(indent, core + trailing);
    assert (core + trailing)[0] == core[0];
  }

  // What cells say, one by one.
  function Said(cells: seq<Cell>): (said: seq<string>)
    ensures |said| == |cells|
  {
    if cells == [] then [] else [cells[0].text] + Said(cells[1..])
  }

  lemma {:induction false} SaidAt(cells: seq<Cell>, k: nat)
    requires k < |cells|
    ensures Said(cells)[k] == cells[k].text
  {
    if k > 0 {
      SaidAt(cells[1..], k - 1);
    }
  }

  lemma {:induction false} EachSays(cells: seq<Cell>, f: string -> string)
    requires forall c | c in cells :: f(Padded(c)) == c.text
    ensures Each(PaddedAll(cells), f) == Said(cells)
  {
    if cells != [] {
      EachSays(cells[1..], f);
      assert PaddedAll(cells)[1..] == PaddedAll(cells[1..]);
    }
  }

  lemma PaddedAllSay(cells: seq<Cell>)
    requires forall c | c in cells :: IsCell(c)
    ensures Each(PaddedAll(cells), Trim) == Said(cells)
  {
    forall c | c in cells ensures Trim(Padded(c)) == c.text {
      PaddedTrims(c);
    }
    EachSays(cells, Trim);
  }

  lemma {:induction false} PaddedFront(cells: seq<Cell>, n: nat)
    requires n <= |cells|
    ensures PaddedAll(cells[..n]) == PaddedAll(cells)[..n]
  {
    if n > 0 {
      PaddedFront(cells[1..], n - 1);
      assert cells[..n][1..] == cells[1..][..n - 1];
    }
  }

  lemma RowSplits(r: Row)
    requires IsRow(r) && r.led
    ensures CellsOf(PrintRow(r)) == Said(Heeded(r))
  {
    RowTrims(r);
    PaddedHasNoPipe(r.cells);
    SplitJoin(Pieces(r), '|');
    PiecesInside(r);
    assert forall c | c in Heeded(r) :: c in r.cells;
    PaddedAllSay(Heeded(r));
  }

  lemma PiecesInside(r: Row)
    requires IsRow(r) && r.led
    ensures |Pieces(r)| >= 2 && Pieces(r)[1..|Pieces(r)| - 1] == PaddedAll(Heeded(r))
  {
    if !r.ended {
      PaddedFront(r.cells, |r.cells| - 1);
    }
  }

  // ---- which rows look like a delimiter row ----

  lemma AllRuleParts(a: string, b: string)
    ensures AllRule(a + b) <==> AllRule(a) && AllRule(b)
  {
    if AllRule(a + b) {
      assert forall i | 0 <= i < |a| :: a[i] == (a + b)[i];
      assert forall i | 0 <= i < |b| :: b[i] == (a + b)[|a| + i];
    }
  }

  lemma PaddedRules(c: Cell)
    requires IsCell(c)
    ensures AllRule(Padded(c)) <==> AllRule(c.text)
  {
    AllRuleParts(c.left + c.text, c.right);
    AllRuleParts(c.left, c.text);
  }

  ghost predicate CellsRuled(cells: seq<Cell>) { forall c | c in cells :: AllRule(c.text) }

  lemma {:induction false} InnerRules(cells: seq<Cell>)
    requires cells != [] && forall c | c in cells :: IsCell(c)
    ensures AllRule(Join(PaddedAll(cells), "|")) <==> CellsRuled(cells)
  {
    assert IsCell(cells[0]);
    PaddedRules(cells[0]);
    assert cells == [cells[0]] + cells[1..];
    if |cells| > 1 {
      InnerRules(cells[1..]);
      JoinRules(Padded(cells[0]), PaddedAll(cells[1..]));
    }
  }

  lemma JoinRules(first: string, rest: seq<string>)
    requires rest != []
    ensures AllRule(Join([first] + rest, "|")) <==> AllRule(first) && AllRule(Join(rest, "|"))
  {
    assert ([first] + rest)[1..] == rest;
    AllRuleParts(first + "|", Join(rest, "|"));
    AllRuleParts(first, "|");
  }

  lemma RuledExactly(r: Row)
    requires IsRow(r)
    ensures IsTableLine(PrintRow(r)) <==> IsRead(r)
  {
    RowTrims(r);
    CoreEnds(r);
    if r.led && r.ended {
      CoreIsFenced(r);
      InnerRules(r.cells);
      assert Core(r)[1..|Core(r)| - 1] == Inner(r);
    }
  }

  // ---- a column is read as it was printed ----

  lemma {:induction false} FilterParts(a: seq<string>, b: seq<string>, keep: string -> bool)
    ensures Filter(a + b, keep) == Filter(a, keep) + Filter(b, keep)
  {
    if a == [] {
      assert a + b == b;
    } else {
      assert (a + b)[0] == a[0] && (a + b)[1..] == a[1..] + b;
      FilterParts(a[1..], b, keep);
      Regroup(if keep(a[0]) then [a[0]] else [], Filter(a[1..], keep), Filter(b, keep));
    }
  }

  lemma {:induction false} FilterNone(lines: seq<string>, keep: string -> bool)
    requires forall line | line in lines :: !keep(line)
    ensures Filter(lines, keep) == []
  {
    if lines != [] {
      FilterNone(lines[1..], keep);
    }
  }

  // A printed line is kept, and its cells read, as the row it came from says.
  lemma GridStep(line: string, rest: seq<string>, keep: string -> bool, cells: string -> seq<string>)
    ensures Grid(Filter([line] + rest, keep), cells) ==
            (if keep(line) then [cells(line)] else []) + Grid(Filter(rest, keep), cells)
  {
    assert ([line] + rest)[1..] == rest;
    if keep(line) {
      assert ([line] + Filter(rest, keep))[1..] == Filter(rest, keep);
    } else {
      assert [] + Filter(rest, keep) == Filter(rest, keep);
    }
  }

  // A row contributes its cell in place i unless it is not read, reads no such
  // cell, or the cell says nothing.
  predicate Shows(r: Row, i: nat) {
    IsRead(r) && i < |Heeded(r)| && r.cells[i].text != ""
  }

  function Column(rows: seq<Row>, i: nat): (r: seq<string>)
    ensures |r| <= |rows|
  {
    if rows == [] then []
    else (if Shows(rows[0], i) then [rows[0].cells[i].text] else []) + Column(rows[1..], i)
  }

  // What the rows that are read say.
  function SaidAll(rows: seq<Row>): seq<seq<string>> {
    if rows == [] then []
    else (if IsRead(rows[0]) then [Said(Heeded(rows[0]))] else []) + SaidAll(rows[1..])
  }

  lemma {:induction false} RowsReadBack(rows: seq<Row>)
    requires forall r | r in rows :: IsRow(r)
    ensures Grid(TableLines(PrintRows(rows)), CellsOf) == SaidAll(rows)
  {
    if rows != [] {
      assert IsRow(rows[0]);
      RowsReadBack(rows[1..]);
      RuledExactly(rows[0]);
      if IsRead(rows[0]) {
        RowSplits(rows[0]);
      }
      GridStep(PrintRow(rows[0]), PrintRows(rows[1..]), IsTableLine, CellsOf);
    }
  }

  lemma {:induction false} PickedIsColumn(rows: seq<Row>, i: nat)
    ensures Picked(SaidAll(rows), i) == Column(rows, i)
  {
    if rows != [] {
      PickedIsColumn(rows[1..], i);
      if IsRead(rows[0]) {
        if i < |Heeded(rows[0])| {
          SaidAt(Heeded(rows[0]), i);
        }
        assert SaidAll(rows)[0] == Said(Heeded(rows[0])) && SaidAll(rows)[1..] == SaidAll(rows[1..]);
      } else {
        assert SaidAll(rows) == SaidAll(rows[1..]);
      }
    }
  }

  // What follows the first row that is read: that one is taken for the header.
  function Below(rows: seq<Row>): seq<Row> {
    if rows == [] then [] else if IsRead(rows[0]) then rows[1..] else Below(rows[1..])
  }

  lemma {:induction false} BelowIsSaid(rows: seq<Row>)
    ensures SaidAll(Below(rows)) == if SaidAll(rows) == [] then [] else SaidAll(rows)[1..]
  {
    if rows != [] {
      if IsRead(rows[0]) {
        assert SaidAll(rows) == [Said(Heeded(rows[0]))] + SaidAll(rows[1..]);
      } else {
        BelowIsSaid(rows[1..]);
        assert SaidAll(rows) == SaidAll(rows[1..]);
      }
    }
  }

  lemma {:induction false} NoBreaks(rows: seq<Row>)
    requires forall r | r in rows :: IsRow(r)
    ensures forall line | line in PrintRows(rows) :: '\n' !in line
  {
    if rows != [] {
      assert IsRow(rows[0]);
      NoBreak(rows[0]);
      NoBreaks(rows[1..]);
    }
  }

  lemma NoBreak(r: Row)
    requires IsRow(r)
    ensures '\n' !in PrintRow(r)
  {
    PaddedHasNoPipe(r.cells);
    JoinHolds(Pieces(r), '\n');
  }

  lemma {:induction false} JoinHolds(pieces: seq<string>, c: char)
    requires c != '|' && forall piece | piece in pieces :: c !in piece
    ensures c !in Join(pieces, "|")
  {
    if |pieces| > 1 {
      JoinHolds(pieces[1..], c);
    }
  }

  lemma LinesReadBack(t: Table)
    requires IsTable(t)
    ensures Split(Print(t), '\n') == Lines(t)
  {
    NoBreaks(Printed(t));
    forall line | line in Lines(t) ensures '\n' !in line {
      assert line in t.before + t.after || line in PrintRows(Printed(t));
    }
    SplitJoin(Lines(t), '\n');
  }

  lemma TableReadBack(t: Table)
    requires IsTable(t)
    ensures TableLines(Lines(t)) == TableLines(PrintRows(Printed(t)))
  {
    assert forall line | line in t.before + t.after :: IsProse(line) && !IsTableLine(line);
    OnlyTheTable(t.before, PrintRows(Printed(t)), t.after, IsTableLine);
  }

  lemma OnlyTheTable(before: seq<string>, rows: seq<string>, after: seq<string>, keep: string -> bool)
    requires forall line | line in before + after :: !keep(line)
    ensures Filter(before + rows + after, keep) == Filter(rows, keep)
  {
    forall line | line in before || line in after ensures !keep(line) {
      assert line in before + after;
    }
    FilterParts(before + rows, after, keep);
    FilterParts(before, rows, keep);
    FilterNone(before, keep);
    FilterNone(after, keep);
  }

  // Of any printed table, whatever the padding, the outer pipes and whatever
  // stands around it, the column read is that of the rows below the first one
  // read, less the rows that show nothing there.
  lemma ColumnReadBack(t: Table, i: nat)
    requires IsTable(t)
    ensures TableColumn(Print(t), i) == Column(Below(Printed(t)), i)
  {
    LinesReadBack(t);
    TableReadBack(t);
    RowsReadBack(Printed(t));
    BelowIsSaid(Printed(t));
    PickedIsColumn(Below(Printed(t)), i);
  }

  // ---- when that is the whole column ----

  // The header is read and the delimiter row is not, or the other way round.
  predicate HeadedOnce(t: Table) { IsRead(t.header) != IsRead(t.rule) }

  lemma BelowTwo(t: Table, i: nat)
    ensures HeadedOnce(t) ==> Column(Below(Printed(t)), i) == Column(t.rows, i)
    ensures IsRead(t.header) && IsRead(t.rule) ==> Below(Printed(t)) == [t.rule] + t.rows
    ensures !IsRead(t.header) && !IsRead(t.rule) ==> Below(Printed(t)) == Below(t.rows)
  {
    var printed := Printed(t);
    assert printed[1..] == [t.rule] + t.rows && printed[1..][1..] == t.rows;
    assert Below(printed[1..]) == if IsRead(t.rule) then t.rows else Below(t.rows);
    assert !IsRead(t.rule) ==> Column(printed[1..], i) == [] + Column(t.rows, i) == Column(t.rows, i);
  }

  lemma {:induction false} RuleTextOnly(cells: seq<Cell>)
    requires cells != [] && forall c | c in cells :: c.text != ""
    ensures Join(PaddedAll(cells), "|") != ""
  {
  }

  // A delimiter row is read exactly when it has the pipe in front and not the
  // one behind.
  lemma RuleReadExactly(t: Table)
    requires IsTable(t)
    ensures IsRead(t.rule) <==> t.rule.led && !t.rule.ended
  {
    assert t.rule in Printed(t);
    if t.rule.led && t.rule.ended {
      CoreIsFenced(t.rule);
      RuleTextOnly(t.rule.cells);
    }
  }

  function Texts(rows: seq<Row>, i: nat): (r: seq<string>)
    requires forall row | row in rows :: i < |row.cells|
    ensures |r| == |rows|
  {
    if rows == [] then []
    else
      assert rows[0] in rows;
      [rows[0].cells[i].text] + Texts(rows[1..], i)
  }

  lemma {:induction false} ColumnIsWhole(rows: seq<Row>, i: nat)
    requires forall row | row in rows :: i < |row.cells|
    ensures Column(rows, i) == Texts(rows, i) <==> forall row | row in rows :: Shows(row, i)
  {
    if rows != [] {
      assert rows[0] in rows;
      ColumnIsWhole(rows[1..], i);
      assert rows == [rows[0]] + rows[1..];
      var rest, texts := Column(rows[1..], i), Texts(rows[1..], i);
      if Shows(rows[0], i) {
        assert Column(rows, i)[1..] == rest && Texts(rows, i)[1..] == texts;
      } else {
        assert |Column(rows, i)| < |rows|;
      }
    }
  }

  // With one of the two taken for the header, every cell of the column is read
  // exactly when every row shows its cell: it has its opening pipe, does not
  // look like a delimiter row, says something there, and has a closing pipe if
  // the cell is its last.
  lemma WholeColumnReadBack(t: Table, i: nat)
    requires IsTable(t) && HeadedOnce(t) && forall row | row in t.rows :: i < |row.cells|
    ensures TableColumn(Print(t), i) == Texts(t.rows, i) <==> forall row | row in t.rows :: GivesCell(row, i)
  {
    ColumnReadBack(t, i);
    BelowTwo(t, i);
    ColumnIsWhole(t.rows, i);
    forall row | row in t.rows ensures Shows(row, i) <==> GivesCell(row, i) {
    }
  }

  predicate GivesCell(row: Row, i: nat)
    requires i < |row.cells|
  {
    IsRead(row) && row.cells[i].text != "" && (row.ended || i < |row.cells| - 1)
  }

  // Without a header or delimiter row to read, the first row is lost.
  lemma UnreadHeaderLosesRow(t: Table, i: nat)
    requires IsTable(t) && !IsRead(t.header) && !IsRead(t.rule) && t.rows != []
    ensures |TableColumn(Print(t), i)| < |t.rows|
  {
    ColumnReadBack(t, i);
    BelowTwo(t, i);
    BelowIsShorter(t.rows);
  }

  lemma {:induction false} BelowIsShorter(rows: seq<Row>)
    ensures |Below(rows)| <= |rows| && (rows != [] ==> |Below(rows)| < |rows|)
  {
    if rows != [] && !IsRead(rows[0]) {
      BelowIsShorter(rows[1..]);
    }
  }

  // With both read, the delimiter row comes first, but for its last cell.
  lemma UnclosedRuleIsRead(t: Table, i: nat)
    requires IsTable(t) && IsRead(t.header) && IsRead(t.rule) && i < |t.rule.cells|
    ensures TableColumn(Print(t), i)
         == (if i < |t.rule.cells| - 1 then [t.rule.cells[i].text] else []) + Column(t.rows, i)
  {
    ColumnReadBack(t, i);
    BelowTwo(t, i);
    RuleReadExactly(t);
    assert t.rule.cells[i] in t.rule.cells;
    ColumnFirst(t.rule, t.rows, i);
  }

  lemma ColumnFirst(row: Row, rows: seq<Row>, i: nat)
    ensures Column([row] + rows, i) == (if Shows(row, i) then [row.cells[i].text] else []) + Column(rows, i)
  {
    assert ([row] + rows)[1..] == rows;
  }

  // ---- the comparison ----

  datatype Problem =
    | NoSection(from: string)
    | TooFew(what: string, found: nat, floor: nat)
    | Lengths(what: string, documented: nat, carried: nat)
    | Differs(what: string, position: nat, says: string, instead: Option<string>)

  function At(items: seq<string>, k: nat): Option<string> {
    if k < |items| then Some(items[k]) else None
  }

  // The positions among the first n where the package says something else.
  function Differing(what: string, documented: seq<string>, inPackage: seq<string>, n: nat): seq<Problem>
    requires n <= |documented|
  {
    if n == 0 then []
    else
      Differing(what, documented, inPackage, n - 1)
      + if At(inPackage, n - 1) == Some(documented[n - 1]) then []
        else [Differs(what, n, documented[n - 1], At(inPackage, n - 1))]
  }

  // Everything a comparison has to report.
  function Disagreements(what: string, documented: seq<string>, inPackage: seq<string>, floor: nat): seq<Problem> {
    if |documented| < floor then [TooFew(what, |documented|, floor)]
    else
      (if |documented| == |inPackage| then [] else [Lengths(what, |documented|, |inPackage|)])
      + Differing(what, documented, inPackage, |documented|)
  }

  lemma {:induction false} DifferingExactly(what: string, documented: seq<string>, inPackage: seq<string>, n: nat)
    requires n <= |documented|
    ensures Differing(what, documented, inPackage, n) == [] <==>
              forall k | 0 <= k < n :: At(inPackage, k) == Some(documented[k])
  {
    if n > 0 {
      DifferingExactly(what, documented, inPackage, n - 1);
    }
  }

  // Each position that differs is reported, with what either side says there.
  lemma {:induction false} EachDifferenceIsNamed(what: string, documented: seq<string>, inPackage: seq<string>, n: nat,
                                                 p: Problem)
    requires n <= |documented|
    ensures p in Differing(what, documented, inPackage, n) <==>
              && p.Differs? && p.what == what && 0 < p.position <= n
              && p.says == documented[p.position - 1] && p.instead == At(inPackage, p.position - 1)
              && p.instead != Some(p.says)
  {
    if n > 0 {
      EachDifferenceIsNamed(what, documented, inPackage, n - 1, p);
    }
  }

  // Nothing is reported exactly when the two lists are equal, in order, and
  // long enough to be trusted.
  lemma AgreesExactly(what: string, documented: seq<string>, inPackage: seq<string>, floor: nat)
    ensures Disagreements(what, documented, inPackage, floor) == [] <==>
              |documented| >= floor && documented == inPackage
  {
    DifferingExactly(what, documented, inPackage, |documented|);
    if |documented| == |inPackage| && Differing(what, documented, inPackage, |documented|) == [] {
      forall k | 0 <= k < |documented| ensures documented[k] == inPackage[k] {
        assert At(inPackage, k) == Some(documented[k]);
      }
    }
  }

  // ---- finding the section ----

  // The first place at or after k where part stands in the document.
  function IndexOf(doc: string, part: string, k: nat): (at: Option<nat>)
    requires k <= |doc|
    ensures at.Some? ==> k <= at.value <= at.value + |part| <= |doc| && part <= doc[at.value..]
    ensures forall j | k <= j < (if at.Some? then at.value else |doc| + 1) :: !(part <= doc[j..])
    decreases |doc| - k
  {
    if part <= doc[k..] then Some(k)
    else if k == |doc| then None
    else IndexOf(doc, part, k + 1)
  }

  // From the first occurrence of one heading to the next of another, or to the
  // end where there is none.
  function SectionOf(doc: string, from: string, to: string): Option<string> {
    match IndexOf(doc, from, 0)
    case None => None
    case Some(start) =>
      match IndexOf(doc, to, start + |from|)
      case None => Some(doc[start..])
      case Some(end) => Some(doc[start..end])
  }

  class Report {
    var problems: seq<Problem>

    constructor ()
      ensures problems == []
    {
      problems := [];
    }

    method Fail(p: Problem)
      modifies this
      ensures problems == old(problems) + [p]
    {
      problems := problems + [p];
    }

    method Section(doc: string, from: string, to: string) returns (body: string)
      modifies this
      ensures match SectionOf(doc, from, to)
              case Some(found) => body == found && problems == old(problems)
              case None => body == "" && problems == old(problems) + [NoSection(from)]
    {
      var start := IndexOf(doc, from, 0);
      if start == None {
        Fail(NoSection(from));
        return "";
      }
      var end := IndexOf(doc, to, start.value + |from|);
      body := if end.Some? then doc[start.value..end.value] else doc[start.value..];
    }

    method Compare(what: string, documented: seq<string>, inPackage: seq<string>, floor: nat)
      modifies this
      ensures problems == old(problems) + Disagreements(what, documented, inPackage, floor)
    {
      ghost var before := problems;
      if |documented| < floor {
        Fail(TooFew(what, |documented|, floor));
        return;
      }
      if |documented| != |inPackage| {
        Fail(Lengths(what, |documented|, |inPackage|));
      }
      ghost var lengths := if |documented| != |inPackage| then [Lengths(what, |documented|, |inPackage|)] else [];
      assert problems == before + lengths;
      Regroup(before, lengths, Differing(what, documented, inPackage, |documented|));
      ComparePositions(what, documented, inPackage);
    }

    method ComparePositions(what: string, documented: seq<string>, inPackage: seq<string>)
      modifies this
      ensures problems == old(problems) + Differing(what, documented, inPackage, |documented|)
    {
      for k := 0 to |documented|
        invariant problems == old(problems) + Differing(what, documented, inPackage, k)
      {
        var carried := At(inPackage, k);
        if carried != Some(documented[k]) {
          Fail(Differs(what, k + 1, documented[k], carried));
        }
      }
    }

    // The check of one list: it passes exactly when the section holds a table
    // whose column is the package's list.
    method CheckColumn(what: string, doc: string, from: string, to: string, i: nat, inPackage: seq<string>, floor: nat,
                       ghost t: Table)
      requires SectionOf(doc, from, to) == Some(Print(t)) && IsTable(t)
      modifies this
      ensures problems == old(problems) + Disagreements(what, Column(Below(Printed(t)), i), inPackage, floor)
      ensures problems == old(problems) <==> Column(Below(Printed(t)), i) == inPackage && |inPackage| >= floor
    {
      var body := Section(doc, from, to);
      ColumnReadBack(t, i);
      Compare(what, TableColumn(body, i), inPackage, floor);
      AgreesExactly(what, Column(Below(Printed(t)), i), inPackage, floor);
    }
  }

  // A floor above zero catches a section that has gone, or a table in it that
  // cannot be read.
  lemma NothingReadIsReported(what: string, inPackage: seq<string>, floor: nat, i: nat)
    requires floor > 0
    ensures TableColumn("", i) == [] && Disagreements(what, TableColumn("", i), inPackage, floor) != []
  {
    assert Split("", '\n') == [""] && !IsTableLine("");
    assert TableLines([""]) == [];
  }
}
