/**
 * Graphics: the POD-controlled charts of an ODS template. A chart frame whose
 * name reads "<rangeStart>-<rangeEnd>-<podVar>[-<propsVar>]" is a POD graphic;
 * its abstract range is written into the document and later replaced by the
 * LibreOffice range that the expanded values cover. The chart styles a
 * graphic generates are numbered one after the other.
 */
module Graphics {
  import opened Py

  const DRAW_FRAME := "draw:frame"
  const DRAW_NAME := "draw:name"
  const DASH := "-"
  const DOT := "."
  const COLON := ":"
  const VALUE_ERROR := "ValueError"
  const UNBOUND_LOCAL := "UnboundLocalError"

  // ------------------------------------------------------------------------
  // Cell names
  // ------------------------------------------------------------------------

  /** The digits of `s`, in order. */
  function DigitsOf(s: string): (r: string)
    ensures AllDigits(r)
  {
    if s == [] then [] else DigitsOf(s[..|s| - 1]) + (if IsDigit(s[|s| - 1]) then [s[|s| - 1]] else [])
  }

  /** The characters of `s` that are not digits, in order. */
  function OthersOf(s: string): (r: string)
    ensures forall i | 0 <= i < |r| :: !IsDigit(r[i])
  {
    if s == [] then [] else OthersOf(s[..|s| - 1]) + (if IsDigit(s[|s| - 1]) then [] else [s[|s| - 1]])
  }

  /**
   * The loop of getCellParts and getNextStyle: every digit goes to the
   * number, every other character to the prefix, in order.
   */
  method SeparateDigits(s: string) returns (others: string, digits: string)
    ensures others == OthersOf(s) && digits == DigitsOf(s)
  {
    others, digits := "", "";
    for i := 0 to |s|
      invariant others == OthersOf(s[..i]) && digits == DigitsOf(s[..i])
    {
      assert s[..i + 1][..i] == s[..i];
      if IsDigit(s[i]) {
        digits := digits + [s[i]];
      } else {
        others := others + [s[i]];
      }
    }
    assert s[..|s|] == s;
  }

  lemma {:induction false} SeparateAppend(a: string, b: string)
    ensures DigitsOf(a + b) == DigitsOf(a) + DigitsOf(b)
    ensures OthersOf(a + b) == OthersOf(a) + OthersOf(b)
    decreases |b|
  {
    if b == [] {
      assert a + b == a;
    } else {
      var b0 := b[..|b| - 1];
      assert (a + b)[..|a + b| - 1] == a + b0;
      SeparateAppend(a, b0);
    }
  }

  lemma {:induction false} SeparateDigitsOnly(s: string)
    requires AllDigits(s)
    ensures DigitsOf(s) == s && OthersOf(s) == []
  {
    if s != [] {
      var t, c := s[..|s| - 1], s[|s| - 1];
      SeparateDigitsOnly(t);
      assert IsDigit(c);
      assert s == t + [c];
    }
  }

  lemma {:induction false} SeparateNoDigits(s: string)
    requires forall i | 0 <= i < |s| :: !IsDigit(s[i])
    ensures DigitsOf(s) == [] && OthersOf(s) == s
  {
    if s != [] {
      var t, c := s[..|s| - 1], s[|s| - 1];
      SeparateNoDigits(t);
      assert !IsDigit(c);
      assert s == t + [c];
    }
  }

  /** A cell's sheet (with its dot, or empty), column letters and row number. */
  datatype Cell = Cell(sheet: string, col: string, row: int)

  /**
   * The sheet part of a cell name (with its dot, or empty) and the cell: a
   * name with a dot must hold exactly one (`sheet, name = name.split('.')`).
   */
  function SheetAndCell(name: string): (r: Result<(string, string)>)
    ensures '.' !in name ==> r == Ok(("", name))
  {
    if '.' !in name then Ok(("", name))
    else
      var ps := Split(name, DOT);
      if |ps| != 2 then Err(VALUE_ERROR) else Ok((ps[0] + DOT, ps[1]))
  }

  /**
   * getCellParts: the digits of the cell make the row, the other characters
   * the column; no digit at all makes `int('')` raise ValueError.
   */
  function CellParts(name: string): (r: Result<Cell>)
  {
    match SheetAndCell(name)
    case Err(e) => Err(e)
    case Ok((sheet, cell)) =>
      var digits := DigitsOf(cell);
      if digits == [] then Err(VALUE_ERROR)
      else Ok(Cell(sheet, OthersOf(cell), DigitsValue(digits)))
  }

  method GetCellParts(name: string) returns (r: Result<Cell>)
    ensures r == CellParts(name)
  {
    var sheet, cell := "", name;
    if '.' in name {
      var ps := Split(name, DOT);
      if |ps| != 2 {
        return Err(VALUE_ERROR);
      }
      sheet, cell := ps[0] + DOT, ps[1];
    }
    var col, row := SeparateDigits(cell);
    if row == [] {
      return Err(VALUE_ERROR);
    }
    r := Ok(Cell(sheet, col, DigitsValue(row)));
  }

  /** Column letters followed by a row number separate back into the two. */
  lemma {:induction false} ColumnThenRow(col: string, row: nat)
    requires forall i | 0 <= i < |col| :: !IsDigit(col[i])
    ensures DigitsOf(col + NatToString(row)) == NatToString(row)
    ensures OthersOf(col + NatToString(row)) == col
    ensures DigitsValue(DigitsOf(col + NatToString(row))) == row
  {
    var d := NatToString(row);
    SeparateAppend(col, d);
    SeparateNoDigits(col);
    SeparateDigitsOnly(d);
    NatToStringValue(row);
    assert col + [] == col;
    assert [] + d == d;
  }

  lemma {:induction false} NoDotInCell(col: string, d: string)
    requires forall i | 0 <= i < |col| :: col[i] != '.'
    requires AllDigits(d)
    ensures '.' !in col + d
  {
    forall i | 0 <= i < |col + d| ensures (col + d)[i] != '.' {
      if i >= |col| {
        assert (col + d)[i] == d[i - |col|];
      }
    }
  }

  /** A cell written as its column letters followed by its row number reads back as those. */
  lemma {:induction false} CellRoundTrip(col: string, row: nat)
    requires forall i | 0 <= i < |col| :: !IsDigit(col[i]) && col[i] != '.'
    ensures CellParts(col + NatToString(row)) == Ok(Cell("", col, row))
  {
    NoDotInCell(col, NatToString(row));
    ColumnThenRow(col, row);
  }

  /** The same behind "<sheet>.": the sheet comes back with its dot. */
  lemma {:induction false} SheetCellRoundTrip(sheet: string, col: string, row: nat)
    requires '.' !in sheet
    requires forall i | 0 <= i < |col| :: !IsDigit(col[i]) && col[i] != '.'
    ensures CellParts(sheet + DOT + (col + NatToString(row))) == Ok(Cell(sheet + DOT, col, row))
  {
    var cell := col + NatToString(row);
    NoDotInCell(col, NatToString(row));
    ContainsChar(sheet, '.');
    ContainsChar(cell, '.');
    SplitAt(sheet, DOT, cell);
    assert (sheet + DOT + cell)[|sheet|] == '.';
    ColumnThenRow(col, row);
  }

  // ------------------------------------------------------------------------
  // Graphic.get and the constructor
  // ------------------------------------------------------------------------

  /** A POD graphic: its range ends (with their sheet), the pod variable, the optional properties variable, and the cells. */
  datatype Graphic = Graphic(start: string, end: string, podVar: string, props: Option<string>,
                             sheet: string, startCol: string, startRow: int, endCol: string, endRow: int)

  /**
   * The constructor, as written: a start without a sheet gets the current
   * table's name; an end without a sheet gets `sheet or table` — but `sheet`
   * is only assigned in the start's branch, so a start that names its sheet
   * with an end that does not fails (UnboundLocalError).
   */
  function NewGraphicAsWritten(spec: string, table: string): Result<Graphic>
    requires |Split(Strip(spec), DASH)| in {3, 4}
  {
    var parts := Split(Strip(spec), DASH);
    var startNamed := '.' in parts[0];
    var endNamed := '.' in parts[1];
    if startNamed && !endNamed then Err(UNBOUND_LOCAL)
    else Build(parts, table)
  }

  /** The constructor as intended: both ends without a sheet are taken in the current table. */
  function NewGraphic(spec: string, table: string): (r: Result<Graphic>)
    requires |Split(Strip(spec), DASH)| in {3, 4}
    ensures r.Ok? ==> r.value.podVar == Split(Strip(spec), DASH)[2]
    ensures r.Ok? ==> (r.value.props.Some? <==> |Split(Strip(spec), DASH)| == 4)
  {
    Build(Split(Strip(spec), DASH), table)
  }

  /** The range ends prefixed with the table when they name no sheet, and their cells; the sheet is the end's. */
  function Build(parts: seq<string>, table: string): (r: Result<Graphic>)
    requires |parts| in {3, 4}
    ensures r.Ok? ==> '.' in r.value.start && '.' in r.value.end
    ensures r.Ok? ==> r.value.podVar == parts[2] && (r.value.props.Some? <==> |parts| == 4)
  {
    var start := if '.' in parts[0] then parts[0] else table + DOT + parts[0];
    var end := if '.' in parts[1] then parts[1] else table + DOT + parts[1];
    assert '.' in start && '.' in end by {
      assert (table + DOT + parts[0])[|table|] == '.';
      assert (table + DOT + parts[1])[|table|] == '.';
    }
    var props := if |parts| == 4 then Some(parts[3]) else None;
    match (CellParts(start), CellParts(end))
    case (Ok(s), Ok(e)) => Ok(Graphic(start, end, parts[2], props, e.sheet, s.col, s.row, e.col, e.row))
    case (Err(x), _) => Err(x)
    case (_, Err(x)) => Err(x)
  }

  /** Graphic.get: a POD graphic for a draw:frame named with 2 or 3 dashes; None for anything else. */
  function Get(tag: string, attrs: map<string, string>, table: string): (r: Option<Result<Graphic>>)
    ensures r.Some? <==> tag == DRAW_FRAME && DRAW_NAME in attrs && CountOf(attrs[DRAW_NAME], '-') in {2, 3}
  {
    if tag != DRAW_FRAME || DRAW_NAME !in attrs then None
    else
      var name := attrs[DRAW_NAME];
      if CountOf(name, '-') in {2, 3} then
        DashesMakeParts(name);
        Some(NewGraphic(name, table))
      else None
  }

  /** `s.count(c)` for a character. */
  function CountOf(s: string, c: char): (n: nat)
  {
    if s == [] then 0 else (if s[0] == c then 1 else 0) + CountOf(s[1..], c)
  }

  /** Stripping keeps the dashes, and splitting at "-" gives one part more than there are dashes. */
  lemma {:induction false} DashesMakeParts(name: string)
    ensures |Split(Strip(name), DASH)| == CountOf(name, '-') + 1
  {
    StripKeepsDashes(name);
    SplitCount(Strip(name));
  }

  lemma {:induction false} SplitCount(s: string)
    ensures |Split(s, DASH)| == CountOf(s, '-') + 1
    decreases |s|
  {
    match Find(s, DASH)
    case None =>
      ContainsChar(s, '-');
      NoCharCount(s, '-');
    case Some(i) =>
      SplitCount(s[i + 1..]);
      assert s[i] == '-' by { assert s[i..i + 1] == DASH; }
      assert forall j | 0 <= j < i :: s[j] != '-' by {
        forall j | 0 <= j < i ensures s[j] != '-' {
          assert !OccursAt(s, DASH, j);
          assert s[j..j + 1] == [s[j]];
        }
      }
      assert s == s[..i] + [s[i]] + s[i + 1..];
      CountAppend(s[..i] + [s[i]], s[i + 1..], '-');
      CountAppend(s[..i], [s[i]], '-');
      NoCharCount(s[..i], '-');
  }

  lemma {:induction false} NoCharCount(s: string, c: char)
    requires c !in s
    ensures CountOf(s, c) == 0
  {
    if s != [] {
      NoCharCount(s[1..], c);
    }
  }

  lemma {:induction false} CountAppend(a: string, b: string, c: char)
    ensures CountOf(a + b, c) == CountOf(a, c) + CountOf(b, c)
  {
    if a != [] {
      assert (a + b)[1..] == a[1..] + b;
      CountAppend(a[1..], b, c);
    } else {
      assert a + b == b;
    }
  }

  lemma {:induction false} StripKeepsDashes(s: string)
    ensures CountOf(Strip(s), '-') == CountOf(s, '-')
  {
    LStripKeepsDashes(s);
    RStripKeepsDashes(LStrip(s));
  }

  lemma {:induction false} LStripKeepsDashes(s: string)
    ensures CountOf(LStrip(s), '-') == CountOf(s, '-')
  {
    var l := LStrip(s);
    LStripShape(s);
    var spaces := s[..|s| - |l|];
    assert forall i | 0 <= i < |spaces| :: IsSpace(spaces[i]);
    assert s == spaces + l;
    LeadingSpaces(spaces, l);
  }

  lemma {:induction false} RStripKeepsDashes(s: string)
    ensures CountOf(RStrip(s), '-') == CountOf(s, '-')
  {
    var r := RStrip(s);
    RStripShape(s);
    var spaces := s[|r|..];
    assert forall i | 0 <= i < |spaces| :: IsSpace(spaces[i]);
    assert s == r + spaces;
    TrailingSpaces(r, spaces);
  }

  lemma {:induction false} LeadingSpaces(a: string, b: string)
    requires forall i | 0 <= i < |a| :: IsSpace(a[i])
    ensures CountOf(a + b, '-') == CountOf(b, '-')
  {
    CountAppend(a, b, '-');
    SpacesHaveNoDash(a);
  }

  lemma {:induction false} TrailingSpaces(a: string, b: string)
    requires forall i | 0 <= i < |b| :: IsSpace(b[i])
    ensures CountOf(a + b, '-') == CountOf(a, '-')
  {
    CountAppend(a, b, '-');
    SpacesHaveNoDash(b);
  }

  lemma {:induction false} SpacesHaveNoDash(s: string)
    requires forall i | 0 <= i < |s| :: IsSpace(s[i])
    ensures CountOf(s, '-') == 0
  {
    assert '-' !in s;
    NoCharCount(s, '-');
  }

  /**
   * The start naming its sheet and the end not: the constructor as written
   * fails, while the intended one takes the end in the current table.
   */
  lemma {:induction false} SheetlessEndAfterNamedStart(start: string, end: string, podVar: string, table: string)
    requires |start| > 0 && |end| > 0 && |podVar| > 0
    requires '-' !in start && '-' !in end && '-' !in podVar
    requires '.' in start && '.' !in end
    requires !IsSpace(start[0]) && !IsSpace(podVar[|podVar| - 1])
    ensures |Split(Strip(start + DASH + end + DASH + podVar), DASH)| == 3
    ensures NewGraphicAsWritten(start + DASH + end + DASH + podVar, table) == Err(UNBOUND_LOCAL)
    ensures NewGraphic(start + DASH + end + DASH + podVar, table) == Build([start, end, podVar], table)
    ensures NewGraphic(start + DASH + end + DASH + podVar, table).Ok? ==>
              NewGraphic(start + DASH + end + DASH + podVar, table).value.end == table + DOT + end
  {
    NameParts(start, end, podVar);
  }

  /** A name "<start>-<end>-<var>" without other dashes splits back into its three parts. */
  lemma {:induction false} NameParts(start: string, end: string, podVar: string)
    requires |start| > 0 && |end| > 0 && |podVar| > 0
    requires '-' !in start && '-' !in end && '-' !in podVar
    requires !IsSpace(start[0]) && !IsSpace(podVar[|podVar| - 1])
    ensures Split(Strip(start + DASH + end + DASH + podVar), DASH) == [start, end, podVar]
  {
    var spec := start + DASH + end + DASH + podVar;
    var ws := [start, end, podVar];
    assert Join(ws, DASH) == spec by {
      assert ws[1..] == [end, podVar] && ws[1..][1..] == [podVar];
      assert Join(ws[1..], DASH) == end + DASH + podVar;
      assert start + DASH + (end + DASH + podVar) == spec;
    }
    assert spec[0] == start[0] && spec[|spec| - 1] == podVar[|podVar| - 1];
    StripOfTrimmed(spec);
    forall k | 0 <= k < |ws| ensures !Contains(ws[k], DASH) {
      ContainsChar(ws[k], '-');
    }
    SplitJoin(ws, DASH);
  }

  // ------------------------------------------------------------------------
  // Ranges
  // ------------------------------------------------------------------------

  const DEFAULT_PREFIX := "appyRange."

  /** getPodRange: "<start>:<end>:<var>", behind the prefix when one is given. */
  function PodRange(g: Graphic, prefix: Option<string>): (r: string)
    ensures prefix.Some? && prefix.value != "" ==> StartsWith(r, prefix.value)
    ensures EndsWith(r, g.start + COLON + g.end + COLON + g.podVar)
  {
    var range := g.start + COLON + g.end + COLON + g.podVar;
    var r := if prefix.Some? && prefix.value != "" then prefix.value + range else range;
    assert r[|r| - |range|..] == range;
    r
  }

  /** The kinds of LibreOffice ranges. */
  const FOUR_PARTS := 0
  const COMPLETE := 1
  const COL_ONE := 2
  const COL_TWO := 3
  const HEAD_TWO := 4

  /** "<col><row1>:<col><row2>" */
  function Span(col: string, row1: int, row2: int): string
  {
    col + IntToString(row1) + COLON + col + IntToString(row2)
  }

  /**
   * getLoRange, for `count` expanded values: the last row is the end row
   * plus count - 1, the value ranges start below the header row. An unknown
   * range type leaves the result unassigned (None here).
   */
  function LoRange(g: Graphic, rangeType: int, count: int): (r: Option<string>)
    ensures r.Some? <==> 0 <= rangeType <= 4
  {
    var startCol := g.sheet + g.startCol;
    var endCol := g.sheet + g.endCol;
    var lastRow := g.endRow + count - 1;
    if rangeType == FOUR_PARTS then
      Some(g.start + COLON + g.start + " " + Span(startCol, g.startRow + 1, lastRow) + " "
           + Span(endCol, g.startRow, g.startRow) + " " + Span(endCol, g.startRow + 1, lastRow))
    else if rangeType == COMPLETE then Some(g.start + COLON + endCol + IntToString(lastRow))
    else if rangeType == COL_ONE then Some(Span(startCol, g.startRow + 1, lastRow))
    else if rangeType == COL_TWO then Some(Span(endCol, g.startRow + 1, lastRow))
    else if rangeType == HEAD_TWO then Some(Span(endCol, g.startRow, g.startRow))
    else None
  }

  /**
   * The four-part range is the first header, the first column's values, the
   * second header and the second column's values, separated by spaces; the
   * value ranges run from the row under the header to endRow + count - 1.
   */
  lemma {:induction false} FourPartsAreTheOthers(g: Graphic, count: int)
    ensures LoRange(g, FOUR_PARTS, count).value
            == Join([g.start + COLON + g.start, LoRange(g, COL_ONE, count).value,
                     LoRange(g, HEAD_TWO, count).value, LoRange(g, COL_TWO, count).value], " ")
    ensures LoRange(g, COL_ONE, count).value == Span(g.sheet + g.startCol, g.startRow + 1, g.endRow + count - 1)
    ensures LoRange(g, COL_TWO, count).value == Span(g.sheet + g.endCol, g.startRow + 1, g.endRow + count - 1)
  {
    var a := g.start + COLON + g.start;
    var b := LoRange(g, COL_ONE, count).value;
    var c := LoRange(g, HEAD_TWO, count).value;
    var d := LoRange(g, COL_TWO, count).value;
    assert LoRange(g, FOUR_PARTS, count).value == a + " " + b + " " + c + " " + d;
    Join4([a, b, c, d], " ");
  }

  // ------------------------------------------------------------------------
  // GraphicEnvironment.getNextStyle
  // ------------------------------------------------------------------------

  const FIRST_STYLE := "ch1"
  const ONE := "1"

  /** getNextStyle: "ch1" without a last style; else its number (1 when absent) plus one, after its other characters. */
  function NextStyle(last: Option<string>): string
  {
    if last.None? || last.value == "" then FIRST_STYLE
    else
      var digits := DigitsOf(last.value);
      var number := if digits == "" then ONE else digits;
      assert AllDigits(ONE);
      OthersOf(last.value) + NatToString(DigitsValue(number) + 1)
  }

  method GetNextStyle(last: Option<string>) returns (r: string)
    ensures r == NextStyle(last)
  {
    if last.None? || last.value == "" {
      return FIRST_STYLE;
    }
    var prefix, number := SeparateDigits(last.value);
    if number == "" {
      number := ONE;
    }
    assert AllDigits(ONE);
    r := prefix + NatToString(DigitsValue(number) + 1);
  }

  /** A style "<prefix><n>" is followed by "<prefix><n+1>": "ch1", "ch2", "ch3"… */
  lemma {:induction false} NextStyleCounts(prefix: string, n: nat)
    requires forall i | 0 <= i < |prefix| :: !IsDigit(prefix[i])
    ensures NextStyle(Some(prefix + NatToString(n))) == prefix + NatToString(n + 1)
  {
    ColumnThenRow(prefix, n);
  }

  /** A style without a number counts as number 1: "ch" is followed by "ch2". */
  lemma {:induction false} NextStyleWithoutNumber(prefix: string)
    requires prefix != [] && forall i | 0 <= i < |prefix| :: !IsDigit(prefix[i])
    ensures NextStyle(Some(prefix)) == prefix + NatToString(2)
  {
    SeparateNoDigits(prefix);
    assert DigitsValue(ONE) == 1 by { assert ONE[..0] == []; }
  }
}
