/**
  Cell addresses and ranges in A1 notation (Helper.php, `rangeArray`,
  `rowNumber`, `cellAddress`): the grammar `[$]Letters[$]Digits[:[$]Letters[$]Digits]`,
  case-insensitive, parsed by hand into a range descriptor.
*/
module Addresses {
  import opened Wrappers
  import opened Text
  import opened Columns

  /** The absolute marker in front of a column or a row. */
  function Mark(abs: bool): string {
    if abs then "$" else ""
  }

  /**
    One corner of a parsed range: the `*_col_abs`, `*_col_letter` (upper-cased),
    `*_row_abs` fields and the row digits as written.
  */
  datatype Cell = Cell(colAbs: bool, letters: string, rowAbs: bool, digits: string) {

    predicate WellFormed() {
      letters != [] && AllUpper(letters) && IsNumeric(digits)
    }

    /** `*_col_num`. */
    function ColNum(): int {
      ColNumber(letters)
    }

    /** `*_row_num`. */
    function RowNum(): nat
      requires AllDigits(digits)
    {
      ParseNat(digits)
    }

    /** `*_cell`: letters and digits without markers. */
    function Plain(): string {
      letters + digits
    }

    /** `*_cell_abs`: letters and digits with their markers. */
    function Marked(): string {
      Mark(colAbs) + letters + Mark(rowAbs) + digits
    }

    /** The same corner with both markers dropped. */
    function Unmarked(): Cell {
      Cell(false, letters, false, digits)
    }

    /** The letters name a real column: their value is at most `MaxCol`. */
    predicate InBounds()
      requires WellFormed()
    {
      LetterValue(letters) <= MaxCol
    }

    /** A real column and a row of at least 1. */
    predicate Addressable() {
      WellFormed() && InBounds() && RowNum() >= 1
    }

    /** The same corner with the row written without leading zeros. */
    function Normal(): Cell
      requires AllDigits(digits)
    {
      Cell(colAbs, letters, rowAbs, NatToString(RowNum()))
    }
  }

  /** The array returned by `rangeArray`: the min corner, and the max corner when there is one. */
  datatype RangeInfo = RangeInfo(min: Cell, max: Option<Cell>) {

    predicate WellFormed() {
      min.WellFormed() && (max.Some? ==> max.value.WellFormed())
    }

    /** The max corner, or the min corner for a single cell. */
    function Last(): Cell {
      max.GetOr(min)
    }

    /** `range`: MIN:MAX without markers, MIN:MIN for a single cell. */
    function Range(): string {
      min.Plain() + ":" + Last().Plain()
    }

    /** `range_abs`: MIN:MAX with markers, MIN:MIN for a single cell. */
    function RangeAbs(): string {
      min.Marked() + ":" + Last().Marked()
    }

    /** Both corners are addressable. */
    predicate Addressable() {
      min.Addressable() && (max.Some? ==> max.value.Addressable())
    }

    /** Both corners with rows written without leading zeros. */
    function Normal(): RangeInfo
      requires WellFormed()
    {
      RangeInfo(min.Normal(), if max.Some? then Some(max.value.Normal()) else None)
    }

    /** Both corners without markers. */
    function Unmarked(): RangeInfo {
      RangeInfo(min.Unmarked(), if max.Some? then Some(max.value.Unmarked()) else None)
    }

    /** The upper-cased text this descriptor is parsed from. */
    function Source(): string {
      min.Marked() + (if max.Some? then ":" + max.value.Marked() else "")
    }
  }

  // ---------------------------------------------------------------------------
  // Parsing
  // ---------------------------------------------------------------------------

  lemma UpperMarked(colAbs: bool, l: string, rowAbs: bool, d: string)
    requires AllDigits(d)
    ensures UpperStr(Mark(colAbs) + l + Mark(rowAbs) + d) == Mark(colAbs) + UpperStr(l) + Mark(rowAbs) + d
  {
    UpperConcat(Mark(colAbs) + l + Mark(rowAbs), d);
    UpperConcat(Mark(colAbs) + l, Mark(rowAbs));
    UpperConcat(Mark(colAbs), l);
    UpperNoLower(Mark(colAbs));
    UpperNoLower(Mark(rowAbs));
    UpperNoLower(d);
  }

  /** One corner `(\$)?([a-z]+)(\$)?(\d+)`, matched against the whole of `s`. */
  function ParseCell(s: string): (r: Option<Cell>)
    ensures r.Some? ==> r.value.WellFormed() && r.value.Marked() == UpperStr(s)
  {
    var colAbs := |s| > 0 && s[0] == '$';
    var t := if colAbs then s[1..] else s;
    var r := ParseColumn(colAbs, t);
    if r.Some? then
      ParseColumnText(colAbs, t);
      MarkedText(s, colAbs, t);
      r
    else
      None
  }

  /** The letters `([a-z]+)` of a corner and the row after them. */
  function ParseColumn(colAbs: bool, t: string): Option<Cell> {
    var n := LetterSpan(t);
    var row := ParseRow(t[n..]);
    if n > 0 && row.Some? then Some(Cell(colAbs, UpperStr(t[..n]), row.value.0, row.value.1)) else None
  }

  /** The row `(\$)?(\d+)` of a corner, to the end of the text. */
  function ParseRow(rest: string): Option<(bool, string)> {
    var rowAbs := |rest| > 0 && rest[0] == '$';
    var digits := if rowAbs then rest[1..] else rest;
    if IsNumeric(digits) then Some((rowAbs, digits)) else None
  }

  /** A row that is read is digits after an optional marker. */
  lemma ParseRowText(rest: string)
    requires ParseRow(rest).Some?
    ensures IsNumeric(ParseRow(rest).value.1)
    ensures rest == Mark(ParseRow(rest).value.0) + ParseRow(rest).value.1
  {
  }

  /** A corner read from letters and a row is well formed and is the upper-cased text. */
  lemma ParseColumnText(colAbs: bool, t: string)
    requires ParseColumn(colAbs, t).Some?
    ensures ParseColumn(colAbs, t).value.WellFormed()
    ensures ParseColumn(colAbs, t).value.Marked() == Mark(colAbs) + UpperStr(t)
  {
    var n := LetterSpan(t);
    ParseRowText(t[n..]);
    var rowAbs, digits := ParseRow(t[n..]).value.0, ParseRow(t[n..]).value.1;
    UpperLetters(t[..n]);
    ColumnText(colAbs, t, n, rowAbs, digits);
  }

  /** The upper-cased text of a marker and the rest. */
  lemma MarkedText(s: string, colAbs: bool, t: string)
    requires colAbs == (|s| > 0 && s[0] == '$')
    requires t == if colAbs then s[1..] else s
    ensures Mark(colAbs) + UpperStr(t) == UpperStr(s)
  {
    assert s == Mark(colAbs) + t;
    UpperConcat(Mark(colAbs), t);
    UpperNoLower(Mark(colAbs));
  }

  /** The upper-cased text of letters followed by a row, split at the row. */
  lemma ColumnText(colAbs: bool, t: string, n: nat, rowAbs: bool, digits: string)
    requires n <= |t| && AllDigits(digits) && t[n..] == Mark(rowAbs) + digits
    ensures Mark(colAbs) + UpperStr(t) == Mark(colAbs) + UpperStr(t[..n]) + Mark(rowAbs) + digits
  {
    assert t == t[..n] + (Mark(rowAbs) + digits);
    UpperColumn(t[..n], rowAbs, digits);
  }

  /** Upper-cased letters are upper-case letters. */
  lemma UpperLetters(l: string)
    requires AllLetters(l)
    ensures AllUpper(UpperStr(l))
  {
  }

  /** Upper-casing letters and a row touches only the letters. */
  lemma UpperColumn(l: string, rowAbs: bool, d: string)
    requires AllDigits(d)
    ensures UpperStr(l + (Mark(rowAbs) + d)) == UpperStr(l) + (Mark(rowAbs) + d)
  {
    UpperConcat(l, Mark(rowAbs) + d);
    UpperNoLower(Mark(rowAbs) + d);
  }

  /** `rangeArray`: None for text outside the grammar (the source's empty array). */
  function RangeArray(s: string): (r: Option<RangeInfo>)
    ensures r.Some? ==> r.value.WellFormed() && r.value.Source() == UpperStr(s)
  {
    var i := Find(s, ':');
    if i == |s| then
      var c := ParseCell(s);
      if c.Some? then Some(RangeInfo(c.value, None)) else None
    else
      var a, b := ParseCell(s[..i]), ParseCell(s[i + 1..]);
      if a.Some? && b.Some? then
        PairSource(s, i, a.value, b.value);
        Some(RangeInfo(a.value, Some(b.value)))
      else
        None
  }

  /** Two corners read from either side of a `:` are read from the whole text. */
  lemma PairSource(s: string, i: nat, a: Cell, b: Cell)
    requires i < |s| && s[i] == ':'
    requires a.Marked() == UpperStr(s[..i]) && b.Marked() == UpperStr(s[i + 1..])
    ensures RangeInfo(a, Some(b)).Source() == UpperStr(s)
  {
    UpperSplit(s, i);
  }

  lemma UpperSplit(s: string, i: nat)
    requires i < |s| && s[i] == ':'
    ensures UpperStr(s) == UpperStr(s[..i]) + ":" + UpperStr(s[i + 1..])
  {
    assert s == s[..i] + ":" + s[i + 1..];
    UpperConcat(s[..i] + ":", s[i + 1..]);
    UpperConcat(s[..i], ":");
  }

  // ---------------------------------------------------------------------------
  // Parsing inverts formatting
  // ---------------------------------------------------------------------------

  /** Characters an address is written with. */
  predicate AddressChars(s: string) {
    forall j :: 0 <= j < |s| ==> s[j] == '$' || IsUpper(s[j]) || IsDigit(s[j])
  }

  lemma MarkedChars(c: Cell)
    requires c.WellFormed()
    ensures AddressChars(c.Marked())
    ensures forall j :: 0 <= j < |c.Marked()| ==> c.Marked()[j] != ':'
  {
  }

  /** Every well-formed corner is parsed back from its marked text. */
  lemma ParseCellMarked(c: Cell)
    requires c.WellFormed()
    ensures ParseCell(c.Marked()) == Some(c)
  {
    assert AllLetters(c.letters);
    ParseCellOf(c.colAbs, c.letters, c.rowAbs, c.digits);
    UpperNoLower(c.letters);
  }

  /** A row with or without its marker is read back. */
  lemma ParseRowOf(rowAbs: bool, d: string)
    requires IsNumeric(d)
    ensures ParseRow(Mark(rowAbs) + d) == Some((rowAbs, d))
  {
    var rest := Mark(rowAbs) + d;
    assert rest[0] == '$' <==> rowAbs;
    assert (if rowAbs then rest[1..] else rest) == d;
  }

  /** Letters followed by a row are read back as the upper-cased letters and that row. */
  lemma ParseColumnOf(colAbs: bool, l: string, rowAbs: bool, d: string)
    requires l != [] && AllLetters(l) && IsNumeric(d)
    ensures ParseColumn(colAbs, l + (Mark(rowAbs) + d)) == Some(Cell(colAbs, UpperStr(l), rowAbs, d))
  {
    var tail := Mark(rowAbs) + d;
    var t := l + tail;
    LetterSpanConcat(l, tail);
    assert t[..|l|] == l;
    assert t[|l|..] == tail;
    ParseRowOf(rowAbs, d);
  }

  /** A corner written in any case is parsed into its upper-cased letters. */
  lemma ParseCellOf(colAbs: bool, l: string, rowAbs: bool, d: string)
    requires l != [] && AllLetters(l) && IsNumeric(d)
    ensures ParseCell(Mark(colAbs) + l + Mark(rowAbs) + d) == Some(Cell(colAbs, UpperStr(l), rowAbs, d))
  {
    var s := Mark(colAbs) + l + Mark(rowAbs) + d;
    var t := l + (Mark(rowAbs) + d);
    assert s == Mark(colAbs) + t;
    assert t[0] != '$';
    assert (|s| > 0 && s[0] == '$') == colAbs;
    assert (if colAbs then s[1..] else s) == t;
    ParseColumnOf(colAbs, l, rowAbs, d);
  }

  /** Text without a colon is parsed as one corner. */
  lemma RangeArraySingle(x: string)
    requires ':' !in x && ParseCell(x).Some?
    ensures RangeArray(x) == Some(RangeInfo(ParseCell(x).value, None))
  {
    FindAbsent(x, ':');
  }

  /** Text with one colon is parsed as two corners. */
  lemma RangeArrayPair(x: string, y: string)
    requires ':' !in x && ParseCell(x).Some? && ParseCell(y).Some?
    ensures RangeArray(x + ":" + y) == Some(RangeInfo(ParseCell(x).value, Some(ParseCell(y).value)))
  {
    var s := x + ":" + y;
    FindAfter(x, ':', y);
    assert s[..|x|] == x && s[|x| + 1..] == y;
  }

  /** Every well-formed descriptor is parsed back from its source text. */
  lemma RangeArraySource(g: RangeInfo)
    requires g.WellFormed()
    ensures RangeArray(g.Source()) == Some(g)
  {
    var s := g.Source();
    MarkedChars(g.min);
    ParseCellMarked(g.min);
    match g.max
    case None =>
      assert s == g.min.Marked();
      FindAbsent(s, ':');
    case Some(b) =>
      assert s == g.min.Marked() + [':'] + b.Marked();
      FindAfter(g.min.Marked(), ':', b.Marked());
      var i := |g.min.Marked()|;
      assert s[..i] == g.min.Marked();
      assert s[i + 1..] == b.Marked();
      ParseCellMarked(b);
  }

  /**
    Re-parsing `range` keeps the min corner and gives the max corner (the min
    corner for a single cell), both without markers; re-parsing `range_abs`
    keeps the markers too.
  */
  lemma RangeReparse(g: RangeInfo)
    requires g.WellFormed()
    ensures RangeArray(g.Range()) == Some(RangeInfo(g.min.Unmarked(), Some(g.Last().Unmarked())))
    ensures RangeArray(g.RangeAbs()) == Some(RangeInfo(g.min, Some(g.Last())))
  {
    UnmarkedText(g.min);
    UnmarkedText(g.Last());
    PairReparse(g.min.Unmarked(), g.Last().Unmarked(), g.Range());
    PairReparse(g.min, g.Last(), g.RangeAbs());
  }

  /** `a:b` written from two well-formed corners parses back to them. */
  lemma PairReparse(a: Cell, b: Cell, s: string)
    requires a.WellFormed() && b.WellFormed()
    requires s == a.Marked() + ":" + b.Marked()
    ensures RangeArray(s) == Some(RangeInfo(a, Some(b)))
  {
    assert s == a.Marked() + (":" + b.Marked());
    RangeArraySource(RangeInfo(a, Some(b)));
  }

  lemma UnmarkedText(c: Cell)
    ensures c.Unmarked().Marked() == c.Plain()
  {
    assert Mark(false) == [];
    assert [] + c.letters + [] + c.digits == c.letters + c.digits;
  }

  /** Text in the grammar holds a letter, so it is never a digit string. */
  lemma ParsedNotNumeric(s: string)
    requires RangeArray(s).Some?
    ensures !IsNumeric(s)
  {
    var g := RangeArray(s).value;
    var k := |Mark(g.min.colAbs)|;
    assert g.Source()[k] == g.min.letters[0];
    assert UpperStr(s)[k] == ToUpper(s[k]);
    assert !IsDigit(s[k]);
  }

  // ---------------------------------------------------------------------------
  // rowNumber and cellAddress
  // ---------------------------------------------------------------------------

  /**
    `rowNumber`: digit text is its own value, an address or range gives the row
    of its first corner, and anything else gives 0.
  */
  function RowNumber(s: string): (r: int)
    ensures IsNumeric(s) ==> r == ParseNat(s)
    ensures RangeArray(s).Some? ==> r == RangeArray(s).value.min.RowNum()
    ensures !IsNumeric(s) && RangeArray(s).None? ==> r == 0
  {
    if IsNumeric(s) then
      ParseNat(s)
    else
      match RangeArray(s)
      case Some(g) => g.min.RowNum()
      case None => 0
  }

  /**
    `cellAddress`: the letters of the column followed by the row, "" unless the
    row is positive and the column has letters. `$` goes before the letters
    when `absolute` holds, and before the row when `absolute` holds and
    `absoluteRow` is not false, or when `absoluteRow` alone is true.
  */
  function CellAddress(row: int, col: int, absolute: bool, absoluteRow: Option<bool>): (r: string)
    ensures r == "" <==> !(row > 0 && 1 <= col <= MaxCol)
  {
    if row > 0 && col > 0 then
      var letter := ColLetter(col);
      if letter != "" then
        if absolute then
          if absoluteRow == None || absoluteRow == Some(true) then
            "$" + letter + "$" + NatToString(row)
          else
            "$" + letter + NatToString(row)
        else if absoluteRow == Some(true) then
          letter + "$" + NatToString(row)
        else
          letter + NatToString(row)
      else ""
    else ""
  }

  /**
    A built address parses back to a single cell with the same row, column and
    markers.
  */
  lemma CellAddressParses(row: int, col: int, absolute: bool, absoluteRow: Option<bool>)
    requires row > 0 && 1 <= col <= MaxCol
    ensures var rowAbs := (absolute && absoluteRow != Some(false)) || (!absolute && absoluteRow == Some(true));
      && RangeArray(CellAddress(row, col, absolute, absoluteRow))
         == Some(RangeInfo(Cell(absolute, ColLetter(col), rowAbs, NatToString(row)), None))
      && Cell(absolute, ColLetter(col), rowAbs, NatToString(row)).ColNum() == col
      && Cell(absolute, ColLetter(col), rowAbs, NatToString(row)).RowNum() == row
      && RowNumber(CellAddress(row, col, absolute, absoluteRow)) == row
  {
    var rowAbs := (absolute && absoluteRow != Some(false)) || (!absolute && absoluteRow == Some(true));
    CellAddressText(row, col, absolute, absoluteRow);
    BuiltCellParses(CellAddress(row, col, absolute, absoluteRow), Cell(absolute, ColLetter(col), rowAbs, NatToString(row)), row, col);
  }

  /** The marked text of a corner built from a column and a row parses back to it. */
  lemma BuiltCellParses(s: string, c: Cell, row: int, col: int)
    requires row > 0 && 1 <= col <= MaxCol
    requires c.letters == ColLetter(col) && c.digits == NatToString(row)
    requires s == c.Marked()
    ensures RangeArray(s) == Some(RangeInfo(c, None))
    ensures c.ColNum() == col && c.RowNum() == row
    ensures RowNumber(s) == row
  {
    var g := RangeInfo(c, None);
    ColNumberOfColLetter(col);
    ParseNatToString(row);
    RangeArraySource(g);
    ParsedNotNumeric(s);
  }

  lemma CellAddressText(row: int, col: int, absolute: bool, absoluteRow: Option<bool>)
    requires row > 0 && 1 <= col <= MaxCol
    ensures var rowAbs := (absolute && absoluteRow != Some(false)) || (!absolute && absoluteRow == Some(true));
      CellAddress(row, col, absolute, absoluteRow)
      == Cell(absolute, ColLetter(col), rowAbs, NatToString(row)).Marked()
  {
    var l, d := ColLetter(col), NatToString(row);
    assert l != "";
    var r := CellAddress(row, col, absolute, absoluteRow);
    if absolute {
      if absoluteRow == None || absoluteRow == Some(true) {
        assert r == "$" + l + "$" + d;
      } else {
        assert absoluteRow.Some? && !absoluteRow.value;
        assert absoluteRow == Some(false);
        assert r == "$" + l + d;
        assert "$" + l + [] + d == "$" + l + d;
      }
    } else if absoluteRow == Some(true) {
      assert r == l + "$" + d;
      assert [] + l + "$" + d == l + "$" + d;
    } else {
      assert r == l + d;
      assert [] + l + [] + d == l + d;
    }
  }
}
