/**
  R1C1 notation (Helper.php, `rangeRelOffsets`, `shiftAddress`,
  `shiftAddressRC`, `A1toRC`, `RCtoA1`): `R[n]` is a row offset from an anchor
  cell, `R5` an absolute row, a bare `R` the anchor's own row; the same for `C`.
*/
module Relative {
  import opened Wrappers
  import opened Text
  import opened Columns
  import opened Addresses

  /** The four absolute flags `rangeRelOffsets` writes: row and column of each corner. */
  datatype AbsFlags = AbsFlags(row1: bool, col1: bool, row2: bool, col2: bool)

  const NoFlags: AbsFlags := AbsFlags(false, false, false, false)

  /** The four offsets `rangeRelOffsets` returns, with its flags. */
  datatype RelOffsets = RelOffsets(row1: int, col1: int, row2: int, col2: int, abs: AbsFlags)

  /**
    One `R(\[)?(-?\d+)?]?` (or `C...`) component: whether a `[` opened it, and
    the number text, "" when there is none.
  */
  datatype Axis = Axis(bracket: bool, num: string) {

    predicate Valid() {
      num == "" || IsSignedNumeric(num)
    }

    /** An empty number (PHP `empty`: "" or "0") is offset 0. */
    function Offset(): int
      requires Valid()
    {
      if IsEmptyText(num) then 0 else ParseInt(num)
    }

    /** Absolute: no `[` and a non-empty number. */
    predicate Absolute() {
      !bracket && !IsEmptyText(num)
    }
  }

  // ---------------------------------------------------------------------------
  // rangeRelOffsets
  // ---------------------------------------------------------------------------

  /** One component led by `head`, and the text after it. */
  function ParseAxis(s: string, head: char): (r: Option<(Axis, string)>)
    ensures r.Some? ==> r.value.0.Valid()
    ensures r.Some? ==> |r.value.1| < |s| && r.value.1 == s[|s| - |r.value.1|..]
  {
    if |s| == 0 || s[0] != head then None
    else
      var bracket := |s| > 1 && s[1] == '[';
      var a := if bracket then s[2..] else s[1..];
      var n := SignedSpan(a);
      var b := a[n..];
      var rest := if |b| > 0 && b[0] == ']' then b[1..] else b;
      Some((Axis(bracket, a[..n]), rest))
  }

  /** One corner `R...C...`, and the text after it. */
  function ParseCorner(s: string): (r: Option<(Axis, Axis, string)>)
    ensures r.Some? ==> r.value.0.Valid() && r.value.1.Valid()
    ensures r.Some? ==> |r.value.2| < |s| && r.value.2 == s[|s| - |r.value.2|..]
  {
    match ParseAxis(s, 'R')
    case None => None
    case Some((row, rest)) =>
      match ParseAxis(rest, 'C')
      case None => None
      case Some((col, rest2)) =>
        SuffixOfSuffix(s, rest, rest2);
        Some((row, col, rest2))
  }

  /** A tail of a tail of `s` is a tail of `s`. */
  lemma SuffixOfSuffix(s: string, t: string, u: string)
    requires |t| <= |s| && t == s[|s| - |t|..]
    requires |u| <= |t| && u == t[|t| - |u|..]
    ensures u == s[|s| - |u|..]
  {
  }

  /**
    What `R(\[)?(-?\d+)?]?` reads from any text led by `head`: a `[` right
    after the head opens a bracket; the number is the longest `-?\d+` at that
    point, or nothing; one `]` after it is skipped. The component is absolute
    exactly when no `[` opened it and its number is neither empty nor `0`
    (PHP `empty`); its offset is that number, and 0 when it is empty or `0`.
  */
  lemma AxisReads(s: string, head: char)
    requires |s| > 0 && s[0] == head
    ensures ParseAxis(s, head).Some?
    ensures var ax := ParseAxis(s, head).value.0;
      var rest := ParseAxis(s, head).value.1;
      var i := if ax.bracket then 2 else 1;
      var j := i + |ax.num|;
      && ax.bracket == (|s| > 1 && s[1] == '[')
      && j <= |s| && ax.num == s[i..j]
      && (j < |s| ==> !IsDigit(s[j]))
      && (ax.num == "" ==> !(j + 1 < |s| && s[j] == '-' && IsDigit(s[j + 1])))
      && rest == (if j < |s| && s[j] == ']' then s[j + 1..] else s[j..])
      && ax.Absolute() == (!ax.bracket && ax.num != "" && ax.num != "0")
      && ax.Offset() == (if ax.num == "" || ax.num == "0" then 0 else ParseInt(ax.num))
  {
    var i := if |s| > 1 && s[1] == '[' then 2 else 1;
    var a := s[i..];
    var n := SignedSpan(a);
    SignedSpanEnds(a);
    assert a[..n] == s[i..i + n];
    assert a[n..] == s[i + n..];
    assert n < |a| ==> a[n] == s[i + n];
    assert n + 1 < |a| ==> a[n + 1] == s[i + n + 1];
  }

  /**
    `rangeRelOffsets`: the upper-cased text must be one corner or two corners
    joined by `:`. A lone corner is copied into the second position, offsets
    and flags alike. None when the text does not match (the source then
    returns nulls).
  */
  function RangeRelOffsets(s: string): Option<RelOffsets> {
    var u := UpperStr(s);
    match ParseCorner(u)
    case None => None
    case Some((r1, c1, rest)) =>
      if rest == [] then
        Some(RelOffsets(r1.Offset(), c1.Offset(), r1.Offset(), c1.Offset(),
                        AbsFlags(r1.Absolute(), c1.Absolute(), r1.Absolute(), c1.Absolute())))
      else if rest[0] == ':' then
        match ParseCorner(rest[1..])
        case None => None
        case Some((r2, c2, rest2)) =>
          if rest2 == [] then
            Some(RelOffsets(r1.Offset(), c1.Offset(), r2.Offset(), c2.Offset(),
                            AbsFlags(r1.Absolute(), c1.Absolute(), r2.Absolute(), c2.Absolute())))
          else None
      else None
  }

  /**
    Whatever text `rangeRelOffsets` accepts, its offsets and flags are those of
    the components `AxisReads` describes after the `R` and `C` heads of the
    upper-cased text: the first corner's in the first position; in the second
    the second corner's, after a `:`, or else the first corner's again.
  */
  lemma RangeRelOffsetsReads(s: string)
    requires RangeRelOffsets(s).Some?
    ensures var u := UpperStr(s);
      var o := RangeRelOffsets(s).value;
      && ParseAxis(u, 'R').Some?
      && var (r1, t1) := ParseAxis(u, 'R').value;
      && ParseAxis(t1, 'C').Some?
      && var (c1, t2) := ParseAxis(t1, 'C').value;
      && o.row1 == r1.Offset() && o.abs.row1 == r1.Absolute()
      && o.col1 == c1.Offset() && o.abs.col1 == c1.Absolute()
      && (t2 == [] ==>
            o.row2 == o.row1 && o.col2 == o.col1 && o.abs.row2 == o.abs.row1 && o.abs.col2 == o.abs.col1)
      && (t2 != [] ==>
            && t2[0] == ':'
            && ParseAxis(t2[1..], 'R').Some?
            && var (r2, t3) := ParseAxis(t2[1..], 'R').value;
            && ParseAxis(t3, 'C').Some?
            && var (c2, t4) := ParseAxis(t3, 'C').value;
            && t4 == []
            && o.row2 == r2.Offset() && o.abs.row2 == r2.Absolute()
            && o.col2 == c2.Offset() && o.abs.col2 == c2.Absolute())
  {
  }

  /**
    Text without a `:` is at most one corner, and `rangeRelOffsets` copies it
    into the second position, offsets and flags alike.
  */
  lemma LoneCornerCopied(s: string)
    requires Find(s, ':') == |s|
    ensures var r := RangeRelOffsets(s);
      r.Some? ==>
        && r.value.row2 == r.value.row1 && r.value.col2 == r.value.col1
        && r.value.abs.row2 == r.value.abs.row1 && r.value.abs.col2 == r.value.abs.col1
  {
    var u := UpperStr(s);
    FindUpper(s);
    var p := ParseCorner(u);
    if p.Some? && p.value.2 != [] {
      var rest := p.value.2;
      assert rest[0] == u[|u| - |rest|];
    }
  }

  // ---------------------------------------------------------------------------
  // shiftAddress and shiftAddressRC
  // ---------------------------------------------------------------------------

  /**
    `shiftAddress` on one cell: a column flagged absolute becomes `$` and the
    letters of the column offset itself, otherwise the cell's column moves by
    the offset; the same for the row. Text that is empty or outside the
    grammar counts as column 0, row 0.
  */
  function ShiftCell(cell: string, rowOffset: int, colOffset: int, rowAbs: bool, colAbs: bool): string {
    var base := MinFields(cell);
    ShiftText(base.col, base.row, rowOffset, colOffset, rowAbs, colAbs)
  }

  /** The text of a cell at (`col`, `row`) shifted by the offsets, or replaced by them where flagged. */
  function ShiftText(col: int, row: int, rowOffset: int, colOffset: int, rowAbs: bool, colAbs: bool): string {
    (if colAbs then "$" + ColLetter(colOffset) else ColLetter(col + colOffset))
    + (if rowAbs then "$" + IntToString(rowOffset) else IntToString(row + rowOffset))
  }

  /**
    `shiftAddress`: a range (a `:` after the first character) is cut at its
    first two `:`-separated parts and each is shifted by the same offsets, the
    second with flags 2 and 3.
  */
  function ShiftAddress(address: string, rowOffset: int, colOffset: int, abs: AbsFlags): string {
    var i := Find(address, ':');
    if 0 < i < |address| then
      var rest := address[i + 1..];
      var cell2 := rest[..Find(rest, ':')];
      ShiftCell(address[..i], rowOffset, colOffset, abs.row1, abs.col1) + ":"
      + ShiftCell(cell2, rowOffset, colOffset, abs.row2, abs.col2)
    else
      ShiftCell(address, rowOffset, colOffset, abs.row1, abs.col1)
  }

  /**
    `shiftAddressRC`: shift `cell` by the first corner's offsets of an R1C1
    text, with all four flags. None when the R1C1 text does not match (the
    source then fails on a null offset).
  */
  function ShiftAddressRC(cell: string, rc: string): (r: Option<string>)
    ensures r.Some? <==> RangeRelOffsets(rc).Some?
  {
    match RangeRelOffsets(rc)
    case None => None
    case Some(o) => Some(ShiftAddress(cell, o.row1, o.col1, o.abs))
  }

  /**
    The corner `shiftAddress` writes for `c`: each coordinate moved by its
    offset, or replaced by the offset where flagged, with `$` exactly there.
  */
  function Moved(c: Cell, rowOffset: int, colOffset: int, rowAbs: bool, colAbs: bool): Cell
    requires Fits(c, rowOffset, colOffset, rowAbs, colAbs)
  {
    Cell(colAbs, ColLetter(if colAbs then colOffset else c.ColNum() + colOffset),
         rowAbs, NatToString(if rowAbs then rowOffset else c.RowNum() + rowOffset))
  }

  /** The moved (or replaced) column is a real column and the row at least 1. */
  predicate Fits(c: Cell, rowOffset: int, colOffset: int, rowAbs: bool, colAbs: bool) {
    && c.WellFormed()
    && 1 <= (if colAbs then colOffset else c.ColNum() + colOffset) <= MaxCol
    && (if rowAbs then rowOffset else c.RowNum() + rowOffset) >= 1
  }

  /** Both corners fit, the max corner under the flags of the second position. */
  predicate RangeFits(g: RangeInfo, rowOffset: int, colOffset: int, abs: AbsFlags) {
    && Fits(g.min, rowOffset, colOffset, abs.row1, abs.col1)
    && (g.max.Some? ==> Fits(g.max.value, rowOffset, colOffset, abs.row2, abs.col2))
  }

  /** The descriptor `shiftAddress` writes. */
  function Shifted(g: RangeInfo, rowOffset: int, colOffset: int, abs: AbsFlags): RangeInfo
    requires RangeFits(g, rowOffset, colOffset, abs)
  {
    RangeInfo(Moved(g.min, rowOffset, colOffset, abs.row1, abs.col1),
              if g.max.Some? then Some(Moved(g.max.value, rowOffset, colOffset, abs.row2, abs.col2)) else None)
  }

  /** A moved corner is well formed and has the moved (or replaced) numbers. */
  lemma MovedNumbers(c: Cell, rowOffset: int, colOffset: int, rowAbs: bool, colAbs: bool)
    requires Fits(c, rowOffset, colOffset, rowAbs, colAbs)
    ensures Moved(c, rowOffset, colOffset, rowAbs, colAbs).Addressable()
    ensures Moved(c, rowOffset, colOffset, rowAbs, colAbs).ColNum() == if colAbs then colOffset else c.ColNum() + colOffset
    ensures Moved(c, rowOffset, colOffset, rowAbs, colAbs).RowNum() == if rowAbs then rowOffset else c.RowNum() + rowOffset
  {
    var col := if colAbs then colOffset else c.ColNum() + colOffset;
    var row := if rowAbs then rowOffset else c.RowNum() + rowOffset;
    assert Moved(c, rowOffset, colOffset, rowAbs, colAbs) == Cell(colAbs, ColLetter(col), rowAbs, NatToString(row));
    NumbersCell(colAbs, col, rowAbs, row);
  }

  /** The corner written from a real column and a row of at least 1 has those numbers. */
  lemma NumbersCell(colAbs: bool, col: int, rowAbs: bool, row: int)
    requires 1 <= col <= MaxCol && row >= 1
    ensures Cell(colAbs, ColLetter(col), rowAbs, NatToString(row)).Addressable()
    ensures Cell(colAbs, ColLetter(col), rowAbs, NatToString(row)).ColNum() == col
    ensures Cell(colAbs, ColLetter(col), rowAbs, NatToString(row)).RowNum() == row
  {
    ColNumberOfColLetter(col);
    ParseNatToString(row);
  }

  /** `shiftAddress` on text parsing to one corner writes the moved corner. */
  lemma ShiftCellMoves(cell: string, rowOffset: int, colOffset: int, rowAbs: bool, colAbs: bool)
    requires RangeArray(cell).Some?
    requires Fits(RangeArray(cell).value.min, rowOffset, colOffset, rowAbs, colAbs)
    ensures ShiftCell(cell, rowOffset, colOffset, rowAbs, colAbs)
      == Moved(RangeArray(cell).value.min, rowOffset, colOffset, rowAbs, colAbs).Marked()
  {
    var c := RangeArray(cell).value.min;
    assert MinFields(cell) == FieldsOf(Some(c));
    MovedText(c, rowOffset, colOffset, rowAbs, colAbs);
  }

  lemma MovedText(c: Cell, rowOffset: int, colOffset: int, rowAbs: bool, colAbs: bool)
    requires Fits(c, rowOffset, colOffset, rowAbs, colAbs)
    ensures ShiftText(c.ColNum(), c.RowNum(), rowOffset, colOffset, rowAbs, colAbs)
      == Moved(c, rowOffset, colOffset, rowAbs, colAbs).Marked()
  {
    ShiftTextMoved(c.ColNum(), c.RowNum(), rowOffset, colOffset, rowAbs, colAbs,
                   Moved(c, rowOffset, colOffset, rowAbs, colAbs));
  }

  /** The text `shiftAddress` writes for a cell at (`col`, `row`) is the marked text of the corner it moves to. */
  lemma ShiftTextMoved(col: int, row: int, rowOffset: int, colOffset: int, rowAbs: bool, colAbs: bool, m: Cell)
    requires (if rowAbs then rowOffset else row + rowOffset) >= 1
    requires m == Cell(colAbs, ColLetter(if colAbs then colOffset else col + colOffset),
                       rowAbs, NatToString(if rowAbs then rowOffset else row + rowOffset))
    ensures ShiftText(col, row, rowOffset, colOffset, rowAbs, colAbs) == m.Marked()
  {
    IntToStringRoundTrip(if rowAbs then rowOffset else row + rowOffset);
    MarkedSplit(m);
  }

  /** Text parsing to one corner is a single `rangeArray` piece. */
  lemma SingleCellPiece(s: string)
    requires ParseCell(s).Some?
    ensures Find(s, ':') == |s|
    ensures RangeArray(s) == Some(RangeInfo(ParseCell(s).value, None))
  {
    MarkedChars(ParseCell(s).value);
    FindUpper(s);
    FindAbsent(UpperStr(s), ':');
  }

  /** The two pieces `shiftAddress` cuts a parsed range into parse to its two corners. */
  lemma RangePieces(address: string, i: nat)
    requires RangeArray(address).Some? && RangeArray(address).value.max.Some?
    requires i == Find(address, ':')
    ensures 0 < i < |address|
    ensures RangeArray(address[..i]).Some?
    ensures RangeArray(address[..i]).value.min == RangeArray(address).value.min
    ensures Find(address[i + 1..], ':') == |address[i + 1..]|
    ensures RangeArray(address[i + 1..]).Some?
    ensures RangeArray(address[i + 1..]).value.min == RangeArray(address).value.max.value
  {
    RangeColon(address);
    SingleCellPiece(address[..i]);
    SingleCellPiece(address[i + 1..]);
  }

  /**
    `shiftAddress` writes each corner of a parsed address moved by the
    offsets, or replaced by them where flagged, as long as the result stays
    on the sheet.
  */
  lemma ShiftAddressMoves(address: string, rowOffset: int, colOffset: int, abs: AbsFlags)
    requires RangeArray(address).Some?
    requires RangeFits(RangeArray(address).value, rowOffset, colOffset, abs)
    ensures ShiftAddress(address, rowOffset, colOffset, abs)
      == Shifted(RangeArray(address).value, rowOffset, colOffset, abs).Source()
  {
    if RangeArray(address).value.max.Some? {
      ShiftRangeMoves(address, rowOffset, colOffset, abs);
    } else {
      ShiftSingleMoves(address, rowOffset, colOffset, abs);
    }
  }

  lemma ShiftSingleMoves(address: string, rowOffset: int, colOffset: int, abs: AbsFlags)
    requires RangeArray(address).Some? && RangeArray(address).value.max.None?
    requires RangeFits(RangeArray(address).value, rowOffset, colOffset, abs)
    ensures ShiftAddress(address, rowOffset, colOffset, abs)
      == Shifted(RangeArray(address).value, rowOffset, colOffset, abs).Source()
  {
    var g := RangeArray(address).value;
    RangeColon(address);
    ShiftCellMoves(address, rowOffset, colOffset, abs.row1, abs.col1);
    var m := Moved(g.min, rowOffset, colOffset, abs.row1, abs.col1);
    assert Shifted(g, rowOffset, colOffset, abs) == RangeInfo(m, None);
    assert m.Marked() + "" == m.Marked();
  }

  lemma ShiftRangeMoves(address: string, rowOffset: int, colOffset: int, abs: AbsFlags)
    requires RangeArray(address).Some? && RangeArray(address).value.max.Some?
    requires RangeFits(RangeArray(address).value, rowOffset, colOffset, abs)
    ensures ShiftAddress(address, rowOffset, colOffset, abs)
      == Shifted(RangeArray(address).value, rowOffset, colOffset, abs).Source()
  {
    var g := RangeArray(address).value;
    var i := Find(address, ':');
    RangePieces(address, i);
    var p1, p2 := address[..i], address[i + 1..];
    ShiftAddressSplit(address, i, rowOffset, colOffset, abs);
    ShiftCellMoves(p1, rowOffset, colOffset, abs.row1, abs.col1);
    ShiftCellMoves(p2, rowOffset, colOffset, abs.row2, abs.col2);
    ShiftedSource(g, rowOffset, colOffset, abs);
  }

  lemma ShiftedSource(g: RangeInfo, rowOffset: int, colOffset: int, abs: AbsFlags)
    requires g.max.Some? && RangeFits(g, rowOffset, colOffset, abs)
    ensures Shifted(g, rowOffset, colOffset, abs).Source()
      == Moved(g.min, rowOffset, colOffset, abs.row1, abs.col1).Marked() + ":"
         + Moved(g.max.value, rowOffset, colOffset, abs.row2, abs.col2).Marked()
  {
  }

  /** `shiftAddress` of text with exactly one `:` past its first character shifts the two sides. */
  lemma ShiftAddressSplit(address: string, i: nat, rowOffset: int, colOffset: int, abs: AbsFlags)
    requires i == Find(address, ':') && 0 < i < |address|
    requires Find(address[i + 1..], ':') == |address[i + 1..]|
    ensures ShiftAddress(address, rowOffset, colOffset, abs)
      == ShiftCell(address[..i], rowOffset, colOffset, abs.row1, abs.col1) + ":"
         + ShiftCell(address[i + 1..], rowOffset, colOffset, abs.row2, abs.col2)
  {
    WholePrefix(address[i + 1..]);
  }

  lemma WholePrefix(s: string)
    ensures s[..|s|] == s
  {
  }

  /** Moving a real corner and moving it back gives it without markers and leading zeros. */
  lemma MovedBack(c: Cell, rowOffset: int, colOffset: int, backRow: int, backCol: int)
    requires c.Addressable() && Fits(c, rowOffset, colOffset, false, false)
    requires rowOffset + backRow == 0 && colOffset + backCol == 0
    ensures Fits(Moved(c, rowOffset, colOffset, false, false), backRow, backCol, false, false)
    ensures Moved(Moved(c, rowOffset, colOffset, false, false), backRow, backCol, false, false)
      == c.Normal().Unmarked()
  {
    MovedNumbers(c, rowOffset, colOffset, false, false);
    CornerColumn(c);
  }

  /**
    Shifting a parsed address without flags by (dr, dc) and back by the
    opposite offsets gives the address upper-cased, without `$` markers and
    leading zeros, as long as every corner stays on the sheet.
  */
  lemma ShiftAddressRoundTrip(address: string, rowOffset: int, colOffset: int, backRow: int, backCol: int)
    requires RangeArray(address).Some? && RangeArray(address).value.Addressable()
    requires RangeFits(RangeArray(address).value, rowOffset, colOffset, NoFlags)
    requires rowOffset + backRow == 0 && colOffset + backCol == 0
    ensures ShiftAddress(ShiftAddress(address, rowOffset, colOffset, NoFlags), backRow, backCol, NoFlags)
      == RangeArray(address).value.Normal().Unmarked().Source()
  {
    var g := RangeArray(address).value;
    ShiftAddressMoves(address, rowOffset, colOffset, NoFlags);
    ShiftBackOf(g, Shifted(g, rowOffset, colOffset, NoFlags), g.Normal().Unmarked(), rowOffset, colOffset, backRow, backCol);
  }

  /** `shiftAddress` by the opposite offsets takes the text of a shifted descriptor `h` back to `back`. */
  lemma ShiftBackOf(g: RangeInfo, h: RangeInfo, back: RangeInfo, rowOffset: int, colOffset: int, backRow: int, backCol: int)
    requires g.Addressable() && RangeFits(g, rowOffset, colOffset, NoFlags)
    requires rowOffset + backRow == 0 && colOffset + backCol == 0
    requires h == Shifted(g, rowOffset, colOffset, NoFlags)
    requires back == g.Normal().Unmarked()
    ensures ShiftAddress(h.Source(), backRow, backCol, NoFlags) == back.Source()
  {
    ShiftedBack(g, h, back, rowOffset, colOffset, backRow, backCol);
    ShiftSourceMoves(h, backRow, backCol, NoFlags);
  }

  /** `shiftAddress` on the text of a descriptor writes the shifted descriptor. */
  lemma ShiftSourceMoves(h: RangeInfo, rowOffset: int, colOffset: int, abs: AbsFlags)
    requires h.WellFormed() && RangeFits(h, rowOffset, colOffset, abs)
    ensures ShiftAddress(h.Source(), rowOffset, colOffset, abs) == Shifted(h, rowOffset, colOffset, abs).Source()
  {
    RangeArraySource(h);
    ShiftAddressMoves(h.Source(), rowOffset, colOffset, abs);
  }

  /** Shifting a descriptor and shifting it back, without flags, normalises it. */
  lemma ShiftedBack(g: RangeInfo, h: RangeInfo, back: RangeInfo, rowOffset: int, colOffset: int, backRow: int, backCol: int)
    requires g.Addressable() && RangeFits(g, rowOffset, colOffset, NoFlags)
    requires rowOffset + backRow == 0 && colOffset + backCol == 0
    requires h == Shifted(g, rowOffset, colOffset, NoFlags)
    requires back == g.Normal().Unmarked()
    ensures h.WellFormed() && RangeFits(h, backRow, backCol, NoFlags)
    ensures Shifted(h, backRow, backCol, NoFlags) == back
  {
    MovedNumbers(g.min, rowOffset, colOffset, false, false);
    MovedBack(g.min, rowOffset, colOffset, backRow, backCol);
    if g.max.Some? {
      MovedNumbers(g.max.value, rowOffset, colOffset, false, false);
      MovedBack(g.max.value, rowOffset, colOffset, backRow, backCol);
    }
  }

  // ---------------------------------------------------------------------------
  // A1toRC and RCtoA1
  // ---------------------------------------------------------------------------

  /**
    `RCtoA1`: each side of a range, or the single corner, is translated by
    `shiftAddressRC` against the anchor.
  */
  function RCtoA1(rc: string, anchor: string): Option<string> {
    var i := Find(rc, ':');
    if 0 < i < |rc| then
      var rest := rc[i + 1..];
      var a := ShiftAddressRC(anchor, rc[..i]);
      var b := ShiftAddressRC(anchor, rest[..Find(rest, ':')]);
      if a.Some? && b.Some? then Some(a.value + ":" + b.value) else None
    else
      ShiftAddressRC(anchor, rc)
  }

  /** The fields `A1toRC` reads of one corner; a corner that is not there reads as nulls. */
  datatype Fields = Fields(present: bool, col: int, row: int, colAbs: bool, rowAbs: bool)

  function FieldsOf(c: Option<Cell>): Fields {
    if c.Some? && c.value.WellFormed() then
      Fields(true, c.value.ColNum(), c.value.RowNum(), c.value.colAbs, c.value.rowAbs)
    else
      Fields(false, 0, 0, false, false)
  }

  /** The `min_*` fields of `rangeArray(s)`. */
  function MinFields(s: string): Fields {
    var d := RangeArray(s);
    FieldsOf(if d.Some? then Some(d.value.min) else None)
  }

  /** The `max_*` fields of `rangeArray(s)`. */
  function MaxFields(s: string): Fields {
    var d := RangeArray(s);
    FieldsOf(if d.Some? then d.value.max else None)
  }

  /** `R` (or `C`) then the absolute number, or the bracketed non-zero offset, or nothing. */
  function RelPart(head: char, absolute: bool, value: int, offset: int): string {
    if absolute then [head] + IntToString(value)
    else [head] + (if offset != 0 then "[" + IntToString(offset) + "]" else "")
  }

  /** One corner of `A1toRC` against the anchor's fields. */
  function CornerRC(f: Fields, anchor: Fields): string {
    RelPart('R', f.rowAbs, f.row, Delta(f.row, anchor.row)) + RelPart('C', f.colAbs, f.col, Delta(f.col, anchor.col))
  }

  /** How far a coordinate lies from the anchor's. */
  function Delta(value: int, base: int): int {
    value - base
  }

  /** A null field prints as nothing. */
  function FieldText(f: Fields, v: int): string {
    if f.present then IntToString(v) else ""
  }

  /**
    `A1toRC`: with an anchor (PHP-truthy text), each corner as offsets from the
    anchor's first corner, absolute where the address has `$`; without one,
    absolute numbers for every corner.
  */
  function A1toRC(address: string, anchor: string): (r: string)
    ensures r != [] && r[0] == 'R'
  {
    var lo, hi := MinFields(address), MaxFields(address);
    var hasMax := 0 < Find(address, ':') < |address|;
    if !IsEmptyText(anchor) then
      var at := MinFields(anchor);
      CornerRC(lo, at) + (if hasMax then ":" + CornerRC(hi, at) else "")
    else
      "R" + FieldText(lo, lo.row) + "C" + FieldText(lo, lo.col)
      + (if hasMax then ":R" + FieldText(hi, hi.row) + "C" + FieldText(hi, hi.col) else "")
  }

  // ---------------------------------------------------------------------------
  // Rendered R1C1 text parses back
  // ---------------------------------------------------------------------------

  /** Characters R1C1 text is written with: no lower case, no `:`. */
  predicate RCChars(s: string) {
    forall j :: 0 <= j < |s| ==> s[j] == 'R' || s[j] == 'C' || s[j] == '[' || s[j] == ']' || s[j] == '-' || IsDigit(s[j])
  }

  lemma CornerChars(f: Fields, anchor: Fields)
    ensures RCChars(CornerRC(f, anchor))
    ensures UpperStr(CornerRC(f, anchor)) == CornerRC(f, anchor)
    ensures Find(CornerRC(f, anchor), ':') == |CornerRC(f, anchor)|
    ensures |CornerRC(f, anchor)| > 0 && CornerRC(f, anchor)[0] == 'R'
  {
    SignedChars(IntToString(f.row));
    SignedChars(IntToString(f.col));
    SignedChars(IntToString(Delta(f.row, anchor.row)));
    SignedChars(IntToString(Delta(f.col, anchor.col)));
    var s := CornerRC(f, anchor);
    assert RCChars(s);
    UpperNoLower(s);
    FindAbsent(s, ':');
  }

  /** The axis a rendered `RelPart` reads as. */
  function PartAxis(absolute: bool, value: int, offset: int): Axis {
    if absolute then Axis(false, IntToString(value))
    else if offset != 0 then Axis(true, IntToString(offset))
    else Axis(false, "")
  }

  /**
    A rendered component is read back whole, whatever follows it, as long as
    that is the next component, a `:` or nothing.
  */
  lemma ParseRelPart(head: char, absolute: bool, value: int, offset: int, rest: string)
    requires rest == [] || rest[0] == 'C' || rest[0] == ':'
    ensures ParseAxis(RelPart(head, absolute, value, offset) + rest, head)
      == Some((PartAxis(absolute, value, offset), rest))
  {
    if absolute {
      ParseNumberPart(head, IntToString(value), rest);
    } else if offset != 0 {
      var t := IntToString(offset);
      assert RelPart(head, absolute, value, offset) + rest == [head] + "[" + t + "]" + rest;
      ParseBracketPart(head, t, rest);
    } else {
      ParseBarePart(head, rest);
    }
  }

  lemma ParseNumberPart(head: char, t: string, rest: string)
    requires IsSignedNumeric(t)
    requires rest == [] || rest[0] == 'C' || rest[0] == ':'
    ensures ParseAxis([head] + t + rest, head) == Some((Axis(false, t), rest))
  {
    var s := [head] + t + rest;
    SignedChars(t);
    assert s[1..] == t + rest;
    assert s[1] == t[0];
    SignedSpanConcat(t, rest);
    assert (t + rest)[..|t|] == t;
    assert (t + rest)[|t|..] == rest;
  }

  lemma ParseBracketPart(head: char, t: string, rest: string)
    requires IsSignedNumeric(t)
    requires rest == [] || rest[0] == 'C' || rest[0] == ':'
    ensures ParseAxis([head] + "[" + t + "]" + rest, head) == Some((Axis(true, t), rest))
  {
    var s := [head] + "[" + t + "]" + rest;
    var a := t + ("]" + rest);
    assert s[2..] == a;
    SignedSpanConcat(t, "]" + rest);
    assert a[..|t|] == t;
    assert a[|t|..] == "]" + rest;
    assert ("]" + rest)[1..] == rest;
  }

  lemma ParseBarePart(head: char, rest: string)
    requires rest == [] || rest[0] == 'C' || rest[0] == ':'
    ensures ParseAxis([head] + rest, head) == Some((Axis(false, ""), rest))
  {
    var s := [head] + rest;
    assert s[1..] == rest;
    assert rest[..0] == "";
  }

  /**
    A rendered component reads as absolute exactly when it was rendered
    absolute, with the absolute value or the offset as its number.
  */
  lemma PartAxisValue(absolute: bool, value: int, offset: int)
    requires absolute ==> value != 0
    ensures PartAxis(absolute, value, offset).Valid()
    ensures PartAxis(absolute, value, offset).Absolute() == absolute
    ensures PartAxis(absolute, value, offset).Offset() == if absolute then value else offset
  {
    IntToStringRoundTrip(value);
    IntToStringRoundTrip(offset);
  }

  /** The four offsets and flags of a lone rendered corner. */
  function CornerOffsets(f: Fields, anchor: Fields): RelOffsets {
    var ro := if f.rowAbs then f.row else Delta(f.row, anchor.row);
    var co := if f.colAbs then f.col else Delta(f.col, anchor.col);
    RelOffsets(ro, co, ro, co, AbsFlags(f.rowAbs, f.colAbs, f.rowAbs, f.colAbs))
  }

  /**
    `rangeRelOffsets` of a corner rendered by `A1toRC` gives back its row and
    column (absolute ones as numbers, relative ones as offsets from the
    anchor) and its flags, copied into the second position.
  */
  lemma RangeRelOffsetsOfCorner(f: Fields, anchor: Fields)
    requires f.rowAbs ==> f.row != 0
    requires f.colAbs ==> f.col != 0
    ensures RangeRelOffsets(CornerRC(f, anchor)) == Some(CornerOffsets(f, anchor))
  {
    var s := CornerRC(f, anchor);
    CornerChars(f, anchor);
    ParseCornerRC(f, anchor, []);
    assert s + [] == s;
    PartAxisValue(f.rowAbs, f.row, Delta(f.row, anchor.row));
    PartAxisValue(f.colAbs, f.col, Delta(f.col, anchor.col));
  }

  /** A rendered corner, followed by nothing or a `:`, is read back as its two components. */
  lemma ParseCornerRC(f: Fields, anchor: Fields, rest: string)
    requires rest == [] || rest[0] == ':'
    ensures ParseCorner(CornerRC(f, anchor) + rest)
      == Some((PartAxis(f.rowAbs, f.row, Delta(f.row, anchor.row)), PartAxis(f.colAbs, f.col, Delta(f.col, anchor.col)), rest))
  {
    var ro, co := Delta(f.row, anchor.row), Delta(f.col, anchor.col);
    assert CornerRC(f, anchor) == RelPart('R', f.rowAbs, f.row, ro) + RelPart('C', f.colAbs, f.col, co);
    ParseCornerParts(f.rowAbs, f.row, ro, f.colAbs, f.col, co, rest);
  }

  lemma ParseCornerParts(ra: bool, rv: int, ro: int, ca: bool, cv: int, co: int, rest: string)
    requires rest == [] || rest[0] == ':'
    ensures ParseCorner(RelPart('R', ra, rv, ro) + RelPart('C', ca, cv, co) + rest)
      == Some((PartAxis(ra, rv, ro), PartAxis(ca, cv, co), rest))
  {
    var rp, cp := RelPart('R', ra, rv, ro), RelPart('C', ca, cv, co);
    var cr := cp + rest;
    assert cr[0] == 'C';
    assert rp + cp + rest == rp + cr;
    ParseRelPart('R', ra, rv, ro, cr);
    ParseRelPart('C', ca, cv, co, rest);
  }

  // ---------------------------------------------------------------------------
  // A1toRC and RCtoA1 are inverse
  // ---------------------------------------------------------------------------

  /** A single-cell anchor is PHP-truthy and holds no `:`. */
  lemma SingleCellText(s: string)
    requires RangeArray(s).Some? && RangeArray(s).value.max.None?
    ensures Find(s, ':') == |s|
    ensures !IsEmptyText(s)
  {
    var g := RangeArray(s).value;
    assert |UpperStr(s)| == |g.Source()| > 0;
    ParsedNotNumeric(s);
  }

  /** Text that `shiftAddress` does not cut in two. */
  predicate Uncut(s: string) {
    !(0 < Find(s, ':') < |s|)
  }

  /**
    Shifting an uncut anchor by the offsets of one corner rendered against it
    gives the corner back, `$` markers included, with its row written without
    leading zeros.
  */
  lemma ShiftCorner(anchor: string, c: Cell)
    requires Uncut(anchor)
    requires c.Addressable()
    ensures ShiftAddressRC(anchor, CornerRC(FieldsOf(Some(c)), MinFields(anchor)))
      == Some(c.Normal().Marked())
  {
    var f, at := FieldsOf(Some(c)), MinFields(anchor);
    CornerColumn(c);
    RangeRelOffsetsOfCorner(f, at);
    var o := CornerOffsets(f, at);
    assert ShiftAddress(anchor, o.row1, o.col1, o.abs) == ShiftCell(anchor, o.row1, o.col1, c.rowAbs, c.colAbs);
    ShiftCellBack(anchor, c);
  }

  /** The column of an addressable corner is a real column whose letters are the corner's. */
  lemma CornerColumn(c: Cell)
    requires c.Addressable()
    ensures 1 <= c.ColNum() <= MaxCol
    ensures ColLetter(c.ColNum()) == c.letters
  {
    assert AllLetters(c.letters);
    UpperNoLower(c.letters);
    ColLetterOfColNumber(c.letters);
  }

  /** Shifting the anchor cell by a corner's offsets (and flags) rebuilds the corner. */
  lemma ShiftCellBack(anchor: string, c: Cell)
    requires c.Addressable()
    ensures var o := CornerOffsets(FieldsOf(Some(c)), MinFields(anchor));
      ShiftCell(anchor, o.row1, o.col1, c.rowAbs, c.colAbs) == c.Normal().Marked()
  {
    var at := MinFields(anchor);
    CornerColumn(c);
    ShiftFromAnchor(at, c);
  }

  lemma ShiftFromAnchor(at: Fields, c: Cell)
    requires c.WellFormed() && ColLetter(c.ColNum()) == c.letters
    ensures var o := CornerOffsets(FieldsOf(Some(c)), at);
      ShiftText(at.col, at.row, o.row1, o.col1, c.rowAbs, c.colAbs) == c.Normal().Marked()
  {
    OffsetsOfCorner(c, at);
    ShiftOfNumbers(at, c, c.ColNum(), c.RowNum());
  }

  lemma ShiftOfNumbers(at: Fields, c: Cell, col: int, row: nat)
    requires c.WellFormed() && col == c.ColNum() && row == c.RowNum() && ColLetter(col) == c.letters
    ensures var ro := if c.rowAbs then row else row - at.row;
      var co := if c.colAbs then col else col - at.col;
      ShiftText(at.col, at.row, ro, co, c.rowAbs, c.colAbs) == c.Normal().Marked()
  {
    ShiftTextOf(at.col, at.row, col, row, c.rowAbs, c.colAbs, c.letters, NatToString(row));
    MarkedSplit(c.Normal());
  }

  /** The offsets of a lone corner: its own numbers where absolute, else its distance from the anchor. */
  lemma OffsetsOfCorner(c: Cell, at: Fields)
    requires c.WellFormed()
    ensures CornerOffsets(FieldsOf(Some(c)), at).row1 == if c.rowAbs then c.RowNum() else c.RowNum() - at.row
    ensures CornerOffsets(FieldsOf(Some(c)), at).col1 == if c.colAbs then c.ColNum() else c.ColNum() - at.col
  {
  }

  /**
    Shifting the anchor's numbers by a corner's offsets (or replacing them by
    its absolute numbers) writes that corner.
  */
  lemma ShiftTextOf(acol: int, arow: int, col: int, row: nat, rowAbs: bool, colAbs: bool, l: string, d: string)
    requires ColLetter(col) == l && NatToString(row) == d
    ensures var ro := if rowAbs then row else row - arow;
      var co := if colAbs then col else col - acol;
      ShiftText(acol, arow, ro, co, rowAbs, colAbs) == (Mark(colAbs) + l) + (Mark(rowAbs) + d)
  {
    var ro := if rowAbs then row else row - arow;
    var co := if colAbs then col else col - acol;
    var x := if colAbs then "$" + ColLetter(co) else ColLetter(acol + co);
    var y := if rowAbs then "$" + IntToString(ro) else IntToString(arow + ro);
    assert ShiftText(acol, arow, ro, co, rowAbs, colAbs) == x + y;
    if !colAbs {
      assert acol + co == col;
    }
    assert x == Mark(colAbs) + l;
    if !rowAbs {
      assert arow + ro == row;
    }
    IntToStringRoundTrip(row);
    assert y == Mark(rowAbs) + d;
  }

  /** The marked text is the column part followed by the row part. */
  lemma MarkedSplit(c: Cell)
    ensures c.Marked() == (Mark(c.colAbs) + c.letters) + (Mark(c.rowAbs) + c.digits)
  {
  }

  /**
    With a PHP-truthy anchor that `shiftAddress` does not cut (a single cell,
    say), `RCtoA1` undoes `A1toRC` on every address whose corners are real
    cells: the result is the address upper-cased, with its `$` markers and
    rows without leading zeros.
  */
  lemma A1toRCRoundTrip(address: string, anchor: string)
    requires RangeArray(address).Some? && RangeArray(address).value.Addressable()
    requires !IsEmptyText(anchor) && Uncut(anchor)
    ensures RCtoA1(A1toRC(address, anchor), anchor) == Some(RangeArray(address).value.Normal().Source())
  {
    var g := RangeArray(address).value;
    NormalSource(g);
    if g.max.Some? {
      A1toRCShapeRange(address, anchor);
      RCtoA1OfRange(g.min, g.max.value, anchor);
    } else {
      A1toRCShapeCell(address, anchor);
      RCtoA1OfCell(g.min, anchor);
    }
  }

  lemma NormalSource(g: RangeInfo)
    requires g.Addressable()
    ensures g.max.Some? ==> g.Normal().Source() == g.min.Normal().Marked() + ":" + g.max.value.Normal().Marked()
    ensures g.max.None? ==> g.Normal().Source() == g.min.Normal().Marked()
  {
  }

  /** `RCtoA1` reads a corner rendered against an uncut anchor back. */
  lemma RCtoA1OfCell(c: Cell, anchor: string)
    requires c.Addressable() && Uncut(anchor)
    ensures RCtoA1(CornerRC(FieldsOf(Some(c)), MinFields(anchor)), anchor) == Some(c.Normal().Marked())
  {
    CornerChars(FieldsOf(Some(c)), MinFields(anchor));
    ShiftCorner(anchor, c);
  }

  /** `RCtoA1` reads two corners rendered against an uncut anchor back. */
  lemma RCtoA1OfRange(a: Cell, b: Cell, anchor: string)
    requires a.Addressable() && b.Addressable() && Uncut(anchor)
    ensures var at := MinFields(anchor);
      RCtoA1(CornerRC(FieldsOf(Some(a)), at) + ":" + CornerRC(FieldsOf(Some(b)), at), anchor)
      == Some(a.Normal().Marked() + ":" + b.Normal().Marked())
  {
    var at := MinFields(anchor);
    var x, y := CornerRC(FieldsOf(Some(a)), at), CornerRC(FieldsOf(Some(b)), at);
    CornerChars(FieldsOf(Some(a)), at);
    CornerChars(FieldsOf(Some(b)), at);
    ShiftCorner(anchor, a);
    ShiftCorner(anchor, b);
    RCtoA1Pair(x, y, anchor);
  }

  /** With a PHP-truthy anchor, `A1toRC` of a single cell renders that one corner. */
  lemma A1toRCShapeCell(address: string, anchor: string)
    requires RangeArray(address).Some? && RangeArray(address).value.max.None?
    requires !IsEmptyText(anchor)
    ensures A1toRC(address, anchor) == CornerRC(FieldsOf(Some(RangeArray(address).value.min)), MinFields(anchor))
  {
    var x := CornerRC(MinFields(address), MinFields(anchor));
    RangeColon(address);
    assert x + "" == x;
  }

  /** With a PHP-truthy anchor, `A1toRC` of a range renders both corners around a `:`. */
  lemma A1toRCShapeRange(address: string, anchor: string)
    requires RangeArray(address).Some? && RangeArray(address).value.max.Some?
    requires !IsEmptyText(anchor)
    ensures var g := RangeArray(address).value;
      A1toRC(address, anchor)
      == CornerRC(FieldsOf(Some(g.min)), MinFields(anchor)) + ":" + CornerRC(FieldsOf(Some(g.max.value)), MinFields(anchor))
  {
    RangeColon(address);
  }

  /** A parsed address has a `:` past its first character exactly when it has a max corner. */
  lemma RangeColon(address: string)
    requires RangeArray(address).Some?
    ensures (0 < Find(address, ':') < |address|) <==> RangeArray(address).value.max.Some?
  {
    var g := RangeArray(address).value;
    FindUpper(address);
    SourceColon(g);
  }

  /** The text of a descriptor has a `:` past its first character exactly when it has a max corner. */
  lemma SourceColon(g: RangeInfo)
    requires g.WellFormed()
    ensures (0 < Find(g.Source(), ':') < |g.Source()|) <==> g.max.Some?
  {
    MarkedChars(g.min);
    if g.max.Some? {
      FindAfter(g.min.Marked(), ':', g.max.value.Marked());
      assert g.Source() == g.min.Marked() + [':'] + g.max.value.Marked();
    } else {
      FindAbsent(g.Source(), ':');
    }
  }

  /** `RCtoA1` of two colon-free corners translates each against the anchor. */
  lemma RCtoA1Pair(x: string, y: string, anchor: string)
    requires x != [] && Find(x, ':') == |x| && Find(y, ':') == |y|
    ensures RCtoA1(x + ":" + y, anchor)
      == if ShiftAddressRC(anchor, x).Some? && ShiftAddressRC(anchor, y).Some?
         then Some(ShiftAddressRC(anchor, x).value + ":" + ShiftAddressRC(anchor, y).value)
         else None
  {
    var s := x + ":" + y;
    FindAfter(x, ':', y);
    assert s[..|x|] == x;
    assert s[|x| + 1..] == y;
    assert y[..|y|] == y;
  }
}
