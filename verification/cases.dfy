/**
  The examples of the helper's test suite and doc comments (tests/FastExcelHelperTest.php
  and Helper.php), each derived from the general properties of the model.
*/
module Cases {
  import opened Wrappers
  import opened Text
  import opened Columns
  import opened Addresses
  import opened Ranges
  import opened Relative
  import opened ColumnLists

  // ---------------------------------------------------------------------------
  // Columns and rows
  // ---------------------------------------------------------------------------

  /** `colNumber` and `colIndex` of `A`. */
  lemma ColumnNumberACase()
    ensures ColNumber("A") == 1 && ColIndex("A") == 0
  {
    ColNumberOfColLetter(1);
  }

  /** `colNumber` and `colIndex` of `az`: letters are read in any case. */
  lemma ColumnNumberAZCase()
    ensures ColNumber("az") == 52 && ColIndex("az") == 51
  {
    ColNumberIgnoresCase("az");
    LetterNumber("az", 52);
  }

  /** `colNumber` of `XFD`, the last column. */
  lemma ColumnNumberLastCase()
    ensures ColNumber("XFD") == MaxCol
  {
    LastLetters();
    ColNumberOfColLetter(MaxCol);
  }

  lemma LastLetters()
    ensures ColLetter(MaxCol) == "XFD"
  {
  }

  /** `colLetter` of 0, 1, the last column and the one past it. */
  lemma ColumnLetterCases()
    ensures ColLetter(0) == "" && ColLetter(1) == "A"
    ensures ColLetter(MaxCol) == "XFD" && ColLetter(MaxCol + 1) == ""
  {
  }

  /** `colLetterNext` of 2 and of `'2'`. */
  lemma ColLetterNextNumberCases()
    ensures ColLetterNext(ByNumber(2)) == "C"
    ensures ColLetterNext(ByText("2")) == "C"
  {
    ColLetterNextDigits(2);
    TwoText();
  }

  lemma TwoText()
    ensures NatToString(2) == "2"
  {
  }

  /** `colLetterNext` of `AB`. */
  lemma ColLetterNextLettersCase(s: string)
    requires s == "AB"
    ensures ColLetterNext(ByText(s)) == "AC"
  {
    Halves(s, 2);
    NextOf(s[..2], s[2..], 28, "AC");
  }

  /** `colLetterNext` of `FA34`: the row digits are kept. */
  lemma ColLetterNextCellCase(s: string)
    requires s == "FA34"
    ensures ColLetterNext(ByText(s)) == "FB34"
  {
    Halves(s, 2);
    NextOf(s[..2], s[2..], 157, "FB34");
  }

  /** Letters `l` of column `n` followed by digits `d` advance to column `n + 1`. */
  lemma NextOf(l: string, d: string, n: int, out: string)
    requires 1 <= n < MaxCol && ColLetter(n) == l && AllDigits(d)
    requires out == ColLetter(n + 1) + d
    ensures ColLetterNext(ByText(l + d)) == out
  {
    ColNumberOfColLetter(n);
    assert AllLetters(l);
    ColLetterNextSplit(l, d);
  }

  lemma CellAddressMarkers(row: int, col: int, l: string, d: string)
    requires row > 0 && col > 0 && ColLetter(col) == l && l != "" && NatToString(row) == d
    ensures CellAddress(row, col, false, None) == l + d
    ensures CellAddress(row, col, true, None) == "$" + l + "$" + d
    ensures CellAddress(row, col, true, Some(false)) == "$" + l + d
    ensures CellAddress(row, col, false, Some(true)) == l + "$" + d
    ensures CellAddress(row, col, false, Some(false)) == l + d
  {
  }

  /** `cellAddress(38, 42)` with each combination of markers. */
  lemma CellAddressCases(row: int, col: int)
    requires row == 38 && col == 42
    ensures CellAddress(row, col, false, None) == "AP38"
    ensures CellAddress(row, col, true, None) == "$AP$38"
    ensures CellAddress(row, col, true, Some(false)) == "$AP38"
    ensures CellAddress(row, col, false, Some(true)) == "AP$38"
    ensures CellAddress(row, col, false, Some(false)) == "AP38"
  {
    LettersAP(col);
    DigitsOf38(row);
    CellAddressMarkers(row, col, "AP", "38");
  }

  lemma LettersAP(col: int)
    requires col == 42
    ensures ColLetter(col) == "AP"
  {
  }

  lemma DigitsOf38(row: int)
    requires row == 38
    ensures NatToString(row) == "38"
  {
  }

  /** The last cell of the sheet. */
  lemma LastCellCase(row: int, col: int)
    requires row == MaxRow && col == MaxCol
    ensures CellAddress(row, col, false, None) == "XFD1048576"
  {
    LastLetters();
    DigitsOfMaxRow(row);
    PlainAddress(row, col, "XFD", "1048576", "XFD1048576");
  }

  /** An unmarked address is the column letters followed by the row digits. */
  lemma PlainAddress(row: int, col: int, l: string, d: string, out: string)
    requires row > 0 && col > 0 && ColLetter(col) == l && l != "" && NatToString(row) == d
    requires out == l + d
    ensures CellAddress(row, col, false, None) == out
  {
  }

  lemma DigitsOfMaxRow(row: int)
    requires row == MaxRow
    ensures NatToString(row) == "1048576"
  {
  }

  /** A corner written as markers, letters and digits has the row of its digits. */
  lemma RowOfCell(colAbs: bool, l: string, rowAbs: bool, d: string)
    requires l != [] && AllLetters(l) && IsNumeric(d)
    ensures RowNumber(Mark(colAbs) + l + Mark(rowAbs) + d) == ParseNat(d)
  {
    ParseCellOf(colAbs, l, rowAbs, d);
    CellNoColon(colAbs, l, rowAbs, d);
    RangeArraySingle(Mark(colAbs) + l + Mark(rowAbs) + d);
  }

  /** A range has the row of its first corner, whatever the second corner is. */
  lemma RowOfRange(colAbs: bool, l: string, rowAbs: bool, d: string, y: string)
    requires l != [] && AllLetters(l) && IsNumeric(d) && ParseCell(y).Some?
    ensures RowNumber(Mark(colAbs) + l + Mark(rowAbs) + d + ":" + y) == ParseNat(d)
  {
    ParseCellOf(colAbs, l, rowAbs, d);
    CellNoColon(colAbs, l, rowAbs, d);
    RangeArrayPair(Mark(colAbs) + l + Mark(rowAbs) + d, y);
  }

  /** Markers, letters and digits hold no `:`. */
  lemma CellNoColon(colAbs: bool, l: string, rowAbs: bool, d: string)
    requires AllLetters(l) && IsNumeric(d)
    ensures ':' !in Mark(colAbs) + l + Mark(rowAbs) + d
  {
    assert ':' !in l && ':' !in d;
  }

  /** `rowNumber` of digits. */
  lemma RowNumberDigitsCase(s: string)
    requires s == "1"
    ensures RowNumber(s) == 1
  {
    assert |s| == 1 && s[0] == '1';
    assert IsNumeric(s);
    assert s[..0] == [];
    assert ParseNat(s) == ParseNat(s[..0]) * 10 + DigitValue(s[0]);
  }

  /** `rowNumber` of text outside the grammar. */
  lemma RowNumberLetterCase(s: string)
    requires s == "a"
    ensures RowNumber(s) == 0
  {
    assert |s| == 1 && s[0] == 'a';
    assert !IsNumeric(s);
    assert RangeArray(s).None?;
  }

  /** `rowNumber` of one corner whose row is the digit `d`, worth `n`. */
  lemma RowCell(s: string, colAbs: bool, l: string, rowAbs: bool, d: string, n: nat)
    requires l != [] && AllLetters(l) && n < 10 && d == [DigitChar(n)]
    requires s == Mark(colAbs) + l + Mark(rowAbs) + d
    ensures RowNumber(s) == n
  {
    RowOfCell(colAbs, l, rowAbs, d);
    assert d[..0] == [];
  }

  /** `rowNumber` of `az2`. */
  lemma RowNumberLowerCellCase(s: string)
    requires s == "az2"
    ensures RowNumber(s) == 2
  {
    assert s == Mark(false) + "az" + Mark(false) + "2";
    RowCell(s, false, "az", false, "2", 2);
  }

  /** `rowNumber` of `AZ3`. */
  lemma RowNumberUpperCellCase(s: string)
    requires s == "AZ3"
    ensures RowNumber(s) == 3
  {
    assert s == Mark(false) + "AZ" + Mark(false) + "3";
    RowCell(s, false, "AZ", false, "3", 3);
  }

  /** `rowNumber` of `$az4`. */
  lemma RowNumberColumnMarkCase(s: string)
    requires s == "$az4"
    ensures RowNumber(s) == 4
  {
    assert s == Mark(true) + "az" + Mark(false) + "4";
    RowCell(s, true, "az", false, "4", 4);
  }

  /** `rowNumber` of `az$5`. */
  lemma RowNumberRowMarkCase(s: string)
    requires s == "az$5"
    ensures RowNumber(s) == 5
  {
    assert s == Mark(false) + "az" + Mark(true) + "5";
    RowCell(s, false, "az", true, "5", 5);
  }

  /** `rowNumber` of `$az$6`. */
  lemma RowNumberBothMarksCase(s: string)
    requires s == "$az$6"
    ensures RowNumber(s) == 6
  {
    assert s == Mark(true) + "az" + Mark(true) + "6";
    RowCell(s, true, "az", true, "6", 6);
  }

  /** `rowNumber` of a range whose first corner is `$az$` and the row `n`. */
  lemma RowRange(s: string, d: string, n: nat, colAbs: bool, l: string, rowAbs: bool, e: string)
    requires 0 < n && d == NatToString(n)
    requires l != [] && AllLetters(l) && IsNumeric(e)
    requires s == Mark(true) + "az" + Mark(true) + d + ":" + (Mark(colAbs) + l + Mark(rowAbs) + e)
    ensures RowNumber(s) == n
  {
    ParseCellOf(colAbs, l, rowAbs, e);
    LettersAZ();
    RowOfRange(true, "az", true, d, Mark(colAbs) + l + Mark(rowAbs) + e);
    ParseNatToString(n);
  }

  lemma LettersAZ()
    ensures "az" != [] && AllLetters("az")
  {
  }

  /** `rowNumber` of `$az$7:BI24`: the row of the first corner. */
  lemma RowNumberRange7Case(s: string)
    requires s == "$az$7:BI24"
    ensures RowNumber(s) == 7
  {
    RowRange(s, "7", 7, false, "BI", false, "24");
  }

  /** `rowNumber` of `$az$8:$BI24`: the row of the first corner. */
  lemma RowNumberRange8Case(s: string)
    requires s == "$az$8:$BI24"
    ensures RowNumber(s) == 8
  {
    RowRange(s, "8", 8, true, "BI", false, "24");
  }

  /** `rowNumber` of `$az$9:BI$24`: the row of the first corner. */
  lemma RowNumberRange9Case(s: string)
    requires s == "$az$9:BI$24"
    ensures RowNumber(s) == 9
  {
    RowRange(s, "9", 9, false, "BI", true, "24");
  }

  /** `rowNumber` of `$az$10:$BI$24`: the row of the first corner. */
  lemma RowNumberRange10Case(s: string)
    requires s == "$az$10:$BI$24"
    ensures RowNumber(s) == 10
  {
    RowRange(s, "10", 10, true, "BI", true, "24");
  }

  // ---------------------------------------------------------------------------
  // inRange and addToRange
  // ---------------------------------------------------------------------------

  /** An unmarked corner written as letters `l` and digits `d`. */
  lemma PlainCorner(x: string, l: string, d: string)
    requires l != [] && AllLetters(l) && IsNumeric(d) && x == l + d
    ensures ParseCell(x) == Some(Cell(false, UpperStr(l), false, d))
    ensures ':' !in x
  {
    assert x == Mark(false) + l + Mark(false) + d;
    ParseCellOf(false, l, false, d);
    assert forall j :: 0 <= j < |x| ==> x[j] != ':';
  }

  /**
    `inRange` of an unmarked cell and an unmarked two-corner range, in terms of
    the numbers of their letters and digits.
  */
  lemma InRangeByCorners(cell: string, range: string, cl: string, cd: string, al: string, ad: string, bl: string, bd: string)
    requires cl != [] && AllLetters(cl) && IsNumeric(cd) && cell == cl + cd
    requires al != [] && AllLetters(al) && IsNumeric(ad)
    requires bl != [] && AllLetters(bl) && IsNumeric(bd)
    requires range == al + ad + ":" + (bl + bd)
    ensures InRange(cell, range) == InRangeAsWritten(cell, range)
    ensures InRangeAsWritten(cell, range) <==>
      && ColNumber(UpperStr(al)) <= ColNumber(UpperStr(cl)) <= ColNumber(UpperStr(bl))
      && ParseNat(ad) <= ParseNat(cd) <= ParseNat(bd)
  {
    PlainCorner(cell, cl, cd);
    RangeArraySingle(cell);
    PlainCorner(al + ad, al, ad);
    PlainCorner(bl + bd, bl, bd);
    RangeArrayPair(al + ad, bl + bd);
    InRangeAgrees(cell, range);
    InRangeTwoCorners(cell, range);
  }

  /** The letters `l` name column `n`. */
  lemma LetterNumber(l: string, n: int)
    requires 1 <= n <= MaxCol && ColLetter(n) == UpperStr(l)
    ensures ColNumber(UpperStr(l)) == n
  {
    ColNumberOfColLetter(n);
  }

  /** A one-digit row. */
  lemma DigitNumber(d: string, n: nat)
    requires n < 10 && d == [DigitChar(n)]
    ensures IsNumeric(d) && ParseNat(d) == n
  {
    assert d[..0] == [];
  }

  /** The corners `B2` and `D4` of the range of the `inRange` tests. */
  lemma CornersB2D4()
    ensures ColNumber(UpperStr("B")) == 2 && ColNumber(UpperStr("D")) == 4
    ensures IsNumeric("2") && ParseNat("2") == 2 && IsNumeric("4") && ParseNat("4") == 4
  {
    LetterNumber("B", 2);
    LetterNumber("D", 4);
    DigitNumber("2", 2);
    DigitNumber("4", 4);
  }

  /** `inRange('c3', 'B2:D4')` is true, as written and corrected. */
  lemma InRangeC3Case(cell: string, range: string)
    requires cell == "c3" && range == "B2:D4"
    ensures InRangeAsWritten(cell, range) && InRange(cell, range)
  {
    CornersB2D4();
    LetterNumber("c", 3);
    DigitNumber("3", 3);
    InRangeByCorners(cell, range, "c", "3", "B", "2", "D", "4");
  }

  /** `inRange('B2', 'B2:D4')` is true, as written and corrected. */
  lemma InRangeB2Case(cell: string, range: string)
    requires cell == "B2" && range == "B2:D4"
    ensures InRangeAsWritten(cell, range) && InRange(cell, range)
  {
    CornersB2D4();
    LetterNumber("B", 2);
    DigitNumber("2", 2);
    InRangeByCorners(cell, range, "B", "2", "B", "2", "D", "4");
  }

  /** `inRange('D4', 'B2:D4')` is true, as written and corrected. */
  lemma InRangeD4Case(cell: string, range: string)
    requires cell == "D4" && range == "B2:D4"
    ensures InRangeAsWritten(cell, range) && InRange(cell, range)
  {
    CornersB2D4();
    LetterNumber("D", 4);
    DigitNumber("4", 4);
    InRangeByCorners(cell, range, "D", "4", "B", "2", "D", "4");
  }

  /** `inRange('A3', 'B2:D4')` is false, as written and corrected. */
  lemma InRangeA3Case(cell: string, range: string)
    requires cell == "A3" && range == "B2:D4"
    ensures !InRangeAsWritten(cell, range) && !InRange(cell, range)
  {
    CornersB2D4();
    LetterNumber("A", 1);
    DigitNumber("3", 3);
    InRangeByCorners(cell, range, "A", "3", "B", "2", "D", "4");
  }

  /** `inRange('B2', 'B2')`: false as written, true corrected. */
  lemma InRangeSelfCase(cell: string)
    requires cell == "B2"
    ensures !InRangeAsWritten(cell, cell) && InRange(cell, cell)
  {
    PlainCorner(cell, "B", "2");
    RangeArraySingle(cell);
    InRangeSingleAsWritten(cell, cell);
    InRangeSingleCorrected(cell);
  }

  /** `inRange('', '')`: true as written, false corrected. */
  lemma InRangeEmptyCase(cell: string)
    requires cell == ""
    ensures InRangeAsWritten(cell, cell) && !InRange(cell, cell)
  {
    assert RangeArray(cell).None?;
    InRangeUnparsedAsWritten(cell, cell);
    InRangeUnparsedCorrected(cell, cell);
  }

  /** `colLetterNext` of `A-1`, `1A` and `""` is "". */
  lemma ColLetterNextOtherCases(s: string, t: string)
    requires s == "A-1" && t == "1A"
    ensures ColLetterNext(ByText(s)) == "" && ColLetterNext(ByText(t)) == "" && ColLetterNext(ByText("")) == ""
  {
    assert !IsLetter('-') && !IsDigit('-') && !IsDigit('A') && !IsLetter('1');
    forall k | 0 < k <= |s|
      ensures !(AllLetters(s[..k]) && AllDigits(s[k..]))
    {
      if k < 2 {
        assert s[k..][1 - k] == '-';
      } else {
        assert s[..k][1] == '-';
      }
    }
    assert !IsDigit(s[1]);
    ColLetterNextOther(s);
    forall k | 0 < k <= |t|
      ensures !(AllLetters(t[..k]) && AllDigits(t[k..]))
    {
      assert t[..k][0] == '1';
    }
    assert !IsDigit(t[1]);
    ColLetterNextOther(t);
    ColLetterNextOther("");
  }

  /** The box of an unmarked single cell with column `col` and row `row`. */
  lemma CellBox(x: string, l: string, d: string, col: int, row: nat)
    requires l != [] && AllLetters(l) && IsNumeric(d) && x == l + d
    requires ColNumber(UpperStr(l)) == col && ParseNat(d) == row
    ensures RangeArray(x).Some? && BoxOf(RangeArray(x).value) == Box(col, row, col, row)
  {
    PlainCorner(x, l, d);
    RangeArraySingle(x);
  }

  /** The box of an unmarked two-corner range. */
  lemma PairBox(x: string, al: string, ad: string, bl: string, bd: string, b: Box)
    requires al != [] && AllLetters(al) && IsNumeric(ad)
    requires bl != [] && AllLetters(bl) && IsNumeric(bd)
    requires x == al + ad + ":" + (bl + bd)
    requires b == Box(ColNumber(UpperStr(al)), ParseNat(ad), ColNumber(UpperStr(bl)), ParseNat(bd))
    ensures RangeArray(x).Some? && BoxOf(RangeArray(x).value) == b
  {
    PlainCorner(al + ad, al, ad);
    PlainCorner(bl + bd, bl, bd);
    RangeArrayPair(al + ad, bl + bd);
  }

  /** A target whose first character is not `R` or `r` is an A1 target. */
  lemma NotRelative(t: string)
    requires |t| > 0 && t[0] != 'R' && t[0] != 'r'
    ensures !RelativeTarget(t)
  {
    assert UpperStr(t)[0] == ToUpper(t[0]);
  }

  /** `addToRange` once the boxes of the cell and the target are known: their bounding box `r`. */
  lemma AddToRangeOfBoxes(cell: string, target: string, a: Box, b: Box, r: Box)
    requires RangeArray(cell).Some? && BoxOf(RangeArray(cell).value) == a
    requires RangeArray(target).Some? && BoxOf(RangeArray(target).value) == b
    requires !RelativeTarget(target)
    requires r == Box(Min(a.minCol, b.minCol), Min(a.minRow, b.minRow), Max(a.maxCol, b.maxCol), Max(a.maxRow, b.maxRow))
    ensures AddToRange(cell, target) == r.Render()
  {
  }

  lemma RenderB2D5()
    ensures Box(2, 2, 4, 5).Render() == "B2:D5"
  {
  }

  lemma RenderB3D3()
    ensures Box(2, 3, 4, 3).Render() == "B3:D3"
  {
  }

  lemma RenderB3F5()
    ensures Box(2, 3, 6, 5).Render() == "B3:F5"
  {
  }

  /** A two-character cell: one letter naming column `col` and the digit of row `row`. */
  lemma LetterDigitBox(x: string, col: int, row: nat)
    requires |x| == 2 && 1 <= col <= MaxCol && 1 <= row <= 9
    requires IsLetter(x[0]) && ColLetter(col) == [ToUpper(x[0])]
    requires x[1] == DigitChar(row)
    ensures RangeArray(x).Some? && BoxOf(RangeArray(x).value) == Box(col, row, col, row)
  {
    var l, d := x[..1], x[1..];
    Halves(x, 1);
    DigitNumber(d, row);
    LetterNumber(l, col);
    CellBox(x, l, d, col, row);
  }

  /** A five-character range `L1 D1 : L2 D2` of one-letter columns and one-digit rows. */
  lemma LetterDigitPairBox(x: string, b: Box)
    requires |x| == 5 && x[2] == ':'
    requires 1 <= b.minCol <= MaxCol && 1 <= b.maxCol <= MaxCol && 1 <= b.minRow <= 9 && 1 <= b.maxRow <= 9
    requires IsLetter(x[0]) && ColLetter(b.minCol) == [ToUpper(x[0])] && x[1] == DigitChar(b.minRow)
    requires IsLetter(x[3]) && ColLetter(b.maxCol) == [ToUpper(x[3])] && x[4] == DigitChar(b.maxRow)
    ensures RangeArray(x).Some? && BoxOf(RangeArray(x).value) == b
  {
    var al, ad, bl, bd := x[..1], x[1..2], x[3..4], x[4..];
    PairPartsOf(x);
    DigitNumber(ad, b.minRow);
    DigitNumber(bd, b.maxRow);
    LetterNumber(al, b.minCol);
    LetterNumber(bl, b.maxCol);
    PairBox(x, al, ad, bl, bd, b);
  }

  lemma Halves(x: string, i: nat)
    requires i <= |x|
    ensures x == x[..i] + x[i..]
  {
  }

  lemma PairPartsOf(x: string)
    requires |x| == 5 && x[2] == ':'
    ensures x == x[..1] + x[1..2] + ":" + (x[3..4] + x[4..])
  {
  }

  /** The box of `b2`. */
  lemma BoxB2(x: string)
    requires x == "b2"
    ensures RangeArray(x).Some? && BoxOf(RangeArray(x).value) == Box(2, 2, 2, 2)
  {
    LetterDigitBox(x, 2, 2);
  }

  /** The box of `d5`, an A1 target. */
  lemma BoxD5(x: string)
    requires x == "d5"
    ensures RangeArray(x).Some? && BoxOf(RangeArray(x).value) == Box(4, 5, 4, 5)
    ensures !RelativeTarget(x)
  {
    LetterDigitBox(x, 4, 5);
    NotRelative(x);
  }

  /** The box of `C3`. */
  lemma BoxC3(x: string)
    requires x == "C3"
    ensures RangeArray(x).Some? && BoxOf(RangeArray(x).value) == Box(3, 3, 3, 3)
  {
    LetterDigitBox(x, 3, 3);
  }

  /** The box of `F5`. */
  lemma BoxF5(x: string)
    requires x == "F5"
    ensures RangeArray(x).Some? && BoxOf(RangeArray(x).value) == Box(6, 5, 6, 5)
  {
    LetterDigitBox(x, 6, 5);
  }

  /** The box of `B3:D3`, the target of two `addToRange` tests. */
  lemma BoxB3D3(x: string)
    requires x == "B3:D3"
    ensures RangeArray(x).Some? && BoxOf(RangeArray(x).value) == Box(2, 3, 4, 3)
    ensures !RelativeTarget(x)
  {
    LetterDigitPairBox(x, Box(2, 3, 4, 3));
    NotRelative(x);
  }

  /** `addToRange('b2', 'd5')` is `B2:D5`. */
  lemma AddToRangeCellsCase(cell: string, target: string)
    requires cell == "b2" && target == "d5"
    ensures RangeArray(cell).Some? && RangeArray(target).Some? && !RelativeTarget(target)
    ensures AddToRange(cell, target) == "B2:D5"
  {
    BoxB2(cell);
    BoxD5(target);
    AddToRangeOfBoxes(cell, target, Box(2, 2, 2, 2), Box(4, 5, 4, 5), Box(2, 2, 4, 5));
    RenderB2D5();
  }

  /** `addToRange('C3', 'B3:D3')` is the target itself. */
  lemma AddToRangeInsideCase(cell: string, target: string)
    requires cell == "C3" && target == "B3:D3"
    ensures RangeArray(cell).Some? && RangeArray(target).Some? && !RelativeTarget(target)
    ensures AddToRange(cell, target) == "B3:D3"
  {
    BoxC3(cell);
    BoxB3D3(target);
    AddToRangeOfBoxes(cell, target, Box(3, 3, 3, 3), Box(2, 3, 4, 3), Box(2, 3, 4, 3));
    RenderB3D3();
  }

  /** `addToRange('F5', 'B3:D3')` grows the target to `B3:F5`. */
  lemma AddToRangeGrowCase(cell: string, target: string)
    requires cell == "F5" && target == "B3:D3"
    ensures RangeArray(cell).Some? && RangeArray(target).Some? && !RelativeTarget(target)
    ensures AddToRange(cell, target) == "B3:F5"
  {
    BoxF5(cell);
    BoxB3D3(target);
    AddToRangeOfBoxes(cell, target, Box(6, 5, 6, 5), Box(2, 3, 4, 3), Box(2, 3, 6, 5));
    RenderB3F5();
  }

  // ---------------------------------------------------------------------------
  // rangeRelOffsets on texts no renderer writes
  // ---------------------------------------------------------------------------

  /** `R[0]C`: a bracketed `0` is a relative row offset 0; nothing is absolute. */
  lemma BracketZeroCase(s: string)
    requires s == "R[0]C"
    ensures RangeRelOffsets(s) == Some(RelOffsets(0, 0, 0, 0, NoFlags))
  {
    UpperNoLower(s);
    assert s == ['R'] + "[" + "0" + "]" + "C";
    ParseBracketPart('R', "0", "C");
    BareC();
    OneCorner(s, s, Axis(true, "0"), "C", Axis(false, ""));
    ReadZeros();
  }

  /** `R0C5`: row `0` is `empty`, so relative; column 5 is absolute. */
  lemma RowZeroCase(s: string)
    requires s == "R0C5"
    ensures RangeRelOffsets(s) == Some(RelOffsets(0, 5, 0, 5, AbsFlags(false, true, false, true)))
  {
    UpperNoLower(s);
    assert s == ['R'] + "0" + "C5";
    ParseNumberPart('R', "0", "C5");
    assert "C5" == ['C'] + "5" + [];
    ParseNumberPart('C', "5", []);
    OneCorner(s, s, Axis(false, "0"), "C5", Axis(false, "5"));
    ReadZeros();
    ReadFive();
  }

  /** `R007C`: leading zeros are read away; row 7 is absolute. */
  lemma LeadingZerosCase(s: string)
    requires s == "R007C"
    ensures RangeRelOffsets(s) == Some(RelOffsets(7, 0, 7, 0, AbsFlags(true, false, true, false)))
  {
    UpperNoLower(s);
    assert s == ['R'] + "007" + "C";
    ParseNumberPart('R', "007", "C");
    BareC();
    OneCorner(s, s, Axis(false, "007"), "C", Axis(false, ""));
    ReadZeros();
    ReadSeven();
  }

  /** `R-0C`: `-0` is not `empty`, so the row is absolute, with value 0. */
  lemma MinusZeroCase(s: string)
    requires s == "R-0C"
    ensures RangeRelOffsets(s) == Some(RelOffsets(0, 0, 0, 0, AbsFlags(true, false, true, false)))
  {
    UpperNoLower(s);
    assert s == ['R'] + "-0" + "C";
    ParseNumberPart('R', "-0", "C");
    BareC();
    OneCorner(s, s, Axis(false, "-0"), "C", Axis(false, ""));
    ReadZeros();
  }

  /** `r3c[-2]`: lower case is read upper-cased; row 3 absolute, column offset -2. */
  lemma LowerCaseCase(s: string)
    requires s == "r3c[-2]"
    ensures RangeRelOffsets(s) == Some(RelOffsets(3, -2, 3, -2, AbsFlags(true, false, true, false)))
  {
    var u := "R3C[-2]";
    UpperR3C(s, u);
    CornerR3C2(u, "C[-2]");
    OneCorner(s, u, Axis(false, "3"), "C[-2]", Axis(true, "-2"));
    ReadThreeTwo();
  }

  lemma CornerR3C2(u: string, t1: string)
    requires u == "R3C[-2]" && t1 == "C[-2]"
    ensures ParseAxis(u, 'R') == Some((Axis(false, "3"), t1))
    ensures ParseAxis(t1, 'C') == Some((Axis(true, "-2"), []))
  {
    assert u == ['R'] + "3" + t1;
    ParseNumberPart('R', "3", t1);
    assert t1 == ['C'] + "[" + "-2" + "]" + [];
    ParseBracketPart('C', "-2", []);
  }

  lemma UpperR3C(s: string, u: string)
    requires s == "r3c[-2]" && u == "R3C[-2]"
    ensures UpperStr(s) == u
  {
    assert ToUpper('r') == 'R' && ToUpper('c') == 'C';
  }

  /** `R[1]C[2]:R3C`: two corners, the second with an absolute row. */
  lemma TwoCornersCase(s: string)
    requires s == "R[1]C[2]:R3C"
    ensures RangeRelOffsets(s) == Some(RelOffsets(1, 2, 3, 0, AbsFlags(false, false, true, false)))
  {
    UpperNoLower(s);
    FirstCornerR1C2(s, "C[2]:R3C");
    SecondCornerR3C(":R3C");
    BareC();
    TwoCorners(s, s, Axis(true, "1"), "C[2]:R3C", Axis(true, "2"), ":R3C", Axis(false, "3"), "C", Axis(false, ""));
    ReadZeros();
    ReadOneTwoThree();
  }

  lemma FirstCornerR1C2(u: string, t1: string)
    requires u == "R[1]C[2]:R3C" && t1 == "C[2]:R3C"
    ensures ParseAxis(u, 'R') == Some((Axis(true, "1"), t1))
    ensures ParseAxis(t1, 'C') == Some((Axis(true, "2"), ":R3C"))
  {
    SplitR1(u, t1);
    RowR1(u, t1);
    SplitC2(t1, ":R3C");
    ParseBracketPart('C', "2", ":R3C");
  }

  lemma SplitR1(u: string, t1: string)
    requires u == "R[1]C[2]:R3C" && t1 == "C[2]:R3C"
    ensures u == ['R'] + "[" + "1" + "]" + t1
  {
  }

  lemma RowR1(u: string, t1: string)
    requires u == ['R'] + "[" + "1" + "]" + t1 && t1 != [] && t1[0] == 'C'
    ensures ParseAxis(u, 'R') == Some((Axis(true, "1"), t1))
  {
    ParseBracketPart('R', "1", t1);
  }

  lemma SplitC2(t1: string, t2: string)
    requires t1 == "C[2]:R3C" && t2 == ":R3C"
    ensures t1 == ['C'] + "[" + "2" + "]" + t2
  {
  }

  lemma SecondCornerR3C(t2: string)
    requires t2 == ":R3C"
    ensures t2 != [] && t2[0] == ':'
    ensures ParseAxis(t2[1..], 'R') == Some((Axis(false, "3"), "C"))
  {
    assert t2[1..] == ['R'] + "3" + "C";
    ParseNumberPart('R', "3", "C");
  }

  /** `R1` has no column and is outside the pattern. */
  lemma NoColumnCase(s: string)
    requires s == "R1"
    ensures RangeRelOffsets(s) == None
  {
    UpperNoLower(s);
    assert s == ['R'] + "1" + [];
    ParseNumberPart('R', "1", []);
    NoCorner([]);
  }

  /** `R1C1:` has no second corner after its `:` and is outside the pattern. */
  lemma TrailingColonCase(s: string)
    requires s == "R1C1:"
    ensures RangeRelOffsets(s) == None
  {
    UpperNoLower(s);
    CornerR1C1(s, "C1:");
    assert ":"[1..] == [];
    NoCorner([]);
  }

  lemma CornerR1C1(u: string, t1: string)
    requires u == "R1C1:" && t1 == "C1:"
    ensures ParseAxis(u, 'R') == Some((Axis(false, "1"), t1))
    ensures ParseAxis(t1, 'C') == Some((Axis(false, "1"), ":"))
  {
    SplitR1C1(u, t1);
    ParseNumberPart('R', "1", t1);
    SplitC1Colon(t1);
    ParseNumberPart('C', "1", ":");
  }

  lemma SplitR1C1(u: string, t1: string)
    requires u == "R1C1:" && t1 == "C1:"
    ensures u == ['R'] + "1" + t1
  {
  }

  lemma SplitC1Colon(t1: string)
    requires t1 == "C1:"
    ensures t1 == ['C'] + "1" + ":"
  {
  }

  lemma NoCorner(s: string)
    requires s == []
    ensures ParseAxis(s, 'R').None? && ParseAxis(s, 'C').None? && ParseCorner(s).None?
  {
  }

  /** A bare `C` at the end is column offset 0, relative. */
  lemma BareC()
    ensures ParseAxis("C", 'C') == Some((Axis(false, ""), []))
  {
    assert "C" == ['C'] + [];
    ParseBarePart('C', []);
  }

  /**
    A lone corner whose components were read as `r1` and `c1` gives their
    offsets and flags, twice.
  */
  lemma OneCorner(s: string, u: string, r1: Axis, t1: string, c1: Axis)
    requires UpperStr(s) == u
    requires ParseAxis(u, 'R') == Some((r1, t1)) && ParseAxis(t1, 'C') == Some((c1, []))
    ensures r1.Valid() && c1.Valid()
    ensures RangeRelOffsets(s)
      == Some(RelOffsets(r1.Offset(), c1.Offset(), r1.Offset(), c1.Offset(),
                         AbsFlags(r1.Absolute(), c1.Absolute(), r1.Absolute(), c1.Absolute())))
  {
    assert ParseCorner(u) == Some((r1, c1, []));
  }

  /** Two corners joined by `:`, read as `r1`, `c1` and `r2`, `c2`. */
  lemma TwoCorners(s: string, u: string, r1: Axis, t1: string, c1: Axis, t2: string, r2: Axis, t3: string, c2: Axis)
    requires UpperStr(s) == u
    requires ParseAxis(u, 'R') == Some((r1, t1)) && ParseAxis(t1, 'C') == Some((c1, t2))
    requires t2 != [] && t2[0] == ':'
    requires ParseAxis(t2[1..], 'R') == Some((r2, t3)) && ParseAxis(t3, 'C') == Some((c2, []))
    ensures r1.Valid() && c1.Valid() && r2.Valid() && c2.Valid()
    ensures RangeRelOffsets(s)
      == Some(RelOffsets(r1.Offset(), c1.Offset(), r2.Offset(), c2.Offset(),
                         AbsFlags(r1.Absolute(), c1.Absolute(), r2.Absolute(), c2.Absolute())))
  {
    assert ParseCorner(u) == Some((r1, c1, t2));
    assert ParseCorner(t2[1..]) == Some((r2, c2, []));
  }

  /** An empty number, `0` and `-0` all read as 0; `-0` alone is absolute. */
  lemma ReadZeros()
    ensures Axis(false, "").Valid() && Axis(false, "").Offset() == 0 && !Axis(false, "").Absolute()
    ensures Axis(false, "0").Valid() && Axis(false, "0").Offset() == 0 && !Axis(false, "0").Absolute()
    ensures Axis(true, "0").Valid() && Axis(true, "0").Offset() == 0 && !Axis(true, "0").Absolute()
    ensures Axis(false, "-0").Valid() && Axis(false, "-0").Offset() == 0 && Axis(false, "-0").Absolute()
  {
    assert ParseNat("0") == 0;
  }

  lemma ReadFive()
    ensures Axis(false, "5").Valid() && Axis(false, "5").Offset() == 5 && Axis(false, "5").Absolute()
  {
    assert ParseNat("5") == 5;
  }

  lemma ReadSeven()
    ensures Axis(false, "007").Valid() && Axis(false, "007").Offset() == 7 && Axis(false, "007").Absolute()
  {
    assert ParseNat("0") == 0;
    assert "00"[..1] == "0";
    assert ParseNat("00") == 0;
    assert "007"[..2] == "00";
  }

  lemma ReadThreeTwo()
    ensures Axis(false, "3").Valid() && Axis(false, "3").Offset() == 3 && Axis(false, "3").Absolute()
    ensures Axis(true, "-2").Valid() && Axis(true, "-2").Offset() == -2 && !Axis(true, "-2").Absolute()
  {
    assert ParseNat("3") == 3 && ParseNat("2") == 2;
  }

  lemma ReadOneTwoThree()
    ensures Axis(true, "1").Valid() && Axis(true, "1").Offset() == 1 && !Axis(true, "1").Absolute()
    ensures Axis(true, "2").Valid() && Axis(true, "2").Offset() == 2 && !Axis(true, "2").Absolute()
    ensures Axis(false, "3").Valid() && Axis(false, "3").Offset() == 3 && Axis(false, "3").Absolute()
  {
    assert ParseNat("1") == 1 && ParseNat("2") == 2 && ParseNat("3") == 3;
  }

  // ---------------------------------------------------------------------------
  // A1toRC, RCtoA1 and shiftAddressRC
  // ---------------------------------------------------------------------------

  /** The fields of an unmarked single-cell anchor, which is truthy and uncut. */
  lemma AnchorFields(anchor: string, l: string, d: string, col: int, row: nat)
    requires l != [] && AllLetters(l) && IsNumeric(d) && anchor == l + d
    requires ColNumber(UpperStr(l)) == col && ParseNat(d) == row
    ensures MinFields(anchor) == Fields(true, col, row, false, false)
    ensures RangeArray(anchor).Some? && RangeArray(anchor).value.max.None?
    ensures !IsEmptyText(anchor) && Uncut(anchor)
  {
    PlainCorner(anchor, l, d);
    RangeArraySingle(anchor);
    SingleCellText(anchor);
  }

  /** The anchor `B3` (or `b3`) of the doc examples. */
  lemma AnchorB3(anchor: string)
    requires anchor == "B3" || anchor == "b3"
    ensures MinFields(anchor) == Fields(true, 2, 3, false, false)
    ensures RangeArray(anchor).Some? && RangeArray(anchor).value.max.None?
    ensures !IsEmptyText(anchor) && Uncut(anchor)
  {
    var l, d := anchor[..1], anchor[1..];
    Halves(anchor, 1);
    LetterNumber(l, 2);
    DigitNumber(d, 3);
    AnchorFields(anchor, l, d, 2, 3);
  }

  /** The fields of a well-formed corner with column `col` and row `row`. */
  lemma CornerFields(c: Cell, col: int, row: nat)
    requires c.WellFormed() && c.ColNum() == col && c.RowNum() == row
    ensures FieldsOf(Some(c)) == Fields(true, col, row, c.colAbs, c.rowAbs)
  {
  }

  /** An R1C1 part with a bracketed offset, and one with an absolute number. */
  lemma RelPartTexts(head: char, value: int, offset: int, t: string)
    requires offset != 0 && value != 0
    ensures IntToString(offset) == t ==> RelPart(head, false, value, offset) == [head] + "[" + t + "]"
    ensures IntToString(value) == t ==> RelPart(head, true, value, offset) == [head] + t
    ensures RelPart(head, false, value, 0) == [head]
  {
  }

  /** `A1toRC` of an address that parses as the single corner `c`. */
  lemma A1toRCOfCell(address: string, anchor: string, c: Cell, at: Fields, rc: string)
    requires RangeArray(address) == Some(RangeInfo(c, None))
    requires !IsEmptyText(anchor) && MinFields(anchor) == at
    requires CornerRC(FieldsOf(Some(c)), at) == rc
    ensures A1toRC(address, anchor) == rc
  {
    A1toRCShapeCell(address, anchor);
  }

  /** The corner `D8` against the anchor `B3` is five rows down and two columns right. */
  lemma CornerD8(c: Cell, at: Fields)
    requires c == Cell(false, "D", false, "8") && at == Fields(true, 2, 3, false, false)
    ensures c.Addressable()
    ensures CornerRC(FieldsOf(Some(c)), at) == "R[5]C[2]"
    ensures c.Normal().Marked() == "D8"
  {
    LetterNumber("D", 4);
    DigitNumber("8", 8);
    CornerFields(c, 4, 8);
    RelPartTexts('R', 8, 5, "5");
    RelPartTexts('C', 4, 2, "2");
    NormalMarked(c, 8);
  }

  /** `A1toRC('D8', 'b3')` is `R[5]C[2]`. */
  lemma A1toRCCellCase(address: string, anchor: string)
    requires address == "D8" && anchor == "b3"
    ensures A1toRC(address, anchor) == "R[5]C[2]"
  {
    var c, at := Cell(false, "D", false, "8"), Fields(true, 2, 3, false, false);
    AnchorB3(anchor);
    PlainCorner(address, "D", "8");
    UpperNoLower("D");
    RangeArraySingle(address);
    CornerD8(c, at);
    A1toRCOfCell(address, anchor, c, at, "R[5]C[2]");
  }

  /** `A1toRC` of an address that parses as the two corners `a` and `b`. */
  lemma A1toRCOfPair(address: string, anchor: string, a: Cell, b: Cell, at: Fields, x: string, y: string)
    requires RangeArray(address) == Some(RangeInfo(a, Some(b)))
    requires !IsEmptyText(anchor) && MinFields(anchor) == at
    requires CornerRC(FieldsOf(Some(a)), at) == x && CornerRC(FieldsOf(Some(b)), at) == y
    ensures A1toRC(address, anchor) == x + ":" + y
  {
    A1toRCShapeRange(address, anchor);
  }

  /** The corner `B3` against the anchor `B3` is the anchor itself, `RC`. */
  lemma CornerB3(c: Cell, at: Fields)
    requires c == Cell(false, "B", false, "3") && at == Fields(true, 2, 3, false, false)
    ensures CornerRC(FieldsOf(Some(c)), at) == "RC"
  {
    LetterNumber("B", 2);
    DigitNumber("3", 3);
    CornerFields(c, 2, 3);
    RelPartTexts('R', 3, 1, "1");
    RelPartTexts('C', 2, 1, "1");
  }

  /** An unmarked two-corner range written in upper case. */
  lemma PlainPair(x: string, al: string, ad: string, bl: string, bd: string, a: Cell, b: Cell)
    requires al != [] && AllUpper(al) && IsNumeric(ad)
    requires bl != [] && AllUpper(bl) && IsNumeric(bd)
    requires x == al + ad + ":" + (bl + bd)
    requires a == Cell(false, al, false, ad) && b == Cell(false, bl, false, bd)
    ensures RangeArray(x) == Some(RangeInfo(a, Some(b)))
  {
    PlainCorner(al + ad, al, ad);
    PlainCorner(bl + bd, bl, bd);
    UpperNoLower(al);
    UpperNoLower(bl);
    RangeArrayPair(al + ad, bl + bd);
  }

  /** The range `B3:D8`: two unmarked corners. */
  lemma PairB3D8(address: string, a: Cell, b: Cell)
    requires address == "B3:D8"
    requires a == Cell(false, "B", false, "3") && b == Cell(false, "D", false, "8")
    ensures RangeArray(address) == Some(RangeInfo(a, Some(b)))
  {
    PairPartsOf(address);
    PlainPair(address, "B", "3", "D", "8", a, b);
  }

  lemma JoinRC()
    ensures "RC" + ":" + "R[5]C[2]" == "RC:R[5]C[2]"
  {
  }

  /** `A1toRC('B3:D8', 'b3')` is `RC:R[5]C[2]`. */
  lemma A1toRCRangeCase(address: string, anchor: string)
    requires address == "B3:D8" && anchor == "b3"
    ensures A1toRC(address, anchor) == "RC:R[5]C[2]"
  {
    var a, b, at := Cell(false, "B", false, "3"), Cell(false, "D", false, "8"), Fields(true, 2, 3, false, false);
    AnchorB3(anchor);
    PairB3D8(address, a, b);
    CornerB3(a, at);
    CornerD8(b, at);
    A1toRCOfPair(address, anchor, a, b, at, "RC", "R[5]C[2]");
    JoinRC();
  }

  /** `RCtoA1` of one rendered corner, once its text and its normal form are known. */
  lemma RCtoA1Case(rc: string, anchor: string, c: Cell, at: Fields, out: string)
    requires c.Addressable() && Uncut(anchor) && MinFields(anchor) == at
    requires CornerRC(FieldsOf(Some(c)), at) == rc && c.Normal().Marked() == out
    ensures RCtoA1(rc, anchor) == Some(out)
  {
    RCtoA1OfCell(c, anchor);
  }

  /** The normal text of a corner with a one-digit row `n`. */
  lemma NormalMarked(c: Cell, n: nat)
    requires c.WellFormed() && n < 10 && c.digits == [DigitChar(n)]
    ensures c.Normal().Marked() == c.Marked()
  {
    DigitNumber(c.digits, n);
  }

  /** `RCtoA1('R[5]C[2]', 'B3')` is `D8`. */
  lemma RCtoA1RelativeCase(rc: string, anchor: string)
    requires rc == "R[5]C[2]" && anchor == "B3"
    ensures RCtoA1(rc, anchor) == Some("D8")
  {
    var c, at := Cell(false, "D", false, "8"), Fields(true, 2, 3, false, false);
    AnchorB3(anchor);
    CornerD8(c, at);
    RCtoA1Case(rc, anchor, c, at, "D8");
  }

  /** The corner `D$5` against the anchor `B3`: an absolute row and a column offset. */
  lemma CornerDRow5(c: Cell, at: Fields)
    requires c == Cell(false, "D", true, "5") && at == Fields(true, 2, 3, false, false)
    ensures c.Addressable()
    ensures CornerRC(FieldsOf(Some(c)), at) == "R5C[2]"
    ensures c.Normal().Marked() == "D$5"
  {
    LetterNumber("D", 4);
    DigitNumber("5", 5);
    CornerFields(c, 4, 5);
    RelPartTexts('R', 5, 2, "5");
    RelPartTexts('C', 4, 2, "2");
    NormalMarked(c, 5);
  }

  /** `RCtoA1('R5C[2]', 'B3')` is `D$5`. */
  lemma RCtoA1RowCase(rc: string, anchor: string)
    requires rc == "R5C[2]" && anchor == "B3"
    ensures RCtoA1(rc, anchor) == Some("D$5")
  {
    var c, at := Cell(false, "D", true, "5"), Fields(true, 2, 3, false, false);
    AnchorB3(anchor);
    CornerDRow5(c, at);
    RCtoA1Case(rc, anchor, c, at, "D$5");
  }

  /** The corner `$B$5` against the anchor `B3`: both coordinates absolute. */
  lemma CornerB5Absolute(c: Cell, at: Fields)
    requires c == Cell(true, "B", true, "5") && at == Fields(true, 2, 3, false, false)
    ensures c.Addressable()
    ensures CornerRC(FieldsOf(Some(c)), at) == "R5C2"
    ensures c.Normal().Marked() == "$B$5"
  {
    LetterNumber("B", 2);
    DigitNumber("5", 5);
    CornerFields(c, 2, 5);
    RelPartTexts('R', 5, 2, "5");
    RelPartTexts('C', 2, 1, "2");
    NormalMarked(c, 5);
  }

  /** `RCtoA1('R5C2', 'B3')` is `$B$5`. */
  lemma RCtoA1AbsoluteCase(rc: string, anchor: string)
    requires rc == "R5C2" && anchor == "B3"
    ensures RCtoA1(rc, anchor) == Some("$B$5")
  {
    var c, at := Cell(true, "B", true, "5"), Fields(true, 2, 3, false, false);
    AnchorB3(anchor);
    CornerB5Absolute(c, at);
    RCtoA1Case(rc, anchor, c, at, "$B$5");
  }

  /** The corner `$C$2` against the anchor `A1`: `R2C3`. */
  lemma CornerC2Absolute(c: Cell, at: Fields)
    requires c == Cell(true, "C", true, "2") && at == Fields(true, 1, 1, false, false)
    ensures c.Addressable()
    ensures CornerRC(FieldsOf(Some(c)), at) == "R2C3"
    ensures c.Normal().Marked() == "$C$2"
  {
    LetterNumber("C", 3);
    DigitNumber("2", 2);
    CornerFields(c, 3, 2);
    RelPartTexts('R', 2, 1, "2");
    RelPartTexts('C', 3, 2, "3");
    NormalMarked(c, 2);
  }

  /** `shiftAddressRC` of an anchor by one rendered corner, once its text and normal form are known. */
  lemma ShiftRCCase(cell: string, rc: string, c: Cell, at: Fields, out: string)
    requires c.Addressable() && Uncut(cell) && MinFields(cell) == at
    requires CornerRC(FieldsOf(Some(c)), at) == rc && c.Normal().Marked() == out
    ensures ShiftAddressRC(cell, rc) == Some(out)
  {
    ShiftCorner(cell, c);
  }

  /** The anchor `A1`. */
  lemma AnchorA1(anchor: string)
    requires anchor == "A1"
    ensures MinFields(anchor) == Fields(true, 1, 1, false, false) && Uncut(anchor)
  {
    LetterNumber("A", 1);
    DigitNumber("1", 1);
    AnchorFields(anchor, "A", "1", 1, 1);
  }

  /**
    `shiftAddressRC('A1', 'R2C3')`: absolute `R2C3` replaces both coordinates,
    giving `$C$2` (the doc comment at Helper.php:483 says `D3`).
  */
  lemma ShiftAddressRCCase(cell: string, rc: string)
    requires cell == "A1" && rc == "R2C3"
    ensures ShiftAddressRC(cell, rc) == Some("$C$2")
  {
    var c, at := Cell(true, "C", true, "2"), Fields(true, 1, 1, false, false);
    AnchorA1(cell);
    CornerC2Absolute(c, at);
    ShiftRCCase(cell, rc, c, at, "$C$2");
  }

  // ---------------------------------------------------------------------------
  // colLetterRange
  // ---------------------------------------------------------------------------

  /**
    `[0, 1, 2]` gives `A, B, C`; with base 1 it gives `'', A, B`. Number keys
    never reach the character classes, so both readings agree.
  */
  lemma NumberKeyCases()
    ensures ColLetterRange(KeyList([Num(0), Num(1), Num(2)]), 0) == Some(["A", "B", "C"])
    ensures ColLetterRange(KeyList([Num(0), Num(1), Num(2)]), 1) == Some(["", "A", "B"])
    ensures ColLetterRangeAsWritten(KeyList([Num(0), Num(1), Num(2)]), 0) == Some(["A", "B", "C"])
    ensures ColLetterRangeAsWritten(KeyList([Num(0), Num(1), Num(2)]), 1) == Some(["", "A", "B"])
  {
    var items := [Num(0), Num(1), Num(2)];
    assert ColLetter(1) == "A" && ColLetter(2) == "B" && ColLetter(3) == "C" && ColLetter(0) == "";
    var r0 := NumberList(items, 0).value;
    assert r0 == [r0[0], r0[1], r0[2]];
    var r1 := NumberList(items, 1).value;
    assert r1 == [r1[0], r1[1], r1[2]];
  }

  /** The columns 2 to 5 are `B, C, D, E`. */
  lemma SpanBE()
    ensures Span(2, 5) == ["B", "C", "D", "E"]
  {
    var r := Span(2, 5);
    assert ColLetter(2) == "B" && ColLetter(3) == "C" && ColLetter(4) == "D" && ColLetter(5) == "E";
    assert r == [r[0], r[1], r[2], r[3]];
  }

  lemma SpanBEF()
    ensures Span(2, 5) + ["F"] == ["B", "C", "D", "E", "F"]
  {
    SpanBE();
  }

  /** A trimmed piece of column letters is its upper-cased letters. */
  lemma LetterPiece(p: string, l: string)
    requires l != [] && AllUpper(l) && Trim(p) == l
    ensures PieceRange(Trim(p), true) == Some([l])
  {
    assert AllLetters(l);
    LettersToken(l, true);
    UpperNoLower(l);
    PieceText(l, true);
  }

  /** One upper-case letter is the column of that letter. */
  lemma LoneLetter(p: string, c: char)
    requires IsUpper(c) && p == [c]
    ensures ',' !in p && Trim(p) == [c]
    ensures PieceRange(Trim(p), true) == Some([[c]])
  {
    TrimLetter(p, c);
    NoCommaLetter(p, c);
    LetterPiece(p, [c]);
  }

  /** One upper-case letter after a blank is the column of that letter. */
  lemma SpacedLetter(p: string, c: char)
    requires IsUpper(c) && p == [' ', c]
    ensures ',' !in p && Trim(p) == [c]
    ensures PieceRange(Trim(p), true) == Some([[c]])
  {
    SpacedTrim(p, c);
    NoCommaLetter(p, c);
    LetterPiece(p, [c]);
  }

  lemma SpacedTrim(p: string, c: char)
    requires IsUpper(c) && p == [' ', c]
    ensures Trim(p) == [c]
  {
    TrimStartBlank(p, c);
    TrimLetter([c], c);
  }

  lemma NoCommaLetter(p: string, c: char)
    requires IsUpper(c) && (p == [c] || p == [' ', c])
    ensures ',' !in p
  {
    if p == [c] {
      assert forall j :: 0 <= j < |p| ==> p[j] == c;
    } else {
      assert forall j :: 0 <= j < |p| ==> p[j] == ' ' || p[j] == c;
    }
  }

  lemma TrimLetter(p: string, c: char)
    requires IsUpper(c) && p == [c]
    ensures TrimStart(p) == p && TrimEnd(p) == p && Trim(p) == p
  {
    assert !IsBlank(p[0]);
  }

  lemma TrimStartBlank(p: string, c: char)
    requires IsUpper(c) && p == [' ', c]
    ensures TrimStart(p) == [c] && Trim(p) == Trim([c])
  {
    assert p[1..] == [c];
  }

  /** A comma list of two trimmed-to-column pieces, the first non-empty, gives both columns' letters. */
  lemma PairText(p: string, q: string, a: seq<string>, b: seq<string>)
    requires p != [] && ',' !in p && ',' !in q
    requires PieceRange(Trim(p), true) == Some(a) && PieceRange(Trim(q), true) == Some(b)
    ensures ColLetterRange(KeyText(Implode([p, q], ',')), 0) == Some(a + b)
  {
    NoCommaPair(p, q);
    ImplodeMany([p, q], true);
    PiecesPair(p, q, a, b, true);
  }

  lemma NoCommaPair(p: string, q: string)
    requires ',' !in p && ',' !in q
    ensures forall k :: 0 <= k < |[p, q]| ==> ',' !in [p, q][k]
  {
    var ws := [p, q];
    forall k | 0 <= k < |ws|
      ensures ',' !in ws[k]
    {
      if k != 0 {
        assert k == 1;
      }
    }
  }

  /** A comma list of three pieces, each trimmed to one column, gives the three columns. */
  lemma TripleText(ws: seq<string>, rs: seq<string>)
    requires |ws| == 3 && |rs| == 3 && ws[0] != []
    requires ',' !in ws[0] && ',' !in ws[1] && ',' !in ws[2]
    requires PieceRange(Trim(ws[0]), true) == Some([rs[0]])
    requires PieceRange(Trim(ws[1]), true) == Some([rs[1]])
    requires PieceRange(Trim(ws[2]), true) == Some([rs[2]])
    ensures ColLetterRange(KeyText(Implode(ws, ',')), 0) == Some(rs)
  {
    EachOfThree(ws, rs);
    ImplodeMany(ws, true);
    PiecesEach(ws, rs, true);
  }

  lemma EachOfThree(ws: seq<string>, rs: seq<string>)
    requires |ws| == 3 && |rs| == 3
    requires ',' !in ws[0] && ',' !in ws[1] && ',' !in ws[2]
    requires PieceRange(Trim(ws[0]), true) == Some([rs[0]])
    requires PieceRange(Trim(ws[1]), true) == Some([rs[1]])
    requires PieceRange(Trim(ws[2]), true) == Some([rs[2]])
    ensures forall k :: 0 <= k < |ws| ==> ',' !in ws[k]
    ensures forall k :: 0 <= k < |ws| ==> PieceRange(Trim(ws[k]), true) == Some([rs[k]])
  {
    forall k | 0 <= k < |ws|
      ensures ',' !in ws[k] && PieceRange(Trim(ws[k]), true) == Some([rs[k]])
    {
      if k != 0 && k != 1 {
        assert k == 2;
      }
    }
  }

  /** `B, E, F` gives `B`, `E`, `F`, as written and with `0` admitted. */
  lemma CommaCase()
    ensures ColLetterRange(KeyText("B, E, F"), 0) == Some(["B", "E", "F"])
    ensures ColLetterRangeAsWritten(KeyText("B, E, F"), 0) == Some(["B", "E", "F"])
  {
    LetterRangeAgrees(KeyText("B, E, F"), 0);
    var ws := ["B", " E", " F"];
    JoinBEF(ws);
    PiecesBEF(ws, ["B", "E", "F"]);
  }

  lemma JoinBEF(ws: seq<string>)
    requires ws == ["B", " E", " F"]
    ensures Implode(ws, ',') == "B, E, F"
  {
    assert Implode(ws[2..], ',') == " F";
    assert Implode(ws[1..], ',') == " E" + [','] + " F";
  }

  lemma PiecesBEF(ws: seq<string>, rs: seq<string>)
    requires ws == ["B", " E", " F"] && rs == ["B", "E", "F"]
    ensures ColLetterRange(KeyText(Implode(ws, ',')), 0) == Some(rs)
  {
    LoneLetter(ws[0], 'B');
    SpacedLetter(ws[1], 'E');
    SpacedLetter(ws[2], 'F');
    TripleText(ws, rs);
  }

  /** The columns of `B` and `E`, also followed by row digits. */
  lemma ColumnsBE()
    ensures ColNumber("B") == 2 && ColNumber("E") == 5
    ensures ColNumber("B1") == 2 && ColNumber("E8") == 5
  {
  }

  /** `B-E` is the span from column `colNumber('B')` to column `colNumber('E')`. */
  lemma DashBE(p: string)
    requires p == "B-E"
    ensures ',' !in p && p != [] && Trim(p) == p && !IsNumeric(p)
    ensures PieceRange(Trim(p), true) == Some(Span(2, 5))
  {
    TrimBE(p);
    SpanBEPiece(p);
  }

  lemma SpanBEPiece(p: string)
    requires p == "B-E"
    ensures PieceRange(p, true) == Some(Span(2, 5))
  {
    DashJoinBE(p);
    LettersBE();
    DashPiece(p, "B", "E", 2, 5);
  }

  lemma DashJoinBE(p: string)
    requires p == "B-E"
    ensures p == "B" + "-" + "E"
  {
  }

  lemma LettersBE()
    ensures "B" != [] && '-' !in "B" && ',' !in "B" && '-' !in "E" && ',' !in "E"
    ensures ColNumber("B") == 2 && ColNumber("E") == 5
  {
    ColumnsBE();
  }

  lemma TrimBE(p: string)
    requires p == "B-E"
    ensures Trim(p) == p && !IsNumeric(p) && ',' !in p && p != []
  {
    assert !IsBlank(p[0]) && !IsBlank(p[|p| - 1]) && !IsDigit(p[0]);
  }

  /** Text `X-Y` whose halves name columns `lo` and `hi` is the span between them. */
  lemma DashPiece(s: string, x: string, y: string, lo: int, hi: int)
    requires s == x + "-" + y
    requires x != [] && '-' !in x && ',' !in x && '-' !in y && ',' !in y
    requires ColNumber(x) == lo && ColNumber(y) == hi
    ensures PieceRange(s, true) == Some(Span(lo, hi))
  {
    SpanText(x, y, true);
    NoCommaDash(x, y);
    PieceText(s, true);
  }

  lemma NoCommaDash(x: string, y: string)
    requires ',' !in x && ',' !in y
    ensures ',' !in x + "-" + y
  {
  }

  /** `B-E, F` gives `B, C, D, E, F`, as written and with `0` admitted. */
  lemma DashCommaCase()
    ensures ColLetterRange(KeyText("B-E, F"), 0) == Some(["B", "C", "D", "E", "F"])
    ensures ColLetterRangeAsWritten(KeyText("B-E, F"), 0) == Some(["B", "C", "D", "E", "F"])
  {
    LetterRangeAgrees(KeyText("B-E, F"), 0);
    JoinDashComma(["B-E", " F"]);
    DashCommaPieces("B-E", " F");
    SpanBEF();
  }

  lemma JoinDashComma(ws: seq<string>)
    requires ws == ["B-E", " F"]
    ensures Implode(ws, ',') == "B-E, F"
  {
  }

  lemma DashCommaPieces(p: string, q: string)
    requires p == "B-E" && q == " F"
    ensures ColLetterRange(KeyText(Implode([p, q], ',')), 0) == Some(Span(2, 5) + ["F"])
  {
    DashBE(p);
    SpacedLetter(q, 'F');
    PairText(p, q, Span(2, 5), ["F"]);
  }

  /** `['B-E', 'F']` gives `B, C, D, E, F`, like the text `B-E,F`, as written and with `0` admitted. */
  lemma DashListCase()
    ensures ColLetterRange(KeyList([Str("B-E"), Str("F")]), 0) == Some(["B", "C", "D", "E", "F"])
    ensures ColLetterRangeAsWritten(KeyList([Str("B-E"), Str("F")]), 0) == Some(["B", "C", "D", "E", "F"])
  {
    ZeroFreeDashList([Str("B-E"), Str("F")]);
    LetterRangeAgrees(KeyList([Str("B-E"), Str("F")]), 0);
    WordsDash(["B-E", "F"]);
    DashListPieces("B-E", "F");
    SpanBEF();
  }

  lemma ZeroFreeDashList(items: seq<Key>)
    requires items == [Str("B-E"), Str("F")]
    ensures ZeroFree(KeyList(items))
  {
    forall k | 0 <= k < |items|
      ensures items[k].Str? ==> '0' !in items[k].s
    {
      if k != 0 {
        assert k == 1;
      }
    }
  }

  lemma WordsDash(ws: seq<string>)
    requires ws == ["B-E", "F"]
    ensures Words(ws) == [Str("B-E"), Str("F")]
  {
  }

  lemma DashListPieces(p: string, q: string)
    requires p == "B-E" && q == "F"
    ensures ColLetterRange(KeyList(Words([p, q])), 0) == Some(Span(2, 5) + ["F"])
  {
    DashBE(p);
    LoneLetter(q, 'F');
    PairWords(p, q, Span(2, 5), ["F"]);
  }

  /** An array of two trimmed, comma-free texts expands like the two joined with a comma. */
  lemma PairWords(p: string, q: string, a: seq<string>, b: seq<string>)
    requires p != [] && !IsNumeric(p)
    requires ',' !in p && ',' !in q && Trim(p) == p && Trim(q) == q
    requires PieceRange(Trim(p), true) == Some(a) && PieceRange(Trim(q), true) == Some(b)
    ensures ColLetterRange(KeyList(Words([p, q])), 0) == Some(a + b)
  {
    WordsOfPair(p, q);
    PairText(p, q, a, b);
  }

  lemma WordsOfPair(p: string, q: string)
    requires p != [] && !IsNumeric(p)
    requires ',' !in p && ',' !in q && Trim(p) == p && Trim(q) == q
    ensures ColLetterRange(KeyList(Words([p, q])), 0) == ColLetterRange(KeyText(Implode([p, q], ',')), 0)
  {
    TrimmedPair(p, q);
    WordsAsText([p, q], true);
  }

  lemma TrimmedPair(p: string, q: string)
    requires ',' !in p && ',' !in q && Trim(p) == p && Trim(q) == q
    ensures forall k :: 0 <= k < |[p, q]| ==> ',' !in [p, q][k] && Trim([p, q][k]) == [p, q][k]
  {
    var ws := [p, q];
    forall k | 0 <= k < |ws|
      ensures ',' !in ws[k] && Trim(ws[k]) == ws[k]
    {
      if k != 0 {
        assert k == 1;
      }
    }
  }

  /** `B1-E8` gives `B, C, D, E`, as written and with `0` admitted. */
  lemma DashCellsCase()
    ensures ColLetterRange(KeyText("B1-E8"), 0) == Some(["B", "C", "D", "E"])
    ensures ColLetterRangeAsWritten(KeyText("B1-E8"), 0) == Some(["B", "C", "D", "E"])
  {
    LetterRangeAgrees(KeyText("B1-E8"), 0);
    DashCells("B1-E8", "B1", "E8");
    SpanBE();
  }

  lemma DashCells(s: string, x: string, y: string)
    requires s == "B1-E8" && x == "B1" && y == "E8"
    ensures ColLetterRange(KeyText(s), 0) == Some(Span(2, 5))
  {
    DashJoin(s, x, y);
    CellsBE(x, y);
    SpanColumnsText(s, x, y, 2, 5);
  }

  lemma DashJoin(s: string, x: string, y: string)
    requires s == "B1-E8" && x == "B1" && y == "E8"
    ensures s == x + "-" + y
  {
  }

  lemma CellsBE(x: string, y: string)
    requires x == "B1" && y == "E8"
    ensures x != [] && '-' !in x && ',' !in x && '-' !in y && ',' !in y
    ensures ColNumber(x) == 2 && ColNumber(y) == 5
  {
    ColumnsBE();
  }

  /** Text `X-Y` whose halves name columns `lo` and `hi` gives the span between them. */
  lemma SpanColumnsText(s: string, x: string, y: string, lo: int, hi: int)
    requires s == x + "-" + y
    requires x != [] && '-' !in x && ',' !in x && '-' !in y && ',' !in y
    requires ColNumber(x) == lo && ColNumber(y) == hi
    ensures ColLetterRange(KeyText(s), 0) == Some(Span(lo, hi))
  {
    SpanText(x, y, true);
  }

  /** The text of a well-formed descriptor is its one token of column letters. */
  lemma TokenCase(s: string, g: RangeInfo, corrected: bool)
    requires g.WellFormed() && s == g.Source()
    requires corrected || '0' !in s
    ensures TextRange(s, corrected) == Some([ColumnsOf(g)])
  {
    RangeArraySource(g);
    AddressToken(s, corrected);
  }

  /** `B1:E8` and `$B1:E$8` give `['B:E']`, as written and corrected alike. */
  lemma AddressTokenCases()
    ensures ColLetterRange(KeyText("B1:E8"), 0) == Some(["B:E"])
    ensures ColLetterRange(KeyText("$B1:E$8"), 0) == Some(["B:E"])
    ensures ColLetterRangeAsWritten(KeyText("B1:E8"), 0) == Some(["B:E"])
    ensures ColLetterRangeAsWritten(KeyText("$B1:E$8"), 0) == Some(["B:E"])
  {
    var plain := RangeInfo(Cell(false, "B", false, "1"), Some(Cell(false, "E", false, "8")));
    var marked := RangeInfo(Cell(true, "B", false, "1"), Some(Cell(false, "E", true, "8")));
    assert plain.Source() == "B1:E8" && marked.Source() == "$B1:E$8";
    assert ColumnsOf(plain) == "B:E" && ColumnsOf(marked) == "B:E";
    assert '0' !in "B1:E8" && '0' !in "$B1:E$8";
    TokenCase("B1:E8", plain, true);
    TokenCase("$B1:E$8", marked, true);
    TokenCase("B1:E8", plain, false);
    TokenCase("$B1:E$8", marked, false);
  }

  /** As written `B10:E20` gives nothing; corrected it gives `['B:E']`. */
  lemma ZeroRowCase()
    ensures ColLetterRangeAsWritten(KeyText("B10:E20"), 0) == Some([])
    ensures ColLetterRange(KeyText("B10:E20"), 0) == Some(["B:E"])
  {
    var g := RangeInfo(Cell(false, "B", false, "10"), Some(Cell(false, "E", false, "20")));
    assert g.Source() == "B10:E20";
    assert ColumnsOf(g) == "B:E";
    assert "B10:E20"[2] == '0';
    RangeArraySource(g);
    AddressWithZero("B10:E20");
    TokenCase("B10:E20", g, true);
  }


  /** `10:20` with the written-out numbers 10 and `n2`. */
  lemma ZeroArea(n1: nat, n2: nat)
    requires NatToString(n1) == "10"
    ensures ColLetterRangeAsWritten(KeyText(NatToString(n1) + ":" + NatToString(n2)), 0) == Some([])
    ensures ColLetterRange(KeyText(NatToString(n1) + ":" + NatToString(n2)), 0) == Some([ColLetter(n1) + ":" + ColLetter(n2)])
  {
    assert NatToString(n1)[1] == '0';
    AreaWithZero(n1, n2);
    AreaColumns(n1, n2, true);
  }

  /** As written `10:20` gives nothing. */
  lemma ZeroAreaAsWritten()
    ensures ColLetterRangeAsWritten(KeyText("10:20"), 0) == Some([])
  {
    var n1, n2 := 10, 20;
    assert NatToString(n1) == "10" && NatToString(n2) == "20";
    assert NatToString(n1) + ":" + NatToString(n2) == "10:20";
    ZeroArea(n1, n2);
  }

  /** Corrected, `10:20` gives `['J:T']`. */
  lemma ZeroAreaCorrected()
    ensures ColLetterRange(KeyText("10:20"), 0) == Some(["J:T"])
  {
    var n1, n2 := 10, 20;
    assert NatToString(n1) == "10" && NatToString(n2) == "20";
    assert NatToString(n1) + ":" + NatToString(n2) == "10:20";
    LettersJT(n1, n2);
    ZeroArea(n1, n2);
  }

  lemma LettersJT(n1: int, n2: int)
    requires n1 == 10 && n2 == 20
    ensures ColLetter(n1) + ":" + ColLetter(n2) == "J:T"
  {
    assert ColLetter(10) == "J" && ColLetter(20) == "T";
  }

  /** `1:3` gives the one token `A:C`, as written. */
  lemma AreaCase()
    ensures ColLetterRangeAsWritten(KeyText("1:3"), 0) == Some(["A:C"])
  {
    var n1, n2 := 1, 3;
    assert NatToString(n1) == "1" && NatToString(n2) == "3";
    assert NatToString(n1) + ":" + NatToString(n2) == "1:3";
    LettersAC(n1, n2);
    AreaColumns(n1, n2, false);
  }

  lemma LettersAC(n1: int, n2: int)
    requires n1 == 1 && n2 == 3
    ensures ColLetter(n1) + ":" + ColLetter(n2) == "A:C"
  {
    assert ColLetter(1) == "A" && ColLetter(3) == "C";
  }
}
