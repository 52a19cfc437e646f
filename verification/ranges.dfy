/**
  Range arithmetic (Helper.php, `inRange` and `addToRange`): rectangles of
  column and row numbers, containment, and the bounding box of a cell and a
  range.
*/
module Ranges {
  import opened Wrappers
  import opened Text
  import opened Columns
  import opened Addresses

  function Min(a: int, b: int): int { if a <= b then a else b }
  function Max(a: int, b: int): int { if a >= b then a else b }

  /** The numeric corners `min_col_num`, `min_row_num`, `max_col_num`, `max_row_num`. */
  datatype Box = Box(minCol: int, minRow: nat, maxCol: int, maxRow: nat) {

    /** Inclusive containment of one cell. */
    predicate Contains(col: int, row: int) {
      minCol <= col <= maxCol && minRow <= row <= maxRow
    }

    /** This box reaches at least as far as `b` on every side. */
    predicate Encloses(b: Box) {
      minCol <= b.minCol && b.maxCol <= maxCol && minRow <= b.minRow && b.maxRow <= maxRow
    }

    /** The min corner is above and left of the max corner. */
    predicate Ordered() {
      minCol <= maxCol && minRow <= maxRow
    }

    /** Both column bounds name real columns. */
    predicate ColumnsValid() {
      1 <= minCol <= MaxCol && 1 <= maxCol <= MaxCol
    }

    /** `min_cell:max_cell`, as `addToRange` builds it from the numbers. */
    function Render(): string {
      ColLetter(minCol) + NatToString(minRow) + ":" + ColLetter(maxCol) + NatToString(maxRow)
    }
  }

  /** The box of a parsed range; a single cell is the 1x1 box of its min corner. */
  function BoxOf(g: RangeInfo): Box
    requires g.WellFormed()
  {
    assert g.Last().WellFormed();
    Box(g.min.ColNum(), g.min.RowNum(), g.Last().ColNum(), g.Last().RowNum())
  }

  // ---------------------------------------------------------------------------
  // inRange
  // ---------------------------------------------------------------------------

  /**
    `inRange` as written. A field `rangeArray` did not set reads as null, and
    PHP compares null with a number as two booleans; a parsed column number is
    never 0, so it is never `<=` null and null is never `>=` it. Hence a
    single-cell range (no max fields) contains nothing, and a parsed cell is
    never in unparsed text nor the other way round. Null against null is
    equal, so every comparison holds when neither text parses.
  */
  function InRangeAsWritten(cell: string, range: string): (r: bool)
    ensures RangeArray(cell).None? && RangeArray(range).None? ==> r
    ensures RangeArray(cell).Some? != RangeArray(range).Some? ==> !r
    ensures RangeArray(cell).Some? && r ==> InRange(cell, range)
  {
    var c := RangeArray(cell);
    var t := RangeArray(range);
    if c.None? && t.None? then true
    else
      && c.Some? && t.Some? && t.value.max.Some?
      && BoxOf(t.value).Contains(c.value.min.ColNum(), c.value.min.RowNum())
  }

  /**
    `inRange` with a single-cell range read as the 1x1 box of its cell, the
    way `addToRange` reads it. Text that does not parse is in nothing and
    contains nothing.
  */
  function InRange(cell: string, range: string): bool {
    var c := RangeArray(cell);
    var t := RangeArray(range);
    && c.Some? && t.Some?
    && BoxOf(t.value).Contains(c.value.min.ColNum(), c.value.min.RowNum())
  }

  /** On two-corner ranges the two readings agree. */
  lemma InRangeAgrees(cell: string, range: string)
    requires RangeArray(range).Some? && RangeArray(range).value.max.Some?
    ensures InRange(cell, range) == InRangeAsWritten(cell, range)
  {
  }

  /**
    For a two-corner range, a cell is in it exactly when its column and row
    lie between the range's min and max numbers, ends included.
  */
  lemma InRangeTwoCorners(cell: string, range: string)
    requires RangeArray(cell).Some?
    requires RangeArray(range).Some? && RangeArray(range).value.max.Some?
    ensures var c := RangeArray(cell).value.min;
      var t := RangeArray(range).value;
      InRangeAsWritten(cell, range) <==>
        && t.min.ColNum() <= c.ColNum() <= t.max.value.ColNum()
        && t.min.RowNum() <= c.RowNum() <= t.max.value.RowNum()
  {
  }

  /** As written, a single-cell range never contains anything, not even its own cell. */
  lemma InRangeSingleAsWritten(cell: string, range: string)
    requires RangeArray(range).Some? && RangeArray(range).value.max.None?
    ensures !InRangeAsWritten(cell, range)
    ensures !InRangeAsWritten(range, range)
  {
  }

  /** As written, two texts that do not parse are in each other. */
  lemma InRangeUnparsedAsWritten(cell: string, range: string)
    requires RangeArray(cell).None? && RangeArray(range).None?
    ensures InRangeAsWritten(cell, range) && InRangeAsWritten(range, cell)
  {
  }

  /** Corrected, text that does not parse is in nothing and contains nothing. */
  lemma InRangeUnparsedCorrected(cell: string, range: string)
    requires RangeArray(cell).None? || RangeArray(range).None?
    ensures !InRange(cell, range)
  {
  }

  /** Corrected, every parsed single cell is in itself. */
  lemma InRangeSingleCorrected(range: string)
    requires RangeArray(range).Some? && RangeArray(range).value.max.None?
    ensures InRange(range, range)
  {
  }

  // ---------------------------------------------------------------------------
  // addToRange
  // ---------------------------------------------------------------------------

  /**
    The prefix `^R\[?(-?\d+)?]?C` (any case) that sends `addToRange` to its
    relative-offset branch.
  */
  predicate RelativeTarget(t: string) {
    var u := UpperStr(t);
    && |u| > 0 && u[0] == 'R'
    && var a := if |u| > 1 && u[1] == '[' then u[2..] else u[1..];
       var b := a[SignedSpan(a)..];
       var c := if |b| > 0 && b[0] == ']' then b[1..] else b;
       |c| > 0 && c[0] == 'C'
  }

  /**
    `addToRange` on an A1 target: the bounding box of the cell (or range) and
    the target, a single cell counting as a 1x1 box.
  */
  function AddToRangeBox(cell: string, target: string): (r: Box)
    requires RangeArray(cell).Some? && RangeArray(target).Some?
    requires !RelativeTarget(target)
    ensures r.Encloses(BoxOf(RangeArray(cell).value))
    ensures r.Encloses(BoxOf(RangeArray(target).value))
  {
    var a := BoxOf(RangeArray(cell).value);
    var b := BoxOf(RangeArray(target).value);
    Box(Min(a.minCol, b.minCol), Min(a.minRow, b.minRow), Max(a.maxCol, b.maxCol), Max(a.maxRow, b.maxRow))
  }

  /** `addToRange` returning the `MIN:MAX` string. */
  function AddToRange(cell: string, target: string): string
    requires RangeArray(cell).Some? && RangeArray(target).Some?
    requires !RelativeTarget(target)
  {
    AddToRangeBox(cell, target).Render()
  }

  /** Enclosing boxes keep every cell they enclose. */
  lemma EnclosesContains(x: Box, b: Box, col: int, row: int)
    requires x.Encloses(b) && b.Contains(col, row)
    ensures x.Contains(col, row)
  {
  }

  /** The box of `addToRange` is the smallest one enclosing both the cell and the target. */
  lemma AddToRangeSmallest(cell: string, target: string, x: Box)
    requires RangeArray(cell).Some? && RangeArray(target).Some?
    requires !RelativeTarget(target)
    requires x.Encloses(BoxOf(RangeArray(cell).value))
    requires x.Encloses(BoxOf(RangeArray(target).value))
    ensures x.Encloses(AddToRangeBox(cell, target))
  {
  }

  /** A single cell already inside the target leaves the target's box unchanged. */
  lemma AddToRangeInside(cell: string, target: string)
    requires RangeArray(cell).Some? && RangeArray(cell).value.max.None?
    requires RangeArray(target).Some? && !RelativeTarget(target)
    requires InRange(cell, target)
    ensures AddToRangeBox(cell, target) == BoxOf(RangeArray(target).value)
    ensures AddToRange(cell, target) == BoxOf(RangeArray(target).value).Render()
  {
  }

  /** A rendered box with real columns parses back to the same numbers as two corners. */
  lemma RenderParses(b: Box)
    requires b.ColumnsValid()
    ensures RangeArray(b.Render()).Some?
    ensures RangeArray(b.Render()).value.max.Some?
    ensures BoxOf(RangeArray(b.Render()).value) == b
  {
    var lo := Cell(false, ColLetter(b.minCol), false, NatToString(b.minRow));
    var hi := Cell(false, ColLetter(b.maxCol), false, NatToString(b.maxRow));
    var g := RangeInfo(lo, Some(hi));
    UnmarkedText(lo);
    UnmarkedText(hi);
    assert lo.Unmarked() == lo && hi.Unmarked() == hi;
    assert g.Source() == b.Render();
    RangeArraySource(g);
    ColNumberOfColLetter(b.minCol);
    ColNumberOfColLetter(b.maxCol);
    ParseNatToString(b.minRow);
    ParseNatToString(b.maxRow);
  }

  /**
    When every column involved is real and the cell's corners are in order,
    the text `addToRange` returns contains the cell's first corner and every
    cell of the target.
  */
  lemma AddToRangeContains(cell: string, target: string)
    requires RangeArray(cell).Some? && RangeArray(target).Some?
    requires !RelativeTarget(target)
    requires BoxOf(RangeArray(cell).value).ColumnsValid() && BoxOf(RangeArray(cell).value).Ordered()
    requires BoxOf(RangeArray(target).value).ColumnsValid()
    ensures InRange(cell, AddToRange(cell, target))
    ensures forall col, row :: BoxOf(RangeArray(target).value).Contains(col, row) ==>
      BoxOf(RangeArray(AddToRange(cell, target)).value).Contains(col, row)
  {
    var r := AddToRangeBox(cell, target);
    var s := AddToRange(cell, target);
    RenderParses(r);
    var c := RangeArray(cell).value;
    var b := BoxOf(RangeArray(target).value);
    CellCorner(c, r);
    InRangeOfBox(cell, s);
    forall col, row | b.Contains(col, row)
      ensures r.Contains(col, row)
    {
      EnclosesContains(r, b, col, row);
    }
  }

  /** A box enclosing the box of a parsed range contains its min corner. */
  lemma CellCorner(c: RangeInfo, r: Box)
    requires c.WellFormed() && BoxOf(c).Ordered() && r.Encloses(BoxOf(c))
    ensures r.Contains(c.min.ColNum(), c.min.RowNum())
  {
  }

  lemma InRangeOfBox(cell: string, s: string)
    requires RangeArray(cell).Some? && RangeArray(s).Some?
    requires BoxOf(RangeArray(s).value).Contains(RangeArray(cell).value.min.ColNum(), RangeArray(cell).value.min.RowNum())
    ensures InRange(cell, s)
  {
  }

  /** A canonically written corner is rebuilt from its numbers. */
  lemma CanonicalCell(c: Cell)
    requires c.WellFormed() && c.InBounds()
    requires c.digits == NatToString(c.RowNum())
    ensures ColLetter(c.ColNum()) + NatToString(c.RowNum()) == c.Plain()
  {
    assert AllLetters(c.letters);
    UpperNoLower(c.letters);
    ColLetterOfColNumber(c.letters);
  }

  /** The box of a parsed range renders as its `range` text when it is written canonically. */
  lemma RenderCanonical(g: RangeInfo)
    requires g.WellFormed()
    requires g.min.InBounds() && g.Last().WellFormed() && g.Last().InBounds()
    requires g.min.digits == NatToString(g.min.RowNum())
    requires g.Last().digits == NatToString(g.Last().RowNum())
    ensures BoxOf(g).Render() == g.Range()
  {
    CanonicalCell(g.min);
    CanonicalCell(g.Last());
  }
}
