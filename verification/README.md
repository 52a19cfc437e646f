# fast-excel-helper address algebra in Dafny

This project models the spreadsheet-address core of fast-excel-helper, the
PHP class `Helper` in src/FastExcelHelper/Helper.php. It covers:

- **Columns** (`columns.dfy`). Column letters and column numbers convert both
  ways in bijective base 26 (A = 1 … Z = 26, AA = 27 …). The Excel 2007
  limits apply: 16384 columns and 1048576 rows. The module covers `colNumber`,
  `colIndex`, `colLetter` and `colLetterNext`.
- **Addresses** (`addresses.dfy`). It parses A1 addresses and ranges
  `[$]Letters[$]Digits[:[$]Letters[$]Digits]` into the `rangeArray`
  descriptor. It also covers `rowNumber` and `cellAddress`, which builds an
  address with `$` absolute markers.
- **Ranges** (`ranges.dfy`). `inRange` is box containment and `addToRange`
  is the bounding box of a cell and a range.
- **R1C1 notation** (`relative.dfy`). It covers `rangeRelOffsets`,
  `shiftAddress`, `shiftAddressRC`, `A1toRC` and `RCtoA1`.
- **Column lists** (`column_lists.dfy`). `colLetterRange` takes number
  arrays, comma lists, `X-Y` spans and `X1:Y2` areas.
- **Supporting modules.**
  - `text.dfy` holds the character classes, decimal text, PHP's `empty`, the
    lexicographic order of PHP string comparison, and `strpos`.
  - `wrappers.dfy` holds `Option`.
  - `cases.dfy` derives the examples of the test suite and doc comments from
    the general lemmas.

Every operation is a pure function over `string` (`seq<char>`) and unbounded
`int`. Text outside an operation's grammar gives `None` where the PHP code
returns an empty array. The same holds where PHP would throw a `TypeError`.
The address grammar is parsed by hand instead of by regular expression.

`colLetterRange` and `inRange` are each written twice:

- once as the code behaves (`ColLetterRangeAsWritten`, `InRangeAsWritten`);
- once as evidently intended (`ColLetterRange`, `InRange`).

See "Findings". The doc comment of `shiftAddressRC` (Helper.php:483) gives
`shiftAddressRC('A1', 'R2C3')` as `D3`. The code yields `$C$2`, because
`R2C3` holds absolute coordinates. The model follows the code
(`Cases.ShiftAddressRCCase`).

## Model

| member | source | states |
|---|---|---|
| Columns.ColNumber | src/FastExcelHelper/Helper.php:35-61 | Digit text gives its own value. Any other text gives a number in [-1, 16384]. That number is 0 exactly when the text has no letters. |
| Columns.LetterValueLoop | src/FastExcelHelper/Helper.php:53-55 | The loop over the letters from the back, summing digit × 26^position, computes the bijective base-26 value. |
| Columns.ColNumberWithin | src/FastExcelHelper/Helper.php:47-57 | Non-numeric text whose letters are worth at most 16384 gives exactly that value. |
| Columns.ColNumberBeyond | src/FastExcelHelper/Helper.php:47-57 | Letters worth more than 16384 give 16384 when they sort above "XFD", and -1 otherwise (e.g. "AAAA"). |
| Columns.ThreeLettersOrder | src/FastExcelHelper/Helper.php:49-50 | On three letters, "sorts above XFD" holds exactly when the value exceeds 16384, so the early return is the bound check. |
| Columns.LongLettersBeyond | src/FastExcelHelper/Helper.php:49-57 | Four or more letters are always worth more than 16384. |
| Columns.ColIndex | src/FastExcelHelper/Helper.php:70-79 | `colIndex` is `colNumber - 1` for positive numbers and passes 0 and -1 through. |
| Columns.ColIndexOfColLetter | src/FastExcelHelper/Helper.php:70-79 | The index of the letters of column n is n - 1. |
| Columns.ColLetter | src/FastExcelHelper/Helper.php:88-110 | The result is upper-case letters. It is non-empty exactly for 1 ≤ n ≤ 16384, and "" for 0 and 16385. |
| Columns.ColNumberOfColLetter | src/FastExcelHelper/Helper.php:95-106 | For every n in [1, 16384], `colLetter(n)` has 1 to 3 letters and `colNumber` of it is n. |
| Columns.ColLetterOfColNumber | src/FastExcelHelper/Helper.php:42-57 | Letters in any case worth at most 16384 are the upper-cased `colLetter` of their `colNumber`. |
| Columns.ColNumberIgnoresCase | src/FastExcelHelper/Helper.php:47 | `colNumber` of letters does not depend on their case. |
| Columns.ColLetterNextNumber | src/FastExcelHelper/Helper.php:123-125 | A number n below 16384 advances to the letters whose column is n + 1. |
| Columns.ColLetterNextDigits | src/FastExcelHelper/Helper.php:123-125 | Digit text advances exactly as the number it spells. |
| Columns.ColLetterNextSplit | src/FastExcelHelper/Helper.php:126-128 | Letters followed by digits give `colLetter(colNumber(letters) + 1)` followed by the same digits. |
| Columns.ColLetterNext | src/FastExcelHelper/Helper.php:121-131 | `colLetterNext` branch by branch: a number advances to upper-case letters; letters with an optional digit suffix advance their letters; anything else gives "". What each branch returns is stated by `ColLetterNextNumber`, `ColLetterNextDigits`, `ColLetterNextSplit`, `ColLetterNextText` and, for the "" fallback, `ColLetterNextOther`. |
| Columns.ColLetterNextOther | src/FastExcelHelper/Helper.php:121-131 | Text that is not all digits and cannot be cut into non-empty letters followed by digits gives "". |
| Columns.ColLetterNextText | src/FastExcelHelper/Helper.php:126-128 | For letters below the last column, the result ends with the digit suffix verbatim, and its letters name the next column ("FA34" → "FB34"). |
| Addresses.RangeArray | src/FastExcelHelper/Helper.php:235-260 | A parse gives well-formed corners whose marked text (`min_cell_abs[:max_cell_abs]`) is the input upper-cased. |
| Addresses.RangeArraySource | src/FastExcelHelper/Helper.php:238-254 | Every well-formed descriptor is parsed back from its own text, so the parser is onto. |
| Addresses.RangeArraySingle | src/FastExcelHelper/Helper.php:238-245 | Colon-free text in the grammar gives only the min corner. The max fields stay unset. |
| Addresses.RangeArrayPair | src/FastExcelHelper/Helper.php:246-254 | `x:y` with both corners in the grammar gives both corners. |
| Addresses.RangeReparse | src/FastExcelHelper/Helper.php:255-256 | Re-parsing `range` gives the same min corner, and the max corner (or the min for a single cell), without markers. Re-parsing `range_abs` keeps the markers. |
| Addresses.ParsedNotNumeric | src/FastExcelHelper/Helper.php:18-22 | Text in the address grammar is never numeric, so `rowNumber` reaches the pattern branch for it. |
| Addresses.RowNumber | src/FastExcelHelper/Helper.php:16-26 | Digit text gives its value. An address or range gives its first row. Anything else gives 0. |
| Addresses.CellAddress | src/FastExcelHelper/Helper.php:143-162 | The result is "" exactly when the row is not positive or the column is outside [1, 16384]. |
| Addresses.CellAddressParses | src/FastExcelHelper/Helper.php:143-162 | The built address parses to one corner with the same row and column. `$` precedes the letters iff `absolute`. `$` precedes the row iff (`absolute` and `absoluteRow` ≠ false) or (not `absolute` and `absoluteRow` = true). `rowNumber` of it is the row. |
| Ranges.InRangeAsWritten | src/FastExcelHelper/Helper.php:345-354 | `inRange` as the code behaves, with PHP's null comparisons on the fields `rangeArray` leaves unset. Two texts that do not parse give true. A parsed text against one that does not parse gives false. For a parsed cell it holds only where the corrected `InRange` holds; `InRangeAgrees` and `InRangeSingleAsWritten` say where the two differ. |
| Ranges.InRange | src/FastExcelHelper/Helper.php:345-354 | `inRange` corrected, not the code as written: a single-cell range is the 1x1 box of its cell, as `addToRange` reads it. Stated by `InRangeTwoCorners`, `InRangeAgrees` and `InRangeSingleCorrected`. |
| Ranges.InRangeTwoCorners | src/FastExcelHelper/Helper.php:345-354 | For a two-corner range, a cell is in it iff its column and row lie between the min and max numbers, ends included. |
| Ranges.InRangeAgrees | src/FastExcelHelper/Helper.php:345-354 | On two-corner ranges the as-written and corrected `inRange` agree. |
| Ranges.InRangeSingleAsWritten | src/FastExcelHelper/Helper.php:350-353 | As written, a single-cell range contains nothing, not even its own cell. |
| Ranges.InRangeUnparsedAsWritten | src/FastExcelHelper/Helper.php:345-354 | As written, two texts that `rangeArray` does not parse are in each other, since null compares equal to null. |
| Ranges.InRangeUnparsedCorrected | src/FastExcelHelper/Helper.php:345-354 | Corrected, text that does not parse is in nothing and contains nothing. |
| Ranges.InRangeSingleCorrected | src/FastExcelHelper/Helper.php:345-354 | Corrected, every parsed single cell is in itself. |
| Ranges.AddToRangeBox | src/FastExcelHelper/Helper.php:375-400 | The bounding box encloses the box of the cell and the box of the target. A single cell counts as its 1x1 box. |
| Ranges.AddToRange | src/FastExcelHelper/Helper.php:373-407 | `addToRange` on an A1 target, returning the `MIN:MAX` text of `AddToRangeBox`. What the text holds is stated by `AddToRangeContains`, `AddToRangeInside` and `RenderParses`. |
| Ranges.AddToRangeSmallest | src/FastExcelHelper/Helper.php:397-400 | Any box enclosing both the cell and the target encloses the result, so the result is the least such box. |
| Ranges.AddToRangeInside | src/FastExcelHelper/Helper.php:373-407 | A single cell already in the target leaves the target's box unchanged. The text is the target's MIN:MAX. |
| Ranges.AddToRangeContains | src/FastExcelHelper/Helper.php:397-406 | The returned text parses, and its range contains the first corner of the cell and every cell of the target. |
| Ranges.RenderParses | src/FastExcelHelper/Helper.php:401-406 | The `min_cell:max_cell` text built from a box with real columns parses back to the same four numbers. |
| Ranges.RenderCanonical | src/FastExcelHelper/Helper.php:401-404 | For a canonically written range, the rebuilt text equals the `range` field of `rangeArray`. |
| Relative.RangeRelOffsets | src/FastExcelHelper/Helper.php:417-451 | `rangeRelOffsets` with its `$absolute` flags, `None` where the pattern fails. What each offset and flag is, for any text, is stated by `AxisReads` and `RangeRelOffsetsReads`. |
| Relative.AxisReads | src/FastExcelHelper/Helper.php:420-440 | For any text led by `R` (or `C`): the bracket flag is set iff a `[` follows the head; the number is the longest `-?\d+` after that, or empty; one `]` after it is skipped. The component is absolute iff it has no `[` and its number is neither empty nor "0" (so `-0` is absolute); its offset is the number, and 0 when the number is empty or "0". |
| Relative.RangeRelOffsetsReads | src/FastExcelHelper/Helper.php:417-451 | For any accepted text, the first offsets and flags are those of the components after the `R` and `C` heads of the upper-cased text. The second are those of the corner after a `:`, or the first ones copied when no `:` follows. |
| Relative.LoneCornerCopied | src/FastExcelHelper/Helper.php:433-441 | Without a `:`, `rangeRelOffsets` copies the lone corner's offsets and flags into positions 2 and 3. |
| Relative.PartAxisValue | src/FastExcelHelper/Helper.php:421-440 | A component as `A1toRC` renders it (`R5`, `R[-2]` or a bare `R`) reads back absolute exactly when it was rendered absolute, with the absolute value or the offset as its number. |
| Relative.RangeRelOffsetsOfCorner | src/FastExcelHelper/Helper.php:417-451 | A corner rendered as R1C1 text reads back as its row and column offsets (absolute ones as numbers) with its flags, copied into the second position. |
| Relative.ShiftCell | src/FastExcelHelper/Helper.php:468-479 | `shiftAddress` on one cell, empty text counting as column 0, row 0. What it writes is stated by `ShiftAddressMoves`. |
| Relative.ShiftAddress | src/FastExcelHelper/Helper.php:461-480 | `shiftAddress`, cutting a range at its `:`. Stated by `ShiftAddressSplit`, `ShiftAddressMoves` and `ShiftAddressRoundTrip`. |
| Relative.ShiftAddressRC | src/FastExcelHelper/Helper.php:490-495 | `shiftAddressRC` fails exactly when the R1C1 text is outside the pattern of `rangeRelOffsets`. Otherwise it shifts by the first corner's offsets with all four flags (`ShiftCorner`). |
| Relative.RCtoA1 | src/FastExcelHelper/Helper.php:329-337 | `RCtoA1` side by side through `shiftAddressRC`. Stated by `RCtoA1Pair` and `A1toRCRoundTrip`. |
| Relative.A1toRC | src/FastExcelHelper/Helper.php:271-317 | The result is R1C1 text led by `R`. Its shape is stated by `A1toRCShapeCell` and `A1toRCShapeRange`, and its inverse by `A1toRCRoundTrip`. |
| Relative.ShiftAddressSplit | src/FastExcelHelper/Helper.php:463-466 | With a `:` past the first character, each side is shifted on its own. The second side uses flags 2 and 3. |
| Relative.ShiftAddressMoves | src/FastExcelHelper/Helper.php:461-480 | Each corner of a parsed address is moved by the offsets while it stays on the sheet. A coordinate flagged absolute is replaced by `$` and the offset. |
| Relative.ShiftAddressRoundTrip | src/FastExcelHelper/Helper.php:461-480 | Without flags, shifting by (dr, dc) and back by (-dr, -dc) gives the address normalised: upper case, no `$`, no leading zeros. |
| Relative.ShiftCorner | src/FastExcelHelper/Helper.php:490-495 | `shiftAddressRC` of the anchor by one corner's R1C1 text rebuilds that corner, `$` markers included. |
| Relative.RCtoA1Pair | src/FastExcelHelper/Helper.php:329-337 | R1C1 text `x:y` is translated side by side against the anchor. It fails if either side fails. |
| Relative.A1toRCShapeCell | src/FastExcelHelper/Helper.php:271-290 | With a truthy anchor, a single cell renders as one corner of offsets. Bare `R` or `C` marks a zero offset, and a `$` coordinate renders as an absolute number. |
| Relative.A1toRCShapeRange | src/FastExcelHelper/Helper.php:271-306 | With a truthy anchor, a range renders as its two corners joined by `:`. |
| Relative.A1toRCRoundTrip | src/FastExcelHelper/Helper.php:271-337 | For in-bounds cells and ranges, `RCtoA1(A1toRC(a, anchor), anchor)` is the normalised address: upper case, `$` markers kept, rows without leading zeros. The anchor must be truthy and uncut. |
| ColumnLists.ColLetterRangeAsWritten | src/FastExcelHelper/Helper.php:178-228 | `colLetterRange` as the code behaves: the classes `[1-9:]` and `[a-z1-9:\$]` leave out the digit 0. Stated by the `ColumnLists` lemmas below, by `AddressWithZero` and `AreaWithZero`, and by `LetterRangeAgrees`. |
| ColumnLists.ColLetterRange | src/FastExcelHelper/Helper.php:178-228 | The 0-admitting variant of `colLetterRange`, not the code as written: both classes also accept 0. `LetterRangeAgrees` states that it differs from the code only on text holding a 0. |
| ColumnLists.LetterRangeAgrees | src/FastExcelHelper/Helper.php:217-223 | For every base, and every list or text in which no digit 0 occurs, the code as written and the 0-admitting variant give the same result. |
| ColumnLists.NumberList | src/FastExcelHelper/Helper.php:182-189 | Number keys map one to one onto `colLetter(key + 1 - base)`. The branch fails exactly when some key is not a number. |
| ColumnLists.NumberColumns | src/FastExcelHelper/Helper.php:182-189 | For keys inside the sheet, the i-th result is the column `keys[i] + 1 - base`. Number keys never reach the character classes, so the code as written gives the same. |
| ColumnLists.WordsAsText | src/FastExcelHelper/Helper.php:190-197 | An array of texts expands like the same texts joined by commas. |
| ColumnLists.CommaList | src/FastExcelHelper/Helper.php:200-207 | `a,b` expands to the expansion of `a` followed by the expansion of `b`. |
| ColumnLists.ExplodeImplode | src/FastExcelHelper/Helper.php:201 | Comma-free pieces joined with commas are exploded back into themselves. |
| ColumnLists.ImplodeExplode | src/FastExcelHelper/Helper.php:201 | Exploding text at commas and joining it again gives the text back. |
| ColumnLists.SpanText | src/FastExcelHelper/Helper.php:209-215 | `X-Y` lists `colLetter(n)` for n from `colNumber(X)` to `colNumber(Y)`. |
| ColumnLists.SpanColumns | src/FastExcelHelper/Helper.php:212-214 | Within the sheet, the i-th entry of the span is column lo + i. |
| ColumnLists.SpanNext | src/FastExcelHelper/Helper.php:212-214 | Each entry of the span is `colLetterNext` of the entry before it. |
| ColumnLists.AreaColumns | src/FastExcelHelper/Helper.php:217-219 | `n1:n2` gives the single token `colLetter(n1):colLetter(n2)` when the digit class admits its digits. |
| ColumnLists.AddressToken | src/FastExcelHelper/Helper.php:221-223 | An address or range gives one token, its column letters `MIN:MAX` (or `MIN`), provided the digit class admits its digits. |
| ColumnLists.LettersToken | src/FastExcelHelper/Helper.php:221-223 | Column letters in any case give the one token of their upper-cased letters. |
| ColumnLists.AddressWithZero | src/FastExcelHelper/Helper.php:221 | As written, an address holding a digit 0 gives nothing. |
| ColumnLists.AreaWithZero | src/FastExcelHelper/Helper.php:217 | As written, `n1:n2` with a digit 0 gives nothing. |
| Cases.RowNumberLowerCellCase | tests/FastExcelHelperTest.php:15 | `rowNumber('az2')` is 2. |
| Cases.RowNumberRange10Case | tests/FastExcelHelperTest.php:23 | `rowNumber('$az$10:$BI$24')` is 10. |
| Cases.ColumnNumberAZCase | tests/FastExcelHelperTest.php:26-30 | `colNumber('az')` is 52 and `colIndex('az')` is 51. |
| Cases.ColumnLetterCases | tests/FastExcelHelperTest.php:32-35 | `colLetter` of 0, 1, 16384 and 16385 is "", "A", "XFD" and "". |
| Cases.CellAddressCases | tests/FastExcelHelperTest.php:69-73 | `cellAddress(38, 42, …)` with each marker combination. |
| Cases.LastCellCase | tests/FastExcelHelperTest.php:74 | The last cell of the sheet is XFD1048576. |
| Cases.ColLetterNextCellCase | tests/FastExcelHelperTest.php:81 | `colLetterNext('FA34')` is "FB34". |
| Cases.InRangeA3Case | tests/FastExcelHelperTest.php:86 | A3 is not in B2:D4. |
| Cases.InRangeEmptyCase | src/FastExcelHelper/Helper.php:345-354 | As written, `inRange('', '')` is true. Corrected, it is false. |
| Cases.ColLetterNextOtherCases | src/FastExcelHelper/Helper.php:121-131 | `colLetterNext` of `A-1`, `1A` and "" is "". |
| Cases.InRangeSelfCase | src/FastExcelHelper/Helper.php:350-353 | As written, `inRange('B2', 'B2')` is false. Corrected, it is true. |
| Cases.AddToRangeGrowCase | tests/FastExcelHelperTest.php:90 | `addToRange('F5', 'B3:D3')` is "B3:F5". |
| Cases.AddToRangeInsideCase | tests/FastExcelHelperTest.php:89 | `addToRange('C3', 'B3:D3')` is "B3:D3". |
| Cases.NumberKeyCases | tests/FastExcelHelperTest.php:60-61 | `[0, 1, 2]` gives A, B, C with base 0, and "", A, B with base 1, as written and 0-admitting alike. |
| Cases.CommaCase | tests/FastExcelHelperTest.php:62 | `'B, E, F'` gives B, E, F, as written and 0-admitting alike. |
| Cases.DashCommaCase | tests/FastExcelHelperTest.php:63 | `'B-E, F'` gives B, C, D, E, F, as written and 0-admitting alike. |
| Cases.DashListCase | tests/FastExcelHelperTest.php:64 | `['B-E', 'F']` gives B, C, D, E, F, as written and 0-admitting alike. |
| Cases.DashCellsCase | tests/FastExcelHelperTest.php:65 | `'B1-E8'` gives B, C, D, E, as written and 0-admitting alike. |
| Cases.AddressTokenCases | tests/FastExcelHelperTest.php:66-67 | `'B1:E8'` and `'$B1:E$8'` give the one token B:E. |
| Cases.A1toRCCellCase | src/FastExcelHelper/Helper.php:263 | `A1toRC('D8', 'b3')` is "R[5]C[2]". |
| Cases.A1toRCRangeCase | src/FastExcelHelper/Helper.php:264 | `A1toRC('B3:D8', 'b3')` is "RC:R[5]C[2]". |
| Cases.RCtoA1RelativeCase | src/FastExcelHelper/Helper.php:320 | `RCtoA1('R[5]C[2]', 'B3')` is "D8". |
| Cases.RCtoA1RowCase | src/FastExcelHelper/Helper.php:321 | `RCtoA1('R5C[2]', 'B3')` is "D$5". |
| Cases.RCtoA1AbsoluteCase | src/FastExcelHelper/Helper.php:322 | `RCtoA1('R5C2', 'B3')` is "$B$5". |
| Cases.BracketZeroCase | src/FastExcelHelper/Helper.php:420-441 | `rangeRelOffsets('R[0]C')` is offsets 0, 0, 0, 0, nothing absolute. |
| Cases.RowZeroCase | src/FastExcelHelper/Helper.php:420-441 | `rangeRelOffsets('R0C5')` is 0, 5, 0, 5; only the columns are absolute. |
| Cases.LeadingZerosCase | src/FastExcelHelper/Helper.php:420-441 | `rangeRelOffsets('R007C')` is 7, 0, 7, 0; only the rows are absolute. |
| Cases.MinusZeroCase | src/FastExcelHelper/Helper.php:420-441 | `rangeRelOffsets('R-0C')` is 0, 0, 0, 0, with the rows absolute, since "-0" is not `empty`. |
| Cases.LowerCaseCase | src/FastExcelHelper/Helper.php:420-441 | `rangeRelOffsets('r3c[-2]')` is 3, -2, 3, -2; only the rows are absolute. |
| Cases.TwoCornersCase | src/FastExcelHelper/Helper.php:420-432 | `rangeRelOffsets('R[1]C[2]:R3C')` is 1, 2, 3, 0; only the second row is absolute. |
| Cases.NoColumnCase | src/FastExcelHelper/Helper.php:420 | `rangeRelOffsets('R1')` is outside the pattern. |
| Cases.TrailingColonCase | src/FastExcelHelper/Helper.php:420 | `rangeRelOffsets('R1C1:')` is outside the pattern. |
| Cases.ShiftAddressRCCase | src/FastExcelHelper/Helper.php:490-495 | `shiftAddressRC('A1', 'R2C3')` is "$C$2". |
| Cases.ZeroRowCase | src/FastExcelHelper/Helper.php:221-223 | As written, `'B10:E20'` gives nothing. Corrected, it gives B:E. |
| Cases.ZeroAreaAsWritten | src/FastExcelHelper/Helper.php:217-219 | As written, `'10:20'` gives nothing. |
| Cases.ZeroAreaCorrected | src/FastExcelHelper/Helper.php:217-219 | Corrected, `'10:20'` gives J:T. |

## Left out

- The colour functions `correctColor`, `rgbToHsl` and `hslToRgb` are floating-point code, and floating point is not modelled.
- The static memo tables of `colNumber` and `colLetter` are transparent caches. Both functions are pure here.
- src/autoload.php is class loading and is not part of this model.
- PHP's `is_numeric` is modelled as "non-empty, all ASCII digits". Signs, blanks, decimals and exponents (`" 7"`, `"1.5"`, `"1e3"`) are not modelled.
- Integers are unbounded. PHP's 64-bit overflow to float is not modelled.
- PHP's `$` anchor also matches before a final newline. The hand-written parser rejects a trailing newline.
- Where PHP throws a `TypeError` the model gives `None`. Examples are a missing number in `n1:n2` and an unmatched `rangeRelOffsets` text passed on to `shiftAddress`.
- ColumnLists.NumberList: a later key of a number array that is text but not all digits gives `None`. At `$key + (1 - $baseNum)` (Helper.php:186) PHP 8 throws a `TypeError` for non-numeric text such as `'B'`, but reads leading-numeric text such as `'5B'` as 5, with a warning.
- `rangeRelOffsets` returns `None` where PHP returns four nulls. Its by-reference `$absolute` flags are part of the result.
- `colLetterRange` takes a flat array of number or text keys or one text. Nested arrays and a null `$baseNum` are not modelled.
- The relative-offset branch of `addToRange` (Helper.php:380-388) is not modelled. It ignores the absolute flags, and its doc examples (Helper.php:363-365) disagree with the code.
- The `$asArray` result of `addToRange` is modelled by its four numbers (`AddToRangeBox`). The letter and cell fields derive from them.
- Ranges.AddToRangeBox: requires that the cell and the target both parse and that the target is not R1C1 text. PHP goes on with null numbers otherwise.
- Ranges.AddToRangeContains: requires real columns and a cell whose corners are in order. Otherwise the rebuilt text can fail to parse, or the box can miss the cell's first corner.
- Relative.A1toRCRoundTrip: requires an anchor that is truthy and holds no `:` past its first character. A range anchor is cut in two by `shiftAddress`.
- Relative.ShiftAddressRoundTrip: requires every shifted corner to stay on the sheet. Off the sheet, `colLetter` gives "" and the text no longer parses.
- tests/FastExcelHelperTest.php:38-58 expects `rangeArray` results without the `*_abs`, `range` and `range_abs` fields the code adds. The model follows the code.

## Findings

| source | as written | input that shows it | evidently intended | confidence | as-written member | corrected member |
|---|---|---|---|---|---|---|
| src/FastExcelHelper/Helper.php:350-353 | `inRange` reads `max_col_num`/`max_row_num`, which `rangeArray` sets only for two-corner ranges. A single-cell range is compared with null and contains nothing. | `inRange('B2', 'B2')` is false | A single cell is the 1x1 box of itself, as `addToRange` reads it (Helper.php:376-378 and 391-394) | high; not executed | Ranges.InRangeSingleAsWritten | Ranges.InRangeSingleCorrected |
| src/FastExcelHelper/Helper.php:345-353 | `rangeArray` returns `[]` for text outside its grammar, so every field `inRange` compares is null. Null compares equal to null, so all four comparisons hold. | `inRange('', '')` and `inRange('x', 'y')` are true | Text that is not an address is in nothing | medium; not executed | Cases.InRangeEmptyCase | Ranges.InRangeUnparsedCorrected |
| src/FastExcelHelper/Helper.php:217-221 | The classes `[1-9:]` and `[a-z1-9:\$]` leave out the digit 0. An area or address with a 0 in a row matches neither and gives `[]`. | `colLetterRange('B10:E20')` and `colLetterRange('10:20')` give `[]` | `['B:E']` and `['J:T']`, as for `'B1:E8'` | high; not executed | Cases.ZeroAreaAsWritten | Cases.ZeroAreaCorrected |
