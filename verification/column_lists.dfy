/**
  Column lists (Helper.php, `colLetterRange`): an array of column keys, or a
  text such as `B, E, F`, `B-E` or `B1:E8`, turned into a list of column
  letters. A PHP `TypeError` (a key that is not a number, a missing number in
  `n1:n2`) is `None`.
*/
module ColumnLists {
  import opened Wrappers
  import opened Text
  import opened Columns
  import opened Addresses

  /** One element of an array argument: a number or a text. */
  datatype Key = Num(n: int) | Str(s: string)

  /** The argument of `colLetterRange`: an array of keys, or a text. */
  datatype ColumnKeys = KeyList(items: seq<Key>) | KeyText(s: string)

  // ---------------------------------------------------------------------------
  // Text helpers: `trim`, `explode`, and the character classes of the patterns
  // ---------------------------------------------------------------------------

  /** The characters `trim` removes: space, tab, newline, return, NUL, vertical tab. */
  predicate IsBlank(c: char) {
    c == ' ' || c == '\t' || c == '\n' || c == '\r' || c == '\0' || c == 11 as char
  }

  function TrimStart(s: string): (r: string)
    ensures |r| <= |s| && r == s[|s| - |r|..]
    ensures r != [] ==> !IsBlank(r[0])
    ensures s == [] || !IsBlank(s[0]) ==> r == s
  {
    if s != [] && IsBlank(s[0]) then TrimStart(s[1..]) else s
  }

  function TrimEnd(s: string): (r: string)
    ensures |r| <= |s| && r == s[..|r|]
    ensures r != [] ==> !IsBlank(r[|r| - 1])
    ensures s == [] || !IsBlank(s[|s| - 1]) ==> r == s
  {
    if s != [] && IsBlank(s[|s| - 1]) then TrimEnd(s[..|s| - 1]) else s
  }

  /** `trim`: blanks removed from both ends. */
  function Trim(s: string): (r: string)
    ensures |r| <= |s|
    ensures r != [] ==> !IsBlank(r[0]) && !IsBlank(r[|r| - 1])
    ensures s == [] || (!IsBlank(s[0]) && !IsBlank(s[|s| - 1])) ==> r == s
  {
    TrimEnd(TrimStart(s))
  }

  /** `explode(c, s)`: the pieces between the separators, in order. */
  function Explode(s: string, c: char): (r: seq<string>)
    ensures |r| >= 1
    ensures forall k :: 0 <= k < |r| ==> c !in r[k]
    decreases |s|
  {
    var i := Find(s, c);
    if i == |s| then [s] else [s[..i]] + Explode(s[i + 1..], c)
  }

  /** `implode(c, ps)`. */
  function Implode(ps: seq<string>, c: char): string
    requires |ps| >= 1
  {
    if |ps| == 1 then ps[0] else ps[0] + [c] + Implode(ps[1..], c)
  }

  /** Splitting and joining again gives the text back. */
  lemma {:induction false} ImplodeExplode(s: string, c: char)
    ensures Implode(Explode(s, c), c) == s
    decreases |s|
  {
    var i := Find(s, c);
    if i < |s| {
      var rest := s[i + 1..];
      ImplodeExplode(rest, c);
      ImplodeCons(s[..i], Explode(rest, c), c);
      CutAt(s, i, rest);
    }
  }

  /** Text is its part before position `i`, the character there, and the rest. */
  lemma CutAt(s: string, i: nat, rest: string)
    requires i < |s| && rest == s[i + 1..]
    ensures s == s[..i] + [s[i]] + rest
  {
  }

  /** Joining a first piece onto further pieces puts one separator between. */
  lemma ImplodeCons(p: string, ps: seq<string>, c: char)
    requires |ps| >= 1
    ensures Implode([p] + ps, c) == p + [c] + Implode(ps, c)
  {
    assert ([p] + ps)[1..] == ps;
  }

  /** Pieces without the separator are exploded back into themselves. */
  lemma {:induction false} ExplodeImplode(ps: seq<string>, c: char)
    requires |ps| >= 1
    requires forall k :: 0 <= k < |ps| ==> c !in ps[k]
    ensures Explode(Implode(ps, c), c) == ps
  {
    if |ps| > 1 {
      ExplodeImplode(ps[1..], c);
      var tail := Implode(ps[1..], c);
      FindAfter(ps[0], c, tail);
      var s := ps[0] + [c] + tail;
      assert s[..|ps[0]|] == ps[0];
      assert s[|ps[0]| + 1..] == tail;
    } else {
      FindAbsent(ps[0], c);
    }
  }

  /**
    The digits of the classes `[1-9:]` and `[a-z1-9:\$]`: 1 to 9 as written,
    any decimal digit when `corrected`.
  */
  predicate ClassDigit(c: char, corrected: bool) {
    if corrected then IsDigit(c) else '1' <= c <= '9'
  }

  /** `^[1-9:]+$`. */
  predicate AreaText(s: string, corrected: bool) {
    |s| > 0 && forall j :: 0 <= j < |s| ==> ClassDigit(s[j], corrected) || s[j] == ':'
  }

  /** `^[a-z1-9:\$]+$` with the `i` flag. */
  predicate TokenText(s: string, corrected: bool) {
    |s| > 0 && forall j :: 0 <= j < |s| ==> IsLetter(s[j]) || ClassDigit(s[j], corrected) || s[j] == ':' || s[j] == '$'
  }

  /** `preg_replace('/\d+|\$/', '', s)`: the text without its digits and `$` signs. */
  function DropDigits(s: string): (r: string)
    ensures |r| <= |s|
    ensures forall j :: 0 <= j < |r| ==> !IsDigit(r[j]) && r[j] != '$' && r[j] in s
  {
    if s == [] then []
    else (if IsDigit(s[0]) || s[0] == '$' then [] else [s[0]]) + DropDigits(s[1..])
  }

  lemma {:induction false} DropDigitsConcat(a: string, b: string)
    ensures DropDigits(a + b) == DropDigits(a) + DropDigits(b)
  {
    if a != [] {
      assert (a + b)[1..] == a[1..] + b;
      DropDigitsConcat(a[1..], b);
    } else {
      assert a + b == b;
    }
  }

  // ---------------------------------------------------------------------------
  // colLetterRange
  // ---------------------------------------------------------------------------

  /** Both lists, or the first failure. */
  function Append(a: Option<seq<string>>, b: Option<seq<string>>): (r: Option<seq<string>>)
    ensures r.Some? <==> a.Some? && b.Some?
    ensures r.Some? ==> r.value == a.value + b.value
  {
    if a.Some? && b.Some? then Some(a.value + b.value) else None
  }

  /** `colLetter(n)` for every `n` from `lo` up to `hi`, as the `for` loop of the `-` branch. */
  function Span(lo: int, hi: int): (r: seq<string>)
    ensures |r| == if lo <= hi then hi - lo + 1 else 0
    ensures forall i :: 0 <= i < |r| ==> r[i] == ColLetter(lo + i)
    decreases hi - lo
  {
    if lo > hi then []
    else
      var rest := Span(lo + 1, hi);
      assert forall i :: 1 <= i <= |rest| ==> ([ColLetter(lo)] + rest)[i] == rest[i - 1];
      [ColLetter(lo)] + rest
  }

  /** `[$num1, $num2] = explode(':', s)`: a missing or empty number is a `TypeError`. */
  function AreaRange(s: string): (r: Option<seq<string>>)
    requires forall j :: 0 <= j < |s| ==> IsDigit(s[j]) || s[j] == ':'
  {
    var i := Find(s, ':');
    var rest := if i < |s| then s[i + 1..] else [];
    var n1, n2 := s[..i], rest[..Find(rest, ':')];
    if i == |s| || n1 == [] || n2 == [] then None
    else
      assert forall j :: 0 <= j < |n2| ==> n2[j] == s[i + 1 + j];
      Some([ColLetter(ParseNat(n1)) + ":" + ColLetter(ParseNat(n2))])
  }

  /**
    One comma-free text: `empty()` gives nothing; `X-Y` gives the columns from
    `colNumber(X)` to `colNumber(Y)`; `^[1-9:]+$` gives one `L1:L2` token;
    `^[a-z1-9:\$]+$` gives the text upper-cased without digits and `$`;
    anything else gives nothing. The separators count only past position 0.
  */
  function PieceRange(s: string, corrected: bool): (r: Option<seq<string>>)
    ensures r.None? ==> AreaText(s, corrected)
  {
    if IsEmptyText(s) then Some([])
    else if 0 < Find(s, '-') < |s| then Some(DashRange(s))
    else if AreaText(s, corrected) then AreaRange(s)
    else if TokenText(s, corrected) then Some([Token(s)])
    else Some([])
  }

  /** `[$num1, $num2] = explode('-', s)`, then the columns from `colNumber($num1)` to `colNumber($num2)`. */
  function DashRange(s: string): seq<string> {
    var i := Find(s, '-');
    var rest := if i < |s| then s[i + 1..] else [];
    Span(ColNumber(s[..i]), ColNumber(rest[..Find(rest, '-')]))
  }

  /** `strtoupper(preg_replace('/\d+|\$/', '', s))`. */
  function Token(s: string): string {
    UpperStr(DropDigits(s))
  }

  /** The comma pieces, each trimmed and expanded, concatenated. */
  function PiecesRange(ps: seq<string>, corrected: bool): (r: Option<seq<string>>)
    ensures ps == [] ==> r == Some([])
  {
    if ps == [] then Some([])
    else Append(PieceRange(Trim(ps[0]), corrected), PiecesRange(ps[1..], corrected))
  }

  /** A text argument: a comma past position 0 splits it into pieces. */
  function TextRange(s: string, corrected: bool): Option<seq<string>> {
    if IsEmptyText(s) then Some([])
    else if 0 < Find(s, ',') < |s| then PiecesRange(Explode(s, ','), corrected)
    else PieceRange(s, corrected)
  }

  /** A key PHP's `is_numeric` accepts. */
  predicate KeyNumeric(k: Key) {
    k.Num? || IsNumeric(k.s)
  }

  function KeyValue(k: Key): int
    requires KeyNumeric(k)
  {
    if k.Num? then k.n else ParseNat(k.s)
  }

  /** The column a number key stands for, counted from `base`. */
  function KeyColumn(k: Key, base: int): int
    requires KeyNumeric(k)
  {
    KeyValue(k) + 1 - base
  }

  /**
    The numeric array branch: key `k` gives `colLetter(k + 1 - base)`; a key
    that is not a number cannot be added to and fails.
  */
  function NumberList(items: seq<Key>, base: int): (r: Option<seq<string>>)
    ensures r.Some? <==> forall k :: 0 <= k < |items| ==> KeyNumeric(items[k])
    ensures r.Some? ==> |r.value| == |items|
    ensures r.Some? ==> forall k :: 0 <= k < |items| ==> r.value[k] == ColLetter(KeyColumn(items[k], base))
  {
    if items == [] then Some([])
    else if !KeyNumeric(items[0]) then None
    else
      var rest := NumberList(items[1..], base);
      assert forall k :: 1 <= k < |items| ==> items[k] == items[1..][k - 1];
      Append(Some([ColLetter(KeyColumn(items[0], base))]), rest)
  }

  /**
    The other array branch: every key is expanded on its own, with the
    default base, and the lists are concatenated; a number there is neither
    an array nor a string and gives nothing.
  */
  function TextList(items: seq<Key>, corrected: bool): (r: Option<seq<string>>)
    ensures items == [] ==> r == Some([])
  {
    if items == [] then Some([])
    else
      var head := match items[0] case Num(_) => Some([]) case Str(s) => TextRange(s, corrected);
      Append(head, TextList(items[1..], corrected))
  }

  /** `colLetterRange` with the character classes as written (`corrected` false) or with `0` admitted. */
  function LetterRangeOf(keys: ColumnKeys, base: int, corrected: bool): Option<seq<string>> {
    match keys
    case KeyList(items) =>
      if items == [] then Some([])
      else if KeyNumeric(items[0]) then NumberList(items, base)
      else TextList(items, corrected)
    case KeyText(s) => TextRange(s, corrected)
  }

  /** `colLetterRange` as written: the classes `[1-9:]` and `[a-z1-9:\$]` leave out `0`. */
  function ColLetterRangeAsWritten(keys: ColumnKeys, base: int): Option<seq<string>> {
    LetterRangeOf(keys, base, false)
  }

  /** `colLetterRange` with `0` admitted to both classes. */
  function ColLetterRange(keys: ColumnKeys, base: int): Option<seq<string>> {
    LetterRangeOf(keys, base, true)
  }

  // ---------------------------------------------------------------------------
  // Properties
  // ---------------------------------------------------------------------------

  /** Text without a comma is expanded as one piece. */
  lemma PieceText(s: string, corrected: bool)
    requires ',' !in s
    ensures TextRange(s, corrected) == PieceRange(s, corrected)
  {
    FindAbsent(s, ',');
    TextNoComma(s, corrected);
  }

  /** Text whose search for a comma runs to its end is expanded as one piece. */
  lemma TextNoComma(s: string, corrected: bool)
    requires Find(s, ',') == |s|
    ensures TextRange(s, corrected) == PieceRange(s, corrected)
  {
  }

  /** A list of one trimmed piece expands as that piece. */
  lemma PiecesOne(w: string, corrected: bool)
    requires Trim(w) == w
    ensures PiecesRange([w], corrected) == PieceRange(w, corrected)
  {
    PiecesCons(w, [], corrected);
    SingleList(w);
    AppendNothing(PieceRange(w, corrected));
  }

  lemma SingleList(w: string)
    ensures [w] + [] == [w]
  {
  }

  lemma PairList(p: string, q: string)
    ensures [p] + [q] == [p, q] && [q] + [] == [q]
  {
  }

  /** Appending the empty list changes nothing. */
  lemma AppendNothing(a: Option<seq<string>>)
    ensures Append(a, Some([])) == a
  {
    if a.Some? {
      assert a.value + [] == a.value;
    }
  }

  /** Text without a separator explodes into itself. */
  lemma ExplodeWhole(s: string, c: char)
    requires Find(s, c) == |s|
    ensures Explode(s, c) == [s]
  {
  }

  /** A separator after a first piece that holds none splits off exactly that piece. */
  lemma ExplodeAfter(a: string, c: char, b: string)
    requires c !in a
    ensures Explode(a + [c] + b, c) == [a] + Explode(b, c)
  {
    var s := a + [c] + b;
    FindAfter(a, c, b);
    assert s[..|a|] == a && s[|a| + 1..] == b;
  }

  lemma PiecesCons(p: string, ps: seq<string>, corrected: bool)
    ensures PiecesRange([p] + ps, corrected) == Append(PieceRange(Trim(p), corrected), PiecesRange(ps, corrected))
  {
    assert ([p] + ps)[1..] == ps;
  }

  /** A trimmed text not starting with a comma expands like its comma pieces. */
  lemma TextPieces(b: string, corrected: bool)
    requires Trim(b) == b && (b == [] || b[0] != ',')
    ensures TextRange(b, corrected) == PiecesRange(Explode(b, ','), corrected)
  {
    if 0 < Find(b, ',') < |b| {
      CommaPiecesOf(b, corrected);
    } else {
      NoLeadingComma(b);
      WholePieces(b, corrected);
    }
  }

  lemma CommaPiecesOf(b: string, corrected: bool)
    requires 0 < Find(b, ',') < |b|
    ensures TextRange(b, corrected) == PiecesRange(Explode(b, ','), corrected)
  {
  }

  lemma WholePieces(b: string, corrected: bool)
    requires Trim(b) == b && Find(b, ',') == |b|
    ensures TextRange(b, corrected) == PiecesRange(Explode(b, ','), corrected)
  {
    ExplodeWhole(b, ',');
    TextNoComma(b, corrected);
    PiecesOne(b, corrected);
  }

  lemma NoLeadingComma(b: string)
    requires b == [] || b[0] != ','
    requires !(0 < Find(b, ',') < |b|)
    ensures Find(b, ',') == |b|
  {
  }

  /**
    A comma after a first piece `a` splits the text: the result is the
    expansion of `a` followed by the expansion of the rest.
  */
  lemma CommaList(a: string, b: string, corrected: bool)
    requires a != [] && ',' !in a && Trim(a) == a
    requires Trim(b) == b && (b == [] || b[0] != ',')
    ensures TextRange(a + "," + b, corrected) == Append(PieceRange(a, corrected), TextRange(b, corrected))
  {
    CommaJoin(a, b);
    CommaSplit(a, b, a + [','] + b, corrected);
  }

  lemma CommaJoin(a: string, b: string)
    ensures a + "," + b == a + [','] + b
  {
  }

  lemma CommaSplit(a: string, b: string, s: string, corrected: bool)
    requires a != [] && ',' !in a && Trim(a) == a
    requires Trim(b) == b && (b == [] || b[0] != ',')
    requires s == a + [','] + b
    ensures TextRange(s, corrected) == Append(PieceRange(a, corrected), TextRange(b, corrected))
  {
    CommaPieces(a, b, s, corrected);
    PiecesCons(a, Explode(b, ','), corrected);
    TextPieces(b, corrected);
  }

  /** Text cut at its first comma expands as the first piece and the rest's pieces. */
  lemma CommaPieces(a: string, b: string, s: string, corrected: bool)
    requires a != [] && ',' !in a
    requires s == a + [','] + b
    ensures TextRange(s, corrected) == PiecesRange([a] + Explode(b, ','), corrected)
  {
    FindAfter(a, ',', b);
    TextOfComma(s, corrected);
    ExplodeAfter(a, ',', b);
  }

  /** Within the sheet, the `-` span lists consecutive columns, `lo` first. */
  lemma SpanColumns(lo: int, hi: int)
    requires 1 <= lo && hi <= MaxCol
    ensures forall i :: 0 <= i < |Span(lo, hi)| ==> ColNumber(Span(lo, hi)[i]) == lo + i
  {
    var r := Span(lo, hi);
    forall i | 0 <= i < |r|
      ensures ColNumber(r[i]) == lo + i
    {
      SpanColumnAt(r, lo, hi, i, lo + i);
    }
  }

  lemma SpanColumnAt(r: seq<string>, lo: int, hi: int, i: int, n: int)
    requires 1 <= lo && hi <= MaxCol && r == Span(lo, hi)
    requires 0 <= i < |r| && n == lo + i
    ensures ColNumber(r[i]) == n
  {
    SpanEntryAt(r, lo, hi, i, n);
    ColNumberOfColLetter(n);
  }

  lemma SpanEntryAt(r: seq<string>, lo: int, hi: int, i: int, n: int)
    requires r == Span(lo, hi)
    requires 0 <= i < |r| && n == lo + i
    ensures r[i] == ColLetter(n) && lo <= n <= hi
  {
  }

  /** The letters of a column below the last are followed by `colLetterNext` of them. */
  lemma NextColumn(n: int)
    requires 1 <= n < MaxCol
    ensures ColLetterNext(ByText(ColLetter(n))) == ColLetter(n + 1)
  {
    var l := ColLetter(n);
    ColNumberOfColLetter(n);
    assert AllLetters(l);
    ColLetterNextSplit(l, "");
    assert l + "" == l;
  }

  /** Each column of the span is `colLetterNext` of the one before. */
  lemma SpanNext(lo: int, hi: int)
    requires 1 <= lo && hi <= MaxCol
    ensures forall i :: 0 < i < |Span(lo, hi)| ==> Span(lo, hi)[i] == ColLetterNext(ByText(Span(lo, hi)[i - 1]))
  {
    var r := Span(lo, hi);
    forall i | 0 < i < |r|
      ensures r[i] == ColLetterNext(ByText(r[i - 1]))
    {
      SpanNextAt(r, lo, hi, i - 1, lo + i - 1);
    }
  }

  lemma SpanNextAt(r: seq<string>, lo: int, hi: int, j: int, n: int)
    requires 1 <= lo && hi <= MaxCol && r == Span(lo, hi)
    requires 0 <= j && j + 1 < |r| && n == lo + j
    ensures r[j + 1] == ColLetterNext(ByText(r[j]))
  {
    SpanPairAt(r, lo, hi, j, n);
    NextColumn(n);
  }

  lemma SpanPairAt(r: seq<string>, lo: int, hi: int, j: int, n: int)
    requires r == Span(lo, hi)
    requires 0 <= j && j + 1 < |r| && n == lo + j
    ensures r[j] == ColLetter(n) && r[j + 1] == ColLetter(n + 1)
  {
  }

  /** The `-` branch splits `X-Y` into `X` and `Y`. */
  lemma DashSplit(x: string, y: string)
    requires x != [] && '-' !in x && '-' !in y
    ensures Find(x + "-" + y, '-') == |x|
    ensures DashRange(x + "-" + y) == Span(ColNumber(x), ColNumber(y))
  {
    var s := x + "-" + y;
    FindAfter(x, '-', y);
    assert s[..|x|] == x && s[|x| + 1..] == y;
    FindAbsent(y, '-');
    assert y[..|y|] == y;
  }

  /** `X-Y` lists the columns from `colNumber(X)` to `colNumber(Y)`. */
  lemma SpanText(x: string, y: string, corrected: bool)
    requires x != [] && '-' !in x && ',' !in x
    requires '-' !in y && ',' !in y
    ensures TextRange(x + "-" + y, corrected) == Some(Span(ColNumber(x), ColNumber(y)))
  {
    var s := x + "-" + y;
    DashSplit(x, y);
    assert ',' !in s;
    PieceText(s, corrected);
  }

  /** `n1:n2` is split at its first colon into the two numbers. */
  lemma AreaSplit(a: string, b: string)
    requires IsNumeric(a) && IsNumeric(b)
    ensures forall j :: 0 <= j < |a + ":" + b| ==> IsDigit((a + ":" + b)[j]) || (a + ":" + b)[j] == ':'
    ensures AreaRange(a + ":" + b) == Some([ColLetter(ParseNat(a)) + ":" + ColLetter(ParseNat(b))])
  {
    var s := a + ":" + b;
    forall j | 0 <= j < |s|
      ensures IsDigit(s[j]) || s[j] == ':'
    {
      if j < |a| {
        assert s[j] == a[j];
      } else if j > |a| {
        assert s[j] == b[j - |a| - 1];
      }
    }
    FindAfter(a, ':', b);
    assert s[..|a|] == a && s[|a| + 1..] == b;
    FindAbsent(b, ':');
    assert b[..|b|] == b;
  }

  /** Written-out numbers joined by a colon match `^[1-9:]+$` when they have no digit 0. */
  lemma AreaTextOf(a: string, b: string, corrected: bool)
    requires IsNumeric(a) && IsNumeric(b)
    requires corrected || ('0' !in a && '0' !in b)
    ensures AreaText(a + ":" + b, corrected)
    ensures '-' !in a + ":" + b && ',' !in a + ":" + b
  {
    var s := a + ":" + b;
    forall j | 0 <= j < |s|
      ensures ClassDigit(s[j], corrected) || s[j] == ':'
    {
      if j < |a| {
        assert s[j] == a[j];
      } else if j > |a| {
        assert s[j] == b[j - |a| - 1];
      }
    }
  }

  /** `n1:n2`, both numbers written out, is the one token `L1:L2` of their columns. */
  lemma AreaColumns(n1: nat, n2: nat, corrected: bool)
    requires corrected || ('0' !in NatToString(n1) && '0' !in NatToString(n2))
    ensures TextRange(NatToString(n1) + ":" + NatToString(n2), corrected)
      == Some([ColLetter(n1) + ":" + ColLetter(n2)])
  {
    var a, b := NatToString(n1), NatToString(n2);
    var s := a + ":" + b;
    AreaTextOf(a, b, corrected);
    AreaSplit(a, b);
    FindAbsent(s, '-');
    PieceText(s, corrected);
    ParseNatToString(n1);
    ParseNatToString(n2);
  }

  /** The column letters of a parsed range: `MIN:MAX`, or `MIN` for a single cell. */
  function ColumnsOf(g: RangeInfo): string {
    g.min.letters + (if g.max.Some? then ":" + g.max.value.letters else "")
  }

  lemma {:induction false} DropDigitsUpper(s: string)
    ensures DropDigits(UpperStr(s)) == UpperStr(DropDigits(s))
  {
    if s != [] {
      assert UpperStr(s) == [ToUpper(s[0])] + UpperStr(s[1..]);
      DropDigitsUpper(s[1..]);
      DropDigitsConcat([ToUpper(s[0])], UpperStr(s[1..]));
      DropDigitsConcat([s[0]], s[1..]);
      UpperConcat(DropDigits([s[0]]), DropDigits(s[1..]));
    }
  }

  /** Dropping digits and markers from a corner leaves its letters. */
  lemma DropDigitsMarked(c: Cell)
    requires c.WellFormed()
    ensures DropDigits(c.Marked()) == c.letters
  {
    var l, d := c.letters, c.digits;
    DropDigitsConcat(Mark(c.colAbs) + l + Mark(c.rowAbs), d);
    DropDigitsConcat(Mark(c.colAbs) + l, Mark(c.rowAbs));
    DropDigitsConcat(Mark(c.colAbs), l);
    assert AllLetters(l);
    DropDigitsLetters(l);
    DropDigitsGone(d);
  }

  lemma {:induction false} DropDigitsGone(s: string)
    requires AllDigits(s)
    ensures DropDigits(s) == []
  {
    if s != [] {
      DropDigitsGone(s[1..]);
    }
  }

  /** The characters of text in the address grammar. */
  lemma ParsedChars(s: string)
    requires RangeArray(s).Some?
    ensures forall j :: 0 <= j < |s| ==> IsLetter(s[j]) || IsDigit(s[j]) || s[j] == '$' || s[j] == ':'
  {
    var g := RangeArray(s).value;
    MarkedChars(g.min);
    if g.max.Some? {
      MarkedChars(g.max.value);
    }
    var u := g.Source();
    assert forall j :: 0 <= j < |u| ==> u[j] == '$' || IsUpper(u[j]) || IsDigit(u[j]) || u[j] == ':' by {
      forall j | 0 <= j < |u|
        ensures u[j] == '$' || IsUpper(u[j]) || IsDigit(u[j]) || u[j] == ':'
      {
        var m := |g.min.Marked()|;
        if j < m {
          assert u[j] == g.min.Marked()[j];
        } else if j > m {
          assert u[j] == g.max.value.Marked()[j - m - 1];
        }
      }
    }
    forall j | 0 <= j < |s|
      ensures IsLetter(s[j]) || IsDigit(s[j]) || s[j] == '$' || s[j] == ':'
    {
      assert u[j] == ToUpper(s[j]);
    }
  }

  /** Dropping digits and markers from a descriptor's source leaves its column letters. */
  lemma DropDigitsSource(g: RangeInfo)
    requires g.WellFormed()
    ensures DropDigits(g.Source()) == ColumnsOf(g)
  {
    DropDigitsMarked(g.min);
    if g.max.Some? {
      DropDigitsMarked(g.max.value);
      DropDigitsConcat(g.min.Marked(), ":" + g.max.value.Marked());
      DropDigitsConcat(":", g.max.value.Marked());
    } else {
      assert g.Source() == g.min.Marked();
    }
  }

  /** The token of an address or range is its column letters. */
  lemma TokenOfAddress(s: string)
    requires RangeArray(s).Some?
    ensures Token(s) == ColumnsOf(RangeArray(s).value)
  {
    DropDigitsUpper(s);
    DropDigitsSource(RangeArray(s).value);
  }

  /** Text in the address grammar takes the token branch of a piece. */
  lemma AddressBranch(s: string, corrected: bool)
    requires RangeArray(s).Some?
    requires corrected || '0' !in s
    ensures PieceRange(s, corrected) == Some([Token(s)])
    ensures ',' !in s
  {
    AddressClasses(s);
    ParsedNotNumeric(s);
    TokenBranch(s, corrected);
  }

  /** Non-numeric text of letters, digits, `$` and `:` that is not `n1:n2` is one token. */
  lemma TokenBranch(s: string, corrected: bool)
    requires s != [] && !IsNumeric(s) && !AreaText(s, corrected) && Find(s, '-') == |s|
    requires forall j :: 0 <= j < |s| ==> IsLetter(s[j]) || IsDigit(s[j]) || s[j] == '$' || s[j] == ':'
    requires corrected || '0' !in s
    ensures PieceRange(s, corrected) == Some([Token(s)])
  {
    TokenChars(s, corrected);
  }

  /** Letters, digits other than a refused 0, `$` and `:` match the token class. */
  lemma TokenChars(s: string, corrected: bool)
    requires s != []
    requires forall j :: 0 <= j < |s| ==> IsLetter(s[j]) || IsDigit(s[j]) || s[j] == '$' || s[j] == ':'
    requires corrected || '0' !in s
    ensures TokenText(s, corrected)
  {
    forall j | 0 <= j < |s|
      ensures IsLetter(s[j]) || ClassDigit(s[j], corrected) || s[j] == ':' || s[j] == '$'
    {
      assert s[j] in s;
    }
  }

  /**
    Text in the address grammar holds a letter, so it is not `n1:n2`, and
    holds no `-` and no `,`.
  */
  lemma AddressClasses(s: string)
    requires RangeArray(s).Some?
    ensures s != [] && !AreaText(s, true) && !AreaText(s, false)
    ensures forall j :: 0 <= j < |s| ==> IsLetter(s[j]) || IsDigit(s[j]) || s[j] == '$' || s[j] == ':'
    ensures Find(s, '-') == |s| && ',' !in s
  {
    var g := RangeArray(s).value;
    ParsedChars(s);
    var k := |Mark(g.min.colAbs)|;
    assert g.Source()[k] == g.min.letters[0];
    assert UpperStr(s)[k] == ToUpper(s[k]);
    assert IsLetter(s[k]);
    FindAbsent(s, '-');
  }

  /**
    An address or range is the one token of its column letters, `B1:E8`
    giving `B:E`; as written this holds only when its rows have no digit 0.
  */
  lemma AddressToken(s: string, corrected: bool)
    requires RangeArray(s).Some?
    requires corrected || '0' !in s
    ensures TextRange(s, corrected) == Some([ColumnsOf(RangeArray(s).value)])
  {
    AddressBranch(s, corrected);
    PieceText(s, corrected);
    TokenOfAddress(s);
  }

  /** As written, an address or range holding a digit 0 gives nothing: `B10:E20` gives `[]`. */
  lemma AddressWithZero(s: string)
    requires RangeArray(s).Some? && '0' in s
    ensures TextRange(s, false) == Some([])
  {
    AddressClasses(s);
    ParsedNotNumeric(s);
    assert !TokenText(s, false);
    PieceText(s, false);
  }

  /** As written, `n1:n2` with a digit 0 in either number gives nothing: `10:20` gives `[]`. */
  lemma AreaWithZero(n1: nat, n2: nat)
    requires '0' in NatToString(n1) || '0' in NatToString(n2)
    ensures TextRange(NatToString(n1) + ":" + NatToString(n2), false) == Some([])
  {
    var a, b := NatToString(n1), NatToString(n2);
    var s := a + ":" + b;
    AreaTextOf(a, b, true);
    ZeroOutsideClasses(a, b);
    FindAbsent(s, '-');
    PieceText(s, false);
  }

  lemma ZeroOutsideClasses(a: string, b: string)
    requires '0' in a || '0' in b
    ensures !AreaText(a + ":" + b, false) && !TokenText(a + ":" + b, false)
  {
    var s := a + ":" + b;
    if '0' in a {
      var j :| 0 <= j < |a| && a[j] == '0';
      assert s[j] == '0';
    } else {
      var j :| 0 <= j < |b| && b[j] == '0';
      assert s[|a| + 1 + j] == '0';
    }
  }

  /** Column letters in any case are the one token of their upper-cased letters. */
  lemma LettersToken(l: string, corrected: bool)
    requires l != [] && AllLetters(l)
    ensures TextRange(l, corrected) == Some([UpperStr(l)])
  {
    assert !IsDigit(l[0]);
    assert !AreaText(l, corrected);
    assert TokenText(l, corrected);
    FindAbsent(l, '-');
    PieceText(l, corrected);
    DropDigitsLetters(l);
  }

  lemma {:induction false} DropDigitsLetters(s: string)
    requires AllLetters(s)
    ensures DropDigits(s) == s
  {
    if s != [] {
      DropDigitsLetters(s[1..]);
    }
  }

  /**
    Number keys inside the sheet give the columns `key + 1 - base`; they never
    reach the character classes, so both readings agree.
  */
  lemma NumberColumns(keys: seq<int>, base: int)
    requires keys != []
    requires forall k :: 0 <= k < |keys| ==> 1 <= keys[k] + 1 - base <= MaxCol
    ensures var r := ColLetterRange(KeyList(Numbers(keys)), base);
      && r.Some? && |r.value| == |keys|
      && forall k :: 0 <= k < |keys| ==> ColNumber(r.value[k]) == keys[k] + 1 - base
    ensures ColLetterRangeAsWritten(KeyList(Numbers(keys)), base) == ColLetterRange(KeyList(Numbers(keys)), base)
  {
    var r := NumberList(Numbers(keys), base);
    forall k | 0 <= k < |keys|
      ensures ColNumber(r.value[k]) == keys[k] + 1 - base
    {
      ColNumberOfColLetter(KeyColumn(Num(keys[k]), base));
    }
  }

  function Numbers(keys: seq<int>): (r: seq<Key>)
    ensures |r| == |keys| && forall k :: 0 <= k < |r| ==> r[k] == Num(keys[k])
  {
    seq(|keys|, k requires 0 <= k < |keys| => Num(keys[k]))
  }

  function Words(ws: seq<string>): (r: seq<Key>)
    ensures |r| == |ws| && forall k :: 0 <= k < |r| ==> r[k] == Str(ws[k])
  {
    seq(|ws|, k requires 0 <= k < |ws| => Str(ws[k]))
  }

  /** Comma-free trimmed texts expand one by one as they do as pieces of a comma list. */
  lemma {:induction false} WordsPieces(ws: seq<string>, corrected: bool)
    requires forall k :: 0 <= k < |ws| ==> ',' !in ws[k] && Trim(ws[k]) == ws[k]
    ensures TextList(Words(ws), corrected) == PiecesRange(ws, corrected)
  {
    if ws != [] {
      assert forall k :: 0 <= k < |ws[1..]| ==> ws[1..][k] == ws[k + 1];
      WordsPieces(ws[1..], corrected);
      WordsPiecesStep(ws, corrected);
    }
  }

  lemma WordsPiecesStep(ws: seq<string>, corrected: bool)
    requires ws != [] && ',' !in ws[0] && Trim(ws[0]) == ws[0]
    requires TextList(Words(ws[1..]), corrected) == PiecesRange(ws[1..], corrected)
    ensures TextList(Words(ws), corrected) == PiecesRange(ws, corrected)
  {
    PieceText(ws[0], corrected);
    TextListCons(ws, corrected);
    PiecesCons(ws[0], ws[1..], corrected);
    ConsSplit(ws);
  }

  lemma ConsSplit(ws: seq<string>)
    requires ws != []
    ensures [ws[0]] + ws[1..] == ws
  {
  }

  /** The text list of words is the first word's expansion followed by the rest's. */
  lemma TextListCons(ws: seq<string>, corrected: bool)
    requires ws != []
    ensures TextList(Words(ws), corrected) == Append(TextRange(ws[0], corrected), TextList(Words(ws[1..]), corrected))
  {
    assert Words(ws)[1..] == Words(ws[1..]);
  }

  /** An array whose first key is not a number takes the text-list branch. */
  lemma WordsBranch(ws: seq<string>, base: int, corrected: bool)
    requires ws != [] && !IsNumeric(ws[0])
    ensures LetterRangeOf(KeyList(Words(ws)), base, corrected) == TextList(Words(ws), corrected)
  {
    assert Words(ws)[0] == Str(ws[0]);
  }

  /** Pieces that each name one column give those columns, in order. */
  lemma {:induction false} PiecesEach(ps: seq<string>, rs: seq<string>, corrected: bool)
    requires |ps| == |rs|
    requires forall k :: 0 <= k < |ps| ==> PieceRange(Trim(ps[k]), corrected) == Some([rs[k]])
    ensures PiecesRange(ps, corrected) == Some(rs)
  {
    if ps != [] {
      PiecesEach(ps[1..], rs[1..], corrected);
      PiecesEachStep(ps, rs, corrected);
    }
  }

  lemma PiecesEachStep(ps: seq<string>, rs: seq<string>, corrected: bool)
    requires |ps| == |rs| && ps != []
    requires PieceRange(Trim(ps[0]), corrected) == Some([rs[0]])
    requires PiecesRange(ps[1..], corrected) == Some(rs[1..])
    ensures PiecesRange(ps, corrected) == Some(rs)
  {
    ConsSplit(rs);
  }

  /** Two pieces give the first one's columns followed by the second one's. */
  lemma PiecesPair(p: string, q: string, a: seq<string>, b: seq<string>, corrected: bool)
    requires PieceRange(Trim(p), corrected) == Some(a) && PieceRange(Trim(q), corrected) == Some(b)
    ensures PiecesRange([p, q], corrected) == Some(a + b)
  {
    PiecesCons(p, [q], corrected);
    PiecesCons(q, [], corrected);
    PairList(p, q);
    AppendNothing(Some(b));
  }

  /** Text with a comma past position 0 expands piece by piece. */
  lemma TextOfComma(s: string, corrected: bool)
    requires 0 < Find(s, ',') < |s|
    ensures TextRange(s, corrected) == PiecesRange(Explode(s, ','), corrected)
  {
  }

  /** A single trimmed piece expands as itself. */
  lemma PiecesSingle(w: string, corrected: bool)
    requires ',' !in w && Trim(w) == w
    ensures PiecesRange([w], corrected) == TextRange(w, corrected)
  {
    PieceText(w, corrected);
    PiecesOne(w, corrected);
  }

  /** Comma-joined trimmed pieces expand piece by piece. */
  lemma ImplodeText(ws: seq<string>, corrected: bool)
    requires ws != [] && ws[0] != []
    requires forall k :: 0 <= k < |ws| ==> ',' !in ws[k]
    requires |ws| == 1 ==> Trim(ws[0]) == ws[0]
    ensures TextRange(Implode(ws, ','), corrected) == PiecesRange(ws, corrected)
  {
    if |ws| == 1 {
      ImplodeOne(ws, corrected);
    } else {
      ImplodeMany(ws, corrected);
    }
  }

  lemma ImplodeOne(ws: seq<string>, corrected: bool)
    requires |ws| == 1 && ',' !in ws[0] && Trim(ws[0]) == ws[0]
    ensures TextRange(Implode(ws, ','), corrected) == PiecesRange(ws, corrected)
  {
    PiecesSingle(ws[0], corrected);
    SingleSeq(ws);
  }

  lemma SingleSeq(ws: seq<string>)
    requires |ws| == 1
    ensures [ws[0]] == ws
  {
  }

  lemma ImplodeMany(ws: seq<string>, corrected: bool)
    requires |ws| >= 2 && ws[0] != []
    requires forall k :: 0 <= k < |ws| ==> ',' !in ws[k]
    ensures TextRange(Implode(ws, ','), corrected) == PiecesRange(ws, corrected)
  {
    ImplodeComma(ws);
    TextOfComma(Implode(ws, ','), corrected);
    ExplodeImplode(ws, ',');
  }

  /** Two or more pieces, the first non-empty, are joined with a comma past position 0. */
  lemma ImplodeComma(ws: seq<string>)
    requires |ws| >= 2 && ws[0] != [] && ',' !in ws[0]
    ensures 0 < Find(Implode(ws, ','), ',') < |Implode(ws, ',')|
  {
    var tail := Implode(ws[1..], ',');
    FindAfter(ws[0], ',', tail);
  }

  /**
    An array of texts (`['B-E', 'F']`) expands like the same texts joined
    with commas (`'B-E,F'`).
  */
  lemma WordsAsText(ws: seq<string>, corrected: bool)
    requires ws != [] && ws[0] != [] && !IsNumeric(ws[0])
    requires forall k :: 0 <= k < |ws| ==> ',' !in ws[k] && Trim(ws[k]) == ws[k]
    ensures LetterRangeOf(KeyList(Words(ws)), 0, corrected) == TextRange(Implode(ws, ','), corrected)
  {
    WordsBranch(ws, 0, corrected);
    WordsPieces(ws, corrected);
    ImplodeText(ws, corrected);
  }

  // ---------------------------------------------------------------------------
  // The two readings of the classes agree on text without `0`
  // ---------------------------------------------------------------------------

  /** Every text of the keys is free of the digit `0`. */
  predicate ZeroFree(keys: ColumnKeys) {
    match keys
    case KeyText(s) => '0' !in s
    case KeyList(items) => forall k :: 0 <= k < |items| ==> items[k].Str? ==> '0' !in items[k].s
  }

  /**
    `colLetterRange` as written and with `0` admitted give the same result
    for every base and every list or text in which no `0` occurs: the classes
    differ only in that one digit.
  */
  lemma LetterRangeAgrees(keys: ColumnKeys, base: int)
    requires ZeroFree(keys)
    ensures ColLetterRangeAsWritten(keys, base) == ColLetterRange(keys, base)
  {
    match keys
    case KeyText(s) => TextAgrees(s);
    case KeyList(items) => TextListAgrees(items);
  }

  lemma ClassesAgree(s: string)
    requires '0' !in s
    ensures AreaText(s, false) == AreaText(s, true) && TokenText(s, false) == TokenText(s, true)
  {
    assert forall j :: 0 <= j < |s| ==> ClassDigit(s[j], false) == ClassDigit(s[j], true);
  }

  lemma PieceAgrees(s: string)
    requires '0' !in s
    ensures PieceRange(s, false) == PieceRange(s, true)
  {
    ClassesAgree(s);
  }

  /** `trim` only removes characters. */
  lemma TrimKeeps(s: string, c: char)
    requires c !in s
    ensures c !in Trim(s)
  {
    var t := TrimStart(s);
    SliceKeeps(s, |s| - |t|, |s|, c);
    SliceKeeps(t, 0, |TrimEnd(t)|, c);
  }

  /** `explode` only splits: a character missing from the text is missing from every piece. */
  lemma {:induction false} ExplodeKeeps(s: string, sep: char, c: char)
    requires c !in s
    ensures forall k :: 0 <= k < |Explode(s, sep)| ==> c !in Explode(s, sep)[k]
    decreases |s|
  {
    var i := Find(s, sep);
    if i < |s| {
      SliceKeeps(s, 0, i, c);
      SliceKeeps(s, i + 1, |s|, c);
      ExplodeKeeps(s[i + 1..], sep, c);
      ExplodeCons(s, sep, i, s[..i], Explode(s[i + 1..], sep), c);
    }
  }

  lemma SliceKeeps(s: string, lo: int, hi: int, c: char)
    requires 0 <= lo <= hi <= |s| && c !in s
    ensures c !in s[lo..hi]
  {
    assert forall j :: 0 <= j < hi - lo ==> s[lo..hi][j] == s[lo + j];
  }

  lemma ExplodeCons(s: string, sep: char, i: nat, head: string, tail: seq<string>, c: char)
    requires i == Find(s, sep) < |s| && head == s[..i] && tail == Explode(s[i + 1..], sep)
    requires c !in head && forall k :: 0 <= k < |tail| ==> c !in tail[k]
    ensures forall k :: 0 <= k < |Explode(s, sep)| ==> c !in Explode(s, sep)[k]
  {
    var ps := Explode(s, sep);
    assert ps == [head] + tail;
    assert forall k :: 1 <= k < |ps| ==> ps[k] == tail[k - 1];
  }

  lemma {:induction false} PiecesAgree(ps: seq<string>)
    requires forall k :: 0 <= k < |ps| ==> '0' !in ps[k]
    ensures PiecesRange(ps, false) == PiecesRange(ps, true)
  {
    if ps != [] {
      TrimKeeps(ps[0], '0');
      PieceAgrees(Trim(ps[0]));
      assert forall k :: 0 <= k < |ps[1..]| ==> ps[1..][k] == ps[k + 1];
      PiecesAgree(ps[1..]);
    }
  }

  lemma TextAgrees(s: string)
    requires '0' !in s
    ensures TextRange(s, false) == TextRange(s, true)
  {
    if !IsEmptyText(s) && 0 < Find(s, ',') < |s| {
      ExplodeKeeps(s, ',', '0');
      PiecesAgree(Explode(s, ','));
    } else {
      PieceAgrees(s);
    }
  }

  lemma {:induction false} TextListAgrees(items: seq<Key>)
    requires forall k :: 0 <= k < |items| ==> items[k].Str? ==> '0' !in items[k].s
    ensures TextList(items, false) == TextList(items, true)
  {
    if items != [] {
      if items[0].Str? {
        TextAgrees(items[0].s);
      }
      assert forall k :: 0 <= k < |items[1..]| ==> items[1..][k] == items[k + 1];
      TextListAgrees(items[1..]);
    }
  }
}
