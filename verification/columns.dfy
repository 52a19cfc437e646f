/**
  Column and row coordinates (Helper.php, `colNumber`, `colIndex`, `colLetter`,
  `colLetterNext`): column letters are bijective base 26 (A = 1 ... Z = 26,
  AA = 27, ...), bounded by the Excel 2007 limits.
*/
module Columns {
  import opened Text

  const MaxRow: int := 1048576
  const MaxCol: int := 16384

  // ---------------------------------------------------------------------------
  // Letters to numbers
  // ---------------------------------------------------------------------------

  /** `ord(c) - 64` for an upper-case letter. */
  function LetterDigit(c: char): int
    requires IsUpper(c)
  {
    c as int - 64
  }

  /** The bijective base-26 value of upper-case letters, most significant first. */
  function LetterValue(s: string): nat
    requires AllUpper(s)
  {
    if s == [] then 0 else LetterValue(s[..|s| - 1]) * 26 + LetterDigit(s[|s| - 1])
  }

  function Pow26(i: nat): nat {
    if i == 0 then 1 else 26 * Pow26(i - 1)
  }

  /** Moving one letter from the unread part to the total, one position up. */
  lemma ShiftPosition(p: int, front: int, d: int)
    ensures p * (front * 26 + d) == (26 * p) * front + d * p
  {
  }

  /**
    The loop of `colNumber`: walk the letters from the back, adding each
    letter's digit times 26 to the power of its position.
  */
  method LetterValueLoop(letters: string) returns (index: int)
    requires AllUpper(letters)
    ensures index == LetterValue(letters)
  {
    index := 0;
    var i := 0;
    var rest := letters;
    while rest != []
      invariant 0 <= i <= |letters|
      invariant rest == letters[..|letters| - i]
      invariant index + Pow26(i) * LetterValue(rest) == LetterValue(letters)
      decreases |rest|
    {
      var d := LetterDigit(rest[|rest| - 1]);
      var front := rest[..|rest| - 1];
      assert LetterValue(rest) == LetterValue(front) * 26 + d;
      ShiftPosition(Pow26(i), LetterValue(front), d);
      index := index + d * Pow26(i);
      rest := front;
      i := i + 1;
    }
  }

  /**
    `colNumber`: a digit string is its own value (no bound check); otherwise the
    letters are stripped out and upper-cased. Three or more letters sorting
    above "XFD" give `MaxCol`; any other value above `MaxCol` gives -1; text
    without letters gives 0.
  */
  function ColNumber(s: string): (r: int)
    ensures IsNumeric(s) ==> r == ParseNat(s)
    ensures !IsNumeric(s) ==> -1 <= r <= MaxCol
    ensures !IsNumeric(s) ==> (r == 0 <==> StripToLetters(s) == [])
  {
    if IsNumeric(s) then ParseNat(s)
    else
      var letters := StripToLetters(s);
      if |letters| >= 3 && LexLess("XFD", letters) then MaxCol
      else
        var index := LetterValue(letters);
        if index <= MaxCol then index else -1
  }

  /** `colIndex`: zero-based column, passing 0 and -1 through unchanged. */
  function ColIndex(s: string): (r: int)
    ensures ColNumber(s) > 0 ==> r + 1 == ColNumber(s)
    ensures ColNumber(s) <= 0 ==> r == ColNumber(s)
  {
    var n := ColNumber(s);
    if n > 0 then n - 1 else n
  }

  // ---------------------------------------------------------------------------
  // Numbers to letters
  // ---------------------------------------------------------------------------

  /**
    The loop of `colLetter` on a zero-based column `k`: the last letter is
    `k % 26`, and the letters before it are those of `k / 26 - 1` when that is
    not negative.
  */
  function LettersOf(k: nat): (r: string)
    ensures AllUpper(r)
    ensures |r| > 0
  {
    var last := [(k % 26 + 65) as char];
    if k / 26 - 1 >= 0 then LettersOf(k / 26 - 1) + last else last
  }

  /** `colLetter`: the letters of columns 1 .. `MaxCol`, and "" for any other number. */
  function ColLetter(n: int): (r: string)
    ensures AllUpper(r)
    ensures r != [] <==> 1 <= n <= MaxCol
  {
    if 1 <= n <= MaxCol then LettersOf(n - 1) else ""
  }

  // ---------------------------------------------------------------------------
  // The two directions are inverse
  // ---------------------------------------------------------------------------

  lemma LetterValueSnoc(p: string, c: char)
    requires AllUpper(p) && IsUpper(c)
    ensures AllUpper(p + [c])
    ensures LetterValue(p + [c]) == LetterValue(p) * 26 + LetterDigit(c)
  {
    assert (p + [c])[..|p|] == p;
  }

  /** Reading back the letters of zero-based column `k` gives column `k + 1`. */
  lemma {:induction false} LetterValueOfLettersOf(k: nat)
    ensures LetterValue(LettersOf(k)) == k + 1
  {
    var last := (k % 26 + 65) as char;
    if k / 26 - 1 >= 0 {
      LetterValueOfLettersOf(k / 26 - 1);
      LetterValueSnoc(LettersOf(k / 26 - 1), last);
    } else {
      LetterValueSnoc([], last);
      assert [] + [last] == [last];
    }
  }

  /** Non-empty upper-case letters are the letters of their own value. */
  lemma {:induction false} LettersOfLetterValue(s: string)
    requires AllUpper(s) && s != []
    ensures LetterValue(s) >= 1
    ensures LettersOf(LetterValue(s) - 1) == s
  {
    var p := s[..|s| - 1];
    var c := s[|s| - 1];
    assert s == p + [c];
    var k := LetterValue(s) - 1;
    assert k == LetterValue(p) * 26 + (c as int - 65);
    assert k % 26 == c as int - 65;
    assert k / 26 == LetterValue(p);
    assert ((k % 26 + 65) as char) == c;
    if p != [] {
      LettersOfLetterValue(p);
    }
  }

  /** Repunit(n) is the value of n letters "A": the smallest value of length n. */
  function Repunit(n: nat): nat {
    if n == 0 then 0 else Repunit(n - 1) * 26 + 1
  }

  /** n letters are worth between "AA..A" and "ZZ..Z". */
  lemma {:induction false} LetterValueBounds(s: string)
    requires AllUpper(s)
    ensures Repunit(|s|) <= LetterValue(s) <= 26 * Repunit(|s|)
  {
    if s != [] {
      LetterValueBounds(s[..|s| - 1]);
    }
  }

  /** Four or more letters are always beyond the last column. */
  lemma {:induction false} LongLettersBeyond(s: string)
    requires AllUpper(s) && |s| >= 4
    ensures LetterValue(s) > MaxCol
  {
    if |s| == 4 {
      LetterValueBounds(s);
      assert Repunit(4) == 18279;
    } else {
      LongLettersBeyond(s[..|s| - 1]);
    }
  }

  /** One or two letters are always within the columns. */
  lemma ShortLettersWithin(s: string)
    requires AllUpper(s) && |s| <= 2
    ensures LetterValue(s) <= MaxCol
  {
    LetterValueBounds(s);
    assert Repunit(2) == 27;
  }

  /**
    For three letters, sorting above "XFD" byte by byte is the same as having a
    value above the last column: the guard of `colNumber` only fires on
    columns that are really out of range.
  */
  lemma ThreeLettersOrder(s: string)
    requires AllUpper(s) && |s| == 3
    ensures LexLess("XFD", s) <==> LetterValue(s) > MaxCol
  {
    var a, b, c := s[0], s[1], s[2];
    assert s == [a, b] + [c];
    assert [a, b] == [a] + [b];
    assert [a] == [] + [a];
    LetterValueSnoc([], a);
    LetterValueSnoc([a], b);
    LetterValueSnoc([a, b], c);
    var x, y, z := LetterDigit(a), LetterDigit(b), LetterDigit(c);
    assert LetterValue(s) == (x * 26 + y) * 26 + z;
    assert "XFD"[1..] == "FD" && s[1..] == [b, c];
    assert "FD"[1..] == "D" && [b, c][1..] == [c];
    assert "D"[1..] == [] && [c][1..] == [];
    assert LexLess("D", [c]) <==> z > 4;
    assert LexLess("FD", [b, c]) <==> (y > 6 || (y == 6 && z > 4));
    assert LexLess("XFD", s) <==> (x > 24 || (x == 24 && (y > 6 || (y == 6 && z > 4))));
  }

  /** When the true value is a column, `colNumber` returns exactly that value. */
  lemma ColNumberWithin(s: string)
    requires !IsNumeric(s)
    requires LetterValue(StripToLetters(s)) <= MaxCol
    ensures ColNumber(s) == LetterValue(StripToLetters(s))
  {
    var letters := StripToLetters(s);
    if |letters| >= 4 {
      LongLettersBeyond(letters);
    } else if |letters| == 3 {
      ThreeLettersOrder(letters);
    }
  }

  /**
    When the true value is beyond the last column, `colNumber` returns `MaxCol`
    exactly when the letters sort above "XFD", and -1 otherwise.
  */
  lemma ColNumberBeyond(s: string)
    requires !IsNumeric(s)
    requires LetterValue(StripToLetters(s)) > MaxCol
    ensures ColNumber(s) == (if LexLess("XFD", StripToLetters(s)) then MaxCol else -1)
  {
    var letters := StripToLetters(s);
    if |letters| <= 2 {
      ShortLettersWithin(letters);
    }
  }

  /** Letters are not a digit string. */
  lemma LettersNotNumeric(s: string)
    requires AllLetters(s) && s != []
    ensures !IsNumeric(s)
  {
    assert !IsDigit(s[0]);
  }

  /** For every column, `colLetter` gives at most three letters and `colNumber` reads them back. */
  lemma ColNumberOfColLetter(n: int)
    requires 1 <= n <= MaxCol
    ensures 1 <= |ColLetter(n)| <= 3
    ensures LetterValue(ColLetter(n)) == n
    ensures ColNumber(ColLetter(n)) == n
  {
    var s := ColLetter(n);
    ColLetterValue(n);
    assert AllLetters(s);
    LettersNotNumeric(s);
    StripLetters(s);
    UpperNoLower(s);
    if |s| >= 4 {
      LongLettersBeyond(s);
    }
    ColNumberWithin(s);
  }

  /** The letters `colLetter` writes for a column have that column as their value. */
  lemma ColLetterValue(n: int)
    requires 1 <= n <= MaxCol
    ensures LetterValue(ColLetter(n)) == n
  {
    LetterValueOfLettersOf(n - 1);
  }

  /** For letters naming a column, `colLetter` of `colNumber` gives them back upper-cased. */
  lemma ColLetterOfColNumber(s: string)
    requires AllLetters(s) && s != []
    requires LetterValue(UpperStr(s)) <= MaxCol
    ensures ColNumber(s) == LetterValue(UpperStr(s))
    ensures 1 <= ColNumber(s) <= MaxCol
    ensures ColLetter(ColNumber(s)) == UpperStr(s)
  {
    LettersNotNumeric(s);
    StripLetters(s);
    ColNumberWithin(s);
    LettersOfLetterValue(UpperStr(s));
  }

  /** Case does not matter to `colNumber` on letters. */
  lemma ColNumberIgnoresCase(s: string)
    requires AllLetters(s) && s != []
    ensures ColNumber(s) == ColNumber(UpperStr(s))
  {
    var u := UpperStr(s);
    assert AllLetters(u);
    LettersNotNumeric(s);
    LettersNotNumeric(u);
    StripLetters(s);
    StripLetters(u);
    UpperNoLower(u);
  }

  /** `colIndex` is one below the column for any letters naming a column. */
  lemma ColIndexOfColLetter(n: int)
    requires 1 <= n <= MaxCol
    ensures ColIndex(ColLetter(n)) == n - 1
  {
    ColNumberOfColLetter(n);
  }

  // ---------------------------------------------------------------------------
  // colLetterNext
  // ---------------------------------------------------------------------------

  /** The argument of `colLetterNext`: a number, or text. */
  datatype ColumnRef = ByNumber(n: int) | ByText(s: string)

  /**
    `colLetterNext`: a number (or digit text) `n` gives the letters of column
    `n + 1`; letters with an optional digit suffix give the letters of the next
    column followed by the same suffix; anything else gives "".
  */
  function ColLetterNext(col: ColumnRef): (r: string)
    ensures col.ByNumber? ==> AllUpper(r)
  {
    match col
    case ByNumber(n) => ColLetter(n + 1)
    case ByText(s) =>
      if IsNumeric(s) then ColLetter(ParseNat(s) + 1)
      else
        var n := LetterSpan(s);
        if n > 0 && AllDigits(s[n..]) then ColLetter(ColNumber(s[..n]) + 1) + s[n..]
        else ""
  }

  /** Digit text advances like the number it spells. */
  lemma ColLetterNextDigits(n: nat)
    ensures ColLetterNext(ByText(NatToString(n))) == ColLetterNext(ByNumber(n))
  {
    ParseNatToString(n);
  }

  /** A number below the last column advances to the next column. */
  lemma ColLetterNextNumber(n: int)
    requires 0 <= n < MaxCol
    ensures ColNumber(ColLetterNext(ByNumber(n))) == n + 1
  {
    ColNumberOfColLetter(n + 1);
  }

  /**
    Letters `l` below the last column followed by digits `d` advance to the
    letters of the next column followed by the same `d`.
  */
  lemma ColLetterNextText(l: string, d: string)
    requires AllLetters(l) && l != [] && AllDigits(d)
    requires LetterValue(UpperStr(l)) < MaxCol
    ensures var r := ColLetterNext(ByText(l + d));
      && |r| > |d|
      && r[|r| - |d|..] == d
      && AllUpper(r[..|r| - |d|])
      && ColNumber(r[..|r| - |d|]) == ColNumber(l) + 1
  {
    ColLetterNextSplit(l, d);
    ColLetterOfColNumber(l);
    var next := ColLetter(ColNumber(l) + 1);
    ColNumberOfColLetter(ColNumber(l) + 1);
    var r := next + d;
    assert r[..|r| - |d|] == next;
    assert r[|r| - |d|..] == d;
  }

  /** Text of letters `l` and digits `d` is split by `colLetterNext` into exactly `l` and `d`. */
  lemma ColLetterNextSplit(l: string, d: string)
    requires AllLetters(l) && l != [] && AllDigits(d)
    ensures ColLetterNext(ByText(l + d)) == ColLetter(ColNumber(l) + 1) + d
  {
    var s := l + d;
    assert !IsDigit(s[0]);
    LetterSpanConcat(l, d);
    assert s[..|l|] == l && s[|l|..] == d;
  }

  /** Text that is not digits and cannot be cut into letters and digits gives "". */
  lemma ColLetterNextOther(s: string)
    requires !IsNumeric(s)
    requires forall k :: 0 < k <= |s| ==> !(AllLetters(s[..k]) && AllDigits(s[k..]))
    ensures ColLetterNext(ByText(s)) == ""
  {
    var n := LetterSpan(s);
    if n > 0 {
      assert !(AllLetters(s[..n]) && AllDigits(s[n..]));
    }
  }
}
