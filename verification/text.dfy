/**
  Character classes, ASCII upper-casing, decimal rendering and parsing, and the
  byte-wise string order that the address functions are built from.
  Only ASCII is modelled: the regular expressions of the source use `[a-z]`
  with the `i` flag and `\d` without the Unicode flag.
*/
module Text {

  predicate IsDigit(c: char) { '0' <= c <= '9' }
  predicate IsUpper(c: char) { 'A' <= c <= 'Z' }
  predicate IsLower(c: char) { 'a' <= c <= 'z' }
  predicate IsLetter(c: char) { IsUpper(c) || IsLower(c) }

  predicate AllDigits(s: string) { forall i :: 0 <= i < |s| ==> IsDigit(s[i]) }
  predicate AllUpper(s: string) { forall i :: 0 <= i < |s| ==> IsUpper(s[i]) }
  predicate AllLetters(s: string) { forall i :: 0 <= i < |s| ==> IsLetter(s[i]) }

  /** PHP's `is_numeric`, restricted to unsigned decimal integers. */
  predicate IsNumeric(s: string) { |s| > 0 && AllDigits(s) }

  /** PHP's `empty()` on a string: the empty string and "0" are empty. */
  predicate IsEmptyText(s: string) { s == "" || s == "0" }

  // ---------------------------------------------------------------------------
  // Upper-casing (`strtoupper`) and letter stripping
  // ---------------------------------------------------------------------------

  function ToUpper(c: char): (u: char)
    ensures IsLetter(c) ==> IsUpper(u)
    ensures !IsLower(c) ==> u == c
  {
    if IsLower(c) then (c as int - 32) as char else c
  }

  function UpperStr(s: string): (r: string)
    ensures |r| == |s|
    ensures forall i :: 0 <= i < |s| ==> r[i] == ToUpper(s[i])
  {
    seq(|s|, i requires 0 <= i < |s| => ToUpper(s[i]))
  }

  lemma UpperConcat(a: string, b: string)
    ensures UpperStr(a + b) == UpperStr(a) + UpperStr(b)
  {
  }

  /** Upper-casing leaves text without lower-case letters alone. */
  lemma UpperNoLower(s: string)
    requires forall i :: 0 <= i < |s| ==> !IsLower(s[i])
    ensures UpperStr(s) == s
  {
  }

  /**
    `preg_replace('/[^A-Z]/i', '', strtoupper(s))`: the upper-cased letters of
    `s`, in order.
  */
  function StripToLetters(s: string): (r: string)
    ensures AllUpper(r)
    ensures |r| <= |s|
  {
    if s == [] then []
    else (if IsLetter(s[0]) then [ToUpper(s[0])] else []) + StripToLetters(s[1..])
  }

  /** On letter-only text, stripping is just upper-casing. */
  lemma {:induction false} StripLetters(s: string)
    requires AllLetters(s)
    ensures StripToLetters(s) == UpperStr(s)
  {
    if s != [] {
      StripLetters(s[1..]);
      assert UpperStr(s) == [ToUpper(s[0])] + UpperStr(s[1..]);
    }
  }

  /** Length of the longest prefix of `s` made of ASCII letters (`[a-z]+` with `i`). */
  function LetterSpan(s: string): (n: nat)
    ensures n <= |s|
    ensures AllLetters(s[..n])
    ensures n < |s| ==> !IsLetter(s[n])
  {
    if s == [] || !IsLetter(s[0]) then 0
    else
      var m := LetterSpan(s[1..]);
      assert s[..1 + m] == [s[0]] + s[1..][..m];
      1 + m
  }

  /** The letter prefix of `a + b` is `a` when `b` does not start with a letter. */
  lemma {:induction false} LetterSpanConcat(a: string, b: string)
    requires AllLetters(a)
    requires b == [] || !IsLetter(b[0])
    ensures LetterSpan(a + b) == |a|
  {
    if a != [] {
      assert (a + b)[1..] == a[1..] + b;
      LetterSpanConcat(a[1..], b);
    }
  }

  /** Length of the longest prefix of `s` made of digits (`\d+`). */
  function DigitSpan(s: string): (n: nat)
    ensures n <= |s|
    ensures AllDigits(s[..n])
    ensures n < |s| ==> !IsDigit(s[n])
  {
    if s == [] || !IsDigit(s[0]) then 0
    else
      var m := DigitSpan(s[1..]);
      assert s[..1 + m] == [s[0]] + s[1..][..m];
      1 + m
  }

  /** Length of the prefix of `s` matched by `(-?\d+)?`: 0 when there is none. */
  function SignedSpan(s: string): (n: nat)
    ensures n <= |s|
    ensures n > 0 ==> IsSignedNumeric(s[..n])
  {
    if |s| > 0 && s[0] == '-' && DigitSpan(s[1..]) > 0 then
      var m := DigitSpan(s[1..]);
      assert s[..1 + m][1..] == s[1..][..m];
      1 + m
    else DigitSpan(s)
  }

  /**
    `(-?\d+)?` is greedy: the text after the match does not start with a
    digit, and an empty match leaves no `-` followed by a digit.
  */
  lemma SignedSpanEnds(s: string)
    ensures SignedSpan(s) < |s| ==> !IsDigit(s[SignedSpan(s)])
    ensures SignedSpan(s) == 0 ==> !(|s| > 1 && s[0] == '-' && IsDigit(s[1]))
  {
    if |s| > 0 && s[0] == '-' && DigitSpan(s[1..]) > 0 {
      var m := DigitSpan(s[1..]);
      assert 1 + m < |s| ==> s[1 + m] == s[1..][m];
    } else if |s| > 1 && s[0] == '-' {
      assert s[1..][0] == s[1];
    }
  }

  /** The digit prefix of `a + b` is `a` when `b` does not start with a digit. */
  lemma {:induction false} DigitSpanConcat(a: string, b: string)
    requires AllDigits(a)
    requires b == [] || !IsDigit(b[0])
    ensures DigitSpan(a + b) == |a|
  {
    if a != [] {
      assert (a + b)[1..] == a[1..] + b;
      DigitSpanConcat(a[1..], b);
    }
  }

  /** The signed-number prefix of `a + b` is `a` when `b` does not start with a digit. */
  lemma SignedSpanConcat(a: string, b: string)
    requires IsSignedNumeric(a)
    requires b == [] || !IsDigit(b[0])
    ensures SignedSpan(a + b) == |a|
  {
    if a[0] == '-' {
      assert (a + b)[1..] == a[1..] + b;
      DigitSpanConcat(a[1..], b);
    } else {
      DigitSpanConcat(a, b);
    }
  }

  /** A signed number is written with digits and a minus sign only. */
  lemma SignedChars(s: string)
    requires IsSignedNumeric(s)
    ensures s != []
    ensures forall j :: 0 <= j < |s| ==> IsDigit(s[j]) || s[j] == '-'
  {
    if !IsNumeric(s) {
      forall j | 1 <= j < |s|
        ensures IsDigit(s[j])
      {
        assert s[j] == s[1..][j - 1];
      }
    }
  }

  // ---------------------------------------------------------------------------
  // Decimal numbers
  // ---------------------------------------------------------------------------

  function DigitValue(c: char): nat
    requires IsDigit(c)
  {
    c as int - '0' as int
  }

  function DigitChar(d: nat): (c: char)
    requires d < 10
    ensures IsDigit(c) && DigitValue(c) == d
  {
    ('0' as int + d) as char
  }

  /** PHP's `(int)` cast of a digit string: leading zeros are ignored. */
  function ParseNat(s: string): nat
    requires AllDigits(s)
  {
    if s == [] then 0 else ParseNat(s[..|s| - 1]) * 10 + DigitValue(s[|s| - 1])
  }

  /** PHP's conversion of a non-negative integer to a string: no leading zero. */
  function NatToString(n: nat): (r: string)
    ensures IsNumeric(r)
    ensures n > 0 ==> r[0] != '0'
    ensures n == 0 ==> r == "0"
  {
    if n < 10 then [DigitChar(n)] else NatToString(n / 10) + [DigitChar(n % 10)]
  }

  lemma {:induction false} ParseNatToString(n: nat)
    ensures ParseNat(NatToString(n)) == n
  {
    if n >= 10 {
      var s := NatToString(n);
      assert s[..|s| - 1] == NatToString(n / 10);
      ParseNatToString(n / 10);
    }
  }

  /** A `-?\d+` token. */
  predicate IsSignedNumeric(s: string) {
    IsNumeric(s) || (|s| >= 2 && s[0] == '-' && IsNumeric(s[1..]))
  }

  function ParseInt(s: string): int
    requires IsSignedNumeric(s)
  {
    if s[0] == '-' then -(ParseNat(s[1..]) as int) else ParseNat(s)
  }

  function IntToString(i: int): (r: string)
    ensures IsSignedNumeric(r)
  {
    if i < 0 then "-" + NatToString(-i) else NatToString(i)
  }

  /** Rendering then parsing an integer gives it back; non-zero renders as non-empty text. */
  lemma IntToStringRoundTrip(i: int)
    ensures ParseInt(IntToString(i)) == i
    ensures i != 0 <==> !IsEmptyText(IntToString(i))
    ensures i >= 0 ==> IntToString(i) == NatToString(i)
  {
    if i < 0 {
      assert IntToString(i)[1..] == NatToString(-i);
      ParseNatToString(-i);
    } else {
      ParseNatToString(i);
    }
  }

  // ---------------------------------------------------------------------------
  // Byte-wise order (`strcmp`, which PHP uses for non-numeric strings)
  // ---------------------------------------------------------------------------

  predicate LexLess(a: string, b: string) {
    if a == [] then b != []
    else if b == [] then false
    else if a[0] != b[0] then a[0] < b[0]
    else LexLess(a[1..], b[1..])
  }

  // ---------------------------------------------------------------------------
  // Searching (`strpos`)
  // ---------------------------------------------------------------------------

  /** Index of the first `c` in `s`, or `|s|` when there is none. */
  function Find(s: string, c: char): (i: nat)
    ensures i <= |s|
    ensures i < |s| ==> s[i] == c
    ensures forall j :: 0 <= j < i ==> s[j] != c
  {
    if s == [] then 0 else if s[0] == c then 0 else 1 + Find(s[1..], c)
  }

  /** The separator found in `a + [c] + b` is the one after `a` when `a` holds none. */
  lemma FindAfter(a: string, c: char, b: string)
    requires forall j :: 0 <= j < |a| ==> a[j] != c
    ensures Find(a + [c] + b, c) == |a|
  {
    var s := a + [c] + b;
    assert s[|a|] == c;
    assert forall j :: 0 <= j < |a| ==> s[j] == a[j];
  }

  /** Upper-casing moves no `:`. */
  lemma FindUpper(s: string)
    ensures Find(UpperStr(s), ':') == Find(s, ':')
  {
  }

  /** Text without `c` is searched to its end. */
  lemma FindAbsent(s: string, c: char)
    requires forall j :: 0 <= j < |s| ==> s[j] != c
    ensures Find(s, c) == |s|
  {
  }
}
