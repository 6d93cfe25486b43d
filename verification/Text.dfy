/** The few pieces of Python string behaviour the core relies on:
    `str.lower`, `str.title`, `str.strip`, `str.startswith`, decimal
    formatting with `"%d"` and parsing with `int(...)`. Case mapping is
    modelled on ASCII letters; whitespace is Python's `str.isspace` set. */
module Text {
  import opened Wrappers

  predicate IsUpper(c: char) { 'A' <= c <= 'Z' }
  predicate IsLower(c: char) { 'a' <= c <= 'z' }
  predicate IsLetter(c: char) { IsUpper(c) || IsLower(c) }

  function LowerChar(c: char): char {
    if IsUpper(c) then (c as int + 32) as char else c
  }

  function UpperChar(c: char): char {
    if IsLower(c) then (c as int - 32) as char else c
  }

  /** `s.lower()` */
  function Lower(s: string): (r: string)
    ensures |r| == |s|
    ensures forall i :: 0 <= i < |s| ==> r[i] == LowerChar(s[i])
  {
    seq(|s|, i requires 0 <= i < |s| => LowerChar(s[i]))
  }

  /** `s.title()`: a letter that follows a letter is lower-cased, any other
      letter is upper-cased; other characters are kept. */
  function Title(s: string): string {
    TitleAfter(s, false)
  }

  function TitleAfter(s: string, prevCased: bool): (r: string)
    ensures |r| == |s|
  {
    if s == [] then []
    else
      var c := s[0];
      [if !IsLetter(c) then c else if prevCased then LowerChar(c) else UpperChar(c)]
        + TitleAfter(s[1..], IsLetter(c))
  }

  /** Title-casing only changes case: compared ignoring case, the title of a
      severity is the severity itself. */
  lemma {:induction false} LowerTitle(s: string)
    ensures Lower(Title(s)) == Lower(s)
  {
    LowerTitleAfter(s, false);
  }

  lemma {:induction false} LowerTitleAfter(s: string, prevCased: bool)
    ensures Lower(TitleAfter(s, prevCased)) == Lower(s)
  {
    if s != [] {
      LowerTitleAfter(s[1..], IsLetter(s[0]));
      var t := TitleAfter(s, prevCased);
      assert t[1..] == TitleAfter(s[1..], IsLetter(s[0]));
      forall i | 0 <= i < |s| ensures Lower(t)[i] == Lower(s)[i] {
        if i > 0 {
          assert Lower(t)[i] == Lower(t[1..])[i - 1];
          assert Lower(s)[i] == Lower(s[1..])[i - 1];
        }
      }
    }
  }

  /** Python's `str.isspace()` characters, which `str.strip()` and `int()` remove. */
  predicate IsSpace(c: char) {
    var n := c as int;
    n == 0x20 || 0x09 <= n <= 0x0D || 0x1C <= n <= 0x1F || n == 0x85 || n == 0xA0
    || n == 0x1680 || 0x2000 <= n <= 0x200A || n == 0x2028 || n == 0x2029
    || n == 0x202F || n == 0x205F || n == 0x3000
  }

  /** `s.lstrip()` */
  function TrimStart(s: string): (r: string)
    ensures |r| <= |s| && r == s[|s| - |r|..]
    ensures r == [] || !IsSpace(r[0])
    ensures forall k :: 0 <= k < |s| - |r| ==> IsSpace(s[k])
  {
    if s != [] && IsSpace(s[0]) then TrimStart(s[1..]) else s
  }

  /** `s.rstrip()` */
  function TrimEnd(s: string): (r: string)
    ensures |r| <= |s| && r == s[..|r|]
    ensures r == [] || !IsSpace(r[|r| - 1])
    ensures forall k :: |r| <= k < |s| ==> IsSpace(s[k])
  {
    if s != [] && IsSpace(s[|s| - 1]) then TrimEnd(s[..|s| - 1]) else s
  }

  /** `s.strip()`: the longest slice of `s` that neither starts nor ends with
      whitespace, everything around it being whitespace. */
  function Strip(s: string): (r: string)
    ensures |r| <= |s|
    ensures r == [] || (!IsSpace(r[0]) && !IsSpace(r[|r| - 1]))
    ensures exists i, j ::
              && 0 <= i <= j <= |s| && r == s[i..j]
              && (forall k :: 0 <= k < i ==> IsSpace(s[k]))
              && (forall k :: j <= k < |s| ==> IsSpace(s[k]))
  {
    var t := TrimStart(s);
    var r := TrimEnd(t);
    StripSlice(s, t, r);
    r
  }

  /** What is left after trimming `s` to `t` at the start and `t` to `r` at
      the end is a slice of `s` with only whitespace on either side. */
  lemma StripSlice(s: string, t: string, r: string)
    requires |t| <= |s| && t == s[|s| - |t|..] && forall k :: 0 <= k < |s| - |t| ==> IsSpace(s[k])
    requires |r| <= |t| && r == t[..|r|] && forall k :: |r| <= k < |t| ==> IsSpace(t[k])
    ensures var i := |s| - |t|;
      && 0 <= i <= i + |r| <= |s| && r == s[i..i + |r|]
      && (forall k :: 0 <= k < i ==> IsSpace(s[k]))
      && (forall k :: i + |r| <= k < |s| ==> IsSpace(s[k]))
  {
    var i := |s| - |t|;
    forall k | 0 <= k < |r| ensures r[k] == s[i + k] {
      assert r[k] == t[k] && t[k] == s[i + k];
    }
    assert r == s[i..i + |r|];
    forall k | i + |r| <= k < |s| ensures IsSpace(s[k]) {
      assert s[k] == t[k - i];
    }
  }

  /** A string without whitespace at either end is its own strip. */
  lemma StripUnchanged(s: string)
    requires s == [] || (!IsSpace(s[0]) && !IsSpace(s[|s| - 1]))
    ensures Strip(s) == s
  {
  }

  predicate StartsWith(s: string, prefix: string) {
    |prefix| <= |s| && s[..|prefix|] == prefix
  }

  /** `prefix` occurs in `s` at index `i`. */
  predicate StartsWithAt(s: string, i: nat, prefix: string) {
    i + |prefix| <= |s| && s[i..i + |prefix|] == prefix
  }

  predicate IsDigit(c: char) { '0' <= c <= '9' }

  predicate AllDigits(s: string) {
    forall i :: 0 <= i < |s| ==> IsDigit(s[i])
  }

  /** The value of a run of decimal digits, most significant first. */
  function DigitsValue(s: string): nat
    requires AllDigits(s)
  {
    if s == [] then 0
    else DigitsValue(s[..|s| - 1]) * 10 + (s[|s| - 1] as int - '0' as int)
  }

  function DigitChar(d: nat): (c: char)
    requires d < 10
    ensures IsDigit(c) && c as int - '0' as int == d
  {
    ('0' as int + d) as char
  }

  /** The decimal numeral of `n`, without leading zeros. */
  function NatToDecimal(n: nat): (r: string)
    ensures |r| > 0 && AllDigits(r)
    ensures r[0] != '0' || n == 0
  {
    if n < 10 then [DigitChar(n)] else NatToDecimal(n / 10) + [DigitChar(n % 10)]
  }

  /** Reading back a formatted numeral gives the number. */
  lemma {:induction false} DecimalRoundTrip(n: nat)
    ensures DigitsValue(NatToDecimal(n)) == n
  {
    if n >= 10 {
      DecimalRoundTrip(n / 10);
      var r := NatToDecimal(n);
      assert r[..|r| - 1] == NatToDecimal(n / 10);
    }
  }

  /** `"%d" % i` */
  function IntToDecimal(i: int): (r: string)
    ensures |r| > 0
  {
    if i < 0 then ['-'] + NatToDecimal(-i) else NatToDecimal(i)
  }

  /** `int(s)` on a string: surrounding whitespace, an optional sign and at
      least one decimal digit; `None` where Python raises `ValueError`. */
  function ParseInt(s: string): Option<int>
  {
    ParseNumeral(Strip(s))
  }

  /** `int` on what is left once the whitespace is stripped. */
  function ParseNumeral(t: string): Option<int>
  {
    if |t| > 0 && (t[0] == '-' || t[0] == '+') then
      var digits := t[1..];
      if |digits| > 0 && AllDigits(digits) then
        var v: int := DigitsValue(digits);
        Some(if t[0] == '-' then -v else v)
      else None
    else if |t| > 0 && AllDigits(t) then
      Some(DigitsValue(t))
    else None
  }

  lemma ParseUnsigned(d: string)
    requires |d| > 0 && AllDigits(d)
    ensures ParseInt(d) == Some(DigitsValue(d))
  {
    assert IsDigit(d[0]) && IsDigit(d[|d| - 1]);
    StripUnchanged(d);
  }

  lemma ParseNegative(d: string)
    requires |d| > 0 && AllDigits(d)
    ensures ParseInt(['-'] + d) == Some(-(DigitsValue(d) as int))
  {
    var t := ['-'] + d;
    assert t[|t| - 1] == d[|d| - 1];
    StripUnchanged(t);
    NumeralNegative(d);
  }

  lemma NumeralNegative(d: string)
    requires |d| > 0 && AllDigits(d)
    ensures ParseNumeral(['-'] + d) == Some(-(DigitsValue(d) as int))
  {
    assert (['-'] + d)[1..] == d;
  }

  /** `int("%d" % i) == i` */
  lemma IntRoundTrip(i: int)
    ensures ParseInt(IntToDecimal(i)) == Some(i)
  {
    if i < 0 {
      NegativeRoundTrip(-i);
    } else {
      ParseUnsigned(NatToDecimal(i));
      DecimalRoundTrip(i);
    }
  }

  lemma NegativeRoundTrip(n: nat)
    requires n > 0
    ensures ParseInt(IntToDecimal(-(n as int))) == Some(-(n as int))
  {
    var d := NatToDecimal(n);
    assert IntToDecimal(-(n as int)) == ['-'] + d;
    ParseNegative(d);
    DecimalRoundTrip(n);
    assert ParseInt(['-'] + d) == Some(-(n as int));
  }
}
