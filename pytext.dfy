/** The parts of Python's `str` and `int` that the fortune import relies on:
    `str.strip()` with no argument, `int(str)` in base 10, and `str(int)`. */
module PyText {
  import opened Options

  /** The characters for which `str.isspace()` is true: ASCII tab, line feed,
      vertical tab, form feed, carriage return, the four ASCII separators,
      space, and the Unicode separators and spaces. */
  predicate IsSpace(c: char)
  {
    || ('\t' <= c <= '\r')
    || ('\U{1C}' <= c <= ' ')
    || c == '\U{85}' || c == '\U{A0}' || c == '\U{1680}'
    || ('\U{2000}' <= c <= '\U{200A}')
    || c == '\U{2028}' || c == '\U{2029}' || c == '\U{202F}' || c == '\U{205F}'
    || c == '\U{3000}'
  }

  /** The two sets of characters Python strips from a `str`. `str.strip()`
      removes every character `str.isspace()` accepts. `int()` keeps the
      ASCII characters of its argument as they are and trims only tab, line
      feed, vertical tab, form feed, carriage return and space among them,
      so the four ASCII separators U+001C..U+001F are not blanks to it; it
      trims the non-ASCII spaces as `str.strip()` does. */
  datatype Blanks = StrBlanks | IntBlanks

  predicate IsBlank(b: Blanks, c: char)
  {
    IsSpace(c) && !(b == IntBlanks && '\U{1C}' <= c <= '\U{1F}')
  }

  predicate AllBlank(b: Blanks, s: string)
  {
    forall i :: 0 <= i < |s| ==> IsBlank(b, s[i])
  }

  /** How many blanks `s` starts with. */
  function LeadingBlanks(b: Blanks, s: string): (n: nat)
    ensures n <= |s|
    ensures AllBlank(b, s[..n])
    ensures n < |s| ==> !IsBlank(b, s[n])
  {
    if |s| > 0 && IsBlank(b, s[0]) then
      var n := LeadingBlanks(b, s[1..]);
      assert s[..n + 1] == [s[0]] + s[1..][..n];
      n + 1
    else 0
  }

  /** How many blanks `s` ends with. */
  function TrailingBlanks(b: Blanks, s: string): (n: nat)
    ensures n <= |s|
    ensures AllBlank(b, s[|s| - n..])
    ensures n < |s| ==> !IsBlank(b, s[|s| - n - 1])
  {
    if |s| > 0 && IsBlank(b, s[|s| - 1]) then
      var n := TrailingBlanks(b, s[..|s| - 1]);
      assert forall k :: |s| - (n + 1) <= k < |s| - 1 ==> s[k] == s[..|s| - 1][|s| - 1 - n..][k - (|s| - 1 - n)];
      n + 1
    else 0
  }

  /** Blanks removed from both ends. */
  function StripBy(b: Blanks, s: string): string
  {
    var i := LeadingBlanks(b, s);
    s[i..|s| - TrailingBlanks(b, s[i..])]
  }

  /** `s.strip()`. */
  function Strip(s: string): string
  {
    StripBy(StrBlanks, s)
  }

  /** What a strip removes is blank on both sides, and what it keeps neither
      starts nor ends with a blank. */
  lemma StripShape(b: Blanks, s: string)
    ensures var r := StripBy(b, s);
      exists i ::
        && 0 <= i <= |s| - |r| && s[i..i + |r|] == r
        && AllBlank(b, s[..i]) && AllBlank(b, s[i + |r|..])
    ensures var r := StripBy(b, s); |r| > 0 ==> !IsBlank(b, r[0]) && !IsBlank(b, r[|r| - 1])
  {
    var i := LeadingBlanks(b, s);
    var n := TrailingBlanks(b, s[i..]);
    var r := StripBy(b, s);
    assert r == s[i..|s| - n];
    assert s[i..i + |r|] == r;
    assert AllBlank(b, s[i + |r|..]) by {
      assert s[i + |r|..] == s[i..][|s[i..]| - n..];
    }
    assert AllBlank(b, s[..i]);
    StripEnds(b, s);
  }

  /** What a strip keeps neither starts nor ends with a blank. */
  lemma StripEnds(b: Blanks, s: string)
    ensures var r := StripBy(b, s); |r| > 0 ==> !IsBlank(b, r[0]) && !IsBlank(b, r[|r| - 1])
  {
    var i := LeadingBlanks(b, s);
    var n := TrailingBlanks(b, s[i..]);
    var r := StripBy(b, s);
    if |r| > 0 {
      assert r[0] == s[i];
      assert r[|r| - 1] == s[i..][|s[i..]| - n - 1];
    }
  }

  /** `if forecast:` after strip is false exactly for all-blank text. */
  lemma StripEmptyIff(b: Blanks, s: string)
    ensures StripBy(b, s) == [] <==> AllBlank(b, s)
  {
    var i := LeadingBlanks(b, s);
    if i < |s| {
      TrailingBlanksBelow(b, s[i..]);
    } else {
      assert s[..i] == s;
    }
  }

  /** Text that does not start with a blank is not all trailing blanks. */
  lemma {:induction false} TrailingBlanksBelow(b: Blanks, t: string)
    requires |t| > 0 && !IsBlank(b, t[0])
    ensures TrailingBlanks(b, t) < |t|
  {
    if |t| > 1 && IsBlank(b, t[|t| - 1]) {
      TrailingBlanksBelow(b, t[..|t| - 1]);
    }
  }

  /** Text that neither starts nor ends with a blank is left as it is. */
  lemma StripOfTrimmed(b: Blanks, s: string)
    requires |s| > 0 ==> !IsBlank(b, s[0]) && !IsBlank(b, s[|s| - 1])
    ensures StripBy(b, s) == s
  {
    assert LeadingBlanks(b, s) == 0;
    assert TrailingBlanks(b, s) == 0;
  }

  /** Stripping twice is stripping once. */
  lemma StripIdempotent(b: Blanks, s: string)
    ensures StripBy(b, StripBy(b, s)) == StripBy(b, s)
  {
    StripShape(b, s);
    StripOfTrimmed(b, StripBy(b, s));
  }

  predicate IsDigit(c: char)
  {
    '0' <= c <= '9'
  }

  /** The digit part that `int()` accepts in base 10: ASCII digits, where an
      underscore may stand only between two digits. */
  predicate IsDigitRun(t: string)
  {
    && |t| > 0
    && IsDigit(t[0])
    && IsDigit(t[|t| - 1])
    && (forall i :: 0 <= i < |t| ==> IsDigit(t[i]) || t[i] == '_')
    && (forall i :: 0 <= i < |t| - 1 ==> IsDigit(t[i]) || IsDigit(t[i + 1]))
  }

  /** The value of a digit run read left to right, underscores ignored. */
  function DigitsValue(t: string): nat
  {
    if t == [] then 0
    else if IsDigit(t[|t| - 1]) then
      DigitsValue(t[..|t| - 1]) * 10 + (t[|t| - 1] as int - '0' as int)
    else DigitsValue(t[..|t| - 1])
  }

  /** `int(s)` for a Python `str` in base 10: the `IntBlanks` around the
      number are ignored, a single `+` or `-` may come first, then a digit
      run; anything else raises `ValueError`, shown here as `None`. */
  function ParseInt(s: string): Option<int>
  {
    var t := StripBy(IntBlanks, s);
    if |t| > 0 && (t[0] == '+' || t[0] == '-') then
      if IsDigitRun(t[1..]) then
        var v: int := DigitsValue(t[1..]);
        Some(if t[0] == '-' then -v else v)
      else None
    else if IsDigitRun(t) then Some(DigitsValue(t))
    else None
  }

  function DigitChar(d: nat): char
    requires d < 10
  {
    ('0' as int + d) as char
  }

  /** The decimal digits of a natural number, without leading zeros. */
  function DecimalDigits(n: nat): string
  {
    if n < 10 then [DigitChar(n)] else DecimalDigits(n / 10) + [DigitChar(n % 10)]
  }

  /** `str(n)` for a Python `int`. */
  function Decimal(n: int): string
  {
    if n < 0 then ['-'] + DecimalDigits(-n) else DecimalDigits(n)
  }

  lemma {:induction false} DecimalDigitsRun(n: nat)
    ensures IsDigitRun(DecimalDigits(n))
    ensures forall i :: 0 <= i < |DecimalDigits(n)| ==> IsDigit(DecimalDigits(n)[i])
    ensures DigitsValue(DecimalDigits(n)) == n
  {
    if n >= 10 {
      DecimalDigitsRun(n / 10);
      var t := DecimalDigits(n);
      assert t[..|t| - 1] == DecimalDigits(n / 10);
    }
  }

  lemma DigitIsNotSpace(c: char)
    requires IsDigit(c) || c == '-'
    ensures !IsSpace(c) && !IsBlank(IntBlanks, c)
  {
  }

  /** `int()` of a digit run, or of a sign followed by one. */
  lemma ParseDigitRun(t: string)
    requires IsDigitRun(t)
    ensures ParseInt(t) == Some(DigitsValue(t))
    ensures ParseInt(['-'] + t) == Some(-(DigitsValue(t) as int))
  {
    DigitIsNotSpace(t[0]);
    DigitIsNotSpace(t[|t| - 1]);
    StripOfTrimmed(IntBlanks, t);
    var s := ['-'] + t;
    DigitIsNotSpace('-');
    assert s[|s| - 1] == t[|t| - 1];
    StripOfTrimmed(IntBlanks, s);
    assert s[1..] == t;
  }

  /** `int(str(n)) == n` for every integer. */
  lemma ParseDecimal(n: int)
    ensures ParseInt(Decimal(n)) == Some(n)
  {
    var m: nat := if n < 0 then -n else n;
    DecimalDigitsRun(m);
    ParseDigitRun(DecimalDigits(m));
  }

  /** `int()` does not trim the ASCII separators U+001C..U+001F that
      `str.strip()` removes: with such a separator before or after the
      digits (`int('\x1c5')`, `int('5\x1f')`) it raises ValueError, while
      `str.strip()` removes it from both ends. */
  lemma IntKeepsSeparators(c: char, t: string)
    requires '\U{1C}' <= c <= '\U{1F}' && IsDigitRun(t)
    ensures ParseInt([c] + t).None? && ParseInt(t + [c]).None?
    ensures Strip([c] + t + [c]) == t
  {
    DigitIsNotSpace(t[0]);
    DigitIsNotSpace(t[|t| - 1]);
    var x := [c] + t;
    assert x[|x| - 1] == t[|t| - 1];
    StripOfTrimmed(IntBlanks, x);
    assert !IsDigitRun(x) by { assert !IsDigit(x[0]); }
    var y := t + [c];
    assert y[0] == t[0];
    StripOfTrimmed(IntBlanks, y);
    assert !IsDigitRun(y) by { assert !IsDigit(y[|y| - 1]); }
    var z := [c] + t + [c];
    assert z[1..] == y;
    assert LeadingBlanks(StrBlanks, y) == 0;
    assert LeadingBlanks(StrBlanks, z) == 1;
    assert y[..|y| - 1] == t;
    assert TrailingBlanks(StrBlanks, t) == 0;
    assert TrailingBlanks(StrBlanks, y) == 1;
  }
}
