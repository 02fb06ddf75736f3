/** Python's `int(text)` on a decimal answer and `str(n)`, its inverse. The
    text may be surrounded by whitespace, may carry one sign, and may group
    its digits with single underscores between digits; anything else is not
    a number (`ValueError`). Only ASCII digits are modelled; digits of other
    scripts are not, and neither is the limit on the number of digits of
    newer Python versions. */
module IntParse {
  import opened Wrappers
  import opened Text

  predicate IsDigit(c: char) {
    '0' <= c <= '9'
  }

  /** Position `k` of `d` holds a digit, or an underscore followed by a digit. */
  predicate DigitOrGroupSeparator(d: string, k: nat)
    requires k < |d|
  {
    IsDigit(d[k]) || (d[k] == '_' && k + 1 < |d| && IsDigit(d[k + 1]))
  }

  /** Digits, with single underscores allowed only between two digits. */
  predicate IsDigitString(d: string) {
    && |d| > 0
    && IsDigit(d[0])
    && forall k :: 0 <= k < |d| ==> DigitOrGroupSeparator(d, k)
  }

  /** The value of a digit string read in base 10; underscores are skipped. */
  function DigitsValue(d: string): nat {
    if d == [] then 0
    else
      var last := d[|d| - 1];
      var front := DigitsValue(d[..|d| - 1]);
      if IsDigit(last) then front * 10 + (last as int - '0' as int) else front
  }

  /** The whitespace `int()` skips around a number: ASCII tab, line feed,
      vertical tab, form feed, carriage return and space, and the non-ASCII
      whitespace of `str.isspace()`. Unlike `strip()`, it does not skip the
      ASCII information separators U+001C..U+001F. */
  predicate IsIntSpace(c: char) {
    IsSpace(c) && !('\U{1C}' <= c <= '\U{1F}')
  }

  /** Drops the longest prefix of `int()` whitespace. */
  function IntTrimStart(s: string): string {
    if s != [] && IsIntSpace(s[0]) then IntTrimStart(s[1..]) else s
  }

  /** Drops the longest suffix of `int()` whitespace. */
  function IntTrimEnd(s: string): string {
    if s != [] && IsIntSpace(s[|s| - 1]) then IntTrimEnd(s[..|s| - 1]) else s
  }

  /** The text `int()` reads once surrounding whitespace is skipped. */
  function IntStrip(s: string): string {
    IntTrimEnd(IntTrimStart(s))
  }

  ghost predicate AllIntSpace(s: string) {
    forall k :: 0 <= k < |s| ==> IsIntSpace(s[k])
  }

  /** The leading trim keeps a suffix of `s`, what it drops is `int()`
      whitespace, and what it keeps does not begin with such whitespace. */
  lemma {:induction false} IntTrimStartSpec(s: string)
    ensures |IntTrimStart(s)| <= |s| && IntTrimStart(s) == s[|s| - |IntTrimStart(s)|..]
    ensures AllIntSpace(s[..|s| - |IntTrimStart(s)|])
    ensures IntTrimStart(s) == [] || !IsIntSpace(IntTrimStart(s)[0])
  {
    if s != [] && IsIntSpace(s[0]) {
      IntTrimStartSpec(s[1..]);
      var n := |s| - |IntTrimStart(s)|;
      assert s[1..][..n - 1] == s[1..n];
      assert forall k :: 1 <= k < n ==> s[k] == s[1..n][k - 1];
    }
  }

  /** The trailing trim keeps a prefix of `s`, what it drops is `int()`
      whitespace, and what it keeps does not end with such whitespace. */
  lemma {:induction false} IntTrimEndSpec(s: string)
    ensures |IntTrimEnd(s)| <= |s| && IntTrimEnd(s) == s[..|IntTrimEnd(s)|]
    ensures AllIntSpace(s[|IntTrimEnd(s)|..])
    ensures IntTrimEnd(s) == [] || !IsIntSpace(IntTrimEnd(s)[|IntTrimEnd(s)| - 1])
  {
    if s != [] && IsIntSpace(s[|s| - 1]) {
      var p := s[..|s| - 1];
      IntTrimEndSpec(p);
      var n := |IntTrimEnd(s)|;
      assert p[..n] == s[..n];
      assert forall k :: n <= k < |s| - 1 ==> s[k] == p[n..][k - n];
    }
  }

  /** Leading `int()` whitespace is dropped whatever follows it. */
  lemma {:induction false} IntTrimStartSpaces(w: string, s: string)
    requires AllIntSpace(w)
    ensures IntTrimStart(w + s) == IntTrimStart(s)
    decreases |w|
  {
    if w == [] {
      assert w + s == s;
    } else {
      assert (w + s)[0] == w[0];
      assert (w + s)[1..] == w[1..] + s;
      IntTrimStartSpaces(w[1..], s);
    }
  }

  /** Trailing `int()` whitespace is dropped whatever precedes it. */
  lemma {:induction false} IntTrimEndSpaces(s: string, w: string)
    requires AllIntSpace(w)
    ensures IntTrimEnd(s + w) == IntTrimEnd(s)
    decreases |w|
  {
    if w == [] {
      assert s + w == s;
    } else {
      var n := |w| - 1;
      assert (s + w)[|s + w| - 1] == w[n];
      assert (s + w)[..|s + w| - 1] == s + w[..n];
      IntTrimEndSpaces(s, w[..n]);
    }
  }

  /** Trailing whitespace survives the leading trim unless the text is all
      whitespace. */
  lemma {:induction false} IntTrimStartBeforeSpaces(s: string, w: string)
    requires AllIntSpace(w)
    ensures IntTrimStart(s) != [] ==> IntTrimStart(s + w) == IntTrimStart(s) + w
    ensures IntTrimStart(s) == [] ==> IntTrimStart(s + w) == []
    decreases |s|
  {
    if s == [] {
      IntTrimStartSpaces(w, []);
      assert s + w == w + [];
    } else if IsIntSpace(s[0]) {
      assert (s + w)[0] == s[0];
      assert (s + w)[1..] == s[1..] + w;
      IntTrimStartBeforeSpaces(s[1..], w);
    } else {
      assert (s + w)[0] == s[0];
    }
  }

  /** Skipping the surrounding whitespace twice is skipping it once. */
  lemma IntStripIdempotent(s: string)
    ensures IntStrip(IntStrip(s)) == IntStrip(s)
  {
    var a := IntTrimStart(s);
    var r := IntTrimEnd(a);
    IntTrimStartSpec(s);
    IntTrimEndSpec(a);
    if r != [] {
      assert r[0] == a[0];
      assert IntTrimStart(r) == r;
    }
  }

  /** `int(s)`: `None` when Python raises `ValueError`. */
  function ParseInt(s: string): Option<int> {
    var t := IntStrip(s);
    if |t| > 0 && (t[0] == '+' || t[0] == '-') then
      if IsDigitString(t[1..]) then
        var v: int := DigitsValue(t[1..]);
        Some(if t[0] == '-' then -v else v)
      else None
    else if IsDigitString(t) then Some(DigitsValue(t))
    else None
  }

  function DigitChar(d: nat): char
    requires d < 10
  {
    ('0' as int + d) as char
  }

  /** `str(n)` for a natural number: its base-10 digits, most significant first. */
  function NatDigits(n: nat): string {
    if n < 10 then [DigitChar(n)] else NatDigits(n / 10) + [DigitChar(n % 10)]
  }

  /** `str(n)`. */
  function Decimal(n: int): string {
    if n < 0 then "-" + NatDigits(-n) else NatDigits(n)
  }

  /** The digits of a number form a digit string whose value is the number. */
  lemma {:induction false} NatDigitsValue(n: nat)
    ensures |NatDigits(n)| > 0
    ensures forall k :: 0 <= k < |NatDigits(n)| ==> IsDigit(NatDigits(n)[k])
    ensures DigitsValue(NatDigits(n)) == n
  {
    if n >= 10 {
      NatDigitsValue(n / 10);
      var d := NatDigits(n);
      assert d[..|d| - 1] == NatDigits(n / 10);
    }
  }

  /** Reading back a printed number gives the number: `int(str(n)) == n`. */
  lemma ParseDecimal(n: int)
    ensures ParseInt(Decimal(n)) == Some(n)
  {
    var m := if n < 0 then -n else n;
    NatDigitsValue(m);
    var s := Decimal(n);
    assert !IsIntSpace(s[0]) && !IsIntSpace(s[|s| - 1]);
    assert IntTrimStart(s) == s && IntTrimEnd(s) == s;
    if n < 0 {
      assert s[1..] == NatDigits(m);
    } else {
      assert s[0] != '+' && s[0] != '-';
    }
  }

  /** Surrounding `int()` whitespace does not change what `int()` reads. */
  lemma ParseIntIgnoresSpaces(w1: string, s: string, w2: string)
    requires AllIntSpace(w1) && AllIntSpace(w2)
    ensures ParseInt(w1 + s + w2) == ParseInt(s)
  {
    assert w1 + s + w2 == w1 + (s + w2);
    IntTrimStartSpaces(w1, s + w2);
    IntTrimStartBeforeSpaces(s, w2);
    if IntTrimStart(s) != [] {
      IntTrimEndSpaces(IntTrimStart(s), w2);
    }
    assert IntStrip(w1 + s + w2) == IntStrip(s);
  }

  /** An answer that begins with an ASCII information separator
      (U+001C..U+001F) is not a number, although `strip()` would remove it. */
  lemma InfoSeparatorRejected(c: char, s: string)
    requires '\U{1C}' <= c <= '\U{1F}'
    ensures IsSpace(c)
    ensures ParseInt([c] + s) == None
  {
    var a := [c] + s;
    assert IntTrimStart(a) == a;
    IntTrimEndSpec(a);
    var t := IntStrip(a);
    if t != [] {
      assert t[0] == c;
      assert !DigitOrGroupSeparator(t, 0);
    }
  }

  /** An answer that is blank, or that contains a character other than a
      digit, an underscore or a sign once its surrounding whitespace is
      skipped, is not a number. */
  lemma ParseIntRejectsNonNumeric(s: string)
    requires IntStrip(s) == [] || exists k :: 0 <= k < |IntStrip(s)| && !IsDigit(IntStrip(s)[k]) && IntStrip(s)[k] !in {'_', '+', '-'}
    ensures ParseInt(s) == None
  {
    var t := IntStrip(s);
    if t != [] {
      var k :| 0 <= k < |t| && !IsDigit(t[k]) && t[k] !in {'_', '+', '-'};
      assert !DigitOrGroupSeparator(t, k);
      if t[0] == '+' || t[0] == '-' {
        assert k >= 1 && t[1..][k - 1] == t[k];
        assert !DigitOrGroupSeparator(t[1..], k - 1);
      }
    }
  }
}
