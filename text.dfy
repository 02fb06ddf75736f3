/** The string operations of Python's `str` that the record pipeline uses:
    `strip()`, `startswith(prefix)` and `split(',')`. Strings are sequences of
    characters; no encoding or normalisation takes place. */
module Text {

  /** Python's `str.isspace()` for one character: ASCII whitespace (tab, line
      feed, vertical tab, form feed, carriage return, space), the information
      separators U+001C..U+001F, and the Unicode space and line separator
      characters. */
  predicate IsSpace(c: char) {
    || c == ' '
    || '\t' <= c <= '\r'
    || '\U{1C}' <= c <= '\U{1F}'
    || c == '\U{85}' || c == '\U{A0}' || c == '\U{1680}'
    || '\U{2000}' <= c <= '\U{200A}'
    || c == '\U{2028}' || c == '\U{2029}' || c == '\U{202F}' || c == '\U{205F}' || c == '\U{3000}'
  }

  ghost predicate AllSpace(s: string) {
    forall k :: 0 <= k < |s| ==> IsSpace(s[k])
  }

  /** `s` begins and ends with a non-space character, or is empty. */
  ghost predicate Trimmed(s: string) {
    s == [] || (!IsSpace(s[0]) && !IsSpace(s[|s| - 1]))
  }

  /** `str.lstrip()`: drops the longest all-space prefix. */
  function TrimStart(s: string): string {
    if s != [] && IsSpace(s[0]) then TrimStart(s[1..]) else s
  }

  /** `str.rstrip()`: drops the longest all-space suffix. */
  function TrimEnd(s: string): string {
    if s != [] && IsSpace(s[|s| - 1]) then TrimEnd(s[..|s| - 1]) else s
  }

  /** `lstrip()` keeps a suffix of `s`, what it removes is all whitespace, and
      what it keeps does not begin with whitespace. */
  lemma {:induction false} TrimStartSpec(s: string)
    ensures |TrimStart(s)| <= |s| && TrimStart(s) == s[|s| - |TrimStart(s)|..]
    ensures AllSpace(s[..|s| - |TrimStart(s)|])
    ensures TrimStart(s) == [] || !IsSpace(TrimStart(s)[0])
  {
    if s != [] && IsSpace(s[0]) {
      TrimStartSpec(s[1..]);
      var n := |s| - |TrimStart(s)|;
      assert s[1..][..n - 1] == s[1..n];
      assert forall k :: 1 <= k < n ==> s[k] == s[1..n][k - 1];
    }
  }

  /** `rstrip()` keeps a prefix of `s`, what it removes is all whitespace, and
      what it keeps does not end with whitespace. */
  lemma {:induction false} TrimEndSpec(s: string)
    ensures |TrimEnd(s)| <= |s| && TrimEnd(s) == s[..|TrimEnd(s)|]
    ensures AllSpace(s[|TrimEnd(s)|..])
    ensures TrimEnd(s) == [] || !IsSpace(TrimEnd(s)[|TrimEnd(s)| - 1])
  {
    if s != [] && IsSpace(s[|s| - 1]) {
      var p := s[..|s| - 1];
      TrimEndSpec(p);
      var n := |TrimEnd(s)|;
      assert p[..n] == s[..n];
      assert forall k :: n <= k < |s| - 1 ==> s[k] == p[n..][k - n];
    }
  }

  /** `str.strip()`: removes leading and trailing whitespace. */
  function Strip(s: string): string {
    TrimEnd(TrimStart(s))
  }

  /** `strip()` leaves the slice of `s` between its all-space prefix and its
      all-space suffix; the result is empty exactly when `s` is all whitespace. */
  lemma StripSpec(s: string)
    ensures exists i, j :: 0 <= i <= j <= |s| && Strip(s) == s[i..j] && AllSpace(s[..i]) && AllSpace(s[j..])
    ensures Trimmed(Strip(s))
    ensures Strip(s) == [] <==> AllSpace(s)
  {
    var a := TrimStart(s);
    var r := TrimEnd(a);
    TrimStartSpec(s);
    TrimEndSpec(a);
    var i := |s| - |a|;
    var j := i + |r|;
    assert r == s[i..j];
    assert s[j..] == a[|r|..];
    if r == [] {
      assert a == [];
      forall k | 0 <= k < |s| ensures IsSpace(s[k]) {
        assert s[k] == s[..i][k];
      }
    } else {
      assert !IsSpace(s[i]);
    }
  }

  /** A string with no whitespace at either end is left unchanged by `strip()`. */
  lemma {:induction false} StripTrimmed(s: string)
    requires Trimmed(s)
    ensures Strip(s) == s
  {
  }

  /** Trailing whitespace, such as the newline `readlines()` keeps, is removed
      from a line that is otherwise trimmed. */
  lemma {:induction false} StripTrailingSpace(t: string, ending: string)
    requires Trimmed(t) && AllSpace(ending)
    ensures Strip(t + ending) == t
  {
    if t == [] {
      assert t + ending == ending;
      StripSpec(ending);
    } else {
      assert (t + ending)[0] == t[0];
      TrimEndSpaces(t, ending);
    }
  }

  /** Stripping a line that starts with a non-empty text which neither begins
      nor ends with whitespace keeps that text at its front. */
  lemma StripKeepsTrimmedPrefix(p: string, rest: string)
    requires p != [] && Trimmed(p)
    ensures StartsWith(Strip(p + rest), p)
    ensures Strip(p + rest) == p + Strip(p + rest)[|p|..]
  {
    var s := p + rest;
    var h := |p|;
    assert s[0] == p[0] && s[h - 1] == p[h - 1];
    assert TrimStart(s) == s;
    TrimEndSpec(s);
    var m := |TrimEnd(s)|;
    assert m >= h;
    assert TrimEnd(s)[..h] == s[..h] == p;
  }

  lemma {:induction false} TrimEndSpaces(t: string, ending: string)
    requires Trimmed(t) && AllSpace(ending)
    ensures TrimEnd(t + ending) == t
    decreases |ending|
  {
    if ending == [] {
      assert t + ending == t;
    } else {
      var n := |ending| - 1;
      assert (t + ending)[..|t + ending| - 1] == t + ending[..n];
      assert IsSpace(ending[n]);
      TrimEndSpaces(t, ending[..n]);
    }
  }

  /** Stripping removes no comma. */
  lemma StripKeepsCommas(s: string)
    ensures multiset(Strip(s))[','] == multiset(s)[',']
  {
    TrimStartKeepsCommas(s);
    TrimEndKeepsCommas(TrimStart(s));
  }

  lemma {:induction false} TrimStartKeepsCommas(s: string)
    ensures multiset(TrimStart(s))[','] == multiset(s)[',']
  {
    if s != [] && IsSpace(s[0]) {
      TrimStartKeepsCommas(s[1..]);
      assert s == [s[0]] + s[1..];
    }
  }

  lemma {:induction false} TrimEndKeepsCommas(s: string)
    ensures multiset(TrimEnd(s))[','] == multiset(s)[',']
  {
    if s != [] && IsSpace(s[|s| - 1]) {
      TrimEndKeepsCommas(s[..|s| - 1]);
      assert s == s[..|s| - 1] + [s[|s| - 1]];
    }
  }

  /** `strip()` is idempotent. */
  lemma StripIdempotent(s: string)
    ensures Strip(Strip(s)) == Strip(s)
  {
    StripSpec(s);
    StripTrimmed(Strip(s));
  }

  /** `s.startswith(prefix)`. */
  predicate StartsWith(s: string, prefix: string) {
    |prefix| <= |s| && s[..|prefix|] == prefix
  }

  /** `s.split(',')`: the pieces between consecutive commas, in order. The
      empty string gives one empty piece, and two adjacent commas an empty
      piece between them. */
  function Split(s: string): (parts: seq<string>)
    ensures |parts| >= 1
  {
    if s == [] then [""]
    else
      var rest := Split(s[1..]);
      if s[0] == ',' then [""] + rest
      else [[s[0]] + rest[0]] + rest[1..]
  }

  /** `','.join(parts)`: the inverse of `Split`. */
  function Join(parts: seq<string>): string
    requires |parts| >= 1
  {
    if |parts| == 1 then parts[0] else parts[0] + "," + Join(parts[1..])
  }

  ghost predicate NoCommas(parts: seq<string>) {
    forall k :: 0 <= k < |parts| ==> ',' !in parts[k]
  }

  /** Splitting yields comma-free pieces that join back to the input. */
  lemma {:induction false} SplitJoin(s: string)
    ensures NoCommas(Split(s))
    ensures Join(Split(s)) == s
  {
    if s != [] {
      SplitJoin(s[1..]);
      var rest := Split(s[1..]);
      if s[0] == ',' {
        assert Split(s)[1..] == rest;
      } else {
        var parts := Split(s);
        assert parts[0] == [s[0]] + rest[0];
        if |rest| > 1 {
          assert parts[1..] == rest[1..];
          assert s == [s[0]] + s[1..];
        }
      }
    }
  }

  /** Joining comma-free pieces and splitting again gives back the pieces. */
  lemma {:induction false} JoinSplit(parts: seq<string>)
    requires |parts| >= 1 && NoCommas(parts)
    ensures Split(Join(parts)) == parts
  {
    if |parts| == 1 {
      SplitNoComma(parts[0]);
    } else {
      JoinSplit(parts[1..]);
      SplitAfterPiece(parts[0], Join(parts[1..]));
    }
  }

  /** A string without commas is a single piece. */
  lemma {:induction false} SplitNoComma(s: string)
    requires ',' !in s
    ensures Split(s) == [s]
  {
    if s != [] {
      SplitNoComma(s[1..]);
      assert s == [s[0]] + s[1..];
    }
  }

  /** The first piece extends up to the first comma. */
  lemma {:induction false} SplitAfterPiece(a: string, b: string)
    requires ',' !in a
    ensures Split(a + "," + b) == [a] + Split(b)
  {
    if a == [] {
      assert a + "," + b == [','] + b;
      assert ([','] + b)[1..] == b;
    } else {
      SplitAfterPiece(a[1..], b);
      assert (a + "," + b)[1..] == a[1..] + "," + b;
      assert a == [a[0]] + a[1..];
    }
  }

  /** There is one piece more than there are commas. */
  lemma {:induction false} SplitCount(s: string)
    ensures |Split(s)| == multiset(s)[','] + 1
  {
    if s != [] {
      SplitCount(s[1..]);
      assert s == [s[0]] + s[1..];
      assert multiset(s) == multiset([s[0]]) + multiset(s[1..]);
    }
  }

  /** A line splits into more than one piece exactly when it contains a comma. */
  lemma CommaIffSeveralPieces(s: string)
    ensures ',' in s <==> |Split(s)| >= 2
  {
    SplitCount(s);
    assert ',' in s <==> ',' in multiset(s);
  }
}
