/**
 * The Python string built-ins the league program relies on, over `string`
 * (a sequence of Unicode scalar values; a Python `str` may also hold lone
 * surrogate code points, which a `char` cannot): `str.split(sep)`,
 * `str.rsplit(sep, 1)`, `str.strip()`, `sep.join(parts)`, `int(s)` and `str(n)`.
 */
module PyStrings {
  import opened Wrappers

  // ---------------------------------------------------------------------------
  // Whitespace and str.strip()
  // ---------------------------------------------------------------------------

  /** A character for which Python's `str.isspace()` holds: the characters `str.strip()` removes. */
  predicate IsSpace(c: char) {
    || c == ' '
    || '\t' <= c <= '\r'
    || '\U{1C}' <= c <= '\U{1F}'
    || c == '\U{85}' || c == '\U{A0}' || c == '\U{1680}'
    || '\U{2000}' <= c <= '\U{200A}'
    || c == '\U{2028}' || c == '\U{2029}' || c == '\U{202F}' || c == '\U{205F}' || c == '\U{3000}'
  }

  predicate AllSpace(s: string) {
    forall k :: 0 <= k < |s| ==> IsSpace(s[k])
  }

  /** Neither end is whitespace, so `str.strip()` leaves the string alone. */
  predicate IsStripped(s: string) {
    |s| == 0 || (!IsSpace(s[0]) && !IsSpace(s[|s| - 1]))
  }

  /** The length of the longest all-whitespace prefix. */
  function LeadingSpaces(s: string): (n: nat)
    ensures n <= |s|
    ensures n < |s| ==> !IsSpace(s[n])
  {
    if |s| > 0 && IsSpace(s[0]) then 1 + LeadingSpaces(s[1..]) else 0
  }

  lemma {:induction false} LeadingSpacesAreSpace(s: string)
    ensures AllSpace(s[..LeadingSpaces(s)])
  {
    if |s| > 0 && IsSpace(s[0]) {
      LeadingSpacesAreSpace(s[1..]);
      var n := LeadingSpaces(s);
      assert forall k :: 1 <= k < n ==> s[..n][k] == s[1..][..n - 1][k - 1];
    }
  }

  /** The length of the longest all-whitespace suffix. */
  function TrailingSpaces(s: string): (n: nat)
    ensures n <= |s|
    ensures n < |s| ==> !IsSpace(s[|s| - n - 1])
  {
    if |s| > 0 && IsSpace(s[|s| - 1]) then 1 + TrailingSpaces(s[..|s| - 1]) else 0
  }

  lemma {:induction false} TrailingSpacesAreSpace(s: string)
    ensures AllSpace(s[|s| - TrailingSpaces(s)..])
  {
    if |s| > 0 && IsSpace(s[|s| - 1]) {
      var init := s[..|s| - 1];
      TrailingSpacesAreSpace(init);
      var n := TrailingSpaces(s);
      assert forall k :: |s| - n <= k < |s| - 1 ==> s[k] == init[k];
    }
  }

  /** Python's `s.strip()`: `s` without its leading and trailing whitespace. */
  function Strip(s: string): (r: string)
    ensures IsStripped(r)
    ensures |r| <= |s|
  {
    var i := LeadingSpaces(s);
    s[i..|s| - TrailingSpaces(s[i..])]
  }

  /** What `strip()` keeps is a slice of its argument with only whitespace around it. */
  lemma StripSlice(s: string) returns (i: nat)
    ensures i + |Strip(s)| <= |s|
    ensures Strip(s) == s[i..i + |Strip(s)|]
    ensures AllSpace(s[..i]) && AllSpace(s[i + |Strip(s)|..])
  {
    i := LeadingSpaces(s);
    var t := TrailingSpaces(s[i..]);
    var j := |s| - t;
    LeadingSpacesAreSpace(s);
    TrailingSpacesAreSpace(s[i..]);
    assert s[j..] == s[i..][|s[i..]| - t..];
  }

  /** `strip()` keeps no character that was not there. */
  lemma StripKeepsOnlyCharsOf(s: string)
    ensures forall c :: c in Strip(s) ==> c in s
  {
    var r := Strip(s);
    var i := StripSlice(s);
    forall c | c in r ensures c in s {
      var k :| 0 <= k < |r| && r[k] == c;
      assert s[i + k] == c;
    }
  }

  lemma {:induction false} LeadingSpacesOfPadded(p: string, u: string)
    requires AllSpace(p)
    ensures LeadingSpaces(p + u) == |p| + LeadingSpaces(u)
    decreases |p|
  {
    if |p| > 0 {
      assert (p + u)[1..] == p[1..] + u;
      LeadingSpacesOfPadded(p[1..], u);
    } else {
      assert p + u == u;
    }
  }

  lemma {:induction false} TrailingSpacesOfPadded(u: string, q: string)
    requires AllSpace(q)
    ensures TrailingSpaces(u + q) == TrailingSpaces(u) + |q|
    decreases |q|
  {
    if |q| > 0 {
      assert (u + q)[..|u + q| - 1] == u + q[..|q| - 1];
      TrailingSpacesOfPadded(u, q[..|q| - 1]);
    } else {
      assert u + q == u;
    }
  }

  /** `strip()` removes exactly the whitespace padding around a stripped core, whatever the padding. */
  lemma StripPadded(p: string, t: string, q: string)
    requires AllSpace(p) && IsStripped(t) && AllSpace(q)
    ensures Strip(p + t + q) == t
  {
    var s := p + t + q;
    assert s == p + (t + q);
    LeadingSpacesOfPadded(p, t + q);
    if |t| == 0 {
      assert t + q == q;
      assert LeadingSpaces(q) == |q| by {
        assert q == q + "";
        LeadingSpacesOfPadded(q, "");
      }
    } else {
      assert (t + q)[0] == t[0];
      assert LeadingSpaces(t + q) == 0;
      var i := |p|;
      assert s[i..] == t + q;
      TrailingSpacesOfPadded(t, q);
      assert TrailingSpaces(t) == 0;
      assert s[i..|s| - |q|] == t;
    }
  }

  /** `strip()` removes leading whitespace in front of a stripped core. */
  lemma StripLeftPadded(p: string, t: string)
    requires AllSpace(p) && IsStripped(t)
    ensures Strip(p + t) == t
  {
    assert p + t + "" == p + t;
    StripPadded(p, t, "");
  }

  /** `strip()` leaves a stripped string unchanged. */
  lemma StripOfStripped(t: string)
    requires IsStripped(t)
    ensures Strip(t) == t
  {
    assert "" + t + "" == t;
    StripPadded("", t, "");
  }

  // ---------------------------------------------------------------------------
  // str.split(sep) and sep.join(parts)
  // ---------------------------------------------------------------------------

  /** Python's `sep.join(parts)`: the parts with `sep` between neighbours; `""` for no parts. */
  function Join(parts: seq<string>, sep: string): (r: string)
    ensures |parts| == 0 ==> r == ""
    ensures |parts| == 1 ==> r == parts[0]
  {
    if |parts| == 0 then ""
    else if |parts| == 1 then parts[0]
    else parts[0] + sep + Join(parts[1..], sep)
  }

  /**
   * Python's `s.split(sep)` for a one-character separator: the maximal
   * separator-free pieces, in order. The pieces rejoined give back `s`, so
   * a string without `sep` splits into itself alone and `""` into `[""]`.
   */
  function Split(s: string, sep: char): (r: seq<string>)
    ensures |r| >= 1
    ensures forall k :: 0 <= k < |r| ==> sep !in r[k]
    ensures Join(r, [sep]) == s
  {
    if |s| == 0 then [""]
    else
      var rest := Split(s[1..], sep);
      if s[0] == sep then
        assert Join([""] + rest, [sep]) == [sep] + Join(rest, [sep]);
        [""] + rest
      else
        var r := [[s[0]] + rest[0]] + rest[1..];
        assert |rest| > 1 ==> Join(rest, [sep]) == rest[0] + [sep] + Join(rest[1..], [sep]);
        assert r[1..] == rest[1..];
        r
  }

  lemma {:induction false} SplitWithoutSep(s: string, sep: char)
    requires sep !in s
    ensures Split(s, sep) == [s]
  {
    if |s| > 0 {
      SplitWithoutSep(s[1..], sep);
      assert [s[0]] + s[1..] == s;
    }
  }

  lemma {:induction false} SplitAtFirstSep(a: string, b: string, sep: char)
    requires sep !in a
    ensures Split(a + [sep] + b, sep) == [a] + Split(b, sep)
    decreases |a|
  {
    var s := a + [sep] + b;
    if |a| == 0 {
      assert s[1..] == b;
    } else {
      assert s[1..] == a[1..] + [sep] + b;
      SplitAtFirstSep(a[1..], b, sep);
      assert [a[0]] + a[1..] == a;
    }
  }

  /** Splitting what was joined gives back the parts, provided none of them contains the separator. */
  lemma {:induction false} SplitJoin(parts: seq<string>, sep: char)
    requires |parts| >= 1
    requires forall k :: 0 <= k < |parts| ==> sep !in parts[k]
    ensures Split(Join(parts, [sep]), sep) == parts
  {
    if |parts| == 1 {
      SplitWithoutSep(parts[0], sep);
    } else {
      SplitJoin(parts[1..], sep);
      SplitAtFirstSep(parts[0], Join(parts[1..], [sep]), sep);
      assert [parts[0]] + parts[1..] == parts;
    }
  }

  // ---------------------------------------------------------------------------
  // str.rsplit(sep, 1)
  // ---------------------------------------------------------------------------

  /** The index of the last occurrence of `c` in `s`, or -1 when there is none. */
  function LastIndex(s: string, c: char): (k: int)
    ensures -1 <= k < |s|
    ensures k < 0 ==> c !in s
    ensures k >= 0 ==> s[k] == c && c !in s[k + 1..]
  {
    if |s| == 0 then -1
    else if s[|s| - 1] == c then |s| - 1
    else
      var k := LastIndex(s[..|s| - 1], c);
      assert k >= 0 ==> s[k + 1..] == s[..|s| - 1][k + 1..] + [s[|s| - 1]];
      assert k < 0 ==> s == s[..|s| - 1] + [s[|s| - 1]];
      k
  }

  /**
   * Python's `s.rsplit(sep, 1)` for a one-character separator: `[s]` when
   * `sep` does not occur, otherwise the text before and after its last occurrence.
   */
  function RSplitOnce(s: string, sep: char): (r: seq<string>)
    ensures |r| == 1 || |r| == 2
    ensures |r| == 1 <==> sep !in s
    ensures |r| == 1 ==> r[0] == s
    ensures |r| == 2 ==> s == r[0] + [sep] + r[1] && sep !in r[1]
  {
    var k := LastIndex(s, sep);
    if k < 0 then [s]
    else
      assert s == s[..k] + [sep] + s[k + 1..];
      [s[..k], s[k + 1..]]
  }

  /** The split happens at the separator after which no separator follows. */
  lemma RSplitOnceAt(a: string, b: string, sep: char)
    requires sep !in b
    ensures RSplitOnce(a + [sep] + b, sep) == [a, b]
  {
    var s := a + [sep] + b;
    var r := RSplitOnce(s, sep);
    assert s[|a|] == sep;
    assert |r| == 2;
    assert |r[1]| == |b|;
    assert r[0] == s[..|a|] == a;
    assert r[1] == s[|a| + 1..] == b;
  }

  // ---------------------------------------------------------------------------
  // int(s) and str(n)
  // ---------------------------------------------------------------------------

  predicate IsDigit(c: char) {
    '0' <= c <= '9'
  }

  predicate AllDigits(s: string) {
    forall k :: 0 <= k < |s| ==> IsDigit(s[k])
  }

  function DigitValue(c: char): nat
    requires IsDigit(c)
  {
    c as int - '0' as int
  }

  function DigitChar(d: nat): (c: char)
    requires d < 10
    ensures IsDigit(c) && DigitValue(c) == d
  {
    ('0' as int + d) as char
  }

  /** The decimal value of a string of ASCII digits, most significant first. */
  function DigitsValue(ds: string): nat
    requires AllDigits(ds)
  {
    if |ds| == 0 then 0 else DigitsValue(ds[..|ds| - 1]) * 10 + DigitValue(ds[|ds| - 1])
  }

  /** The accepted integer syntax: an optional `+` or `-`, then at least one ASCII digit. */
  predicate IsIntLiteral(s: string) {
    && |s| > 0
    && forall k :: 0 <= k < |s| ==> IsDigit(s[k]) || (k == 0 && |s| > 1 && (s[k] == '+' || s[k] == '-'))
  }

  /**
   * Python's `int(s)` on a string that has already been stripped: the value
   * exactly when `s` is a signed decimal literal, `None` (a `ValueError`) otherwise.
   */
  function ParseInt(s: string): (r: Option<int>)
    ensures r.Some? ==> |s| > 0
    ensures r.Some? && s[0] != '-' ==> r.value >= 0
    ensures r.Some? && s[0] == '-' ==> r.value <= 0
  {
    if |s| > 0 && (s[0] == '+' || s[0] == '-') then
      var ds := s[1..];
      if |ds| > 0 && AllDigits(ds) then
        var v: int := DigitsValue(ds);
        Some(if s[0] == '-' then -v else v)
      else
        None
    else if |s| > 0 && AllDigits(s) then
      Some(DigitsValue(s))
    else
      None
  }

  /** `int()` accepts exactly the signed decimal literals. */
  lemma ParseIntAccepts(s: string)
    ensures ParseInt(s).Some? <==> IsIntLiteral(s)
  {
    if |s| > 0 && (s[0] == '+' || s[0] == '-') {
      var ds := s[1..];
      if !(|ds| > 0 && AllDigits(ds)) && |ds| > 0 {
        var k :| 0 <= k < |ds| && !IsDigit(ds[k]);
        assert s[k + 1] == ds[k];
      }
    }
  }

  /** Python's `str(n)` for a natural number: decimal digits with no leading zero. */
  function NatToString(n: nat): (r: string)
    ensures |r| > 0 && AllDigits(r)
    ensures DigitsValue(r) == n
    ensures n > 0 ==> r[0] != '0'
    ensures n == 0 ==> r == "0"
  {
    if n < 10 then [DigitChar(n)]
    else
      var prefix := NatToString(n / 10);
      var r := prefix + [DigitChar(n % 10)];
      assert r[..|r| - 1] == prefix;
      r
  }

  /** Python's `str(n)`: a minus sign for negative values, then the digits of the magnitude. */
  function IntToString(n: int): (r: string)
    ensures ParseInt(r) == Some(n)
  {
    if n < 0 then
      var r := "-" + NatToString(-n);
      assert r[1..] == NatToString(-n);
      r
    else
      NatToString(n)
  }

  /** `str(n)` writes only digits, after a leading minus sign for negative values. */
  lemma IntToStringDigits(n: int)
    ensures forall k :: 0 <= k < |IntToString(n)| ==> IsDigit(IntToString(n)[k]) || (k == 0 && IntToString(n)[k] == '-')
  {
  }

  /** So `str(n)` holds no space, comma or newline, and `strip()` leaves it alone. */
  lemma IntToStringPlain(n: int)
    ensures ' ' !in IntToString(n) && ',' !in IntToString(n) && '\n' !in IntToString(n)
    ensures IsStripped(IntToString(n))
  {
    var s := IntToString(n);
    IntToStringDigits(n);
    assert forall k :: 0 <= k < |s| ==> s[k] != ' ' && s[k] != ',' && s[k] != '\n';
  }

  /** Reading back a written integer, as `int(str(n).strip())`, gives `n`. */
  lemma ReadBackInt(n: int)
    ensures ParseInt(Strip(IntToString(n))) == Some(n)
  {
    IntToStringPlain(n);
    StripOfStripped(IntToString(n));
  }
}
