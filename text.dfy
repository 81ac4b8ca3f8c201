/**
 * String helpers with .NET semantics: `char.IsWhiteSpace`, `string.Trim`,
 * `string.IsNullOrWhiteSpace`, and the decimal formatting done by
 * `int.ToString("0000")`.
 */
module Text {
  import opened Wrappers

  /** `char.IsWhiteSpace`: the Unicode space, line and paragraph separators,
      the control characters U+0009..U+000D and U+0085. */
  predicate IsWhiteSpace(c: char) {
    || ('\t' <= c <= '\r')
    || c == ' '
    || c == '\U{85}'
    || c == '\U{A0}'
    || c == '\U{1680}'
    || ('\U{2000}' <= c <= '\U{200A}')
    || c == '\U{2028}'
    || c == '\U{2029}'
    || c == '\U{202F}'
    || c == '\U{205F}'
    || c == '\U{3000}'
  }

  predicate AllWhiteSpace(s: string) {
    forall i :: 0 <= i < |s| ==> IsWhiteSpace(s[i])
  }

  /** `string.IsNullOrWhiteSpace`. */
  predicate IsNullOrWhiteSpace(s: Option<string>) {
    s.None? || AllWhiteSpace(s.value)
  }

  /** `string.IsNullOrEmpty`. */
  predicate IsNullOrEmpty(s: Option<string>) {
    s.None? || s.value == ""
  }

  /** True when `s` neither starts nor ends with white space. */
  predicate NoOuterWhiteSpace(s: string) {
    s == [] || (!IsWhiteSpace(s[0]) && !IsWhiteSpace(s[|s| - 1]))
  }

  function TrimStart(s: string): (r: string)
    ensures |r| <= |s| && r == s[|s| - |r|..]
    ensures AllWhiteSpace(s[..|s| - |r|])
    ensures r == [] || !IsWhiteSpace(r[0])
  {
    if s == [] || !IsWhiteSpace(s[0]) then s
    else
      var r := TrimStart(s[1..]);
      TrimStartStep(s, r);
      r
  }

  /** Dropping one more leading white-space character keeps the suffix and
      the white-space prefix facts of `TrimStart`. */
  lemma TrimStartStep(s: string, r: string)
    requires s != [] && IsWhiteSpace(s[0])
    requires |r| <= |s| - 1 && r == s[1..][|s| - 1 - |r|..]
    requires AllWhiteSpace(s[1..][..|s| - 1 - |r|])
    ensures r == s[|s| - |r|..] && AllWhiteSpace(s[..|s| - |r|])
  {
    assert s[..|s| - |r|] == [s[0]] + s[1..][..|s| - 1 - |r|];
  }

  function TrimEnd(s: string): (r: string)
    ensures |r| <= |s| && r == s[..|r|]
    ensures AllWhiteSpace(s[|r|..])
    ensures r == [] || !IsWhiteSpace(r[|r| - 1])
  {
    if s == [] || !IsWhiteSpace(s[|s| - 1]) then s
    else
      var r := TrimEnd(s[..|s| - 1]);
      TrimEndStep(s, r);
      r
  }

  /** Dropping one more trailing white-space character keeps the prefix and
      the white-space suffix facts of `TrimEnd`. */
  lemma TrimEndStep(s: string, r: string)
    requires s != [] && IsWhiteSpace(s[|s| - 1])
    requires |r| <= |s| - 1 && r == s[..|s| - 1][..|r|]
    requires AllWhiteSpace(s[..|s| - 1][|r|..])
    ensures r == s[..|r|] && AllWhiteSpace(s[|r|..])
  {
    assert s[|r|..] == s[..|s| - 1][|r|..] + [s[|s| - 1]];
  }

  /** `string.Trim()`: removes leading and trailing white space. */
  function Trim(s: string): (r: string)
    ensures |r| <= |s|
  {
    TrimEnd(TrimStart(s))
  }

  /** Trim returns the middle of its input: it drops only white space, and
      what it keeps neither starts nor ends with white space. */
  lemma TrimSpec(s: string)
    ensures exists i, j :: 0 <= i <= j <= |s| && Trim(s) == s[i..j]
                           && AllWhiteSpace(s[..i]) && AllWhiteSpace(s[j..])
    ensures NoOuterWhiteSpace(Trim(s))
  {
    TrimParts(s, TrimStart(s), Trim(s));
  }

  /** The facts TrimSpec needs, stated over the two trimming steps' results. */
  lemma TrimParts(s: string, t: string, r: string)
    requires |t| <= |s| && t == s[|s| - |t|..] && AllWhiteSpace(s[..|s| - |t|])
    requires t == [] || !IsWhiteSpace(t[0])
    requires |r| <= |t| && r == t[..|r|] && AllWhiteSpace(t[|r|..])
    requires r == [] || !IsWhiteSpace(r[|r| - 1])
    ensures exists i, j :: 0 <= i <= j <= |s| && r == s[i..j]
                           && AllWhiteSpace(s[..i]) && AllWhiteSpace(s[j..])
    ensures NoOuterWhiteSpace(r)
  {
    var i := |s| - |t|;
    SliceOfSlice(s, t, r);
    MiddleSlice(s, i, i + |r|, r);
    TrimOuter(t, r);
  }

  lemma MiddleSlice(s: string, i: nat, j: nat, m: string)
    requires i <= j <= |s| && m == s[i..j] && AllWhiteSpace(s[..i]) && AllWhiteSpace(s[j..])
    ensures exists i, j :: 0 <= i <= j <= |s| && m == s[i..j]
                           && AllWhiteSpace(s[..i]) && AllWhiteSpace(s[j..])
  {
  }

  lemma TrimOuter(t: string, r: string)
    requires t == [] || !IsWhiteSpace(t[0])
    requires |r| <= |t| && r == t[..|r|]
    requires r == [] || !IsWhiteSpace(r[|r| - 1])
    ensures NoOuterWhiteSpace(r)
  {
    assert r == [] || r[0] == t[0];
  }

  /** A prefix of a suffix is a middle slice. */
  lemma SliceOfSlice(s: string, t: string, r: string)
    requires |t| <= |s| && t == s[|s| - |t|..]
    requires |r| <= |t| && r == t[..|r|]
    ensures r == s[|s| - |t|..|s| - |t| + |r|]
    ensures s[|s| - |t| + |r|..] == t[|r|..]
  {
  }

  /** Trim gives "" exactly for a string of white space only. */
  lemma TrimEmptyIffAllWhite(s: string)
    ensures Trim(s) == [] <==> AllWhiteSpace(s)
  {
    var t := TrimStart(s);
    var i := |s| - |t|;
    if AllWhiteSpace(s) {
      TrimStartAllWhite(s);
    }
    if Trim(s) == [] {
      assert t[0..] == t;
      assert s == s[..i] + t;
      AllWhiteConcat(s[..i], t);
    }
  }

  lemma AllWhiteConcat(a: string, b: string)
    requires AllWhiteSpace(a) && AllWhiteSpace(b)
    ensures AllWhiteSpace(a + b)
  {
    forall k | 0 <= k < |a + b| ensures IsWhiteSpace((a + b)[k]) {
      if k < |a| {
        assert (a + b)[k] == a[k];
      } else {
        assert (a + b)[k] == b[k - |a|];
      }
    }
  }

  /** Trim leaves a string without outer white space unchanged. */
  lemma TrimNoOuter(s: string)
    requires NoOuterWhiteSpace(s)
    ensures Trim(s) == s
  {
  }

  lemma {:induction false} TrimStartAllWhite(s: string)
    requires AllWhiteSpace(s)
    ensures TrimStart(s) == []
  {
    if s != [] {
      TrimStartAllWhite(s[1..]);
    }
  }

  lemma {:induction false} TrimEndAllWhite(s: string)
    requires AllWhiteSpace(s)
    ensures TrimEnd(s) == []
  {
    if s != [] {
      TrimEndAllWhite(s[..|s| - 1]);
    }
  }

  /** Trailing white space added to a string disappears under TrimEnd. */
  lemma {:induction false} TrimEndAppendWhite(s: string, w: string)
    requires AllWhiteSpace(w)
    ensures TrimEnd(s + w) == TrimEnd(s)
  {
    if w != [] {
      var w' := w[..|w| - 1];
      assert IsWhiteSpace((s + w)[|s + w| - 1]);
      assert (s + w)[..|s + w| - 1] == s + w';
      TrimEndAppendWhite(s, w');
      assert TrimEnd(s + w) == TrimEnd(s + w');
    } else {
      assert s + w == s;
    }
  }

  /** TrimStart of a concatenation whose first part holds a non-white
      character only touches that part. */
  lemma {:induction false} TrimStartAppend(s: string, t: string)
    requires !AllWhiteSpace(s)
    ensures TrimStart(s + t) == TrimStart(s) + t
  {
    assert s != [];
    if IsWhiteSpace(s[0]) {
      assert (s + t)[1..] == s[1..] + t;
      TrimStartAppend(s[1..], t);
    }
  }

  /** TrimStart of a concatenation whose first part is all white space. */
  lemma {:induction false} TrimStartSkipWhite(s: string, t: string)
    requires AllWhiteSpace(s)
    ensures TrimStart(s + t) == TrimStart(t)
  {
    if s != [] {
      assert IsWhiteSpace((s + t)[0]);
      assert (s + t)[1..] == s[1..] + t;
      TrimStartSkipWhite(s[1..], t);
      assert TrimStart(s + t) == TrimStart(s[1..] + t);
    } else {
      assert s + t == t;
    }
  }

  // ---------------------------------------------------------------------
  // Decimal digits

  predicate IsAsciiDigit(c: char) {
    '0' <= c <= '9'
  }

  predicate AllAsciiDigits(s: string) {
    forall i :: 0 <= i < |s| ==> IsAsciiDigit(s[i])
  }

  function DigitChar(d: nat): (c: char)
    requires d < 10
    ensures IsAsciiDigit(c)
  {
    ('0' as int + d) as char
  }

  function DigitValue(c: char): nat
    requires IsAsciiDigit(c)
  {
    c as int - '0' as int
  }

  /** The shortest decimal representation of `n` (`n.ToString()`). */
  function ToDecimal(n: nat): (s: string)
    ensures |s| >= 1 && AllAsciiDigits(s)
  {
    if n < 10 then [DigitChar(n)] else ToDecimal(n / 10) + [DigitChar(n % 10)]
  }

  /** The value of a string of ASCII digits, leading zeros allowed. */
  function ParseDecimal(s: string): nat
    requires AllAsciiDigits(s)
  {
    if s == [] then 0 else 10 * ParseDecimal(s[..|s| - 1]) + DigitValue(s[|s| - 1])
  }

  function Zeros(k: nat): (s: string)
    ensures |s| == k && forall i :: 0 <= i < k ==> s[i] == '0'
  {
    if k == 0 then [] else Zeros(k - 1) + ['0']
  }

  /** `n.ToString(format)` for the custom format made of `width` zeros: the
      decimal digits of `n`, padded on the left with '0' to `width`. */
  function ZeroPadded(n: nat, width: nat): (s: string)
    ensures AllAsciiDigits(s)
    ensures |s| >= width && |s| >= 1
  {
    var d := ToDecimal(n);
    (if |d| < width then Zeros(width - |d|) else []) + d
  }

  function Pow10(k: nat): (p: nat)
    ensures p >= 1
  {
    if k == 0 then 1 else 10 * Pow10(k - 1)
  }

  lemma {:induction false} ParseToDecimal(n: nat)
    ensures ParseDecimal(ToDecimal(n)) == n
  {
    var s := ToDecimal(n);
    if n >= 10 {
      ParseToDecimal(n / 10);
      assert s[..|s| - 1] == ToDecimal(n / 10);
    }
  }

  lemma {:induction false} ParseZeros(k: nat)
    ensures ParseDecimal(Zeros(k)) == 0
  {
    if k > 0 {
      assert Zeros(k)[..k - 1] == Zeros(k - 1);
      ParseZeros(k - 1);
    }
  }

  /** Leading zeros do not change the value of a digit string. */
  lemma {:induction false} ParseLeadingZeros(k: nat, s: string)
    requires AllAsciiDigits(s)
    ensures AllAsciiDigits(Zeros(k) + s)
    ensures ParseDecimal(Zeros(k) + s) == ParseDecimal(s)
  {
    var z := Zeros(k);
    if s == [] {
      assert z + s == z;
      ParseZeros(k);
    } else {
      var s' := s[..|s| - 1];
      assert (z + s)[..|z + s| - 1] == z + s';
      ParseLeadingZeros(k, s');
    }
  }

  /** A number below 10^k has at most k decimal digits. */
  lemma {:induction false} ToDecimalLength(n: nat, k: nat)
    requires k >= 1 && n < Pow10(k)
    ensures |ToDecimal(n)| <= k
  {
    if n >= 10 {
      ToDecimalLength(n / 10, k - 1);
    }
  }

  /** Zero padding is reversible, and a number below 10^width is printed
      with exactly `width` digits. */
  lemma ZeroPaddedRoundTrip(n: nat, width: nat)
    requires width >= 1 && n < Pow10(width)
    ensures |ZeroPadded(n, width)| == width
    ensures ParseDecimal(ZeroPadded(n, width)) == n
  {
    var d := ToDecimal(n);
    ToDecimalLength(n, width);
    ParseToDecimal(n);
    ParseLeadingZeros(width - |d|, d);
    if |d| == width {
      assert Zeros(0) + d == d;
    }
  }
}
