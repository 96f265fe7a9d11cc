/**
 * Python's `float()` applied to a `str`, over exact reals: surrounding
 * whitespace (a narrower set than `str.strip()` removes), an optional sign, a decimal mantissa with at most one point
 * and an optional exponent, or one of the words `inf`, `infinity` and `nan`.
 * A string outside this grammar is the `ValueError` case, `None` here.
 */
module PyFloat {
  import opened Wrappers
  import opened PyStr

  /** A Python `float`: a finite value (an exact real), an infinity, or NaN. */
  datatype Double = Finite(x: real) | Infinite(negative: bool) | NaN

  /** The whitespace `float()` skips around a number: C's `isspace` set (tab,
      line feed, vertical tab, form feed, carriage return and space) and every
      non-ASCII character that `str.isspace()` accepts, which `float()` first
      rewrites to a space. The separators U+001C to U+001F are whitespace for
      `str.strip()` and `\s` but not for `float()`. */
  predicate IsFloatSpace(c: char) {
    IsSpace(c) && !('\U{1C}' <= c <= '\U{1F}')
  }

  predicate AllFloatSpace(s: string) {
    forall k :: 0 <= k < |s| ==> IsFloatSpace(s[k])
  }

  /** Neither end of `s` is whitespace to `float()`. */
  predicate FloatTrimmed(s: string) {
    s == [] || (!IsFloatSpace(s[0]) && !IsFloatSpace(s[|s| - 1]))
  }

  /** The number of characters `float()` skips at the start of `s`. */
  function FloatLeading(s: string): (n: nat)
    ensures n <= |s|
    ensures AllFloatSpace(s[..n])
    ensures n == |s| || !IsFloatSpace(s[n])
  {
    if |s| == 0 || !IsFloatSpace(s[0]) then 0
    else
      var m := FloatLeading(s[1..]);
      assert s[..1 + m] == [s[0]] + s[1..][..m];
      1 + m
  }

  /** The number of characters `float()` skips at the end of `s`. */
  function FloatTrailing(s: string): (n: nat)
    ensures n <= |s|
    ensures AllFloatSpace(s[|s| - n..])
    ensures n == |s| || !IsFloatSpace(s[|s| - n - 1])
  {
    if |s| == 0 || !IsFloatSpace(s[|s| - 1]) then 0
    else
      var t := s[..|s| - 1];
      var m := FloatTrailing(t);
      assert s[|s| - (1 + m)..] == t[|t| - m..] + [s[|s| - 1]];
      1 + m
  }

  /** The text `float()` reads once the surrounding whitespace is skipped. */
  function FloatStrip(s: string): (r: string)
    ensures FloatTrimmed(r)
  {
    FloatRight(FloatLeft(s))
  }

  function FloatLeft(s: string): (r: string)
    ensures r == [] || !IsFloatSpace(r[0])
  {
    s[FloatLeading(s)..]
  }

  function FloatRight(s: string): (r: string)
    ensures r == [] || !IsFloatSpace(r[|r| - 1])
  {
    s[..|s| - FloatTrailing(s)]
  }

  lemma {:induction false} FloatLeadingAppend(w: string, r: string)
    requires AllFloatSpace(w)
    ensures FloatLeading(w + r) == |w| + FloatLeading(r)
  {
    if w == [] {
      assert w + r == r;
    } else {
      assert (w + r)[1..] == w[1..] + r;
      FloatLeadingAppend(w[1..], r);
    }
  }

  lemma {:induction false} FloatTrailingAppend(r: string, w: string)
    requires AllFloatSpace(w)
    ensures FloatTrailing(r + w) == |w| + FloatTrailing(r)
  {
    if w == [] {
      assert r + w == r;
    } else {
      assert (r + w)[..|r + w| - 1] == r + w[..|w| - 1];
      FloatTrailingAppend(r, w[..|w| - 1]);
    }
  }

  lemma FloatLeftPadded(w: string, r: string)
    requires AllFloatSpace(w)
    ensures FloatLeft(w + r) == FloatLeft(r)
  {
    FloatLeadingAppend(w, r);
    assert (w + r)[|w|..] == r;
  }

  lemma FloatRightPadded(r: string, w: string)
    requires AllFloatSpace(w)
    ensures FloatRight(r + w) == FloatRight(r)
  {
    FloatTrailingAppend(r, w);
    assert (r + w)[..|r|] == r;
  }

  /** Text after the first character `float()` does not skip is kept. */
  lemma {:induction false} FloatLeftAppend(r: string, w: string)
    requires FloatLeading(r) < |r|
    ensures FloatLeft(r + w) == FloatLeft(r) + w
  {
    if IsFloatSpace(r[0]) {
      assert (r + w)[1..] == r[1..] + w;
      assert FloatLeft(r + w) == FloatLeft(r[1..] + w) by {
        assert (r + w)[1 + FloatLeading((r + w)[1..])..] == (r + w)[1..][FloatLeading((r + w)[1..])..];
      }
      assert FloatLeft(r) == FloatLeft(r[1..]) by {
        assert r[1 + FloatLeading(r[1..])..] == r[1..][FloatLeading(r[1..])..];
      }
      FloatLeftAppend(r[1..], w);
    } else {
      assert (r + w)[0] == r[0];
    }
  }

  /** `float()` strips a text whose ends are not its whitespace to itself. */
  lemma FloatStripTrimmed(s: string)
    requires FloatTrimmed(s)
    ensures FloatStrip(s) == s
  {
    assert FloatLeading(s) == 0;
    assert s[0..] == s;
    assert FloatTrailing(s) == 0;
  }

  /** Whitespace added around a text does not change what `float()` reads. */
  lemma FloatStripPadding(w1: string, s: string, w2: string)
    requires AllFloatSpace(w1) && AllFloatSpace(w2)
    ensures FloatStrip(w1 + s + w2) == FloatStrip(s)
  {
    assert w1 + s + w2 == w1 + (s + w2);
    FloatLeftPadded(w1, s + w2);
    if FloatLeading(s) < |s| {
      FloatLeftAppend(s, w2);
      FloatRightPadded(FloatLeft(s), w2);
    } else {
      assert AllFloatSpace(s) by {
        assert s[..FloatLeading(s)] == s;
      }
      assert AllFloatSpace(s + w2) by {
        forall k | 0 <= k < |s + w2| ensures IsFloatSpace((s + w2)[k]) {
          if k < |s| { assert (s + w2)[k] == s[k]; } else { assert (s + w2)[k] == w2[k - |s|]; }
        }
      }
      FloatLeadingAppend(s + w2, []);
      assert (s + w2) + [] == s + w2;
    }
  }

  function DigitValue(c: char): (n: nat)
    requires IsDigit(c)
    ensures n < 10
  {
    c as int - '0' as int
  }

  /** The value of a string of decimal digits, most significant first. */
  function DigitsValue(ds: string): nat
    requires AllDigits(ds)
  {
    if ds == [] then 0 else 10 * DigitsValue(ds[..|ds| - 1]) + DigitValue(ds[|ds| - 1])
  }

  /** 10 raised to a possibly negative exponent. */
  function Scale(k: int): (r: real)
    ensures r > 0.0
    decreases if k < 0 then -k else k
  {
    if k == 0 then 1.0
    else if k > 0 then 10.0 * Scale(k - 1)
    else Scale(k + 1) / 10.0
  }

  /** The index of the first occurrence of `c` in `s`, or `|s|` if there is none. */
  function FindChar(s: string, c: char): (d: nat)
    ensures d <= |s|
    ensures forall k :: 0 <= k < d ==> s[k] != c
    ensures d < |s| ==> s[d] == c
  {
    if s == [] || s[0] == c then 0 else 1 + FindChar(s[1..], c)
  }

  /** A mantissa `float()` accepts: digits, optionally a point and more digits,
      and at least one digit in all. */
  predicate ValidDecimal(s: string) {
    var d := FindChar(s, '.');
    && AllDigits(s[..d])
    && (d < |s| ==> AllDigits(s[d + 1..]))
    && (d > 0 || d + 1 < |s|)
  }

  /** The value of the digits after a decimal point: `0.d1d2...`. */
  function FractionValue(ds: string): (x: real)
    requires AllDigits(ds)
    ensures 0.0 <= x <= 1.0
  {
    if ds == [] then 0.0 else (DigitValue(ds[0]) as real + FractionValue(ds[1..])) / 10.0
  }

  /** The exact value of a valid mantissa. */
  function DecimalValue(s: string): (x: real)
    requires ValidDecimal(s)
    ensures x >= 0.0
  {
    var d := FindChar(s, '.');
    var whole := DigitsValue(s[..d]) as real;
    if d == |s| then whole else whole + FractionValue(s[d + 1..])
  }

  /** The exponent after `e` or `E`: an optional sign and at least one digit. */
  function ParseExponent(s: string): Option<int> {
    var negative := |s| > 0 && s[0] == '-';
    var digits := if |s| > 0 && (s[0] == '+' || s[0] == '-') then s[1..] else s;
    if digits == [] || !AllDigits(digits) then None
    else if negative then Some(-(DigitsValue(digits) as int))
    else Some(DigitsValue(digits))
  }

  /** An unsigned finite number: a mantissa and an optional exponent. */
  function ParseUnsigned(b: string): Option<real> {
    var e := if FindChar(b, 'e') < FindChar(b, 'E') then FindChar(b, 'e') else FindChar(b, 'E');
    var mantissa := b[..e];
    if !ValidDecimal(mantissa) then None
    else if e == |b| then Some(DecimalValue(mantissa))
    else match ParseExponent(b[e + 1..])
      case None => None
      case Some(k) => Some(DecimalValue(mantissa) * Scale(k))
  }

  /** `float(s)` for a `str` argument; `None` where Python raises `ValueError`. */
  function ParseFloat(s: string): (r: Option<Double>)
    ensures r.Some? ==> FloatStrip(s) != []
  {
    ParseSigned(FloatStrip(s))
  }

  /** An optional sign, then the magnitude. */
  function ParseSigned(t: string): Option<Double> {
    if |t| > 0 && t[0] == '-' then ParseMagnitude(true, t[1..])
    else if |t| > 0 && t[0] == '+' then ParseMagnitude(false, t[1..])
    else ParseMagnitude(false, t)
  }

  /** A number without its sign: an infinity or NaN spelled in any letter
      case, or an unsigned finite number. */
  function ParseMagnitude(negative: bool, body: string): Option<Double> {
    var word := LowerAscii(body);
    if word == "inf" || word == "infinity" then Some(Infinite(negative))
    else if word == "nan" then Some(NaN)
    else match ParseUnsigned(body)
      case None => None
      case Some(x) => Some(Finite(if negative then -x else x))
  }

  /** The number of points in `s`. */
  function DotCount(s: string): nat {
    multiset(s)['.']
  }

  predicate HasDigit(s: string) {
    exists k :: 0 <= k < |s| && IsDigit(s[k])
  }

  /** A run of digits and points is all digits exactly when it has no point. */
  lemma DigitsIffNoDot(rest: string)
    requires DigitsAndDots(rest)
    ensures AllDigits(rest) <==> multiset(rest)['.'] == 0
  {
    if multiset(rest)['.'] == 0 {
      assert '.' !in rest;
    } else {
      assert '.' in multiset(rest);
      assert '.' in rest;
      var k :| 0 <= k < |rest| && rest[k] == '.';
      assert !IsDigit(rest[k]);
    }
  }

  /** On a run of digits and points, the mantissa grammar says exactly: at
      least one digit and at most one point (so `"."` and `"1.2.3"` fail). */
  lemma ValidDecimalOfRun(g: string)
    requires DigitsAndDots(g)
    ensures ValidDecimal(g) <==> HasDigit(g) && DotCount(g) <= 1
  {
    var d := FindChar(g, '.');
    assert AllDigits(g[..d]);
    if d < |g| {
      var rest := g[d + 1..];
      assert g == g[..d] + [g[d]] + rest;
      assert multiset(g)['.'] == multiset(g[..d])['.'] + 1 + multiset(rest)['.'];
      assert '.' !in g[..d];
      assert multiset(g[..d])['.'] == 0;
      DigitsIffNoDot(rest);
      if HasDigit(g) && DotCount(g) <= 1 && d == 0 {
        assert |rest| > 0 by {
          var k :| 0 <= k < |g| && IsDigit(g[k]);
          assert k != 0;
          assert rest[k - 1] == g[k];
        }
      }
      if d > 0 {
        assert IsDigit(g[0]);
      } else if d + 1 < |g| && AllDigits(rest) {
        assert IsDigit(g[d + 1]) by { assert g[d + 1] == rest[0]; }
      }
    } else {
      assert g[..d] == g;
      assert '.' !in g;
      if HasDigit(g) {
        assert d > 0;
      }
      if d > 0 {
        assert IsDigit(g[0]);
      }
    }
  }

  /** A run of digits and points spells none of `inf`, `infinity`, `nan`. */
  lemma RunIsNoWord(g: string)
    requires DigitsAndDots(g)
    ensures ParseMagnitude(false, g) == match ParseUnsigned(g)
      case None => None
      case Some(x) => Some(Finite(x))
  {
    if g != [] {
      assert IsDigitOrDot(g[0]);
      assert LowerAscii(g)[0] == g[0];
    }
  }

  /** A run of digits and points has no exponent part. */
  lemma RunIsMantissa(g: string)
    requires DigitsAndDots(g)
    ensures ParseUnsigned(g) == if ValidDecimal(g) then Some(DecimalValue(g)) else None
  {
    var e := FindChar(g, 'e');
    var big := FindChar(g, 'E');
    assert forall k :: 0 <= k < |g| ==> g[k] != 'e' && g[k] != 'E' by {
      forall k | 0 <= k < |g| ensures g[k] != 'e' && g[k] != 'E' {
        assert IsDigitOrDot(g[k]);
      }
    }
    assert g[..|g|] == g;
  }

  /** What `float()` does with a run of digits and points, such as the group a
      pattern `[\d.]+` captures: the run's value when it is a valid mantissa,
      and `ValueError` otherwise. */
  lemma ParseFloatOfRun(g: string)
    requires DigitsAndDots(g)
    ensures ParseFloat(g) == if ValidDecimal(g) then Some(Finite(DecimalValue(g))) else None
  {
    assert FloatTrimmed(g) by {
      if g != [] {
        assert IsDigitOrDot(g[0]) && IsDigitOrDot(g[|g| - 1]);
      }
    }
    FloatStripTrimmed(g);
    if g != [] {
      assert IsDigitOrDot(g[0]);
    }
    assert ParseSigned(g) == ParseMagnitude(false, g);
    RunIsNoWord(g);
    RunIsMantissa(g);
  }

  /** `float()` ignores its whitespace around the number. */
  lemma ParseFloatPadding(w1: string, s: string, w2: string)
    requires AllFloatSpace(w1) && AllFloatSpace(w2)
    ensures ParseFloat(w1 + s + w2) == ParseFloat(s)
  {
    FloatStripPadding(w1, s, w2);
  }

  /** A text starting with one of the separators U+001C to U+001F, which
      `str.strip()` would remove, makes `float()` raise. */
  lemma ParseFloatRejectsSeparator(s: string)
    requires s != [] && '\U{1C}' <= s[0] <= '\U{1F}'
    ensures ParseFloat(s).None?
  {
    assert FloatLeading(s) == 0;
    assert s[0..] == s;
    var t := FloatStrip(s);
    assert FloatTrailing(s) < |s|;
    assert t[0] == s[0];
    assert ParseSigned(t) == ParseMagnitude(false, t);
    assert LowerAscii(t)[0] == t[0];
    var e := if FindChar(t, 'e') < FindChar(t, 'E') then FindChar(t, 'e') else FindChar(t, 'E');
    assert e > 0;
    assert !ValidDecimal(t[..e]) by {
      var m := t[..e];
      assert m[0] == t[0];
      if FindChar(m, '.') > 0 {
        assert !IsDigit(m[..FindChar(m, '.')][0]);
      }
    }
  }

  lemma MagnitudeNegate(body: string)
    ensures ParseMagnitude(false, body).None? ==> ParseMagnitude(true, body).None?
    ensures forall x :: ParseMagnitude(false, body) == Some(Finite(x)) ==> ParseMagnitude(true, body) == Some(Finite(-x))
    ensures ParseMagnitude(false, body).Some? && ParseMagnitude(false, body).value.Infinite? ==>
      ParseMagnitude(true, body) == Some(Infinite(true))
  {
  }

  /** A leading minus negates a finite number and turns an infinity negative;
      it is rejected wherever the unsigned text is. */
  lemma ParseFloatNegate(s: string)
    requires FloatTrimmed(s) && s != [] && s[0] != '+' && s[0] != '-'
    ensures ParseFloat(s).None? ==> ParseFloat("-" + s).None?
    ensures forall x :: ParseFloat(s) == Some(Finite(x)) ==> ParseFloat("-" + s) == Some(Finite(-x))
    ensures ParseFloat(s).Some? && ParseFloat(s).value.Infinite? ==> ParseFloat("-" + s) == Some(Infinite(true))
  {
    var t := "-" + s;
    assert FloatStrip(t) == t by {
      assert FloatTrimmed(t) by { assert t[|t| - 1] == s[|s| - 1]; }
      FloatStripTrimmed(t);
    }
    assert ParseFloat(t) == ParseMagnitude(true, s) by {
      assert t[1..] == s;
      assert ParseSigned(t) == ParseMagnitude(true, s);
    }
    assert ParseFloat(s) == ParseMagnitude(false, s) by {
      FloatStripTrimmed(s);
    }
    MagnitudeNegate(s);
  }

}
