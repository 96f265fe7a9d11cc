/**
 * The parts of Python's `str` and `re` behaviour that the cell normaliser
 * relies on: the whitespace class, `str.strip()`, ASCII case mapping, and the
 * character runs that the patterns `\s*` and `[\d.]+` consume.
 */
module PyStr {

  /** A character Python treats as whitespace (`str.isspace()`); the same set is
      stripped by `str.strip()` and matched by `\s` in a `str` pattern.
      `float()` skips a narrower set, `PyFloat.IsFloatSpace`. */
  predicate IsSpace(c: char) {
    || ('\t' <= c <= '\r')
    || ('\U{1C}' <= c <= '\U{1F}')
    || c == ' '
    || c == '\U{85}'
    || c == '\U{A0}'
    || c == '\U{1680}'
    || ('\U{2000}' <= c <= '\U{200A}')
    || c == '\U{2028}'
    || c == '\U{2029}'
    || c == '\U{202F}'
    || c == '\U{205F}'
    || c == '\U{3000}'
  }

  /** An ASCII decimal digit, the part of `\d` this model covers. */
  predicate IsDigit(c: char) {
    '0' <= c <= '9'
  }

  /** A character of the class `[\d.]`. */
  predicate IsDigitOrDot(c: char) {
    IsDigit(c) || c == '.'
  }

  predicate AllSpace(s: string) {
    forall k :: 0 <= k < |s| ==> IsSpace(s[k])
  }

  predicate AllDigits(s: string) {
    forall k :: 0 <= k < |s| ==> IsDigit(s[k])
  }

  predicate DigitsAndDots(s: string) {
    forall k :: 0 <= k < |s| ==> IsDigitOrDot(s[k])
  }

  /** Neither end of `s` is whitespace: what `str.strip()` leaves behind. */
  predicate Trimmed(s: string) {
    s == [] || (!IsSpace(s[0]) && !IsSpace(s[|s| - 1]))
  }

  /** The number of whitespace characters at the start of `s`. */
  function LeadingSpace(s: string): (n: nat)
    ensures n <= |s|
    ensures AllSpace(s[..n])
    ensures n == |s| || !IsSpace(s[n])
  {
    if |s| == 0 || !IsSpace(s[0]) then 0
    else
      var m := LeadingSpace(s[1..]);
      assert s[..1 + m] == [s[0]] + s[1..][..m];
      1 + m
  }

  /** The number of whitespace characters at the end of `s`. */
  function TrailingSpace(s: string): (n: nat)
    ensures n <= |s|
    ensures AllSpace(s[|s| - n..])
    ensures n == |s| || !IsSpace(s[|s| - n - 1])
  {
    if |s| == 0 || !IsSpace(s[|s| - 1]) then 0
    else
      var t := s[..|s| - 1];
      var m := TrailingSpace(t);
      assert s[|s| - (1 + m)..] == t[|t| - m..] + [s[|s| - 1]];
      1 + m
  }

  /** `str.lstrip()`: drop the leading whitespace. */
  function TrimLeft(s: string): (r: string)
    ensures r == [] || !IsSpace(r[0])
  {
    s[LeadingSpace(s)..]
  }

  /** `str.rstrip()`: drop the trailing whitespace. */
  function TrimRight(s: string): (r: string)
    ensures r == [] || !IsSpace(r[|r| - 1])
  {
    s[..|s| - TrailingSpace(s)]
  }

  /** `str.strip()` with no argument. */
  function Strip(s: string): (r: string)
    ensures Trimmed(r)
  {
    var t := TrimLeft(s);
    TrimRight(t)
  }

  lemma AllSpaceConcat(a: string, b: string)
    requires AllSpace(a) && AllSpace(b)
    ensures AllSpace(a + b)
  {
    forall k | 0 <= k < |a + b| ensures IsSpace((a + b)[k]) {
      if k < |a| { assert (a + b)[k] == a[k]; } else { assert (a + b)[k] == b[k - |a|]; }
    }
  }

  /** Leading whitespace before a string is absorbed into its own. */
  lemma {:induction false} LeadingSpaceAppend(w: string, r: string)
    requires AllSpace(w)
    ensures LeadingSpace(w + r) == |w| + LeadingSpace(r)
  {
    if w == [] {
      assert w + r == r;
    } else {
      assert (w + r)[1..] == w[1..] + r;
      LeadingSpaceAppend(w[1..], r);
    }
  }

  /** Trailing whitespace after a string is absorbed into its own. */
  lemma {:induction false} TrailingSpaceAppend(r: string, w: string)
    requires AllSpace(w)
    ensures TrailingSpace(r + w) == |w| + TrailingSpace(r)
  {
    if w == [] {
      assert r + w == r;
    } else {
      assert (r + w)[..|r + w| - 1] == r + w[..|w| - 1];
      TrailingSpaceAppend(r, w[..|w| - 1]);
    }
  }

  lemma TrimLeftPadded(w: string, r: string)
    requires AllSpace(w)
    ensures TrimLeft(w + r) == TrimLeft(r)
  {
    LeadingSpaceAppend(w, r);
    assert (w + r)[|w|..] == r;
  }

  lemma TrimRightPadded(r: string, w: string)
    requires AllSpace(w)
    ensures TrimRight(r + w) == TrimRight(r)
  {
    TrailingSpaceAppend(r, w);
    assert (r + w)[..|r|] == r;
  }

  lemma TrimLeftStep(s: string)
    requires s != [] && IsSpace(s[0])
    ensures TrimLeft(s) == TrimLeft(s[1..])
  {
    assert s[1 + LeadingSpace(s[1..])..] == s[1..][LeadingSpace(s[1..])..];
  }

  /** Text after the first non-blank character is kept by `lstrip()`. */
  lemma {:induction false} TrimLeftAppend(r: string, w: string)
    requires LeadingSpace(r) < |r|
    ensures TrimLeft(r + w) == TrimLeft(r) + w
  {
    if IsSpace(r[0]) {
      assert (r + w)[1..] == r[1..] + w;
      TrimLeftStep(r + w);
      TrimLeftStep(r);
      TrimLeftAppend(r[1..], w);
    } else {
      assert (r + w)[0] == r[0];
    }
  }

  /** Whitespace added around a string does not change what `strip()` returns. */
  lemma StripPadding(w1: string, s: string, w2: string)
    requires AllSpace(w1) && AllSpace(w2)
    ensures Strip(w1 + s + w2) == Strip(s)
  {
    assert w1 + s + w2 == w1 + (s + w2);
    TrimLeftPadded(w1, s + w2);
    if LeadingSpace(s) < |s| {
      TrimLeftAppend(s, w2);
      TrimRightPadded(TrimLeft(s), w2);
    } else {
      assert AllSpace(s) by {
        assert s[..LeadingSpace(s)] == s;
      }
      AllSpaceConcat(s, w2);
      LeadingSpaceAppend(s + w2, []);
      assert (s + w2) + [] == s + w2;
    }
  }

  /** Stripping removes exactly the whitespace around a trimmed middle part,
      whatever that part holds: `strip()` is characterised by its result. */
  lemma StripOf(w1: string, m: string, w2: string)
    requires AllSpace(w1) && AllSpace(w2) && Trimmed(m)
    ensures Strip(w1 + m + w2) == m
  {
    StripPadding(w1, m, w2);
    assert LeadingSpace(m) == 0;
    assert m[0..] == m;
  }

  /** A string whose ends are not whitespace is left alone by `strip()`. */
  lemma StripTrimmed(s: string)
    requires Trimmed(s)
    ensures Strip(s) == s
  {
    assert [] + s + [] == s;
    StripOf([], s, []);
  }

  /** The end of the run of characters of `[\d.]` that starts at index `i`:
      what the greedy `[\d.]+` consumes from there. */
  function RunEnd(s: string, i: nat): (j: nat)
    requires i <= |s|
    ensures i <= j <= |s|
    ensures DigitsAndDots(s[i..j])
    ensures j == |s| || !IsDigitOrDot(s[j])
    decreases |s| - i
  {
    if i == |s| || !IsDigitOrDot(s[i]) then i
    else
      var j := RunEnd(s, i + 1);
      assert s[i..j] == [s[i]] + s[i + 1..j];
      j
  }

  /** The end of the run of whitespace that starts at index `i`: what the
      greedy `\s*` consumes from there. */
  function SpaceEnd(s: string, i: nat): (j: nat)
    requires i <= |s|
    ensures i <= j <= |s|
    ensures AllSpace(s[i..j])
    ensures j == |s| || !IsSpace(s[j])
    decreases |s| - i
  {
    if i == |s| || !IsSpace(s[i]) then i
    else
      var j := SpaceEnd(s, i + 1);
      assert s[i..j] == [s[i]] + s[i + 1..j];
      j
  }

  /** The greedy run is the only run that ends where the class stops. */
  lemma {:induction false} RunEndIs(s: string, i: nat, j: nat)
    requires i <= j <= |s| && DigitsAndDots(s[i..j])
    requires j == |s| || !IsDigitOrDot(s[j])
    ensures RunEnd(s, i) == j
    decreases j - i
  {
    if i < j {
      assert IsDigitOrDot(s[i..j][0]);
      assert s[i + 1..j] == s[i..j][1..];
      RunEndIs(s, i + 1, j);
    }
  }

  /** Likewise for the greedy `\s*`. */
  lemma {:induction false} SpaceEndIs(s: string, i: nat, j: nat)
    requires i <= j <= |s| && AllSpace(s[i..j])
    requires j == |s| || !IsSpace(s[j])
    ensures SpaceEnd(s, i) == j
    decreases j - i
  {
    if i < j {
      assert IsSpace(s[i..j][0]);
      assert s[i + 1..j] == s[i..j][1..];
      SpaceEndIs(s, i + 1, j);
    }
  }

  function UpperChar(c: char): char {
    if 'a' <= c <= 'z' then (c as int - 'a' as int + 'A' as int) as char else c
  }

  function LowerChar(c: char): char {
    if 'A' <= c <= 'Z' then (c as int - 'A' as int + 'a' as int) as char else c
  }

  /** `str.upper()` on ASCII letters; every other character is kept. */
  function UpperAscii(s: string): (r: string)
    ensures |r| == |s|
    ensures forall k :: 0 <= k < |s| ==> r[k] == UpperChar(s[k])
  {
    seq(|s|, k requires 0 <= k < |s| => UpperChar(s[k]))
  }

  /** ASCII lower-casing, as used by `float()` to recognise `inf` and `nan`. */
  function LowerAscii(s: string): (r: string)
    ensures |r| == |s|
    ensures forall k :: 0 <= k < |s| ==> r[k] == LowerChar(s[k])
  {
    seq(|s|, k requires 0 <= k < |s| => LowerChar(s[k]))
  }

  /** `s.upper() == "ND"` holds exactly for the four spellings of ND. */
  lemma UpperIsNd(s: string)
    ensures UpperAscii(s) == "ND" <==> s in {"ND", "Nd", "nD", "nd"}
  {
    if UpperAscii(s) == "ND" {
      assert |s| == 2;
      assert UpperChar(s[0]) == 'N' && UpperChar(s[1]) == 'D';
      assert s == [s[0], s[1]];
    }
  }

}
