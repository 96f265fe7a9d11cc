/**
 * Properties of the cell normaliser: what each rule of the chain returns,
 * which rule wins when several could apply, when a rule falls through, and
 * how the result behaves when it is cleaned again.
 */
module CleanDataProperties {
  import opened Wrappers
  import opened PyStr
  import opened PyFloat
  import opened CleanExcel

  // ---------------------------------------------------------------------
  // What a match of each pattern looks like.
  // ---------------------------------------------------------------------

  /** `\(([\d.]+)\)` matches at `i` with group `g` exactly when the text
      there is `(`, then `g`, a non-empty run of digits and points, then `)`. */
  lemma ParenMatchExact(s: string, i: nat, g: string)
    requires i < |s|
    ensures MatchAt(Paren, s, i) == Some(g) <==>
      g != [] && DigitsAndDots(g) && i + |g| + 2 <= |s| && s[i..i + |g| + 2] == "(" + g + ")"
  {
    var e := i + |g| + 2;
    if g != [] && DigitsAndDots(g) && e <= |s| && s[i..e] == "(" + g + ")" {
      var m := s[i..e];
      assert s[i] == m[0] == '(';
      assert s[i + 1..e - 1] == m[1..|g| + 1] == g;
      assert s[e - 1] == m[|g| + 1] == ')';
      RunEndIs(s, i + 1, e - 1);
    }
    if MatchAt(Paren, s, i) == Some(g) {
      assert s[i..e] == [s[i]] + s[i + 1..e - 1] + [s[e - 1]];
    }
  }

  /** `@([\d.]+)` matches at `i` with group `g` exactly when the text there
      is `@` then `g`, and `g` is the whole run of digits and points that
      follows (the greedy `+`). */
  lemma AtMatchExact(s: string, i: nat, g: string)
    requires i < |s|
    ensures MatchAt(At, s, i) == Some(g) <==>
      && g != [] && DigitsAndDots(g) && i + |g| + 1 <= |s| && s[i..i + |g| + 1] == "@" + g
      && (i + |g| + 1 == |s| || !IsDigitOrDot(s[i + |g| + 1]))
  {
    var e := i + |g| + 1;
    if g != [] && DigitsAndDots(g) && e <= |s| && s[i..e] == "@" + g && (e == |s| || !IsDigitOrDot(s[e])) {
      var m := s[i..e];
      assert s[i] == m[0] == '@';
      assert s[i + 1..e] == m[1..] == g;
      RunEndIs(s, i + 1, e);
    }
    if MatchAt(At, s, i) == Some(g) {
      assert s[i..e] == [s[i]] + s[i + 1..e];
    }
  }

  /** `<\s*([\d.]+)` captures `g` at `i` whenever the text there is `<`, some
      whitespace `w`, then `g`, the whole run of digits and points that
      follows: however `\s*` and the group could share the text, the group is
      the same. */
  lemma LessMatch(s: string, i: nat, w: string, g: string)
    requires i + 1 + |w| + |g| <= |s| && s[i..i + 1 + |w| + |g|] == "<" + w + g
    requires AllSpace(w) && g != [] && DigitsAndDots(g)
    requires i + 1 + |w| + |g| == |s| || !IsDigitOrDot(s[i + 1 + |w| + |g|])
    ensures MatchAt(Less, s, i) == Some(g)
  {
    var k := i + 1 + |w|;
    var e := k + |g|;
    var m := s[i..e];
    assert s[i] == m[0] == '<';
    assert s[i + 1..k] == m[1..1 + |w|] == w;
    assert s[k..e] == m[1 + |w|..] == g;
    assert s[k] == g[0] && IsDigitOrDot(g[0]);
    SpaceEndIs(s, i + 1, k);
    RunEndIs(s, k, e);
  }

  /** The text at `i` is `<`, whitespace `w`, then `g`, the whole run of
      digits and points that follows. */
  predicate LessShape(s: string, i: nat, w: string, g: string) {
    && AllSpace(w) && g != [] && DigitsAndDots(g)
    && i + 1 + |w| + |g| <= |s| && s[i..i + 1 + |w| + |g|] == "<" + w + g
    && (i + 1 + |w| + |g| == |s| || !IsDigitOrDot(s[i + 1 + |w| + |g|]))
  }

  /** `<\s*([\d.]+)` matches at `i` with group `g` exactly when the text
      there is `<`, some whitespace, then `g` as the whole run of digits and
      points that follows. */
  lemma LessMatchExact(s: string, i: nat, g: string)
    requires i < |s|
    ensures MatchAt(Less, s, i) == Some(g) <==> exists w :: LessShape(s, i, w, g)
  {
    if MatchAt(Less, s, i) == Some(g) {
      var w := LessMatchShape(s, i, g);
    }
    if exists w :: LessShape(s, i, w, g) {
      var w :| LessShape(s, i, w, g);
      LessMatch(s, i, w, g);
    }
  }

  /** The whitespace of a `<` match, read off the text. */
  lemma LessMatchShape(s: string, i: nat, g: string) returns (w: string)
    requires i < |s| && MatchAt(Less, s, i) == Some(g)
    ensures LessShape(s, i, w, g)
  {
    var k := SpaceEnd(s, i + 1);
    w := s[i + 1..k];
    var e := RunEnd(s, k);
    assert s[k..e] == g;
    assert s[i..e] == [s[i]] + w + g;
  }

  /** `re.search` returns the leftmost match. */
  lemma SearchFinds(p: Pattern, s: string, k: nat)
    requires k < |s| && MatchAt(p, s, k).Some?
    requires forall j :: 0 <= j < k ==> MatchAt(p, s, j).None?
    ensures Search(p, s, 0) == Some(k)
  {
  }

  /** Without the characters of its guard a rule cannot match. */
  lemma NoGuardNoMatch(p: Pattern, v: string)
    ensures !Guard(p, v) ==> Search(p, v, 0).None? && Capture(p, v).None?
  {
    forall i | 0 <= i < |v| ensures MatchAt(p, v, i).Some? ==> Guard(p, v) {
      MatchNeedsGuard(p, v, i);
    }
  }

  // ---------------------------------------------------------------------
  // Cleaning the text.
  // ---------------------------------------------------------------------

  /** Whitespace around the cell's text never changes the result. */
  lemma CleanIgnoresPadding(w1: string, raw: string, w2: string)
    requires AllSpace(w1) && AllSpace(w2)
    ensures CleanData(Str(w1 + raw + w2)) == CleanData(Str(raw))
  {
    StripPadding(w1, raw, w2);
  }

  /** Exactly one `*` is taken from each end, whatever is inside: the rules
      see `m` for the text `*m*`, even when `m` itself starts or ends with `*`. */
  lemma StarsRemovedOnce(m: string)
    ensures Cleaned("*" + m + "*") == m
    ensures CleanData(Str("*" + m + "*")) == Normalise(m)
  {
    var s := "*" + m + "*";
    assert Trimmed(s) by { assert s[0] == '*' && s[|s| - 1] == '*'; }
    StripTrimmed(s);
    assert s[1..] == m + "*";
    assert (m + "*")[..|m|] == m;
  }

  /** A single leading `*` is removed when no `*` ends the text. */
  lemma OneLeadingStar(m: string)
    requires m == [] || m[|m| - 1] != '*'
    requires |m| < 2 || m[|m| - 2..] != "*\n"
    ensures StripStars("*" + m) == m
  {
    assert ("*" + m)[1..] == m;
    if |m| >= 2 {
      assert m[|m| - 2..] == [m[|m| - 2], m[|m| - 1]];
    }
  }

  /** A single trailing `*` is removed when no `*` starts the text. */
  lemma OneTrailingStar(m: string)
    requires m == [] || m[0] != '*'
    ensures StripStars(m + "*") == m
  {
    if m != [] {
      assert (m + "*")[0] == m[0];
    }
    assert (m + "*")[..|m|] == m;
  }

  /** Text that has no whitespace and no `*` at its ends is already clean. */
  lemma CleanedUnchanged(s: string)
    requires Trimmed(s)
    requires s == [] || (s[0] != '*' && s[|s| - 1] != '*')
    ensures Cleaned(s) == s
  {
    StripTrimmed(s);
    if |s| > 1 {
      assert !IsSpace(s[|s| - 1]);
    }
  }

  // ---------------------------------------------------------------------
  // Each rule, and its precedence over the ones after it.
  // ---------------------------------------------------------------------

  /** A lone dash or long dash is the integer 0. */
  lemma DashIsZero(raw: string)
    requires Cleaned(raw) == "-" || Cleaned(raw) == [EmDash]
    ensures CleanData(Str(raw)) == Int(0)
  {
  }

  /** The first parenthesised run of digits and points, when it is a valid
      number, is the result, whatever `@`, `<` or other text surrounds it. */
  lemma ParenRuleWins(raw: string, a: string, g: string, b: string)
    requires Cleaned(raw) == a + "(" + g + ")" + b
    requires g != [] && DigitsAndDots(g) && ValidDecimal(g)
    requires forall k :: 0 <= k < |a| ==> MatchAt(Paren, Cleaned(raw), k).None?
    ensures CleanData(Str(raw)) == Float(Finite(DecimalValue(g)))
  {
    ParenRuleOn(Cleaned(raw), a, g, b);
  }

  lemma ParenRuleOn(v: string, a: string, g: string, b: string)
    requires v == a + "(" + g + ")" + b
    requires g != [] && DigitsAndDots(g) && ValidDecimal(g)
    requires forall k :: 0 <= k < |a| ==> MatchAt(Paren, v, k).None?
    ensures Normalise(v) == Float(Finite(DecimalValue(g)))
  {
    var i := |a|;
    assert Search(Paren, v, 0) == Some(i) && MatchAt(Paren, v, i) == Some(g) by {
      assert v[i..i + |g| + 2] == "(" + g + ")";
      ParenMatchExact(v, i, g);
      SearchFinds(Paren, v, i);
    }
    assert Capture(Paren, v) == Some(DecimalValue(g));
    assert FromParen(v) == Float(Finite(DecimalValue(g)));
    assert |v| > 1;
  }

  /** When the parenthesis rule does not fire, the first `@` followed by a
      run of digits and points decides, if that run is a valid number; any
      `<` elsewhere is ignored. */
  lemma AtRuleWins(raw: string, a: string, g: string, b: string)
    requires Capture(Paren, Cleaned(raw)).None?
    requires Cleaned(raw) == a + "@" + g + b
    requires g != [] && DigitsAndDots(g) && ValidDecimal(g)
    requires b == [] || !IsDigitOrDot(b[0])
    requires forall k :: 0 <= k < |a| ==> MatchAt(At, Cleaned(raw), k).None?
    ensures CleanData(Str(raw)) == Float(Finite(DecimalValue(g)))
  {
    AtRuleOn(Cleaned(raw), a, g, b);
  }

  lemma AtRuleOn(v: string, a: string, g: string, b: string)
    requires Capture(Paren, v).None?
    requires v == a + "@" + g + b
    requires g != [] && DigitsAndDots(g) && ValidDecimal(g)
    requires b == [] || !IsDigitOrDot(b[0])
    requires forall k :: 0 <= k < |a| ==> MatchAt(At, v, k).None?
    ensures Normalise(v) == Float(Finite(DecimalValue(g)))
  {
    var i := |a|;
    assert Search(At, v, 0) == Some(i) && MatchAt(At, v, i) == Some(g) by {
      assert v[i..i + |g| + 1] == "@" + g;
      if b != [] {
        assert v[i + |g| + 1] == b[0];
      }
      AtMatchExact(v, i, g);
      SearchFinds(At, v, i);
    }
    assert Capture(At, v) == Some(DecimalValue(g));
    assert FromAt(v) == Float(Finite(DecimalValue(g)));
    assert FromParen(v) == FromAt(v);
    assert |v| > 1;
  }

  /** When neither earlier rule fires, `<`, optional whitespace and a valid
      number give half that number. */
  lemma LessRuleHalves(raw: string, a: string, w: string, g: string, b: string)
    requires Capture(Paren, Cleaned(raw)).None? && Capture(At, Cleaned(raw)).None?
    requires Cleaned(raw) == a + "<" + w + g + b
    requires AllSpace(w) && g != [] && DigitsAndDots(g) && ValidDecimal(g)
    requires b == [] || !IsDigitOrDot(b[0])
    requires forall k :: 0 <= k < |a| ==> MatchAt(Less, Cleaned(raw), k).None?
    ensures CleanData(Str(raw)) == Float(Finite(Half(DecimalValue(g))))
  {
    LessRuleOn(Cleaned(raw), a, w, g, b);
  }

  lemma LessRuleOn(v: string, a: string, w: string, g: string, b: string)
    requires Capture(Paren, v).None? && Capture(At, v).None?
    requires v == a + "<" + w + g + b
    requires AllSpace(w) && g != [] && DigitsAndDots(g) && ValidDecimal(g)
    requires b == [] || !IsDigitOrDot(b[0])
    requires forall k :: 0 <= k < |a| ==> MatchAt(Less, v, k).None?
    ensures Normalise(v) == Float(Finite(Half(DecimalValue(g))))
  {
    LessFound(v, a, w, g, b);
    assert FromLess(v) == Float(Finite(Half(DecimalValue(g)))) by {
      assert Capture(Less, v) == Some(DecimalValue(g));
    }
    FirstRulesSilent(v);
  }

  /** Without a parenthesis or `@` capture, a value other than a dash is
      decided by the `<` rule and what follows it. */
  lemma FirstRulesSilent(v: string)
    requires Capture(Paren, v).None? && Capture(At, v).None?
    requires v != "-" && v != [EmDash]
    ensures Normalise(v) == FromLess(v)
  {
  }

  /** The first `<` match is the one just after the prefix `a`. */
  lemma LessFound(v: string, a: string, w: string, g: string, b: string)
    requires v == a + "<" + w + g + b
    requires AllSpace(w) && g != [] && DigitsAndDots(g)
    requires b == [] || !IsDigitOrDot(b[0])
    requires forall k :: 0 <= k < |a| ==> MatchAt(Less, v, k).None?
    ensures Search(Less, v, 0) == Some(|a|) && MatchAt(Less, v, |a|) == Some(g)
  {
    var i := |a|;
    var e := i + 1 + |w| + |g|;
    assert v[i..e] == "<" + w + g;
    if b != [] {
      assert v[e] == b[0];
    }
    LessMatch(v, i, w, g);
    SearchFinds(Less, v, i);
  }

  /** A rule whose first match captures something `float()` rejects (such as
      `.` or `1.2.3`) does not raise and does not look further: evaluation
      goes on with the next rule. */
  lemma InvalidGroupFallsThrough(v: string)
    ensures forall i :: Search(Paren, v, 0) == Some(i) && !ValidDecimal(MatchAt(Paren, v, i).value) ==>
      FromParen(v) == FromAt(v)
    ensures forall i :: Search(At, v, 0) == Some(i) && !ValidDecimal(MatchAt(At, v, i).value) ==>
      FromAt(v) == FromLess(v)
    ensures forall i :: Search(Less, v, 0) == Some(i) && !ValidDecimal(MatchAt(Less, v, i).value) ==>
      FromLess(v) == Fallback(v)
  {
  }

  /** The integer 0 comes from a dash, or from `ND` in any letter case or
      `N.A.` once no capturing rule has fired; from nothing else. */
  lemma ZeroResult(raw: string)
    ensures var v := Cleaned(raw);
      CleanData(Str(raw)) == Int(0) <==>
        || v == "-" || v == [EmDash]
        || (&& Capture(Paren, v).None? && Capture(At, v).None? && Capture(Less, v).None?
            && v in {"ND", "Nd", "nD", "nd", "N.A."})
  {
    UpperIsNd(Cleaned(raw));
  }

  /** Text comes back exactly when no rule applies and `float()` rejects the
      cleaned text; what comes back is that cleaned text. */
  lemma TextResult(raw: string, t: string)
    ensures var v := Cleaned(raw);
      CleanData(Str(raw)) == Str(t) <==>
        && t == v && v != "-" && v != [EmDash]
        && Capture(Paren, v).None? && Capture(At, v).None? && Capture(Less, v).None?
        && v !in {"ND", "Nd", "nD", "nd", "N.A."}
        && ParseFloat(v).None?
  {
    UpperIsNd(Cleaned(raw));
  }

  /** Once no earlier rule has fired, a float comes back exactly when the
      cleaned text is not a "no value" word and `float()` accepts it, and it
      is the value `float()` reads. */
  lemma FallbackFloat(raw: string, f: Double)
    ensures var v := Cleaned(raw);
      && v != "-" && v != [EmDash]
      && Capture(Paren, v).None? && Capture(At, v).None? && Capture(Less, v).None?
      ==>
      (CleanData(Str(raw)) == Float(f) <==>
        v !in {"ND", "Nd", "nD", "nd", "N.A."} && ParseFloat(v) == Some(f))
  {
    UpperIsNd(Cleaned(raw));
  }

  /** `ND` in any letter case, or `N.A.`, written on its own is 0. */
  lemma ZeroWord(v: string)
    requires v in {"ND", "Nd", "nD", "nd", "N.A."}
    ensures CleanData(Str(v)) == Int(0)
  {
    ZeroWordCleaned(v);
    ZeroWordNoRule(v);
    ZeroWordFallback(v);
  }

  lemma ZeroWordCleaned(v: string)
    requires v in {"ND", "Nd", "nD", "nd", "N.A."}
    ensures Cleaned(v) == v
  {
    CleanedUnchanged(v);
  }

  lemma ZeroWordNoRule(v: string)
    requires v in {"ND", "Nd", "nD", "nd", "N.A."}
    ensures Normalise(v) == Fallback(v)
  {
    NoRuleFires(v);
  }

  lemma ZeroWordFallback(v: string)
    requires v in {"ND", "Nd", "nD", "nd", "N.A."}
    ensures Fallback(v) == Int(0)
  {
    UpperIsNd(v);
  }

  // ---------------------------------------------------------------------
  // Cleaning a result again.
  // ---------------------------------------------------------------------

  /** A number (or any non-text value) that comes out is returned unchanged
      when cleaned again. */
  lemma CleanIdempotentOnNumbers(c: Cell)
    ensures !CleanData(c).Str? ==> CleanData(CleanData(c)) == CleanData(c)
  {
  }

  /** Text that comes out is stable under cleaning again when nothing is left
      to strip from its ends. */
  lemma TextResultStable(raw: string, t: string)
    requires CleanData(Str(raw)) == Str(t)
    requires Trimmed(t) && (t == [] || (t[0] != '*' && t[|t| - 1] != '*'))
    ensures CleanData(Str(t)) == Str(t)
  {
    CleanedUnchanged(t);
  }

  // ---------------------------------------------------------------------
  // Annotated numbers agree with the plain number.
  // ---------------------------------------------------------------------

  lemma NoCharIn(c: char, g: string)
    requires DigitsAndDots(g) && !IsDigitOrDot(c)
    ensures c !in g
  {
  }

  /** A plain number cleans to its value (the last rule, `float()`). */
  lemma PlainNumber(g: string)
    requires g != [] && DigitsAndDots(g) && ValidDecimal(g)
    ensures CleanData(Str(g)) == Float(Finite(DecimalValue(g)))
  {
    RunCleaned(g);
    RunHasNoRule(g);
    PlainFallback(g);
  }

  /** Cleaning leaves a run of digits and points alone. */
  lemma RunCleaned(g: string)
    requires g != [] && DigitsAndDots(g)
    ensures Cleaned(g) == g
  {
    assert IsDigitOrDot(g[0]) && IsDigitOrDot(g[|g| - 1]);
    CleanedUnchanged(g);
  }

  /** Text without `(`, `@` or `<` triggers none of the capturing rules. */
  lemma NoRuleFires(v: string)
    requires '(' !in v && '@' !in v && '<' !in v
    requires v != "-" && v != [EmDash]
    ensures Normalise(v) == Fallback(v)
  {
    NoGuardNoMatch(Paren, v);
    NoGuardNoMatch(At, v);
    NoGuardNoMatch(Less, v);
  }

  /** Digits and points alone are such text. */
  lemma RunHasNoRule(g: string)
    requires g != [] && DigitsAndDots(g)
    ensures Normalise(g) == Fallback(g)
  {
    NoCharIn('(', g);
    NoCharIn('@', g);
    NoCharIn('<', g);
    assert IsDigitOrDot(g[0]);
    NoRuleFires(g);
  }

  lemma PlainFallback(g: string)
    requires g != [] && DigitsAndDots(g) && ValidDecimal(g)
    ensures Fallback(g) == Float(Finite(DecimalValue(g)))
  {
    assert UpperAscii(g)[0] == g[0] && IsDigitOrDot(g[0]);
    ParseFloatOfRun(g);
  }

  /** The same number in parentheses cleans to the same value. */
  lemma ParenthesisedNumber(g: string)
    requires g != [] && DigitsAndDots(g) && ValidDecimal(g)
    ensures CleanData(Str("(" + g + ")")) == Float(Finite(DecimalValue(g)))
  {
    var p := "(" + g + ")";
    assert Normalise(p) == Float(Finite(DecimalValue(g))) by {
      assert p == [] + "(" + g + ")" + [];
      ParenRuleOn(p, [], g, []);
    }
    assert Cleaned(p) == p by {
      CleanedUnchanged(p);
    }
  }

  /** A value that cleaning leaves alone is normalised as it stands. */
  lemma CleanDataOfCleaned(v: string)
    requires Cleaned(v) == v
    ensures CleanData(Str(v)) == Normalise(v)
  {
  }

  /** The same number after `@` cleans to the same value. */
  lemma AtNumber(g: string)
    requires g != [] && DigitsAndDots(g) && ValidDecimal(g)
    ensures CleanData(Str("@" + g)) == Float(Finite(DecimalValue(g)))
  {
    AtNormalises(g);
    assert IsDigitOrDot(g[|g| - 1]);
    CleanedUnchanged("@" + g);
    CleanDataOfCleaned("@" + g);
  }

  lemma AtNormalises(g: string)
    requires g != [] && DigitsAndDots(g) && ValidDecimal(g)
    ensures Normalise("@" + g) == Float(Finite(DecimalValue(g)))
  {
    var q := "@" + g;
    assert Capture(Paren, q).None? by {
      NoCharIn('(', g);
      assert '(' !in q;
      NoGuardNoMatch(Paren, q);
    }
    assert q == [] + "@" + g + [];
    AtRuleOn(q, [], g, []);
  }

  /** The same number after `<` and optional whitespace cleans to half the
      value: a reading below the detection limit counts as half the limit. */
  lemma BelowLimitNumber(g: string, w: string)
    requires g != [] && DigitsAndDots(g) && ValidDecimal(g) && AllSpace(w)
    ensures CleanData(Str("<" + w + g)) == Float(Finite(Half(DecimalValue(g))))
  {
    BelowLimitNormalises(g, w);
    assert IsDigitOrDot(g[|g| - 1]);
    CleanedUnchanged("<" + w + g);
    CleanDataOfCleaned("<" + w + g);
  }

  lemma BelowLimitNormalises(g: string, w: string)
    requires g != [] && DigitsAndDots(g) && ValidDecimal(g) && AllSpace(w)
    ensures Normalise("<" + w + g) == Float(Finite(Half(DecimalValue(g))))
  {
    var r := "<" + w + g;
    assert Capture(Paren, r).None? && Capture(At, r).None? by {
      assert '(' !in r && '@' !in r by {
        forall k | 0 <= k < |r| ensures r[k] != '(' && r[k] != '@' {
          if 1 <= k < 1 + |w| {
            assert r[k] == w[k - 1] && IsSpace(w[k - 1]);
          } else if k >= 1 + |w| {
            assert r[k] == g[k - 1 - |w|] && IsDigitOrDot(g[k - 1 - |w|]);
          }
        }
      }
      NoGuardNoMatch(Paren, r);
      NoGuardNoMatch(At, r);
    }
    assert r == [] + "<" + w + g + [];
    LessRuleOn(r, [], w, g, []);
  }

}
