// Worked examples of `clean_data`, each derived from the general properties.

module CleanDataExamples {
  import opened Wrappers
  import opened PyStr
  import opened PyFloat
  import opened CleanExcel
  import opened CleanDataProperties

  /** A reading below a detection limit of 8, written with a space, counts
      as 4. */
  lemma BelowEight()
    ensures CleanData(Str("< 8")) == Float(Finite(4.0))
  {
    assert ValidDecimal("8") && DecimalValue("8") == 8.0 by {
      assert FindChar("8", '.') == 1;
      assert "8"[..1] == "8";
    }
    assert "< 8" == "<" + " " + "8";
    BelowLimitNumber("8", " ");
  }

  /** A reading below a detection limit of 10 counts as 5. */
  lemma BelowTen()
    ensures CleanData(Str("<10")) == Float(Finite(5.0))
  {
    assert ValidDecimal("10") && DecimalValue("10") == 10.0 by {
      assert FindChar("10", '.') == 2;
      assert "10"[..2] == "10" && "10"[..1] == "1" && "1"[..0] == [];
      assert DigitsValue("1") == 1;
      assert DigitsValue("10") == 10;
    }
    assert "<10" == "<" + [] + "10";
    BelowLimitNumber("10", []);
  }

  /** A parenthesised number is read as that number. */
  lemma Parenthesised()
    ensures CleanData(Str("(3.2)")) == Float(Finite(3.2))
  {
    assert ValidDecimal("3.2") && DecimalValue("3.2") == 3.2 by {
      assert FindChar("3.2", '.') == 1;
      assert "3.2"[..1] == "3" && "3.2"[2..] == "2";
    }
    assert "(3.2)" == "(" + "3.2" + ")";
    ParenthesisedNumber("3.2");
  }

  /** Footnote stars around a number are dropped. */
  lemma Starred()
    ensures CleanData(Str("*5*")) == Float(Finite(5.0))
  {
    assert ValidDecimal("5") && DecimalValue("5") == 5.0 by {
      assert FindChar("5", '.') == 1;
      assert "5"[..1] == "5";
    }
    assert "*5*" == "*" + "5" + "*";
    StarsRemovedOnce("5");
    RunHasNoRule("5");
    PlainFallback("5");
  }

  /** A long dash on its own is 0. */
  lemma LongDash()
    ensures CleanData(Str([EmDash])) == Int(0)
  {
    assert Cleaned([EmDash]) == [EmDash] by {
      CleanedUnchanged([EmDash]);
    }
    DashIsZero([EmDash]);
  }

  /** Text that no rule reads and `float()` rejects comes back as it is. */
  lemma PlainWord()
    ensures CleanData(Str("abc")) == Str("abc")
  {
    PlainWordCleaned();
    PlainWordNormalised();
    CleanDataOfCleaned("abc");
  }

  lemma PlainWordNormalised()
    ensures Normalise("abc") == Str("abc")
  {
    PlainWordFallback();
    PlainWordNoRule();
  }

  lemma PlainWordNoRule()
    ensures Normalise("abc") == Fallback("abc")
  {
    NoRuleFires("abc");
  }

  lemma PlainWordFallback()
    ensures Fallback("abc") == Str("abc")
  {
    PlainWordNoNumber();
    assert |UpperAscii("abc")| == 3;
  }

  lemma PlainWordCleaned()
    ensures Cleaned("abc") == "abc"
  {
    CleanedUnchanged("abc");
  }

  lemma PlainWordNoNumber()
    ensures ParseFloat("abc").None?
  {
    var s := "abc";
    assert FloatLeading(s) == 0 && FloatTrailing(s) == 0;
    assert FloatStrip(s) == s;
    assert ParseSigned(s) == ParseMagnitude(false, s);
    assert LowerAscii(s)[0] == 'a';
    assert FindChar(s, 'e') == 3 && FindChar(s, 'E') == 3;
    assert s[..3] == s;
    assert FindChar(s, '.') == 3;
    assert !IsDigit(s[..3][0]);
  }

  /** A file separator U+001C is protected from `strip()` by a leading star;
      once the star is gone `float()` does not skip it, so the text comes
      back. */
  lemma SeparatorKept()
    ensures CleanData(Str("*\U{1C}5")) == Str("\U{1C}5")
  {
    SeparatorCleaned();
    SeparatorNormalised();
  }

  lemma SeparatorCleaned()
    ensures Cleaned("*\U{1C}5") == "\U{1C}5"
  {
    var m := "\U{1C}5";
    assert "*\U{1C}5" == "*" + m;
    StripTrimmed("*" + m);
    assert m[|m| - 2..] == m;
    OneLeadingStar(m);
  }

  lemma SeparatorNormalised()
    ensures Normalise("\U{1C}5") == Str("\U{1C}5")
  {
    var v := "\U{1C}5";
    ParseFloatRejectsSeparator(v);
    assert |UpperAscii(v)| == 2 && UpperAscii(v)[0] == v[0];
    NoRuleFires(v);
  }

  /** Once `@` captures a valid number, a `<` before it plays no part. */
  lemma AtBeatsLess()
    ensures CleanData(Str("<4@6")) == Float(Finite(6.0))
  {
    AtBeatsLessCleaned();
    AtBeatsLessNormalised();
    CleanDataOfCleaned("<4@6");
  }

  lemma AtBeatsLessCleaned()
    ensures Cleaned("<4@6") == "<4@6"
  {
    CleanedUnchanged("<4@6");
  }

  lemma AtBeatsLessNormalised()
    ensures Normalise("<4@6") == Float(Finite(6.0))
  {
    var v := "<4@6";
    assert Capture(Paren, v).None? by {
      NoGuardNoMatch(Paren, v);
    }
    assert ValidDecimal("6") && DecimalValue("6") == 6.0 by {
      assert FindChar("6", '.') == 1;
      assert "6"[..1] == "6";
    }
    assert MatchAt(At, v, 0).None? && MatchAt(At, v, 1).None?;
    assert v == "<4" + "@" + "6" + [];
    AtRuleOn(v, "<4", "6", []);
  }

  /** A lone point after `@` is not a number: the `<` rule decides. */
  lemma InvalidAtFallsToLess()
    ensures CleanData(Str("@.<4")) == Float(Finite(2.0))
  {
    InvalidAtCleaned();
    InvalidAtNormalised();
    CleanDataOfCleaned("@.<4");
  }

  lemma InvalidAtCleaned()
    ensures Cleaned("@.<4") == "@.<4"
  {
    CleanedUnchanged("@.<4");
  }

  lemma InvalidAtNormalised()
    ensures Normalise("@.<4") == Float(Finite(2.0))
  {
    InvalidAtParenSilent();
    InvalidAtAtSilent();
    FirstRulesSilent("@.<4");
    InvalidAtLess();
  }

  lemma InvalidAtParenSilent()
    ensures Capture(Paren, "@.<4").None?
  {
    NoGuardNoMatch(Paren, "@.<4");
  }

  /** The `@` rule's first match captures a lone point, which `float()`
      rejects. */
  lemma InvalidAtAtSilent()
    ensures Capture(At, "@.<4").None?
  {
    var v := "@.<4";
    assert v[1..2] == ".";
    assert MatchAt(At, v, 0) == Some(".");
    assert Search(At, v, 0) == Some(0);
  }

  lemma InvalidAtLess()
    ensures FromLess("@.<4") == Float(Finite(2.0))
  {
    InvalidAtLessFound();
    OneDigit('4');
    assert Capture(Less, "@.<4") == Some(4.0);
  }

  lemma InvalidAtLessFound()
    ensures Search(Less, "@.<4", 0) == Some(2) && MatchAt(Less, "@.<4", 2) == Some("4")
  {
    var v := "@.<4";
    assert MatchAt(Less, v, 0).None? && MatchAt(Less, v, 1).None?;
    assert v == "@." + "<" + [] + "4" + [];
    LessFound(v, "@.", [], "4", []);
  }

  /** A single digit is a valid number worth that digit. */
  lemma OneDigit(d: char)
    requires IsDigit(d)
    ensures ValidDecimal([d]) && DecimalValue([d]) == DigitValue(d) as real
  {
    assert FindChar([d], '.') == 1;
    assert [d][..1] == [d] && [d][..0] == [];
    assert DigitsValue([d]) == DigitValue(d);
  }
}
