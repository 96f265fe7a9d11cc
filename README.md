# Water-quality cell normaliser in Dafny

The water-quality pipeline extracts sample measurements from spreadsheets and
puts every cell through `clean_data` (clean_excel.py). This function turns
the annotations that laboratory reports write around numbers into plain
values. A non-text cell is returned as it is. A text cell is first cleaned:
surrounding whitespace is stripped, then at most one `*` (a footnote mark) is
removed from each end. The cleaned text then goes through a fixed chain of
rules, and the first rule that applies decides the result:

1. a lone `-` or `—` is the integer 0;
2. the first `(digits-and-points)` group is read as a number;
3. the first `@` followed by digits and points is read as a number;
4. the first `<`, optional whitespace and digits and points is read as a
   number and halved (a reading below the detection limit counts as half the
   limit);
5. `ND` in any letter case, or exactly `N.A.`, is the integer 0;
6. otherwise `float()` reads the text, and if it raises `ValueError` the
   cleaned text itself comes back.

A capturing rule whose first match is not a valid number (`(.)`, `@1.2.3`)
does not raise. The bare `except` skips it and the next rule is tried; a
later match of the same pattern is never looked at.

The model is pure, as the source is. It has these modules:
- `PyStr`: Python's `str.strip()`, the whitespace class it shares with the
  regex `\s`, greedy character runs, and ASCII `upper()`.
- `PyFloat`: `float()` on text, with exact real values. `float()` skips a
  narrower whitespace class than `strip()`: it does not skip the separators
  U+001C to U+001F.
- `CleanExcel`: the cell type, the three regular-expression searches, the
  rule chain and `CleanData` itself.
- `CleanDataProperties`: what the chain promises.
- `CleanDataExamples`: worked examples derived from those properties.

The cell type `Cell` stands for Python's dynamic values:
- `Str` is text.
- `Int` is an integer; `return 0` gives `Int(0)`.
- `Float` holds a `Double`, which is finite, an infinity or NaN.
- `Opaque` is any other non-text value, such as a timestamp or `None`.

Where the docstring of `clean_data` (clean_excel.py:15-26) and the code
differ, the model follows the code:
- The parenthesis rule needs both `(` and `)` in the text.
- Every rule reads only the FIRST match of its pattern. When that match is
  not a valid number, the rule falls through to the next rule, even if a
  later match would be valid. For example, `(1.2.3)(4)` is not 4.
- `StripStars` models `re.sub(r'^\*|\*$', '', s)` in full, so it also
  removes a `*` that sits just before a final newline, because `$` in
  Python's `re` matches there. After `strip()` the text never ends in a
  newline, so this case does not arise in `clean_data`.

## Model

| member | source | states |
|---|---|---|
| CleanExcel.CleanData | clean_excel.py:14-73 | a non-text cell comes back unchanged; text never gives an opaque value; an integer result is 0; a text result is the cleaned input |
| CleanExcel.StripStars | clean_excel.py:32 | removing the stars never lengthens the text and removes at most two characters |
| CleanExcel.Cleaned | clean_excel.py:29-32 | the text the rules see is the stripped text less at most two characters |
| CleanExcel.Guard | clean_excel.py:39 | the `in` tests before each search (lines 39, 48, 57); what they guarantee is stated by MatchNeedsGuard |
| CleanExcel.Normalise | clean_excel.py:35-36 | the rule chain on cleaned text: a dash gives 0, then the rules in order; never opaque, an integer is 0, text is the input |
| CleanExcel.FromParen | clean_excel.py:39-45 | the parenthesis rule and what follows it: never opaque, an integer is 0, text is the input |
| CleanExcel.FromAt | clean_excel.py:48-54 | the `@` rule and what follows it: never opaque, an integer is 0, text is the input |
| CleanExcel.FromLess | clean_excel.py:57-63 | the `<` rule and what follows it: never opaque, an integer is 0, text is the input |
| CleanExcel.Fallback | clean_excel.py:66-73 | the ND / N.A. test and the final `float()`: never opaque, an integer is 0, text is the input |
| CleanExcel.MatchAt | clean_excel.py:40 | a match of `\(([\d.]+)\)`, `@([\d.]+)` or `<\s*([\d.]+)` at an index captures a non-empty run of digits and points |
| CleanExcel.Search | clean_excel.py:40 | `re.search`: the index found holds a match and no earlier index does; no index holds a match when nothing is found |
| CleanExcel.MatchNeedsGuard | clean_excel.py:39-40 | any match contains the characters that the `in` test before the search looks for, so the test never hides a match |
| CleanExcel.Capture | clean_excel.py:39-45 | a rule yields the value of the group of its first match when `float()` accepts that group, and nothing when there is no match or `float()` rejects the group |
| CleanExcel.Half | clean_excel.py:61 | the `/ 2` of the `<` rule: the result added to itself is the input |
| PyStr.Strip | clean_excel.py:29 | the stripped text neither starts nor ends with whitespace |
| PyStr.StripPadding | clean_excel.py:29 | whitespace added on either side does not change what `strip()` returns |
| PyStr.StripOf | clean_excel.py:29 | `strip()` returns exactly the trimmed middle between two runs of whitespace |
| PyStr.IsSpace | clean_excel.py:29 | the characters `str.strip()` removes and `\s` matches (line 58) |
| PyFloat.IsFloatSpace | clean_excel.py:71 | the whitespace `float()` skips around a number: `strip()`'s set less U+001C-U+001F |
| PyStr.UpperAscii | clean_excel.py:66 | ASCII `upper()`: a-z become A-Z and every other character is kept; this is exact for the comparison with "ND" |
| PyStr.UpperIsNd | clean_excel.py:66 | `value.upper() == "ND"` holds exactly for ND, Nd, nD and nd |
| PyFloat.ParseFloat | clean_excel.py:71 | `float()` accepts only text that is not blank once its own whitespace is stripped |
| PyFloat.ValidDecimalOfRun | clean_excel.py:43 | `float()` accepts a run of digits and points exactly when it has a digit and at most one point |
| PyFloat.ParseFloatOfRun | clean_excel.py:43 | on a run of digits and points, `float()` gives the run's decimal value or raises |
| PyFloat.ParseFloatPadding | clean_excel.py:71 | `float()` ignores its own whitespace (not U+001C-U+001F) around the number |
| PyFloat.ParseFloatRejectsSeparator | clean_excel.py:71 | text that starts with one of U+001C-U+001F, which `strip()` would have removed, makes `float()` raise |
| PyFloat.ParseFloatNegate | clean_excel.py:71 | a leading minus negates a finite value, makes an infinity negative, and is rejected wherever the unsigned text is |
| CleanDataProperties.ParenMatchExact | clean_excel.py:40 | `\(([\d.]+)\)` matches at an index with group g exactly when `(`, g and `)` stand there and g is a non-empty run of digits and points |
| CleanDataProperties.AtMatchExact | clean_excel.py:49 | `@([\d.]+)` matches at an index with group g exactly when `@` and g stand there and g is the longest run of digits and points |
| CleanDataProperties.LessMatchExact | clean_excel.py:58 | `<\s*([\d.]+)` matches at an index with group g exactly when `<`, some whitespace and g stand there and g is the longest run of digits and points |
| CleanDataProperties.NoGuardNoMatch | clean_excel.py:39-40 | when the `in` test fails, the search finds nothing and the rule yields nothing |
| CleanDataProperties.CleanIgnoresPadding | clean_excel.py:29 | whitespace around a text cell does not change the result |
| CleanDataProperties.StarsRemovedOnce | clean_excel.py:29-32 | exactly one `*` is removed from each end of `*m*`, and the rules see m |
| CleanDataProperties.OneLeadingStar | clean_excel.py:32 | a single leading `*` is removed and nothing else when no `*` ends the text |
| CleanDataProperties.OneTrailingStar | clean_excel.py:32 | a single trailing `*` is removed and nothing else when no `*` starts the text |
| CleanDataProperties.CleanedUnchanged | clean_excel.py:29-32 | text without surrounding whitespace or end stars is left as it is |
| CleanDataProperties.DashIsZero | clean_excel.py:35-36 | a cleaned `-` or `—` gives the integer 0 |
| CleanDataProperties.ParenRuleWins | clean_excel.py:39-45 | the first parenthesised valid number decides the result, whatever else the text holds |
| CleanDataProperties.AtRuleWins | clean_excel.py:48-54 | when the parenthesis rule yields nothing, the first `@` number decides, ahead of any `<` |
| CleanDataProperties.LessRuleHalves | clean_excel.py:57-63 | when neither earlier rule yields a number, the first `<` number gives half its value |
| CleanDataProperties.InvalidGroupFallsThrough | clean_excel.py:39-63 | a rule whose first match holds an invalid number passes to the next rule |
| CleanDataProperties.ZeroResult | clean_excel.py:35-67 | the result is the integer 0 exactly for a dash, or for ND in any case or N.A. when no capturing rule fires |
| CleanDataProperties.TextResult | clean_excel.py:66-73 | text comes back exactly when no rule applies and `float()` rejects the cleaned text, and it is that cleaned text |
| CleanDataProperties.FallbackFloat | clean_excel.py:66-73 | when no earlier rule fires, a float comes back exactly when the text is not a no-value word and `float()` accepts it, with `float()`'s value |
| CleanDataProperties.ZeroWord | clean_excel.py:66-67 | ND in any letter case, or N.A., on its own gives 0 |
| CleanDataProperties.CleanIdempotentOnNumbers | clean_excel.py:27-28 | cleaning a non-text result again returns it unchanged |
| CleanDataProperties.TextResultStable | clean_excel.py:29-32 | a text result with nothing left to strip is returned unchanged when cleaned again |
| CleanDataProperties.PlainNumber | clean_excel.py:69-71 | a plain valid number gives its value |
| CleanDataProperties.ParenthesisedNumber | clean_excel.py:39-45 | the same number in parentheses gives the same value |
| CleanDataProperties.AtNumber | clean_excel.py:48-54 | the same number after `@` gives the same value |
| CleanDataProperties.BelowLimitNumber | clean_excel.py:57-63 | the same number after `<` and whitespace gives half the value |
| CleanDataExamples.BelowEight | clean_excel.py:57-63 | `< 8` gives 4.0 |
| CleanDataExamples.BelowTen | clean_excel.py:57-63 | `<10` gives 5.0 |
| CleanDataExamples.Parenthesised | clean_excel.py:39-45 | `(3.2)` gives 3.2 |
| CleanDataExamples.Starred | clean_excel.py:29-32 | `*5*` gives 5.0 |
| CleanDataExamples.LongDash | clean_excel.py:35-36 | `—` gives the integer 0 |
| CleanDataExamples.PlainWord | clean_excel.py:69-73 | `abc` comes back as the text `abc` |
| CleanDataExamples.SeparatorKept | clean_excel.py:29-73 | `*` followed by U+001C and `5` comes back as text: the star shields the separator from `strip()` and `float()` does not skip it |
| CleanDataExamples.AtBeatsLess | clean_excel.py:48-54 | `<4@6` gives 6.0: the `@` rule comes before the `<` rule |
| CleanDataExamples.InvalidAtFallsToLess | clean_excel.py:51-63 | `@.<4` gives 2.0: the lone point after `@` is skipped and the `<` rule decides |

## Left out

- `log_error` and `process_sheets` (clean_excel.py:9-12, 75-143): Excel
  reading through pandas and openpyxl, CSV writing, the error log file and
  console output. These are input and output over libraries that are not
  part of this model.
- app.py (CSV loading, merging, axis-scale arithmetic on floating point,
  chart rendering) and test.py (a script that prints a literal table): they
  are not part of this model.
- PyFloat.ParseFloat: numbers are exact reals. IEEE-754 rounding, overflow
  to infinity (long digit runs or huge exponents) and the sign of a negative
  zero are not modelled, and neither is the rounding of the `/ 2` in the `<`
  rule.
- PyFloat.ParseFloat: underscores between digits (`1_000`) are rejected,
  although Python accepts them.
- PyStr.UpperAscii: non-ASCII case mapping (é to É, ß to SS) is not
  modelled. It cannot change `value.upper() == "ND"`, because only n, N, d
  and D upper-case to N or D.
- PyFloat.ParseFloat and CleanExcel.MatchAt: `\d` and `float()` digits are
  the ASCII digits 0-9. Python also accepts other Unicode decimal digits
  there.
- CleanExcel.Cell: non-text values other than numbers are opaque tags. The
  model only says that `clean_data` returns them unchanged.
- The `except` clauses at clean_excel.py:44, 53 and 62 catch every exception. A
  group of digits and points can only make `float()` raise `ValueError`, so
  the model treats "raises" and "falls through" as the same thing.
