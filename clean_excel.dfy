/**
 * The spreadsheet cell normaliser of the water-quality extraction pipeline.
 * A raw cell is either text or an already-typed value; text is cleaned and
 * then put through a fixed chain of lab-report conventions, the first rule
 * that applies deciding the result:
 *   a dash is 0; a number in parentheses is that number; a number after `@`
 *   is that number; a number after `<` (a detection limit) is half of it;
 *   `ND` or `N.A.` is 0; otherwise the text is read as a float, or kept.
 */
module CleanExcel {
  import opened Wrappers
  import opened PyStr
  import opened PyFloat

  /** A cell value as pandas hands it over: text, an integer, a float, or any
      other non-text value (a timestamp, `None`, a boolean), told apart only by
      an opaque tag. */
  datatype Cell = Str(s: string) | Int(i: int) | Float(f: Double) | Opaque(tag: nat)

  /** The long dash U+2014 that spreadsheets use for "no value". */
  const EmDash: char := '\U{2014}'

  /** `re.sub(r'^\*|\*$', '', s)`: one `*` goes from the start and one from
      the end; `$` also matches just before a final newline. */
  function StripStars(s: string): (r: string)
    ensures |r| <= |s| <= |r| + 2
  {
    var t := if |s| > 0 && s[0] == '*' then s[1..] else s;
    if |t| > 0 && t[|t| - 1] == '*' then t[..|t| - 1]
    else if |t| > 1 && t[|t| - 2] == '*' && t[|t| - 1] == '\n' then t[..|t| - 2] + "\n"
    else t
  }

  /** The text every rule sees: surrounding whitespace stripped, then at most
      one `*` removed from each end. */
  function Cleaned(raw: string): (r: string)
    ensures |r| <= |Strip(raw)| <= |r| + 2
  {
    StripStars(Strip(raw))
  }

  /** The three patterns the rules search for:
      `\(([\d.]+)\)`, `@([\d.]+)` and `<\s*([\d.]+)`. */
  datatype Pattern = Paren | At | Less

  /** The group that pattern `p` captures when a match starts at index `i`,
      or `None` when no match starts there. The character class `[\d.]` has
      no `)`, `@` or whitespace in it, so the greedy match at `i` is the only
      one and backtracking never changes the group. */
  function MatchAt(p: Pattern, s: string, i: nat): (g: Option<string>)
    requires i < |s|
    ensures g.Some? ==> g.value != [] && DigitsAndDots(g.value)
  {
    match p
    case Paren =>
      if s[i] != '(' then None
      else
        var j := RunEnd(s, i + 1);
        if i + 1 < j < |s| && s[j] == ')' then Some(s[i + 1..j]) else None
    case At =>
      if s[i] != '@' then None
      else
        var j := RunEnd(s, i + 1);
        if i + 1 < j then Some(s[i + 1..j]) else None
    case Less =>
      if s[i] != '<' then None
      else
        var k := SpaceEnd(s, i + 1);
        var j := RunEnd(s, k);
        if k < j then Some(s[k..j]) else None
  }

  /** `re.search` from index `from`: the leftmost index where a match of `p`
      starts. */
  function Search(p: Pattern, s: string, from: nat): (r: Option<nat>)
    requires from <= |s|
    ensures r.Some? ==> from <= r.value < |s| && MatchAt(p, s, r.value).Some?
    ensures forall k :: from <= k < |s| && (r.None? || k < r.value) ==> MatchAt(p, s, k).None?
    decreases |s| - from
  {
    if from == |s| then None
    else if MatchAt(p, s, from).Some? then Some(from)
    else Search(p, s, from + 1)
  }

  /** The `in` test written before each search. */
  predicate Guard(p: Pattern, v: string) {
    match p
    case Paren => '(' in v && ')' in v
    case At => '@' in v
    case Less => '<' in v
  }

  /** One capturing rule: the float of the group of the FIRST match, or
      `None` when the rule falls through (no match, or `float()` raised on
      the group and the bare `except` swallowed it). A later match is never
      tried. */
  function Capture(p: Pattern, v: string): (r: Option<real>)
    ensures match Search(p, v, 0)
      case None => r.None?
      case Some(i) =>
        var g := MatchAt(p, v, i).value;
        r == if ValidDecimal(g) then Some(DecimalValue(g)) else None
  {
    var found := Search(p, v, 0);
    if !Guard(p, v) then
      assert found.None? by {
        if found.Some? { MatchNeedsGuard(p, v, found.value); }
      }
      None
    else match found
      case None => None
      case Some(i) =>
        var g := MatchAt(p, v, i).value;
        ParseFloatOfRun(g);
        match ParseFloat(g)
        case Some(Finite(x)) => Some(x)
        case _ => None
  }

  /** A match contains the characters the guard looks for, so the guards
      never hide a match. */
  lemma MatchNeedsGuard(p: Pattern, v: string, i: nat)
    requires i < |v|
    ensures MatchAt(p, v, i).Some? ==> Guard(p, v)
  {
    assert v[i] in v;
    if p == Paren && v[i] == '(' {
      var j := RunEnd(v, i + 1);
      if j < |v| {
        assert v[j] in v;
      }
    }
  }

  /** The chain of rules applied to the cleaned text `v`. */
  function Normalise(v: string): (r: Cell)
    ensures !r.Opaque? && (r.Int? ==> r.i == 0) && (r.Str? ==> r.s == v)
  {
    if v == "-" || v == [EmDash] then Int(0)
    else FromParen(v)
  }

  function FromParen(v: string): (r: Cell)
    ensures !r.Opaque? && (r.Int? ==> r.i == 0) && (r.Str? ==> r.s == v)
  {
    match Capture(Paren, v)
    case Some(x) => Float(Finite(x))
    case None => FromAt(v)
  }

  function FromAt(v: string): (r: Cell)
    ensures !r.Opaque? && (r.Int? ==> r.i == 0) && (r.Str? ==> r.s == v)
  {
    match Capture(At, v)
    case Some(x) => Float(Finite(x))
    case None => FromLess(v)
  }

  /** Half of a reading, the value a reading below its limit counts as. */
  function Half(x: real): (h: real)
    ensures h + h == x
  {
    x / 2.0
  }

  /** A value below the detection limit `<x` counts as half the limit. */
  function FromLess(v: string): (r: Cell)
    ensures !r.Opaque? && (r.Int? ==> r.i == 0) && (r.Str? ==> r.s == v)
  {
    match Capture(Less, v)
    case Some(x) => Float(Finite(Half(x)))
    case None => Fallback(v)
  }

  /** The last two rules: ND in any letter case or exactly `N.A.` is 0;
      otherwise `float(v)`, and on `ValueError` the cleaned text itself. */
  function Fallback(v: string): (r: Cell)
    ensures !r.Opaque? && (r.Int? ==> r.i == 0) && (r.Str? ==> r.s == v)
  {
    if UpperAscii(v) == "ND" || v == "N.A." then Int(0)
    else match ParseFloat(v)
      case Some(f) => Float(f)
      case None => Str(v)
  }

  /** `clean_data`: a non-text cell comes back unchanged; text comes back as
      the integer 0, a float, or its cleaned form; nothing raises. */
  function CleanData(value: Cell): (r: Cell)
    ensures !value.Str? ==> r == value
    ensures value.Str? ==> !r.Opaque?
    ensures value.Str? && r.Int? ==> r.i == 0
    ensures value.Str? && r.Str? ==> r.s == Cleaned(value.s)
  {
    match value
    case Str(raw) => Normalise(Cleaned(raw))
    case _ => value
  }

}
