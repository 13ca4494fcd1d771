/**
 * The number grammars of `checkInteger`/`scanInteger` and
 * `checkDecimal`/`scanDecimal`, their defaults, the shapes of their results,
 * and the backward digit search used to give digits of the leading part back
 * to the number.
 */
module Numeric {
  import opened Patterns
  import opened Reverse

  /** The `digits` option: a string whose characters are each a digit literal, or one regex. */
  datatype Digits = DigitChars(chars: string) | DigitPattern(rx: Regex)

  /** The patterns `scan(...digits)` (or `scan(digits)`) tries, in order. */
  function DigitPatterns(d: Digits): (ps: seq<Pattern>)
    ensures d.DigitChars? ==> |ps| == |d.chars| && forall k :: 0 <= k < |ps| ==> ps[k] == Lit([d.chars[k]])
    ensures d.DigitPattern? ==> ps == [Re(d.rx)]
  {
    match d
    case DigitChars(cs) => Literals(seq(|cs|, k requires 0 <= k < |cs| => [cs[k]]))
    case DigitPattern(rx) => [Re(rx)]
  }

  /** A digit regex that could match empty would make the digit loop spin in place. */
  ghost predicate DigitsNeverEmpty(d: Digits) {
    d.DigitPattern? ==> NeverEmpty(Re(d.rx))
  }

  lemma DigitPatternsNeverEmpty(d: Digits)
    requires DigitsNeverEmpty(d)
    ensures forall k :: 0 <= k < |DigitPatterns(d)| ==> NeverEmpty(DigitPatterns(d)[k])
  {
  }

  /** Options of `checkInteger`/`scanInteger`; `None` stands for `null`. */
  datatype IntegerGrammar = IntegerGrammar(
    sign: Option<Pattern>,
    prefix: Option<Pattern>,
    leading: Option<Pattern>,
    digits: Digits,
    separator: Option<Pattern>,
    postfix: Option<Pattern>,
    removeSeparators: bool,
    split: bool)

  /** Options of `checkDecimal`/`scanDecimal`. */
  datatype DecimalGrammar = DecimalGrammar(
    sign: Option<Pattern>,
    prefix: Option<Pattern>,
    leading: Option<Pattern>,
    digits: Digits,
    separator: Option<Pattern>,
    radix: Pattern,
    trailing: Option<Pattern>,
    postfix: Option<Pattern>,
    removeSeparators: bool,
    split: bool)

  /**
   * Grammars whose digit, separator and radix patterns cannot match empty;
   * with an empty match there the scanning loop never ends.
   */
  ghost predicate IntegerWellFormed(g: IntegerGrammar) {
    DigitsNeverEmpty(g.digits) && (g.separator.Some? ==> NeverEmpty(g.separator.value))
  }

  ghost predicate DecimalWellFormed(g: DecimalGrammar) {
    DigitsNeverEmpty(g.digits) && (g.separator.Some? ==> NeverEmpty(g.separator.value)) &&
    NeverEmpty(g.radix)
  }

  /** `/^[+-]?/`: an optional sign, so it always matches, possibly empty. */
  const SignRx: Regex := (insensitive: bool, s: string) =>
    if s != [] && (s[0] == '+' || s[0] == '-') then Some(s[..1]) else Some("")

  /** `/^\d/`: one decimal digit. */
  const DigitRx: Regex := (insensitive: bool, s: string) =>
    if s != [] && '0' <= s[0] <= '9' then Some(s[..1]) else None

  const DefaultInteger: IntegerGrammar :=
    IntegerGrammar(Some(Re(SignRx)), None, Some(Lit("0")), DigitPattern(DigitRx), Some(Lit(",")), None, true, false)

  const DefaultDecimal: DecimalGrammar :=
    DecimalGrammar(Some(Re(SignRx)), None, Some(Lit("0")), DigitPattern(DigitRx), Some(Lit(",")),
                   Lit("."), Some(Lit("0")), None, true, false)

  /** The default grammars can be scanned with. */
  lemma DefaultsWellFormed()
    ensures IntegerWellFormed(DefaultInteger) && DecimalWellFormed(DefaultDecimal)
  {
  }

  /** `x === '' ? null : x`, as used for every optional part of a split result. */
  function NonEmpty(s: Option<string>): (r: Option<string>)
    ensures r.Some? ==> r.value != ""
    ensures OrEmpty(r) == OrEmpty(s)
  {
    if s == Some("") then None else s
  }

  /** `{ sign, prefix, leading, number, postfix }` of an integer scan. */
  datatype IntegerSplit = IntegerSplit(
    sign: Option<string>, prefix: Option<string>, leading: Option<string>,
    number: string, postfix: Option<string>)

  /** `{ sign, prefix, leading, whole, radix, fractional, number, trailing, postfix }` of a decimal scan. */
  datatype DecimalSplit = DecimalSplit(
    sign: Option<string>, prefix: Option<string>, leading: Option<string>,
    whole: Option<string>, radix: Option<string>, fractional: Option<string>,
    number: string, trailing: Option<string>, postfix: Option<string>)

  /** A number scan returns one string, or its parts when `split` is set. */
  datatype NumberResult<S> = Flat(text: string) | Split(parts: S)

  /** The parts an integer scan collected before they are shaped into a result. */
  datatype IntegerMatch = IntegerMatch(
    sign: Option<string>, prefix: Option<string>, leading: Option<string>,
    number: string, postfix: Option<string>)

  /** The parts a decimal scan collected before they are shaped into a result. */
  datatype DecimalMatch = DecimalMatch(
    sign: Option<string>, prefix: Option<string>, leading: Option<string>,
    whole: string, radix: Option<string>, fractional: string,
    trailing: Option<string>, postfix: Option<string>)

  /** The text of split integer parts, absent parts counting as empty. */
  function JoinInteger(p: IntegerSplit): string {
    OrEmpty(p.sign) + OrEmpty(p.prefix) + OrEmpty(p.leading) + p.number + OrEmpty(p.postfix)
  }

  /** The text of split decimal parts, the number standing for whole, radix and fraction. */
  function JoinDecimal(p: DecimalSplit): string {
    OrEmpty(p.sign) + OrEmpty(p.prefix) + OrEmpty(p.leading) + p.number + OrEmpty(p.trailing) + OrEmpty(p.postfix)
  }

  /** The result of an integer scan: its parts, empty ones as `null`, or their concatenation. */
  function IntegerOutcome(m: IntegerMatch, split: bool): (r: NumberResult<IntegerSplit>)
    ensures r.Split? <==> split
    ensures r.Split? ==> r.parts.number == m.number
    ensures r.Split? ==> NoEmptyIntegerPart(r.parts)
  {
    var parts := IntegerSplit(NonEmpty(m.sign), NonEmpty(m.prefix), NonEmpty(m.leading), m.number, NonEmpty(m.postfix));
    if split then Split(parts) else Flat(JoinInteger(parts))
  }

  /** No optional part of a split integer is the empty string. */
  predicate NoEmptyIntegerPart(p: IntegerSplit) {
    p.sign != Some("") && p.prefix != Some("") && p.leading != Some("") && p.postfix != Some("")
  }

  /** No optional part of a split decimal is the empty string. */
  predicate NoEmptyDecimalPart(p: DecimalSplit) {
    p.sign != Some("") && p.prefix != Some("") && p.leading != Some("") &&
    p.whole != Some("") && p.radix != Some("") && p.fractional != Some("") &&
    p.trailing != Some("") && p.postfix != Some("")
  }

  /** The result of a decimal scan: its parts, empty ones as `null`, or their concatenation. */
  function DecimalOutcome(m: DecimalMatch, split: bool): (r: NumberResult<DecimalSplit>)
    ensures r.Split? <==> split
    ensures r.Split? ==> NoEmptyDecimalPart(r.parts)
    ensures r.Split? ==>
      r.parts.number == OrEmpty(r.parts.whole) + OrEmpty(r.parts.radix) + OrEmpty(r.parts.fractional)
  {
    var parts := DecimalSplit(
      NonEmpty(m.sign), NonEmpty(m.prefix), NonEmpty(m.leading),
      NonEmpty(Some(m.whole)), NonEmpty(m.radix), NonEmpty(Some(m.fractional)),
      m.whole + OrEmpty(m.radix) + m.fractional,
      NonEmpty(m.trailing), NonEmpty(m.postfix));
    if split then Split(parts) else Flat(JoinDecimal(parts))
  }

  /** The flat result is exactly the text of the split result: splitting loses nothing. */
  lemma IntegerFlatIsJoinedSplit(m: IntegerMatch)
    ensures IntegerOutcome(m, false).text == JoinInteger(IntegerOutcome(m, true).parts)
  {
  }

  lemma DecimalFlatIsJoinedSplit(m: DecimalMatch)
    ensures DecimalOutcome(m, false).text == JoinDecimal(DecimalOutcome(m, true).parts)
  {
  }

  /** The flat result of an integer scan is its collected parts, end to end. */
  lemma IntegerFlatConcatenates(m: IntegerMatch)
    ensures IntegerOutcome(m, false).text ==
            OrEmpty(m.sign) + OrEmpty(m.prefix) + OrEmpty(m.leading) + m.number + OrEmpty(m.postfix)
  {
  }

  /** The flat result of a decimal scan is its collected parts, end to end. */
  lemma DecimalFlatConcatenates(m: DecimalMatch)
    ensures DecimalOutcome(m, false).text ==
            OrEmpty(m.sign) + OrEmpty(m.prefix) + OrEmpty(m.leading) + (m.whole + OrEmpty(m.radix) + m.fractional) +
            OrEmpty(m.trailing) + OrEmpty(m.postfix)
  {
  }

  /** A decimal with no sign, prefix, radix or postfix and empty leading and trailing parts reads as whole then fraction. */
  lemma DecimalFlatBare(whole: string, fractional: string)
    ensures DecimalOutcome(DecimalMatch(Some(""), None, Some(""), whole, None, fractional, Some(""), None), false).text ==
            whole + fractional
  {
    DecimalFlatConcatenates(DecimalMatch(Some(""), None, Some(""), whole, None, fractional, Some(""), None));
    assert whole + "" + fractional == whole + fractional;
  }

  /**
   * `[...digits].map(d => backscan(text, d)).find(m => m.result !== null)`:
   * the first digit character that `text` ends with, if any, backscanned.
   */
  function FindDigit(text: string, chars: string): (f: Option<Backscanned>)
    ensures f.Some? <==> text != "" && text[|text| - 1] in chars
    ensures f.Some? ==> f.value.result == Some(text[|text| - 1..]) && f.value.newText == text[..|text| - 1]
    decreases |chars|
  {
    if chars == "" then None
    else
      var b := BackscanLiteral(text, [chars[0]]);
      if b.result.Some? then Some(b) else FindDigit(text, chars[1..])
  }

  /**
   * One backward step over the leading part: the digit (or digit-regex
   * match) the text ends with, and the text in front of it.
   */
  function DigitBackscan(text: string, d: Digits): (b: Backscanned)
    ensures b.result.None? ==> b.newText == text
    ensures b.result.Some? && DigitsNeverEmpty(d) ==> b.result.value != "" && b.newText + b.result.value == text
    ensures d.DigitChars? ==> (b.result.Some? <==> text != "" && text[|text| - 1] in d.chars)
  {
    match d
    case DigitChars(cs) =>
      (match FindDigit(text, cs)
       case Some(b) => b
       case None => Backscanned(None, text))
    case DigitPattern(rx) => BackscanSpec(text, Re(rx))
  }

  /**
   * Giving the digits at the end of the leading part back to the whole
   * part of a decimal, right to left, for as long as the leading part ends
   * with a digit. `guarded` adds the condition of `scanDecimal`: once a
   * digit was given back, go on only while more than one character of the
   * leading part is left. Returns the leading part left and the whole part.
   */
  function Reclaimed(rest: string, whole: string, d: Digits, guarded: bool): (r: (string, string))
    requires DigitsNeverEmpty(d)
    ensures r.0 + r.1 == rest + whole
    ensures (whole != "" || DigitBackscan(rest, d).result.Some?) ==> r.1 != ""
    ensures !guarded ==> DigitBackscan(r.0, d).result.None?
    ensures guarded ==> DigitBackscan(r.0, d).result.None? || (r.1 != "" && |r.0| <= 1)
    decreases |rest|
  {
    var back := DigitBackscan(rest, d);
    if back.result.Some? && (!guarded || whole == "" || |rest| > 1) then
      assert back.newText + (back.result.value + whole) == rest + whole;
      Reclaimed(back.newText, back.result.value + whole, d, guarded)
    else
      (rest, whole)
  }

  /**
   * `s.slice(0, -n)`: drop the last `n` characters, or all of them; since
   * `-0` is `0`, dropping none yields the empty string.
   */
  function DropLast(s: string, n: nat): (r: string)
    ensures r <= s
    ensures |r| == if 0 < n <= |s| then |s| - n else 0
  {
    s[..if 0 < n <= |s| then |s| - n else 0]
  }

  /**
   * The trailing loop over the fractional part: while the fraction ends
   * with the trailing pattern, move that tail to the front of the trailing
   * part and drop as many characters from the end of `full`. `guarded` adds
   * the condition of `scanDecimal` that more than one character of the
   * fraction is left. Returns the fraction, `full` and the trailing part.
   */
  function TrailBack(frac: string, full: string, trail: string, p: Pattern, guarded: bool): (r: (string, string, string))
    ensures |r.0| <= |frac| && |r.1| <= |full|
    ensures NeverEmpty(p) ==> r.0 + r.2 == frac + trail
    ensures guarded ==> r.0 + r.2 == frac + trail
    ensures guarded && frac != "" ==> r.0 != ""
    ensures BackscanSpec(r.0, p).result.None? || (guarded && |r.0| <= 1)
    decreases |frac|
  {
    var back := BackscanSpec(frac, p);
    if back.result.Some? && (!guarded || |frac| > 1) then
      var tail := back.result.value;
      TrailBack(back.newText, DropLast(full, |tail|), tail + trail, p, guarded)
    else
      (frac, full, trail)
  }

  /**
   * The loop test of the decimal reclaim as written: `backMatch?.result !== null`
   * where `backMatch` is what `find` returned. When `find` found nothing,
   * `backMatch?.result` is `undefined`, which is not `null`.
   */
  predicate ReclaimTestAsWritten(found: Option<Backscanned>) {
    found.None? || found.value.result.Some?
  }

  /** One pass of the string-digit reclaim loop as written. */
  datatype ReclaimStep = Stop | Continue(rest: string, whole: string) | TypeError

  /**
   * The loop as written: when the test passes although `find` found
   * nothing, the body reads `newText` of `undefined` and hands `undefined`
   * to `backscan`, which reads its `length` and throws.
   */
  function ReclaimStepAsWritten(rest: string, whole: string, chars: string, guarded: bool): (s: ReclaimStep)
    ensures s.Continue? ==> s.rest + s.whole == rest + whole
  {
    var found := FindDigit(rest, chars);
    if !(ReclaimTestAsWritten(found) && (!guarded || whole == "" || |rest| > 1)) then Stop
    else if found.None? then TypeError
    else Continue(found.value.newText, found.value.result.value + whole)
  }

  /** As written, the test passes for every outcome of `find`: it never stops the loop. */
  lemma ReclaimTestNeverFails(rest: string, chars: string)
    ensures ReclaimTestAsWritten(FindDigit(rest, chars))
  {
  }

  /**
   * `checkDecimal({ digits: '0123456789' })` on "0.5": the leading "0" is
   * given back, and the next pass throws on the empty leading part.
   */
  lemma CheckDecimalReclaimThrows()
    ensures ReclaimStepAsWritten("0", "", "0123456789", false) == Continue("", "0")
    ensures ReclaimStepAsWritten("", "0", "0123456789", false) == TypeError
  {
  }

  /**
   * `scanDecimal({ digits: '123456789' })` on "0.5": the leading "0" ends
   * with no digit of the list, and the first pass throws.
   */
  lemma ScanDecimalReclaimThrows()
    ensures ReclaimStepAsWritten("0", "", "123456789", true) == TypeError
  {
    var digits := "123456789";
    assert forall k :: 0 <= k < |digits| ==> digits[k] != '0';
    assert FindDigit("0", digits).None?;
  }
}
