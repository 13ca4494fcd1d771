/**
 * What `checkInteger`/`scanInteger` and `checkDecimal`/`scanDecimal` compute,
 * as functions of the text and the index they start at: the head (sign,
 * prefix, leading part), the digit loop, the leading-digit reclaim, the
 * trailing part and the postfix, and the text `scanInteger`/`scanDecimal`
 * commit. The scanner's methods are proved to compute exactly these.
 */
module NumberScan {
  import opened Patterns
  import opened Reverse
  import opened Numeric

  /** What `scan(...patterns)` returns at index `i` of `text`. */
  function ScanAt(text: string, i: nat, patterns: seq<Pattern>, insensitive: bool): (m: Option<string>)
    requires i <= |text|
    ensures m.Some? ==> i + |m.value| <= |text| && m.value == text[i..i + |m.value|]
  {
    var m := FirstMatch(text[i..], patterns, insensitive);
    if m.Some? then
      assert m.value == text[i..][..|m.value|];
      m
    else m
  }

  /** `p != null ? scan(p) : null` */
  function ScanOpt(text: string, i: nat, p: Option<Pattern>, insensitive: bool): (m: Option<string>)
    requires i <= |text|
    ensures m.Some? ==> p.Some? && i + |m.value| <= |text| && m.value == text[i..i + |m.value|]
  {
    match p
    case None => None
    case Some(q) => ScanAt(text, i, [q], insensitive)
  }

  /** The index reached after a scan that returned `m` at `i`: an empty or null match does not move. */
  function After(i: nat, m: Option<string>): nat {
    i + |OrEmpty(m)|
  }

  /** Where `while (scan(s))` stops: past every back-to-back occurrence of the literal from `i`. */
  function RepeatLiteral(text: string, i: nat, s: string, insensitive: bool): (n: nat)
    requires i <= |text|
    ensures i <= n <= |text| && !LiteralAt(text, n, s, insensitive)
    ensures n == i <==> !LiteralAt(text, i, s, insensitive)
    decreases |text| - i
  {
    if LiteralAt(text, i, s, insensitive) then RepeatLiteral(text, i + |s|, s, insensitive) else i
  }

  /**
   * One `scan(s)` of a literal at `i`: it matches exactly when the literal
   * occurs there, and then the repetition goes on after it.
   */
  lemma ScanLiteral(text: string, i: nat, s: string, insensitive: bool)
    requires i <= |text|
    ensures FirstMatch(text[i..], [Lit(s)], insensitive).Some? <==> LiteralAt(text, i, s, insensitive)
    ensures LiteralAt(text, i, s, insensitive) ==>
              FirstMatch(text[i..], [Lit(s)], insensitive) == Some(text[i..i + |s|]) &&
              RepeatLiteral(text, i, s, insensitive) == RepeatLiteral(text, i + |s|, s, insensitive)
    ensures !LiteralAt(text, i, s, insensitive) ==> RepeatLiteral(text, i, s, insensitive) == i
  {
    FirstMatchSingle(text[i..], Lit(s), insensitive);
    MatchLiteralAt(text, i, s, insensitive);
  }

  /** The leading part: a literal scanned for as long as it repeats, or a regex scanned once. */
  function LeadingAt(text: string, i: nat, p: Option<Pattern>, insensitive: bool): (m: Option<string>)
    requires i <= |text|
    ensures m.Some? ==> i + |m.value| <= |text| && m.value == text[i..i + |m.value|]
    ensures p.Some? && p.value.Lit? ==> m.Some? && !LiteralAt(text, i + |m.value|, p.value.s, insensitive)
  {
    match p
    case None => None
    case Some(Lit(s)) => Some(text[i..RepeatLiteral(text, i, s, insensitive)])
    case Some(Re(_)) => ScanAt(text, i, [p.value], insensitive)
  }

  /** The sign, prefix and leading parts, and the index after them. */
  datatype Head = Head(sign: Option<string>, prefix: Option<string>, leading: Option<string>, end: nat)

  function HeadAt(text: string, i: nat, sign: Option<Pattern>, prefix: Option<Pattern>, leading: Option<Pattern>,
                  insensitive: bool): (h: Head)
    requires i <= |text|
    ensures i <= h.end <= |text|
    ensures OrEmpty(h.sign) + OrEmpty(h.prefix) + OrEmpty(h.leading) == text[i..h.end]
  {
    var s := ScanOpt(text, i, sign, insensitive);
    var j := After(i, s);
    var p := ScanOpt(text, j, prefix, insensitive);
    var k := After(j, p);
    var l := LeadingAt(text, k, leading, insensitive);
    assert OrEmpty(s) == text[i..j] && OrEmpty(p) == text[j..k] && OrEmpty(l) == text[k..After(k, l)];
    SliceJoin3(text, i, j, k, After(k, l));
    Head(s, p, l, After(k, l))
  }

  /** Patterns none of which can match empty never scan an empty match. */
  lemma ScanAtNonEmpty(text: string, i: nat, patterns: seq<Pattern>, insensitive: bool)
    requires i <= |text|
    requires forall k :: 0 <= k < |patterns| ==> NeverEmpty(patterns[k])
    ensures ScanAt(text, i, patterns, insensitive).Some? ==> ScanAt(text, i, patterns, insensitive).value != ""
  {
    FirstMatchNonEmpty(text[i..], patterns, insensitive);
  }

  /** The digit patterns of a well-formed grammar never scan an empty match. */
  lemma DigitNonEmpty(text: string, i: nat, d: Digits, insensitive: bool)
    requires i <= |text| && DigitsNeverEmpty(d)
    ensures ScanAt(text, i, DigitPatterns(d), insensitive).Some? ==> ScanAt(text, i, DigitPatterns(d), insensitive).value != ""
  {
    DigitPatternsNeverEmpty(d);
    ScanAtNonEmpty(text, i, DigitPatterns(d), insensitive);
  }

  /** An optional pattern that cannot match empty never scans an empty match. */
  lemma OptNonEmpty(text: string, i: nat, p: Option<Pattern>, insensitive: bool)
    requires i <= |text| && (p.Some? ==> NeverEmpty(p.value))
    ensures ScanOpt(text, i, p, insensitive).Some? ==> ScanOpt(text, i, p, insensitive).value != ""
  {
    if p.Some? {
      ScanAtNonEmpty(text, i, [p.value], insensitive);
    }
  }

  /** What one pass of a digit loop consumed. */
  datatype Step = Digit(m: string) | Separator(m: string) | Radix(m: string) | Nothing

  /** A pass that consumed something consumed the non-empty text at the index. */
  predicate Consumes(text: string, i: nat, s: Step) {
    !s.Nothing? ==> s.m != "" && i + |s.m| <= |text| && s.m == text[i..i + |s.m|]
  }

  /** What a digit loop finds at each index of the text. */
  type Stepper = nat -> Step

  /** Every pass the stepper describes, up to the end of the text, consumes the text at its index. */
  predicate Passes(text: string, step: Stepper) {
    forall j: nat :: j <= |text| ==> Consumes(text, j, step(j))
  }

  /** One pass of the integer digit loop at index `i`: a digit, else a separator, else nothing. */
  function IntegerStep(text: string, i: nat, g: IntegerGrammar, insensitive: bool): (s: Step)
    requires i <= |text| && IntegerWellFormed(g)
    ensures Consumes(text, i, s) && !s.Radix?
    ensures s.Digit? <==> ScanAt(text, i, DigitPatterns(g.digits), insensitive).Some?
    ensures s.Digit? ==> s.m == ScanAt(text, i, DigitPatterns(g.digits), insensitive).value
    ensures s.Separator? <==>
              ScanAt(text, i, DigitPatterns(g.digits), insensitive).None? &&
              ScanOpt(text, i, g.separator, insensitive).Some?
    ensures s.Separator? ==> s.m == ScanOpt(text, i, g.separator, insensitive).value
  {
    var digit := ScanAt(text, i, DigitPatterns(g.digits), insensitive);
    if digit.Some? then
      DigitNonEmpty(text, i, g.digits, insensitive);
      Digit(digit.value)
    else
      var sep := ScanOpt(text, i, g.separator, insensitive);
      OptNonEmpty(text, i, g.separator, insensitive);
      if sep.Some? then Separator(sep.value) else Nothing
  }

  /** The passes of the integer digit loop at every index of `text`. */
  function IntegerStepper(text: string, g: IntegerGrammar, insensitive: bool): (step: Stepper)
    requires IntegerWellFormed(g)
    ensures Passes(text, step)
    ensures forall j: nat :: j <= |text| ==> step(j) == IntegerStep(text, j, g, insensitive)
  {
    (j: nat) => if j <= |text| then IntegerStep(text, j, g, insensitive) else Nothing
  }

  // ---------------------------------------------------------------- integers

  /** The accumulators of the integer digit loop: `matchNumber`, `fullMatchNumber`, `atLeastOneDigit`. */
  datatype IntegerRun = IntegerRun(number: string, full: string, sawDigit: bool)

  /**
   * How one pass changes the integer accumulators: a digit is added to the
   * number; a separator is consumed, and kept in the number unless
   * separators are removed.
   */
  function IntegerUpdate(acc: IntegerRun, s: Step, removeSeparators: bool): (r: IntegerRun)
    requires s.Digit? || s.Separator?
    ensures r.sawDigit <==> acc.sawDigit || s.Digit?
  {
    if s.Digit? then IntegerRun(acc.number + s.m, acc.full + s.m, true)
    else IntegerRun(if removeSeparators then acc.number else acc.number + s.m, acc.full + s.m, acc.sawDigit)
  }

  /**
   * The integer digit loop from index `i`, until the end of the text or a
   * pass that finds neither a digit nor a separator. Returns the
   * accumulators and the index where the loop ended.
   */
  function IntegerDigits(text: string, i: nat, step: Stepper, removeSeparators: bool, acc: IntegerRun): (r: (IntegerRun, nat))
    requires i <= |text| && Passes(text, step)
    ensures i <= r.1 <= |text|
    ensures r.1 < |text| ==> !step(r.1).Digit? && !step(r.1).Separator?
    decreases |text| - i
  {
    if i < |text| && (step(i).Digit? || step(i).Separator?) then
      IntegerDigits(text, i + |step(i).m|, step, removeSeparators, IntegerUpdate(acc, step(i), removeSeparators))
    else (acc, i)
  }

  /** One pass of the integer digit loop that found a digit or a separator, unrolled. */
  lemma IntegerDigitsNext(text: string, i: nat, step: Stepper, removeSeparators: bool, acc: IntegerRun)
    requires i < |text| && Passes(text, step) && (step(i).Digit? || step(i).Separator?)
    ensures IntegerDigits(text, i, step, removeSeparators, acc) ==
            IntegerDigits(text, i + |step(i).m|, step, removeSeparators, IntegerUpdate(acc, step(i), removeSeparators))
  {
  }

  /** The integer digit loop ends at the end of the text and at a pass that finds neither a digit nor a separator. */
  lemma IntegerDigitsDone(text: string, i: nat, step: Stepper, removeSeparators: bool, acc: IntegerRun)
    requires i <= |text| && Passes(text, step) && (i == |text| || step(i).Nothing?)
    ensures IntegerDigits(text, i, step, removeSeparators, acc) == (acc, i)
  {
  }

  /**
   * The digit loop consumes the text it passes over into `fullMatchNumber`,
   * and into `matchNumber` too when separators are kept; once a digit is
   * seen it stays seen, and the number then holds it.
   */
  lemma {:induction false} IntegerDigitsText(text: string, i: nat, step: Stepper, removeSeparators: bool, acc: IntegerRun)
    requires i <= |text| && Passes(text, step)
    ensures var r := IntegerDigits(text, i, step, removeSeparators, acc);
      r.0.full == acc.full + text[i..r.1] &&
      (!removeSeparators ==> r.0.number == acc.number + text[i..r.1]) &&
      (acc.sawDigit ==> r.0.sawDigit) &&
      ((acc.sawDigit ==> acc.number != "") ==> (r.0.sawDigit ==> r.0.number != ""))
    decreases |text| - i
  {
    var r := IntegerDigits(text, i, step, removeSeparators, acc);
    if i < |text| && (step(i).Digit? || step(i).Separator?) {
      var m := step(i).m;
      assert Consumes(text, i, step(i));
      var j := i + |m|;
      var next := IntegerUpdate(acc, step(i), removeSeparators);
      assert r == IntegerDigits(text, j, step, removeSeparators, next);
      IntegerDigitsText(text, j, step, removeSeparators, next);
      ExtendBySlices(acc.full, text, i, j, r.1);
      ExtendBySlices(acc.number, text, i, j, r.1);
    }
  }

  /** An integer scan that found a number: its parts, `fullMatchNumber`, where the digits ended and where it ended. */
  datatype IntegerScan = IntegerScan(parts: IntegerMatch, full: string, numberEnd: nat, end: nat)

  /**
   * The integer scan from index `i`: the head, the digit loop, then the
   * rest of the scan.
   */
  function IntegerSpec(text: string, i: nat, g: IntegerGrammar, insensitive: bool): (s: Option<IntegerScan>)
    requires i <= |text| && IntegerWellFormed(g)
    ensures s.Some? ==> i <= s.value.numberEnd <= s.value.end <= |text| && s.value.parts.number != ""
    ensures s.Some? && !g.removeSeparators ==> s.value.parts.number == s.value.full
  {
    var h := HeadAt(text, i, g.sign, g.prefix, g.leading, insensitive);
    var step := IntegerStepper(text, g, insensitive);
    var loop := IntegerDigits(text, h.end, step, g.removeSeparators, IntegerRun("", "", false));
    IntegerDigitsText(text, h.end, step, g.removeSeparators, IntegerRun("", "", false));
    IntegerFinish(text, h, loop.0, loop.1, g, insensitive)
  }

  /**
   * The integer scan after its digit loop: when no digit was found, one
   * digit taken back from the end of the leading part, in front of the
   * number; no number without a digit; then the postfix.
   */
  function IntegerFinish(text: string, h: Head, run: IntegerRun, numberEnd: nat, g: IntegerGrammar,
                         insensitive: bool): (s: Option<IntegerScan>)
    requires numberEnd <= |text| && DigitsNeverEmpty(g.digits)
    requires run.sawDigit ==> run.number != ""
    ensures s.None? <==> !run.sawDigit && DigitBackscan(OrEmpty(h.leading), g.digits).result.None?
    ensures s.Some? ==> numberEnd == s.value.numberEnd <= s.value.end <= |text| && s.value.parts.number != ""
    ensures s.Some? ==> s.value.parts.sign == h.sign && s.value.parts.prefix == h.prefix
    ensures s.Some? ==> OrEmpty(s.value.parts.leading) + s.value.full == OrEmpty(h.leading) + run.full
    ensures s.Some? ==> OrEmpty(s.value.parts.postfix) == text[numberEnd..s.value.end]
    ensures s.Some? && run.number == run.full ==> s.value.parts.number == s.value.full
  {
    var back := DigitBackscan(OrEmpty(h.leading), g.digits);
    var reclaim := !run.sawDigit && OrEmpty(h.leading) != "" && back.result.Some?;
    if !run.sawDigit && !reclaim then None
    else
      var leading := if reclaim then Some(back.newText) else h.leading;
      var number := if reclaim then back.result.value + run.number else run.number;
      var full := if reclaim then back.result.value + run.full else run.full;
      var postfix := ScanOpt(text, numberEnd, g.postfix, insensitive);
      assert reclaim ==> back.newText + (back.result.value + run.full) == OrEmpty(h.leading) + run.full by {
        if reclaim {
          ConcatAssoc(back.newText, back.result.value, run.full);
        }
      }
      Some(IntegerScan(IntegerMatch(h.sign, h.prefix, leading, number, postfix), full, numberEnd, After(numberEnd, postfix)))
  }

  /** What `scanInteger` commits: the parts with `fullMatchNumber` for the number. */
  function IntegerCommitted(s: IntegerScan): string {
    OrEmpty(s.parts.sign) + OrEmpty(s.parts.prefix) + OrEmpty(s.parts.leading) + s.full + OrEmpty(s.parts.postfix)
  }

  /** What `checkInteger` and `scanInteger` return. */
  function IntegerResult(s: Option<IntegerScan>, split: bool): Option<NumberResult<IntegerSplit>> {
    match s
    case None => None
    case Some(x) => Some(IntegerOutcome(x.parts, split))
  }

  /** `scanInteger` commits exactly the text it consumed, the digit taken back from the leading part included. */
  lemma IntegerCommitsConsumed(text: string, i: nat, g: IntegerGrammar, insensitive: bool)
    requires i <= |text| && IntegerWellFormed(g)
    ensures var s := IntegerSpec(text, i, g, insensitive);
      s.Some? ==> IntegerCommitted(s.value) == text[i..s.value.end]
  {
    var s := IntegerSpec(text, i, g, insensitive);
    if s.Some? {
      var h := HeadAt(text, i, g.sign, g.prefix, g.leading, insensitive);
      var step := IntegerStepper(text, g, insensitive);
      var loop := IntegerDigits(text, h.end, step, g.removeSeparators, IntegerRun("", "", false));
      IntegerDigitsText(text, h.end, step, g.removeSeparators, IntegerRun("", "", false));
      assert s == IntegerFinish(text, h, loop.0, loop.1, g, insensitive);
      var x := s.value;
      var signPrefix := OrEmpty(x.parts.sign) + OrEmpty(x.parts.prefix);
      assert "" + text[h.end..loop.1] == text[h.end..loop.1];
      assert loop.0.full == text[h.end..loop.1];
      assert OrEmpty(x.parts.postfix) == text[loop.1..x.end];
      assert signPrefix + OrEmpty(h.leading) == text[i..h.end];
      SliceJoin3(text, i, h.end, loop.1, x.end);
      calc {
        IntegerCommitted(x);
        signPrefix + OrEmpty(x.parts.leading) + x.full + OrEmpty(x.parts.postfix);
        { ConcatAssoc(signPrefix, OrEmpty(x.parts.leading), x.full); }
        signPrefix + (OrEmpty(h.leading) + loop.0.full) + OrEmpty(x.parts.postfix);
        { ConcatAssoc(signPrefix, OrEmpty(h.leading), loop.0.full); }
        text[i..h.end] + text[h.end..loop.1] + text[loop.1..x.end];
      }
    }
  }

  /** With separators kept, the flat result of an integer scan is exactly the text it consumed. */
  lemma IntegerFlatIsConsumed(text: string, i: nat, g: IntegerGrammar, insensitive: bool)
    requires i <= |text| && IntegerWellFormed(g) && !g.removeSeparators
    ensures var s := IntegerSpec(text, i, g, insensitive);
      s.Some? ==> IntegerResult(s, false) == Some(Flat(text[i..s.value.end]))
  {
    var s := IntegerSpec(text, i, g, insensitive);
    if s.Some? {
      IntegerCommitsConsumed(text, i, g, insensitive);
      var m := s.value.parts;
      assert IntegerOutcome(m, false).text ==
             OrEmpty(m.sign) + OrEmpty(m.prefix) + OrEmpty(m.leading) + m.number + OrEmpty(m.postfix);
    }
  }

  /** The number ends where neither a digit nor a separator follows. */
  lemma IntegerStopsAtNonDigit(text: string, i: nat, g: IntegerGrammar, insensitive: bool)
    requires i <= |text| && IntegerWellFormed(g)
    ensures var s := IntegerSpec(text, i, g, insensitive);
      s.Some? && s.value.numberEnd < |text| ==>
        ScanAt(text, s.value.numberEnd, DigitPatterns(g.digits), insensitive).None? &&
        ScanOpt(text, s.value.numberEnd, g.separator, insensitive).None?
  {
    var s := IntegerSpec(text, i, g, insensitive);
    if s.Some? && s.value.numberEnd < |text| {
      var n := s.value.numberEnd;
      assert IntegerStepper(text, g, insensitive)(n) == IntegerStep(text, n, g, insensitive);
    }
  }

  // ---------------------------------------------------------------- decimals

  /** `checkDecimal` and `scanDecimal` differ in three places; this says which one runs. */
  datatype Flavour = Checking | Scanning

  /**
   * The accumulators of the decimal digit loop: `matchWhole`,
   * `matchFractional`, `radixPart`, `fullMatchNumber` (used only by
   * `scanDecimal`), `atLeastOneDigit`, `pastRadix`.
   */
  datatype DecimalRun = DecimalRun(whole: string, fractional: string, radix: Option<string>, full: string,
                                   sawDigit: bool, pastRadix: bool)

  /** A radix is recorded once past it, never empty, and a digit went into the whole part or came after a radix. */
  predicate RunShape(r: DecimalRun) {
    (r.pastRadix <==> r.radix.Some?) && (r.radix.Some? ==> r.radix.value != "") &&
    (r.sawDigit ==> r.whole != "" || r.pastRadix)
  }

  /** One pass of the decimal digit loop at index `i`: a digit, else a separator, else a radix, else nothing. */
  function DecimalStep(text: string, i: nat, g: DecimalGrammar, insensitive: bool): (s: Step)
    requires i <= |text| && DecimalWellFormed(g)
    ensures Consumes(text, i, s)
    ensures s.Digit? <==> ScanAt(text, i, DigitPatterns(g.digits), insensitive).Some?
    ensures s.Digit? ==> s.m == ScanAt(text, i, DigitPatterns(g.digits), insensitive).value
    ensures s.Separator? <==>
              ScanAt(text, i, DigitPatterns(g.digits), insensitive).None? &&
              ScanOpt(text, i, g.separator, insensitive).Some?
    ensures s.Separator? ==> s.m == ScanOpt(text, i, g.separator, insensitive).value
    ensures s.Radix? <==>
              ScanAt(text, i, DigitPatterns(g.digits), insensitive).None? &&
              ScanOpt(text, i, g.separator, insensitive).None? &&
              ScanOpt(text, i, Some(g.radix), insensitive).Some?
    ensures s.Radix? ==> s.m == ScanOpt(text, i, Some(g.radix), insensitive).value
  {
    var digit := ScanAt(text, i, DigitPatterns(g.digits), insensitive);
    if digit.Some? then
      DigitNonEmpty(text, i, g.digits, insensitive);
      Digit(digit.value)
    else
      var sep := ScanOpt(text, i, g.separator, insensitive);
      OptNonEmpty(text, i, g.separator, insensitive);
      if sep.Some? then Separator(sep.value)
      else
        var radix := ScanOpt(text, i, Some(g.radix), insensitive);
        OptNonEmpty(text, i, Some(g.radix), insensitive);
        if radix.Some? then Radix(radix.value) else Nothing
  }

  /** The passes of the decimal digit loop at every index of `text`. */
  function DecimalStepper(text: string, g: DecimalGrammar, insensitive: bool): (step: Stepper)
    requires DecimalWellFormed(g)
    ensures Passes(text, step)
    ensures forall j: nat :: j <= |text| ==> step(j) == DecimalStep(text, j, g, insensitive)
  {
    (j: nat) => if j <= |text| then DecimalStep(text, j, g, insensitive) else Nothing
  }

  /**
   * How one pass changes the decimal accumulators: a digit goes to the
   * whole part, or past a radix to the fraction; a separator is kept unless
   * separators are removed (in front of a radix `checkDecimal` appends the
   * null digit instead, spelled "null"); a radix is recorded, a later one
   * replacing it.
   */
  function DecimalUpdate(acc: DecimalRun, s: Step, removeSeparators: bool, flavour: Flavour): (r: DecimalRun)
    requires !s.Nothing?
    ensures RunShape(acc) && s.m != "" ==> RunShape(r)
    ensures acc.sawDigit ==> r.sawDigit
  {
    match s
    case Digit(d) =>
      var next := if acc.pastRadix then acc.(fractional := acc.fractional + d) else acc.(whole := acc.whole + d);
      next.(full := acc.full + d, sawDigit := true)
    case Separator(sep) =>
      if removeSeparators then acc
      else if acc.pastRadix then acc.(fractional := acc.fractional + sep, full := acc.full + sep)
      else if flavour.Checking? then acc.(fractional := JsConcat(acc.fractional, None), full := acc.full + sep)
      else acc.(whole := acc.whole + sep, full := acc.full + sep)
    case Radix(radix) =>
      acc.(radix := Some(radix), pastRadix := true, full := acc.full + radix)
  }

  /**
   * The decimal digit loop from index `i`, until the end of the text or a
   * pass that finds nothing. Returns the accumulators and the index where
   * the loop ended.
   */
  function DecimalDigits(text: string, i: nat, step: Stepper, removeSeparators: bool, flavour: Flavour,
                         acc: DecimalRun): (r: (DecimalRun, nat))
    requires i <= |text| && Passes(text, step)
    ensures i <= r.1 <= |text|
    ensures r.1 < |text| ==> step(r.1).Nothing?
    decreases |text| - i
  {
    if i == |text| || step(i).Nothing? then (acc, i)
    else DecimalDigits(text, i + |step(i).m|, step, removeSeparators, flavour, DecimalUpdate(acc, step(i), removeSeparators, flavour))
  }

  /** One pass of the decimal digit loop that found something, unrolled. */
  lemma DecimalDigitsNext(text: string, i: nat, step: Stepper, removeSeparators: bool, flavour: Flavour, acc: DecimalRun)
    requires i < |text| && Passes(text, step) && !step(i).Nothing?
    ensures DecimalDigits(text, i, step, removeSeparators, flavour, acc) ==
            DecimalDigits(text, i + |step(i).m|, step, removeSeparators, flavour,
                          DecimalUpdate(acc, step(i), removeSeparators, flavour))
  {
  }

  /** The decimal digit loop ends at the end of the text and at a pass that finds nothing. */
  lemma DecimalDigitsDone(text: string, i: nat, step: Stepper, removeSeparators: bool, flavour: Flavour, acc: DecimalRun)
    requires i <= |text| && Passes(text, step) && (i == |text| || step(i).Nothing?)
    ensures DecimalDigits(text, i, step, removeSeparators, flavour, acc) == (acc, i)
  {
  }

  /**
   * With separators kept, the decimal digit loop consumes the text it passes
   * over into `fullMatchNumber`; a digit once seen stays seen, and the shape
   * of the accumulators is kept.
   */
  lemma {:induction false} DecimalDigitsText(text: string, i: nat, step: Stepper, removeSeparators: bool, flavour: Flavour,
                                             acc: DecimalRun)
    requires i <= |text| && Passes(text, step)
    ensures var r := DecimalDigits(text, i, step, removeSeparators, flavour, acc);
      (!removeSeparators ==> r.0.full == acc.full + text[i..r.1]) &&
      (acc.sawDigit ==> r.0.sawDigit) &&
      (RunShape(acc) ==> RunShape(r.0))
    decreases |text| - i
  {
    var r := DecimalDigits(text, i, step, removeSeparators, flavour, acc);
    if i < |text| && !step(i).Nothing? {
      assert Consumes(text, i, step(i));
      var j := i + |step(i).m|;
      var next := DecimalUpdate(acc, step(i), removeSeparators, flavour);
      assert r == DecimalDigits(text, j, step, removeSeparators, flavour, next);
      DecimalDigitsText(text, j, step, removeSeparators, flavour, next);
      if !removeSeparators {
        assert next.full == acc.full + step(i).m;
        ExtendBySlices(acc.full, text, i, j, r.1);
      }
    }
  }

  /**
   * The trailing text after the number: a literal scanned for as long as it
   * repeats, appended each time; a regex is scanned once and, when that
   * succeeds, scanned again and only the second result appended (a null
   * result spelled "null").
   */
  function LiveTrailing(text: string, i: nat, p: Pattern, insensitive: bool, trail: string): (r: (string, nat))
    requires i <= |text|
    ensures i <= r.1 <= |text|
    ensures p.Lit? ==> r.0 == trail + text[i..r.1]
    ensures p.Re? && ScanAt(text, i, [p], insensitive).None? ==> r == (trail, i)
  {
    match p
    case Lit(s) =>
      var n := RepeatLiteral(text, i, s, insensitive);
      (trail + text[i..n], n)
    case Re(_) =>
      var first := ScanAt(text, i, [p], insensitive);
      if first.None? then (trail, i)
      else
        var j := After(i, first);
        var second := ScanAt(text, j, [p], insensitive);
        (JsConcat(trail, second), After(j, second))
  }

  /**
   * A trailing regex that matches once but not again right after its match:
   * the match is consumed, yet what is appended is the second, failed scan,
   * spelled "null".
   */
  lemma TrailingRegexSpellsNull(text: string, i: nat, rx: Regex, insensitive: bool, trail: string)
    requires i <= |text| && MatchAt(text[i..], Re(rx), insensitive).Some?
    requires var j := i + |MatchAt(text[i..], Re(rx), insensitive).value|;
      j <= |text| && MatchAt(text[j..], Re(rx), insensitive).None?
    ensures LiveTrailing(text, i, Re(rx), insensitive, trail) ==
            (trail + "null", i + |MatchAt(text[i..], Re(rx), insensitive).value|)
  {
    var j := i + |MatchAt(text[i..], Re(rx), insensitive).value|;
    ScanAtSingle(text, i, Re(rx), insensitive);
    ScanAtSingle(text, j, Re(rx), insensitive);
  }

  /**
   * A decimal scan that found a number: its parts, `fullMatchNumber`, the
   * digits the reclaim took from the leading part, where the digit loop
   * ended and where the scan ended.
   */
  datatype DecimalScan = DecimalScan(parts: DecimalMatch, full: string, reclaimed: string, numberEnd: nat, end: nat)

  /** The decimal scan from index `i`: the head, the digit loop, then the rest of the scan. */
  function DecimalSpec(text: string, i: nat, g: DecimalGrammar, insensitive: bool, flavour: Flavour): (s: Option<DecimalScan>)
    requires i <= |text| && DecimalWellFormed(g)
    ensures s.Some? ==> i <= s.value.numberEnd <= s.value.end <= |text|
    ensures s.Some? ==> s.value.parts.whole + OrEmpty(s.value.parts.radix) + s.value.parts.fractional != ""
  {
    var h := HeadAt(text, i, g.sign, g.prefix, g.leading, insensitive);
    var step := DecimalStepper(text, g, insensitive);
    var init := DecimalRun("", "", None, "", false, false);
    var loop := DecimalDigits(text, h.end, step, g.removeSeparators, flavour, init);
    DecimalDigitsText(text, h.end, step, g.removeSeparators, flavour, init);
    DecimalFinish(text, h, loop.0, loop.1, g, insensitive, flavour)
  }

  /** The end of a decimal scan: the fraction and `fullMatchNumber` once trimmed, the trailing part, the postfix. */
  datatype DecimalTail = DecimalTail(fractional: string, full: string, trailing: Option<string>, postfix: Option<string>,
                                     end: nat)

  /**
   * The trailing pattern, if any, taken off the end of the fraction (and of
   * `fullMatchNumber`) and then scanned after the number; then the postfix.
   */
  function TailAt(text: string, run: DecimalRun, numberEnd: nat, g: DecimalGrammar, insensitive: bool,
                  flavour: Flavour): (t: DecimalTail)
    requires numberEnd <= |text|
    ensures numberEnd <= t.end <= |text|
    ensures t.trailing.Some? <==> g.trailing.Some?
    ensures g.trailing.None? ==>
              t.fractional == run.fractional && t.full == run.full && OrEmpty(t.postfix) == text[numberEnd..t.end]
  {
    var tb := if g.trailing.Some? then TrailBack(run.fractional, run.full, "", g.trailing.value, flavour.Scanning?)
              else (run.fractional, run.full, "");
    var live := if g.trailing.Some? then LiveTrailing(text, numberEnd, g.trailing.value, insensitive, tb.2)
                else ("", numberEnd);
    var postfix := ScanOpt(text, live.1, g.postfix, insensitive);
    DecimalTail(tb.0, tb.1, if g.trailing.Some? then Some(live.0) else None, postfix, After(live.1, postfix))
  }

  /**
   * The decimal scan after its digit loop: no number without a digit;
   * digits at the end of the leading part given back to an empty whole part
   * (left out of `fullMatchNumber`); then the trailing part and the postfix.
   */
  function DecimalFinish(text: string, h: Head, run: DecimalRun, numberEnd: nat, g: DecimalGrammar,
                         insensitive: bool, flavour: Flavour): (s: Option<DecimalScan>)
    requires numberEnd <= |text| && DigitsNeverEmpty(g.digits) && RunShape(run)
    ensures s.None? <==> !run.sawDigit
    ensures s.Some? ==> numberEnd == s.value.numberEnd <= s.value.end <= |text|
    ensures s.Some? ==> s.value.parts.whole + OrEmpty(s.value.parts.radix) + s.value.parts.fractional != ""
    ensures s.Some? ==> s.value.parts.sign == h.sign && s.value.parts.prefix == h.prefix && s.value.parts.radix == run.radix
    ensures s.Some? ==> OrEmpty(s.value.parts.leading) + s.value.reclaimed == OrEmpty(h.leading)
    ensures s.Some? && s.value.reclaimed != "" ==> run.whole == "" && s.value.parts.whole == s.value.reclaimed
    ensures s.Some? && g.trailing.None? ==>
              s.value.full == run.full && s.value.parts.fractional == run.fractional &&
              s.value.parts.trailing.None? && OrEmpty(s.value.parts.postfix) == text[numberEnd..s.value.end]
  {
    if !run.sawDigit then None
    else
      var reclaim := run.whole == "" && OrEmpty(h.leading) != "";
      var back := Reclaimed(OrEmpty(h.leading), "", g.digits, flavour.Scanning?);
      var t := TailAt(text, run, numberEnd, g, insensitive, flavour);
      assert OrEmpty(h.leading) + "" == OrEmpty(h.leading);
      Some(DecimalScan(
        DecimalMatch(h.sign, h.prefix, if reclaim then Some(back.0) else h.leading,
                     if reclaim then back.1 else run.whole, run.radix, t.fractional, t.trailing, t.postfix),
        t.full, if reclaim then back.1 else "", numberEnd, t.end))
  }

  /** What `scanDecimal` commits: the parts with `fullMatchNumber` for the number. */
  function DecimalCommitted(s: DecimalScan): string {
    OrEmpty(s.parts.sign) + OrEmpty(s.parts.prefix) + OrEmpty(s.parts.leading) + s.full +
    OrEmpty(s.parts.trailing) + OrEmpty(s.parts.postfix)
  }

  /** What `checkDecimal` and `scanDecimal` return. */
  function DecimalResult(s: Option<DecimalScan>, split: bool): Option<NumberResult<DecimalSplit>> {
    match s
    case None => None
    case Some(x) => Some(DecimalOutcome(x.parts, split))
  }

  /** The number ends where no digit, separator or radix follows. */
  lemma DecimalStopsAtNonDigit(text: string, i: nat, g: DecimalGrammar, insensitive: bool, flavour: Flavour)
    requires i <= |text| && DecimalWellFormed(g)
    ensures var s := DecimalSpec(text, i, g, insensitive, flavour);
      s.Some? && s.value.numberEnd < |text| ==>
        ScanAt(text, s.value.numberEnd, DigitPatterns(g.digits), insensitive).None? &&
        ScanOpt(text, s.value.numberEnd, g.separator, insensitive).None? &&
        ScanOpt(text, s.value.numberEnd, Some(g.radix), insensitive).None?
  {
    var s := DecimalSpec(text, i, g, insensitive, flavour);
    if s.Some? && s.value.numberEnd < |text| {
      var n := s.value.numberEnd;
      assert DecimalStepper(text, g, insensitive)(n) == DecimalStep(text, n, g, insensitive);
    }
  }

  /**
   * Without a trailing pattern and with separators kept, `scanDecimal`
   * consumes its committed text with the digits given back from the leading
   * part put in front of `fullMatchNumber`: the commit leaves them out.
   */
  lemma DecimalCommitsAllButReclaimed(text: string, i: nat, g: DecimalGrammar, insensitive: bool, flavour: Flavour)
    requires i <= |text| && DecimalWellFormed(g) && !g.removeSeparators && g.trailing.None?
    ensures var s := DecimalSpec(text, i, g, insensitive, flavour);
      s.Some? ==>
        var x := s.value;
        OrEmpty(x.parts.sign) + OrEmpty(x.parts.prefix) + OrEmpty(x.parts.leading) + x.reclaimed + x.full +
        OrEmpty(x.parts.postfix) == text[i..x.end] &&
        (x.reclaimed == "" ==> DecimalCommitted(x) == text[i..x.end])
  {
    var s := DecimalSpec(text, i, g, insensitive, flavour);
    if s.Some? {
      var h := HeadAt(text, i, g.sign, g.prefix, g.leading, insensitive);
      var step := DecimalStepper(text, g, insensitive);
      var init := DecimalRun("", "", None, "", false, false);
      var loop := DecimalDigits(text, h.end, step, g.removeSeparators, flavour, init);
      DecimalDigitsText(text, h.end, step, g.removeSeparators, flavour, init);
      assert s == DecimalFinish(text, h, loop.0, loop.1, g, insensitive, flavour);
      var x := s.value;
      var signPrefix := OrEmpty(x.parts.sign) + OrEmpty(x.parts.prefix);
      var leading := OrEmpty(x.parts.leading);
      assert "" + text[h.end..loop.1] == text[h.end..loop.1];
      assert x.full == text[h.end..loop.1];
      assert OrEmpty(x.parts.postfix) == text[loop.1..x.end];
      assert signPrefix + OrEmpty(h.leading) == text[i..h.end];
      SliceJoin3(text, i, h.end, loop.1, x.end);
      calc {
        signPrefix + leading + x.reclaimed + x.full + OrEmpty(x.parts.postfix);
        { ConcatAssoc(signPrefix, leading, x.reclaimed); }
        signPrefix + OrEmpty(h.leading) + x.full + OrEmpty(x.parts.postfix);
        text[i..h.end] + text[h.end..loop.1] + text[loop.1..x.end];
      }
      if x.reclaimed == "" {
        assert leading + "" == leading;
        assert DecimalCommitted(x) == signPrefix + leading + x.full + "" + OrEmpty(x.parts.postfix);
        assert signPrefix + leading + x.full + "" == signPrefix + leading + x.full;
      }
    }
  }

  /**
   * So `scanDecimal` moves the position short of the end of the number by
   * exactly the digits the reclaim took from the leading part.
   */
  lemma DecimalCommitShortfall(text: string, i: nat, g: DecimalGrammar, insensitive: bool, flavour: Flavour)
    requires i <= |text| && DecimalWellFormed(g) && !g.removeSeparators && g.trailing.None?
    ensures var s := DecimalSpec(text, i, g, insensitive, flavour);
      s.Some? ==> i + |DecimalCommitted(s.value)| + |s.value.reclaimed| == s.value.end
  {
    DecimalCommitsAllButReclaimed(text, i, g, insensitive, flavour);
  }

  /** A single pattern scanned at `i` yields that pattern's own match against the remainder. */
  lemma ScanAtSingle(text: string, i: nat, p: Pattern, insensitive: bool)
    requires i <= |text|
    ensures ScanAt(text, i, [p], insensitive) == MatchAt(text[i..], p, insensitive)
  {
    FirstMatchSingle(text[i..], p, insensitive);
  }

  /** The head of a default decimal scan of "0.5": an empty sign and the leading "0". */
  lemma ZeroPointFiveHead()
    ensures DefaultDecimal.sign == Some(Re(SignRx)) && DefaultDecimal.prefix.None? && DefaultDecimal.leading == Some(Lit("0"))
    ensures HeadAt("0.5", 0, DefaultDecimal.sign, DefaultDecimal.prefix, DefaultDecimal.leading, false) ==
            Head(Some(""), None, Some("0"), 1)
  {
    var text := "0.5";
    ScanAtSingle(text, 0, Re(SignRx), false);
    assert text[0..] == text;
    assert ScanOpt(text, 0, Some(Re(SignRx)), false) == Some("");
    assert LiteralAt(text, 0, "0", false);
    assert !LiteralAt(text, 1, "0", false);
    assert RepeatLiteral(text, 0, "0", false) == 1;
    assert text[0..1] == "0";
  }

  /** The passes of the default decimal digit loop over "0.5": a radix at 1, a digit at 2. */
  lemma ZeroPointFiveSteps()
    ensures DecimalWellFormed(DefaultDecimal)
    ensures DecimalStepper("0.5", DefaultDecimal, false)(1) == Radix(".")
    ensures DecimalStepper("0.5", DefaultDecimal, false)(2) == Digit("5")
  {
    var text, g := "0.5", DefaultDecimal;
    DefaultsWellFormed();
    ScanAtSingle(text, 1, Re(DigitRx), false);
    ScanAtSingle(text, 1, Lit(","), false);
    ScanAtSingle(text, 1, Lit("."), false);
    assert text[1..] == ".5";
    MatchLiteralSensitive(".5", ",");
    MatchLiteralSensitive(".5", ".");
    assert DecimalStep(text, 1, g, false) == Radix(".");
    ScanAtSingle(text, 2, Re(DigitRx), false);
    assert text[2..] == "5";
    assert DecimalStep(text, 2, g, false) == Digit("5");
  }

  /** The digit loop of a default decimal scan of "0.5" reads the radix and the fraction digit. */
  lemma ZeroPointFiveDigits(flavour: Flavour)
    ensures DecimalWellFormed(DefaultDecimal)
    ensures DecimalDigits("0.5", 1, DecimalStepper("0.5", DefaultDecimal, false), true, flavour,
                          DecimalRun("", "", None, "", false, false)) ==
            (DecimalRun("", "5", Some("."), ".5", true, true), 3)
  {
    assert "" + "." == "." && "." + "5" == ".5" && "" + "5" == "5";
    ZeroPointFiveSteps();
    var step := DecimalStepper("0.5", DefaultDecimal, false);
    var init := DecimalRun("", "", None, "", false, false);
    var mid := DecimalRun("", "", Some("."), ".", false, true);
    var run := DecimalRun("", "5", Some("."), ".5", true, true);
    assert DecimalUpdate(init, Radix("."), true, flavour) == mid;
    assert DecimalUpdate(mid, Digit("5"), true, flavour) == run;
    assert DecimalDigits("0.5", 3, step, true, flavour, run) == (run, 3);
    assert DecimalDigits("0.5", 2, step, true, flavour, mid) == (run, 3);
  }

  /** With the default digit pattern, the guarded reclaim gives the single leading "0" back. */
  lemma ZeroReclaimed()
    ensures DigitsNeverEmpty(DefaultDecimal.digits)
    ensures Reclaimed("0", "", DefaultDecimal.digits, true) == ("", "0")
  {
    var d := DefaultDecimal.digits;
    DefaultsWellFormed();
    assert "0"[..1] == "0";
    assert DigitBackscan("0", d) == Backscanned(Some("0"), "");
    assert DigitBackscan("", d).result.None?;
    assert "0" + "" == "0";
    assert Reclaimed("", "0", d, true) == ("", "0");
  }

  /** The default trailing "0" takes nothing off the fraction "5" and finds nothing after "0.5". */
  lemma ZeroPointFiveTail(run: DecimalRun)
    requires run.fractional == "5"
    ensures TailAt("0.5", run, 3, DefaultDecimal, false, Scanning) == DecimalTail("5", run.full, Some(""), None, 3)
  {
    assert "5"[0] != "0"[0];
    assert BackscanLiteral("5", "0").result.None?;
    assert !LiteralAt("0.5", 3, "0", false);
    assert "0.5"[3..3] == "";
  }

  /**
   * `scanDecimal()` on "0.5": the leading "0" is given back to the empty
   * whole part, all three characters are consumed, and only ".5" is
   * committed.
   */
  lemma ScanDecimalCommitsWithoutReclaimedZero()
    ensures var s := DecimalSpec("0.5", 0, DefaultDecimal, false, Scanning);
      s.Some? && s.value.end == 3 && s.value.parts.whole == "0" && s.value.parts.fractional == "5" &&
      DecimalCommitted(s.value) == ".5"
  {
    assert "" + "" + "" + ".5" + "" + "" == ".5";
    ZeroPointFiveHead();
    ZeroPointFiveDigits(Scanning);
    ZeroReclaimed();
    var run := DecimalRun("", "5", Some("."), ".5", true, true);
    ZeroPointFiveTail(run);
    var h := Head(Some(""), None, Some("0"), 1);
    var s := DecimalFinish("0.5", h, run, 3, DefaultDecimal, false, Scanning);
    assert DecimalSpec("0.5", 0, DefaultDecimal, false, Scanning) == s;
    assert s == Some(DecimalScan(DecimalMatch(Some(""), None, Some(""), "0", Some("."), "5", Some(""), None), ".5", "0", 3, 3));
  }

  /** The default decimal grammar with separators kept. */
  const KeepSeparators: DecimalGrammar := DefaultDecimal.(removeSeparators := false)

  /** The default decimal grammar, whether it removes separators or keeps them. */
  ghost predicate DefaultUpToSeparators(g: DecimalGrammar) {
    g == DefaultDecimal.(removeSeparators := g.removeSeparators)
  }

  /** The passes of the default digit loop over "1,5": a digit, a separator, a digit. */
  lemma OneCommaFiveSteps(g: DecimalGrammar)
    requires DefaultUpToSeparators(g)
    ensures DecimalWellFormed(g)
    ensures DecimalStepper("1,5", g, false)(0) == Digit("1")
    ensures DecimalStepper("1,5", g, false)(1) == Separator(",")
    ensures DecimalStepper("1,5", g, false)(2) == Digit("5")
  {
    var text := "1,5";
    DefaultsWellFormed();
    ScanAtSingle(text, 0, Re(DigitRx), false);
    assert text[0..] == text;
    assert DecimalStep(text, 0, g, false) == Digit("1");
    ScanAtSingle(text, 1, Re(DigitRx), false);
    ScanAtSingle(text, 1, Lit(","), false);
    assert text[1..] == ",5";
    MatchLiteralSensitive(",5", ",");
    assert DecimalStep(text, 1, g, false) == Separator(",");
    ScanAtSingle(text, 2, Re(DigitRx), false);
    assert text[2..] == "5";
    assert DecimalStep(text, 2, g, false) == Digit("5");
  }

  /**
   * The digit loop over "1,5" with separators kept: `scanDecimal` keeps the
   * separator in the whole part, while `checkDecimal` appends the null
   * digit to the fraction instead.
   */
  lemma OneCommaFiveDigits(flavour: Flavour)
    ensures DecimalWellFormed(KeepSeparators)
    ensures DecimalDigits("1,5", 0, DecimalStepper("1,5", KeepSeparators, false), false, flavour,
                          DecimalRun("", "", None, "", false, false)) ==
            (if flavour.Checking? then DecimalRun("15", "null", None, "1,5", true, false)
             else DecimalRun("1,5", "", None, "1,5", true, false), 3)
  {
    assert "" + "1" == "1" && "1" + "," == "1," && "1," + "5" == "1,5" && "1" + "5" == "15" && "" + "null" == "null";
    OneCommaFiveSteps(KeepSeparators);
    var step := DecimalStepper("1,5", KeepSeparators, false);
    var r0 := DecimalRun("", "", None, "", false, false);
    var r1 := DecimalRun("1", "", None, "1", true, false);
    assert DecimalUpdate(r0, Digit("1"), false, flavour) == r1;
    if flavour.Checking? {
      var r2 := DecimalRun("1", "null", None, "1,", true, false);
      var r3 := DecimalRun("15", "null", None, "1,5", true, false);
      assert DecimalUpdate(r1, Separator(","), false, flavour) == r2;
      assert DecimalUpdate(r2, Digit("5"), false, flavour) == r3;
      assert DecimalDigits("1,5", 3, step, false, flavour, r3) == (r3, 3);
      assert DecimalDigits("1,5", 2, step, false, flavour, r2) == (r3, 3);
      assert DecimalDigits("1,5", 1, step, false, flavour, r1) == (r3, 3);
    } else {
      var r2 := DecimalRun("1,", "", None, "1,", true, false);
      var r3 := DecimalRun("1,5", "", None, "1,5", true, false);
      assert DecimalUpdate(r1, Separator(","), false, flavour) == r2;
      assert DecimalUpdate(r2, Digit("5"), false, flavour) == r3;
      assert DecimalDigits("1,5", 3, step, false, flavour, r3) == (r3, 3);
      assert DecimalDigits("1,5", 2, step, false, flavour, r2) == (r3, 3);
      assert DecimalDigits("1,5", 1, step, false, flavour, r1) == (r3, 3);
    }
  }

  /** The head of a default scan of "1,5" is empty: the sign regex matches nothing and no leading "0" is there. */
  lemma OneCommaFiveHead(g: DecimalGrammar)
    requires DefaultUpToSeparators(g)
    ensures HeadAt("1,5", 0, g.sign, g.prefix, g.leading, false) == Head(Some(""), None, Some(""), 0)
  {
    var text := "1,5";
    ScanAtSingle(text, 0, Re(SignRx), false);
    assert text[0..] == text;
    assert !LiteralAt(text, 0, "0", false);
    assert text[0..0] == "";
  }

  /** The trailing "0" takes nothing off a fraction that does not end in "0", and finds nothing after "1,5". */
  lemma OneCommaFiveTail(g: DecimalGrammar, run: DecimalRun, flavour: Flavour)
    requires DefaultUpToSeparators(g)
    requires run.fractional == "null" || run.fractional == ""
    ensures TailAt("1,5", run, 3, g, false, flavour) == DecimalTail(run.fractional, run.full, Some(""), None, 3)
  {
    assert "null"[3] != "0"[0];
    assert BackscanLiteral("null", "0").result.None?;
    assert !LiteralAt("1,5", 3, "0", false);
    assert "1,5"[3..3] == "";
  }

  /** The scan of "1,5" with separators kept, for either flavour, taken as a whole. */
  lemma OneCommaFive(flavour: Flavour)
    ensures DecimalSpec("1,5", 0, KeepSeparators, false, flavour) ==
            Some(DecimalScan(DecimalMatch(Some(""), None, Some(""), if flavour.Checking? then "15" else "1,5", None,
                                          if flavour.Checking? then "null" else "", Some(""), None),
                             "1,5", "", 3, 3))
  {
    var run := if flavour.Checking? then DecimalRun("15", "null", None, "1,5", true, false)
               else DecimalRun("1,5", "", None, "1,5", true, false);
    var c := DecimalFinish("1,5", Head(Some(""), None, Some(""), 0), run, 3, KeepSeparators, false, flavour);
    assert DecimalSpec("1,5", 0, KeepSeparators, false, flavour) == c by {
      OneCommaFiveHead(KeepSeparators);
      OneCommaFiveDigits(flavour);
    }
    OneCommaFiveTail(KeepSeparators, run, flavour);
  }

  /**
   * With separators kept, `checkDecimal()` on "1,5" answers "15null": the
   * separator in front of the radix appends the null digit.
   */
  lemma CheckDecimalSpellsNull()
    ensures DecimalResult(DecimalSpec("1,5", 0, KeepSeparators, false, Checking), false) == Some(Flat("15null"))
  {
    assert "15" + "null" == "15null";
    OneCommaFive(Checking);
    DecimalFlatBare("15", "null");
  }

  /** With separators kept, `scanDecimal()` on "1,5" answers "1,5": the separator stays in the whole part. */
  lemma ScanDecimalKeepsSeparator()
    ensures DecimalResult(DecimalSpec("1,5", 0, KeepSeparators, false, Scanning), false) == Some(Flat("1,5"))
  {
    OneCommaFive(Scanning);
    DecimalFlatBare("1,5", "");
    assert "1,5" + "" == "1,5";
  }

  /** The digit loop over "1,5" with separators removed: the separator is in neither the whole part nor `fullMatchNumber`. */
  lemma OneCommaFiveDigitsRemoved()
    ensures DecimalWellFormed(DefaultDecimal)
    ensures DecimalDigits("1,5", 0, DecimalStepper("1,5", DefaultDecimal, false), true, Scanning,
                          DecimalRun("", "", None, "", false, false)) ==
            (DecimalRun("15", "", None, "15", true, false), 3)
  {
    assert "" + "1" == "1" && "1" + "5" == "15";
    OneCommaFiveSteps(DefaultDecimal);
    var step := DecimalStepper("1,5", DefaultDecimal, false);
    var r1 := DecimalRun("1", "", None, "1", true, false);
    var r3 := DecimalRun("15", "", None, "15", true, false);
    assert DecimalUpdate(DecimalRun("", "", None, "", false, false), Digit("1"), true, Scanning) == r1;
    assert DecimalUpdate(r1, Separator(","), true, Scanning) == r1;
    assert DecimalUpdate(r1, Digit("5"), true, Scanning) == r3;
    assert DecimalDigits("1,5", 3, step, true, Scanning, r3) == (r3, 3);
    assert DecimalDigits("1,5", 2, step, true, Scanning, r1) == (r3, 3);
    assert DecimalDigits("1,5", 1, step, true, Scanning, r1) == (r3, 3);
  }

  /**
   * `scanDecimal()` on "1,5" with the default grammar, which removes
   * separators: all three characters are consumed but only "15" is
   * committed, so the position stops one character short, on the "5".
   */
  lemma ScanDecimalDropsSeparator()
    ensures var s := DecimalSpec("1,5", 0, DefaultDecimal, false, Scanning);
      s.Some? && s.value.end == 3 && s.value.reclaimed == "" && s.value.parts.whole == "15" &&
      DecimalCommitted(s.value) == "15" && |DecimalCommitted(s.value)| + 1 == s.value.end
  {
    assert "" + "" + "" + "15" + "" + "" == "15";
    var run := DecimalRun("15", "", None, "15", true, false);
    var c := DecimalFinish("1,5", Head(Some(""), None, Some(""), 0), run, 3, DefaultDecimal, false, Scanning);
    assert DecimalSpec("1,5", 0, DefaultDecimal, false, Scanning) == c by {
      OneCommaFiveHead(DefaultDecimal);
      OneCommaFiveDigitsRemoved();
    }
    OneCommaFiveTail(DefaultDecimal, run, Scanning);
    assert c == Some(DecimalScan(DecimalMatch(Some(""), None, Some(""), "15", None, "", Some(""), None), "15", "", 3, 3));
  }
}
