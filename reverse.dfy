/**
 * Specification of the reverse matcher `YScanner.backscan`: matching a
 * pattern against the tail of a text, trying suffix lengths from 1 upwards.
 */
module Reverse {
  import opened Patterns

  /** `{ result, newText }`: the matched tail (or null) and the text left in front of it. */
  datatype Backscanned = Backscanned(result: Option<string>, newText: string)

  /** `text` ends with `p`. */
  predicate EndsWith(text: string, p: string) {
    |p| <= |text| && text[|text| - |p|..] == p
  }

  /** The tail of length `k` of `text` is `p`. */
  predicate TailIs(text: string, p: string, k: nat)
    requires k <= |text|
  {
    text[|text| - k..] == p
  }

  /**
   * Backscan with a literal pattern, in closed form: a one-character text
   * matches only when it equals the pattern; a longer text matches when it
   * ends with a non-empty pattern that is strictly shorter than the text.
   */
  function BackscanLiteral(text: string, p: string): (b: Backscanned)
    ensures b.newText + b.result.GetOr("") == text
    ensures b.result.Some? ==> b.result.value == p && p != "" && EndsWith(text, p)
    ensures b.result.Some? && |text| >= 2 ==> |p| < |text|
    ensures b.result.None? ==> b.newText == text
    ensures text == "" ==> b.result.None?
  {
    if |text| == 1 then
      if text == p then Backscanned(Some(text), "") else Backscanned(None, text)
    else if 0 < |p| < |text| && EndsWith(text, p) then
      Backscanned(Some(p), text[..|text| - |p|])
    else
      Backscanned(None, text)
  }

  /** The tail of length `k` of `text` is matched (at its start) by the regex. */
  predicate SuffixHit(text: string, rx: Regex, k: nat)
    requires k <= |text|
  {
    rx(false, text[|text| - k..]).Some?
  }

  /** The shortest tail length in `[k, |text|)` that the regex matches. */
  function ShortestSuffix(text: string, rx: Regex, k: nat): (o: Option<nat>)
    requires 1 <= k
    ensures o.Some? ==> k <= o.value < |text| && SuffixHit(text, rx, o.value)
    ensures forall j :: k <= j < |text| && (o.None? || j < o.value) ==> !SuffixHit(text, rx, j)
    decreases |text| - k
  {
    if k >= |text| then None
    else if SuffixHit(text, rx, k) then Some(k)
    else ShortestSuffix(text, rx, k + 1)
  }

  /**
   * Backscan with a regex: a one-character text is matched as a whole and
   * the match is returned with nothing left; a longer text yields its
   * shortest proper tail the regex matches at its start, whole.
   */
  function BackscanRegex(text: string, rx: Regex): (b: Backscanned)
    ensures |text| != 1 ==> b.newText + b.result.GetOr("") == text
    ensures b.result.None? ==> b.newText == text
    ensures b.result.Some? ==> |b.newText| < |text|
    ensures text == "" ==> b.result.None?
    ensures NeverEmpty(Re(rx)) && b.result.Some? ==>
              b.result.value != "" && b.newText + b.result.value == text
  {
    if |text| == 1 then
      match rx(false, text)
      case Some(m) =>
        assert m <= text;
        Backscanned(Some(m), "")
      case None => Backscanned(None, text)
    else
      match ShortestSuffix(text, rx, 1)
      case None => Backscanned(None, text)
      case Some(k) => Backscanned(Some(text[|text| - k..]), text[..|text| - k])
  }

  /** What `YScanner.backscan(text, pattern)` returns. */
  function BackscanSpec(text: string, pattern: Pattern): (b: Backscanned)
    ensures b.result.None? ==> b.newText == text
    ensures b.result.Some? ==> |b.newText| < |text|
    ensures text == "" ==> b.result.None?
    ensures NeverEmpty(pattern) && b.result.Some? ==>
              b.result.value != "" && b.newText + b.result.value == text
  {
    match pattern
    case Lit(p) => BackscanLiteral(text, p)
    case Re(rx) => BackscanRegex(text, rx)
  }
}
