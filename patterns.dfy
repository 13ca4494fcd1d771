/**
 * Matching primitives of the scanner: case folding, literal matching against
 * the unscanned remainder, the abstract regular-expression matcher, and the
 * first-match-wins alternation used by `check`/`scan`.
 */
module Patterns {

  datatype Option<+T> = None | Some(value: T) {
    function GetOr(default: T): T {
      match this
      case Some(v) => v
      case None => default
    }
  }

  /** `x ?? ''` */
  function OrEmpty(s: Option<string>): string {
    s.GetOr("")
  }

  /** JavaScript `s + x` where `x` may be `null`: a null operand is spelled "null". */
  function JsConcat(s: string, x: Option<string>): (r: string)
    ensures x.Some? ==> r == s + x.value
    ensures x.None? ==> r == s + "null"
  {
    s + x.GetOr("null")
  }

  /** Case fold of one character (stands in for `toLowerCase`). */
  function FoldChar(c: char): char {
    if 'A' <= c <= 'Z' then (c as int + 32) as char else c
  }

  function Fold(s: string): (r: string)
    ensures |r| == |s|
    ensures forall i :: 0 <= i < |s| ==> r[i] == FoldChar(s[i])
  {
    if s == [] then [] else [FoldChar(s[0])] + Fold(s[1..])
  }

  /** Two texts of equal length that agree character by character, folded when insensitive. */
  predicate SameText(a: string, b: string, insensitive: bool) {
    |a| == |b| &&
    forall i :: 0 <= i < |a| ==>
      (if insensitive then FoldChar(a[i]) == FoldChar(b[i]) else a[i] == b[i])
  }

  /**
   * `checkString` on the unscanned remainder `rest`: an empty literal never
   * matches; otherwise the (possibly folded) remainder must start with the
   * (possibly folded) literal, and the match is the remainder's own text.
   */
  function MatchLiteral(rest: string, s: string, insensitive: bool): (r: Option<string>)
    ensures r.Some? <==> s != "" && |s| <= |rest| && SameText(rest[..|s|], s, insensitive)
    ensures r.Some? ==> r.value == rest[..|s|]
  {
    if s == "" then None
    else
      var cased := (t: string) => if insensitive then Fold(t) else t;
      if cased(s) <= cased(rest) then Some(rest[..|s|]) else None
  }

  /** With case-sensitive matching, a literal matches exactly when it is a non-empty prefix. */
  lemma MatchLiteralSensitive(rest: string, s: string)
    ensures MatchLiteral(rest, s, false) == if s != "" && s <= rest then Some(s) else None
  {
    if s != "" && |s| <= |rest| && SameText(rest[..|s|], s, false) {
      assert rest[..|s|] == s;
    }
  }

  /** Case-insensitive matching accepts everything case-sensitive matching accepts, with the same text. */
  lemma MatchLiteralInsensitiveWidens(rest: string, s: string)
    requires MatchLiteral(rest, s, false).Some?
    ensures MatchLiteral(rest, s, true) == MatchLiteral(rest, s, false)
  {
  }

  /** The literal `s`, folded when insensitive, occurs in `text` at index `i`. */
  predicate LiteralAt(text: string, i: nat, s: string, insensitive: bool) {
    s != "" && i + |s| <= |text| && SameText(text[i..i + |s|], s, insensitive)
  }

  /** `checkString(s)` at index `i` succeeds exactly when the literal occurs there. */
  lemma MatchLiteralAt(text: string, i: nat, s: string, insensitive: bool)
    requires i <= |text|
    ensures MatchLiteral(text[i..], s, insensitive).Some? <==> LiteralAt(text, i, s, insensitive)
    ensures LiteralAt(text, i, s, insensitive) ==> MatchLiteral(text[i..], s, insensitive).value == text[i..i + |s|]
  {
    if |s| <= |text| - i {
      assert text[i..][..|s|] == text[i..i + |s|];
    }
  }

  /** A one-character literal occurs exactly where that character, folded when insensitive, is. */
  lemma OneCharAt(text: string, i: nat, c: char, insensitive: bool)
    requires i < |text|
    ensures LiteralAt(text, i, [c], insensitive) <==>
            if insensitive then FoldChar(text[i]) == FoldChar(c) else text[i] == c
  {
    assert text[i..i + 1][0] == text[i];
  }

  /** The literal `s` occurs at no index in `[from, to)`. */
  predicate NoLiteralIn(text: string, from: nat, to: int, s: string, insensitive: bool) {
    forall i: nat :: from <= i < to ==> !LiteralAt(text, i, s, insensitive)
  }

  /** A literal absent at `i` and from `(i, to)` is absent from `[i, to)`. */
  lemma NoLiteralBefore(text: string, i: nat, to: int, s: string, insensitive: bool)
    requires !LiteralAt(text, i, s, insensitive) && NoLiteralIn(text, i + 1, to, s, insensitive)
    ensures NoLiteralIn(text, i, to, s, insensitive)
  {
    forall j: nat | i <= j < to ensures !LiteralAt(text, j, s, insensitive) {
      if j > i {
        assert !LiteralAt(text, j, s, insensitive);
      }
    }
  }

  /** A literal absent from `[from, i)` and at `i` is absent from `[from, i + 1)`. */
  lemma NoLiteralAfter(text: string, from: nat, i: nat, s: string, insensitive: bool)
    requires NoLiteralIn(text, from, i, s, insensitive) && !LiteralAt(text, i, s, insensitive)
    ensures NoLiteralIn(text, from, i + 1, s, insensitive)
  {
    forall j: nat | from <= j < i + 1 ensures !LiteralAt(text, j, s, insensitive) {
      if j < i {
        assert !LiteralAt(text, j, s, insensitive);
      }
    }
  }

  /**
   * The regular-expression engine is an external collaborator. A regex is
   * modelled by its anchored matcher: given the scanner's case-insensitive
   * flag and the remainder, it yields the text matched at the start of the
   * remainder, or nothing. The only thing assumed of it is that a match is a
   * prefix of the text it was applied to.
   */
  type Matcher = (bool, string) -> Option<string>

  ghost predicate Anchored(m: Matcher) {
    forall insensitive: bool, s: string :: m(insensitive, s).Some? ==> m(insensitive, s).value <= s
  }

  type Regex = m: Matcher | Anchored(m) witness (insensitive: bool, s: string) => None

  /** A pattern is a literal string or a regular expression. */
  datatype Pattern = Lit(s: string) | Re(rx: Regex)

  /** A pattern that never yields an empty match (literals never do). */
  ghost predicate NeverEmpty(p: Pattern) {
    match p
    case Lit(_) => true
    case Re(rx) => forall insensitive: bool, s: string :: rx(insensitive, s) != Some("")
  }

  /** One pattern against the remainder (`checkString` or `checkRegex`). */
  function MatchAt(rest: string, p: Pattern, insensitive: bool): (r: Option<string>)
    ensures r.Some? ==> r.value <= rest
    ensures r.Some? && NeverEmpty(p) ==> r.value != ""
  {
    match p
    case Lit(s) => MatchLiteral(rest, s, insensitive)
    case Re(rx) => rx(insensitive, rest)
  }

  /** The index of the first pattern, in argument order, that matches. */
  function FirstIndex(rest: string, patterns: seq<Pattern>, insensitive: bool): (k: Option<nat>)
    ensures k.Some? ==> k.value < |patterns| && MatchAt(rest, patterns[k.value], insensitive).Some?
    ensures forall j :: 0 <= j < |patterns| && (k.None? || j < k.value) ==>
      MatchAt(rest, patterns[j], insensitive).None?
    decreases |patterns|
  {
    if patterns == [] then None
    else if MatchAt(rest, patterns[0], insensitive).Some? then Some(0)
    else
      match FirstIndex(rest, patterns[1..], insensitive)
      case None => None
      case Some(k) => Some(k + 1)
  }

  /** What `check(...patterns)` returns: the match of the first matching pattern. */
  function FirstMatch(rest: string, patterns: seq<Pattern>, insensitive: bool): (r: Option<string>)
    ensures r.Some? <==> FirstIndex(rest, patterns, insensitive).Some?
    ensures r.Some? ==> r.value <= rest
  {
    match FirstIndex(rest, patterns, insensitive)
    case None => None
    case Some(k) => MatchAt(rest, patterns[k], insensitive)
  }

  /** The first-match index is the unique index that matches with no earlier index matching. */
  lemma FirstIndexUnique(rest: string, patterns: seq<Pattern>, insensitive: bool, k: nat)
    requires k < |patterns| && MatchAt(rest, patterns[k], insensitive).Some?
    requires forall j :: 0 <= j < k ==> MatchAt(rest, patterns[j], insensitive).None?
    ensures FirstIndex(rest, patterns, insensitive) == Some(k)
    ensures FirstMatch(rest, patterns, insensitive) == MatchAt(rest, patterns[k], insensitive)
  {
  }

  /** A single pattern tried alone (`scan(p)`) yields that pattern's own match. */
  lemma FirstMatchSingle(rest: string, p: Pattern, insensitive: bool)
    ensures FirstMatch(rest, [p], insensitive) == MatchAt(rest, p, insensitive)
  {
    assert [p][1..] == [];
  }

  /** Slices of one text that meet end to end join into the covering slice. */
  lemma SliceJoin(s: string, i: nat, j: nat, k: nat)
    requires i <= j <= k <= |s|
    ensures s[i..j] + s[j..k] == s[i..k]
  {
  }

  /** Three slices of one text that meet end to end join into the covering slice. */
  lemma SliceJoin3(s: string, i: nat, j: nat, k: nat, l: nat)
    requires i <= j <= k <= l <= |s|
    ensures s[i..j] + s[j..k] + s[k..l] == s[i..l]
  {
    SliceJoin(s, i, j, k);
    SliceJoin(s, i, k, l);
  }

  /** Concatenation of texts is associative. */
  lemma ConcatAssoc(a: string, b: string, c: string)
    ensures a + b + c == a + (b + c)
  {
  }

  /** A text extended by two slices that meet end to end is extended by the covering slice. */
  lemma ExtendBySlices(acc: string, s: string, i: nat, j: nat, k: nat)
    requires i <= j <= k <= |s|
    ensures acc + s[i..j] + s[j..k] == acc + s[i..k]
  {
    SliceJoin(s, i, j, k);
    ConcatAssoc(acc, s[i..j], s[j..k]);
  }

  /** When no pattern can match empty, neither can the alternation. */
  lemma FirstMatchNonEmpty(rest: string, patterns: seq<Pattern>, insensitive: bool)
    requires forall j :: 0 <= j < |patterns| ==> NeverEmpty(patterns[j])
    ensures FirstMatch(rest, patterns, insensitive).Some? ==> FirstMatch(rest, patterns, insensitive).value != ""
  {
  }

  /** Literal patterns for a list of literal strings (`check(...starts)`). */
  function Literals(starts: seq<string>): (ps: seq<Pattern>)
    ensures |ps| == |starts|
    ensures forall i :: 0 <= i < |starts| ==> ps[i] == Lit(starts[i])
  {
    seq(|starts|, i requires 0 <= i < |starts| => Lit(starts[i]))
  }

  /** `list.find(i => i.start === t)` as an index. */
  function FindStart(starts: seq<string>, t: string): (k: Option<nat>)
    ensures k.Some? ==> k.value < |starts| && starts[k.value] == t
    ensures forall j :: 0 <= j < |starts| && (k.None? || j < k.value) ==> starts[j] != t
    decreases |starts|
  {
    if starts == [] then None
    else if starts[0] == t then Some(0)
    else
      match FindStart(starts[1..], t)
      case None => None
      case Some(k) => Some(k + 1)
  }

  /**
   * With case-sensitive matching, looking an inner grammar up by the start
   * text that matched finds the same entry as the first-matching index.
   */
  lemma LookupByMatchedStart(rest: string, starts: seq<string>)
    requires FirstIndex(rest, Literals(starts), false).Some?
    ensures FindStart(starts, FirstMatch(rest, Literals(starts), false).value)
            == FirstIndex(rest, Literals(starts), false)
  {
    var ps := Literals(starts);
    var k := FirstIndex(rest, ps, false).value;
    MatchLiteralSensitive(rest, starts[k]);
    var t := FirstMatch(rest, ps, false).value;
    assert t == starts[k];
    forall j | 0 <= j < k ensures starts[j] != t {
      MatchLiteralSensitive(rest, starts[j]);
    }
  }

  /**
   * The inner grammar `scanDelimited` looks up after one of the start
   * delimiters matched: the first entry whose start is identical to the
   * matched text. With insensitive matching the matched text keeps the
   * case of the scanned text, so the lookup can miss every entry or land
   * on a later entry than the one that matched.
   */
  function FindByMatchedStart(rest: string, starts: seq<string>, insensitive: bool): (k: Option<nat>)
    requires FirstIndex(rest, Literals(starts), insensitive).Some?
    ensures k.Some? ==> k.value < |starts| && starts[k.value] == FirstMatch(rest, Literals(starts), insensitive).value
    ensures k.None? ==> FirstMatch(rest, Literals(starts), insensitive).value !in starts
  {
    FindStart(starts, FirstMatch(rest, Literals(starts), insensitive).value)
  }

  /** Insensitive start "b" on "Bxe": the start matches, yet the lookup finds no entry. */
  lemma FoldedStartNotFound()
    ensures FirstIndex("Bxe", Literals(["b"]), true) == Some(0)
    ensures FindByMatchedStart("Bxe", ["b"], true) == None
  {
    var ps := Literals(["b"]);
    assert ps[0] == Lit("b");
    assert SameText("Bxe"[..1], "b", true);
    FirstIndexUnique("Bxe", ps, true, 0);
    assert FirstMatch("Bxe", ps, true).value == "B";
  }

  /** Insensitive starts "b" then "B" on "Bx": the first entry matches, the lookup picks the second. */
  lemma FoldedStartFoundLater()
    ensures FirstIndex("Bx", Literals(["b", "B"]), true) == Some(0)
    ensures FindByMatchedStart("Bx", ["b", "B"], true) == Some(1)
  {
    var ps := Literals(["b", "B"]);
    assert ps[0] == Lit("b");
    assert SameText("Bx"[..1], "b", true);
    FirstIndexUnique("Bx", ps, true, 0);
    var t := FirstMatch("Bx", ps, true).value;
    assert t == "B";
    assert ["b", "B"][1..] == ["B"];
    assert FindStart(["b", "B"][1..], t) == Some(0);
  }
}
