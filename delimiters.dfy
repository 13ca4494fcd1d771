/**
 * The grammar of delimited text (`DelimitedTextInfo` and
 * `InnerDelimitedTextInfo`) and how `scanDelimited` fills in the options a
 * caller left out: at the top level from fixed defaults, for an inner entry
 * and for an auto-nested grammar from the enclosing grammar.
 */
module Delimiters {
  import opened Patterns

  /** An option a caller may leave `undefined`, set to `null`, or set to a value. */
  datatype Nullable<T> = Undefined | Null | Value(v: T)

  /** An inner delimited text as the caller writes it: `start` and `end` are required. */
  datatype InnerInfo = InnerInfo(
    start: string,
    end: string,
    escape: Nullable<string>,
    keepDelimiters: Option<bool>,
    inner: Option<seq<InnerInfo>>,
    autoNest: Option<DelimitedInfo>,
    noEndFail: Option<bool>)

  /** The options object of `scanDelimited` as the caller writes it; every field may be missing. */
  datatype DelimitedInfo = DelimitedInfo(
    start: Option<string>,
    end: Option<string>,
    escape: Nullable<string>,
    keepDelimiters: Option<bool>,
    inner: Option<seq<InnerInfo>>,
    autoNest: Option<DelimitedInfo>,
    noEndFail: Option<bool>)

  /**
   * Where a grammar's `autoNest` points: nowhere, back at the grammar itself
   * (an auto-nested grammar whose own `autoNest` was left out), or at
   * another, not yet completed grammar.
   */
  datatype Nest = NoNest | SelfNest | NestWith(info: DelimitedInfo)

  /** A grammar with every option decided; `escape == None` switches escaping off. */
  datatype Grammar = Grammar(
    start: string,
    end: string,
    escape: Option<string>,
    keepDelimiters: bool,
    inner: seq<InnerInfo>,
    autoNest: Nest,
    noEndFail: bool)

  function NestOf(a: Option<DelimitedInfo>): Nest {
    match a
    case None => NoNest
    case Some(info) => NestWith(info)
  }

  /**
   * The top-level defaults of `scanDelimited`: a double-quoted string with a
   * backslash escape, delimiters dropped, no inner grammars, and failure when
   * the end delimiter is missing. An escape of `null` switches escaping off.
   */
  function FromOptions(o: DelimitedInfo): (g: Grammar)
    ensures g.start == if o.start.Some? then o.start.value else "\""
    ensures g.end == if o.end.Some? then o.end.value else "\""
    ensures o.escape.Undefined? ==> g.escape == Some("\\")
    ensures o.escape.Null? <==> g.escape.None?
    ensures o.escape.Value? ==> g.escape == Some(o.escape.v)
    ensures g.keepDelimiters <==> o.keepDelimiters == Some(true)
    ensures g.inner == if o.inner.Some? then o.inner.value else []
    ensures o.noEndFail.None? ==> g.noEndFail
    ensures o.noEndFail.Some? ==> g.noEndFail == o.noEndFail.value
    ensures o.autoNest.None? <==> g.autoNest.NoNest?
    ensures o.autoNest.Some? ==> g.autoNest == NestWith(o.autoNest.value)
  {
    Grammar(
      o.start.GetOr("\""),
      o.end.GetOr("\""),
      match o.escape
      case Undefined => Some("\\")
      case Null => None
      case Value(e) => Some(e),
      o.keepDelimiters.GetOr(false),
      o.inner.GetOr([]),
      NestOf(o.autoNest),
      o.noEndFail.GetOr(true))
  }

  /** `scanDelimited()` with no argument. */
  const DefaultGrammar: Grammar := FromOptions(DelimitedInfo(None, None, Undefined, None, None, None, None))

  /**
   * An inner entry completed against the enclosing grammar: an escape left
   * out or set to `null` is taken from the enclosing grammar, delimiters are
   * kept by default, there are no further inner grammars and no auto-nesting
   * by default, and the missing-end rule is inherited.
   */
  function ResolveInner(i: InnerInfo, outer: Grammar): (g: Grammar)
    ensures g.start == i.start && g.end == i.end
    ensures i.escape.Value? ==> g.escape == Some(i.escape.v)
    ensures !i.escape.Value? ==> g.escape == outer.escape
    ensures i.keepDelimiters.None? ==> g.keepDelimiters
    ensures i.keepDelimiters.Some? ==> g.keepDelimiters == i.keepDelimiters.value
    ensures g.inner == if i.inner.Some? then i.inner.value else []
    ensures i.autoNest.None? <==> g.autoNest.NoNest?
    ensures i.autoNest.Some? ==> g.autoNest == NestWith(i.autoNest.value)
    ensures i.noEndFail.None? ==> g.noEndFail == outer.noEndFail
    ensures i.noEndFail.Some? ==> g.noEndFail == i.noEndFail.value
  {
    Grammar(
      i.start,
      i.end,
      match i.escape
      case Value(e) => Some(e)
      case _ => outer.escape,
      i.keepDelimiters.GetOr(true),
      i.inner.GetOr([]),
      NestOf(i.autoNest),
      i.noEndFail.GetOr(outer.noEndFail))
  }

  /**
   * An `autoNest` grammar completed against the grammar that names it: the
   * delimiters, inner grammars, keep rule and missing-end rule default to the
   * enclosing grammar's, the escape defaults to the enclosing END delimiter,
   * and a missing `autoNest` makes the grammar nest inside itself.
   */
  function Materialize(a: DelimitedInfo, outer: Grammar): (g: Grammar)
    ensures g.escape.Some?
    ensures a.escape.Value? ==> g.escape == Some(a.escape.v)
    ensures !a.escape.Value? ==> g.escape == Some(outer.end)
    ensures g.start == if a.start.Some? then a.start.value else outer.start
    ensures g.end == if a.end.Some? then a.end.value else outer.end
    ensures g.inner == if a.inner.Some? then a.inner.value else outer.inner
    ensures g.keepDelimiters == if a.keepDelimiters.Some? then a.keepDelimiters.value else outer.keepDelimiters
    ensures g.noEndFail == if a.noEndFail.Some? then a.noEndFail.value else outer.noEndFail
    ensures a.autoNest.None? <==> g.autoNest.SelfNest?
    ensures a.autoNest.Some? ==> g.autoNest == NestWith(a.autoNest.value)
  {
    Grammar(
      a.start.GetOr(outer.start),
      a.end.GetOr(outer.end),
      Some(match a.escape
           case Value(e) => e
           case _ => outer.end),
      a.keepDelimiters.GetOr(outer.keepDelimiters),
      a.inner.GetOr(outer.inner),
      match a.autoNest
      case None => SelfNest
      case Some(b) => NestWith(b),
      a.noEndFail.GetOr(outer.noEndFail))
  }

  /**
   * The inner grammars tried inside `g`, in order: its own inner entries,
   * then its auto-nested grammar (pushed last).
   */
  function Entries(g: Grammar): (es: seq<Grammar>)
    ensures |es| == |g.inner| + (if g.autoNest.NoNest? then 0 else 1)
    ensures forall k :: 0 <= k < |g.inner| ==> es[k] == ResolveInner(g.inner[k], g)
    ensures g.autoNest.SelfNest? ==> es[|es| - 1] == g
    ensures g.autoNest.NestWith? ==> es[|es| - 1] == Materialize(g.autoNest.info, g)
  {
    seq(|g.inner|, k requires 0 <= k < |g.inner| => ResolveInner(g.inner[k], g)) +
    match g.autoNest
    case NoNest => []
    case SelfNest => [g]
    case NestWith(a) => [Materialize(a, g)]
  }

  /** A grammar with no inner grammars and no auto-nesting: nothing nests inside it. */
  predicate NoInner(g: Grammar) {
    g.inner == [] && g.autoNest.NoNest?
  }

  /** A grammar with nothing nested and no escape: its body runs to the first end delimiter. */
  predicate Plain(g: Grammar) {
    g.escape.None? && NoInner(g)
  }

  /** The start delimiters of a list of grammars, as literal patterns. */
  function Starts(es: seq<Grammar>): (ps: seq<Pattern>)
    ensures |ps| == |es|
    ensures forall k :: 0 <= k < |es| ==> ps[k] == Lit(es[k].start)
  {
    Literals(seq(|es|, k requires 0 <= k < |es| => es[k].start))
  }
  /** What the loop of `scanDelimited` yields: the body, whether an end delimiter closed it, and where it stopped. */
  datatype Delimited = Delimited(body: string, closed: bool, end: nat)

  /**
   * The loop of `scanDelimited` from index `i` for a grammar with nothing
   * nested, with `acc` gathered so far and `escaped` set just after an
   * escape: the character after an escape is taken as it is; otherwise an
   * end delimiter closes the text, an escape is dropped and escapes the next
   * character, and any other character is taken. The text may run out first.
   */
  function BodyFrom(text: string, i: nat, g: Grammar, insensitive: bool, escaped: bool, acc: string): (d: Delimited)
    requires i <= |text|
    ensures i <= d.end <= |text| && |acc| <= |d.body|
    ensures d.closed ==> i + |g.end| <= d.end
    ensures !d.closed ==> d.end == |text|
    decreases |text| - i
  {
    if i == |text| then Delimited(acc, false, i)
    else if escaped then BodyFrom(text, i + 1, g, insensitive, false, acc + text[i..i + 1])
    else if LiteralAt(text, i, g.end, insensitive) then Delimited(acc, true, i + |g.end|)
    else if g.escape.Some? && LiteralAt(text, i, g.escape.value, insensitive) then
      BodyFrom(text, i + |g.escape.value|, g, insensitive, true, acc)
    else BodyFrom(text, i + 1, g, insensitive, false, acc + text[i..i + 1])
  }

  /** One pass of the loop as `BodyFrom` takes it, case by case. */
  lemma BodyFromPass(text: string, i: nat, g: Grammar, insensitive: bool, escaped: bool, acc: string)
    requires i < |text|
    ensures escaped ==>
              BodyFrom(text, i, g, insensitive, true, acc) == BodyFrom(text, i + 1, g, insensitive, false, acc + text[i..i + 1])
    ensures !escaped && LiteralAt(text, i, g.end, insensitive) ==>
              BodyFrom(text, i, g, insensitive, false, acc) == Delimited(acc, true, i + |g.end|)
    ensures !escaped && !LiteralAt(text, i, g.end, insensitive) && g.escape.Some? && LiteralAt(text, i, g.escape.value, insensitive) ==>
              BodyFrom(text, i, g, insensitive, false, acc) == BodyFrom(text, i + |g.escape.value|, g, insensitive, true, acc + "")
    ensures !escaped && !LiteralAt(text, i, g.end, insensitive) && !(g.escape.Some? && LiteralAt(text, i, g.escape.value, insensitive)) ==>
              BodyFrom(text, i, g, insensitive, false, acc) == BodyFrom(text, i + 1, g, insensitive, false, acc + text[i..i + 1])
  {
    assert acc + "" == acc;
  }

  /**
   * `scanDelimited(g)` at index `i` for a grammar with nothing nested:
   * nothing when the start delimiter is not there, else the loop run from
   * just after it.
   */
  function DelimitedSpec(text: string, i: nat, g: Grammar, insensitive: bool): (d: Option<Delimited>)
    requires i <= |text|
    ensures d.Some? <==> LiteralAt(text, i, g.start, insensitive)
    ensures d.Some? ==> i + |g.start| <= d.value.end <= |text|
  {
    if LiteralAt(text, i, g.start, insensitive) then Some(BodyFrom(text, i + |g.start|, g, insensitive, false, "")) else None
  }

  /**
   * Without escape and nesting, the body is the text up to the first end
   * delimiter (or to the end of the text), and holds no end delimiter.
   */
  lemma {:induction false} PlainBody(text: string, i: nat, g: Grammar, insensitive: bool, acc: string)
    requires i <= |text| && Plain(g)
    ensures var d := BodyFrom(text, i, g, insensitive, false, acc);
      var e := if d.closed then d.end - |g.end| else d.end;
      i <= e && d.body == acc + text[i..e] && NoLiteralIn(text, i, e, g.end, insensitive)
    decreases |text| - i
  {
    if i < |text| && !LiteralAt(text, i, g.end, insensitive) {
      PlainBody(text, i + 1, g, insensitive, acc + text[i..i + 1]);
      var d := BodyFrom(text, i + 1, g, insensitive, false, acc + text[i..i + 1]);
      assert BodyFrom(text, i, g, insensitive, false, acc) == d;
      var e := if d.closed then d.end - |g.end| else d.end;
      ExtendBySlices(acc, text, i, i + 1, e);
      NoLiteralBefore(text, i, e, g.end, insensitive);
    } else {
      assert BodyFrom(text, i, g, insensitive, false, acc) ==
             Delimited(acc, i < |text|, if i == |text| then i else i + |g.end|);
      assert acc + text[i..i] == acc;
    }
  }

  /** One plain character: neither an end delimiter nor an escape is at `i`. */
  lemma TakeChar(text: string, i: nat, g: Grammar, insensitive: bool, acc: string)
    requires i < |text| && !LiteralAt(text, i, g.end, insensitive)
    requires g.escape.Some? ==> !LiteralAt(text, i, g.escape.value, insensitive)
    ensures BodyFrom(text, i, g, insensitive, false, acc) == BodyFrom(text, i + 1, g, insensitive, false, acc + [text[i]])
  {
    assert text[i..i + 1] == [text[i]];
  }

  /** With the default grammar, a character that is neither a quote nor a backslash is appended to the body. */
  lemma DefaultTakeChar(t: string, i: nat, acc: string)
    requires i < |t| && t[i] != '"' && t[i] != '\\'
    ensures BodyFrom(t, i, DefaultGrammar, false, false, acc) == BodyFrom(t, i + 1, DefaultGrammar, false, false, acc + [t[i]])
  {
    OneCharAt(t, i, '"', false);
    OneCharAt(t, i, '\\', false);
    TakeChar(t, i, DefaultGrammar, false, acc);
  }

  /** The single-character delimiters of the default grammar, at every index of `t`. */
  lemma DefaultDelimitersIn(t: string)
    ensures DefaultGrammar.start == "\"" && DefaultGrammar.end == "\"" && DefaultGrammar.escape == Some("\\")
    ensures forall k :: 0 <= k < |t| ==>
              (LiteralAt(t, k, "\"", false) <==> t[k] == '"') && (LiteralAt(t, k, "\\", false) <==> t[k] == '\\')
  {
  }

  /** `scanDelimited()` on `"abc"`: the body is `abc`, closed, and the scan ends after five characters. */
  lemma DefaultQuoted()
    ensures DelimitedSpec("\"abc\"", 0, DefaultGrammar, false) == Some(Delimited("abc", true, 5))
  {
    var t, g := "\"abc\"", DefaultGrammar;
    assert "" + [t[1]] == "a";
    assert "a" + [t[2]] == "ab";
    assert "ab" + [t[3]] == "abc";
    DefaultDelimitersIn(t);
    assert LiteralAt(t, 0, g.start, false) && LiteralAt(t, 4, g.end, false);
    DefaultTakeChar(t, 1, "");
    DefaultTakeChar(t, 2, "a");
    DefaultTakeChar(t, 3, "ab");
    assert BodyFrom(t, 4, g, false, false, "abc") == Delimited("abc", true, 5);
  }

  /** `scanDelimited()` on `"a\"b"`: the escaped quote is kept in the body without its backslash. */
  lemma DefaultEscapedQuote()
    ensures DelimitedSpec("\"a\\\"b\"", 0, DefaultGrammar, false) == Some(Delimited("a\"b", true, 6))
  {
    var t, g := "\"a\\\"b\"", DefaultGrammar;
    assert "" + [t[1]] == "a";
    assert "a" + t[3..4] == "a\"";
    assert "a\"" + [t[4]] == "a\"b";
    DefaultDelimitersIn(t);
    assert LiteralAt(t, 0, g.start, false) && LiteralAt(t, 2, g.escape.value, false) && LiteralAt(t, 5, g.end, false);
    DefaultTakeChar(t, 1, "");
    assert BodyFrom(t, 2, g, false, false, "a") == BodyFrom(t, 3, g, false, true, "a");
    assert BodyFrom(t, 3, g, false, true, "a") == BodyFrom(t, 4, g, false, false, "a\"");
    DefaultTakeChar(t, 4, "a\"");
    assert BodyFrom(t, 5, g, false, false, "a\"b") == Delimited("a\"b", true, 6);
  }

  /** An unclosed `"open` runs to the end of the text: accepted only when `noEndFail` is off. */
  lemma DefaultUnclosed()
    ensures DelimitedSpec("\"open", 0, DefaultGrammar, false) == Some(Delimited("open", false, 5))
  {
    var t, g := "\"open", DefaultGrammar;
    assert "" + [t[1]] == "o";
    assert "o" + [t[2]] == "op";
    assert "op" + [t[3]] == "ope";
    assert "ope" + [t[4]] == "open";
    DefaultDelimitersIn(t);
    assert LiteralAt(t, 0, g.start, false);
    DefaultTakeChar(t, 1, "");
    DefaultTakeChar(t, 2, "o");
    DefaultTakeChar(t, 3, "op");
    DefaultTakeChar(t, 4, "ope");
    assert BodyFrom(t, 5, g, false, false, "open") == Delimited("open", false, 5);
  }
}
