/**
 * The `YScanner` class: a cursor over an immutable-by-default text that
 * records its last match and the pointer before its last move, with the
 * matching primitives, the backward matcher, delimited and "until" scans,
 * and the integer and decimal scanners built on a duplicate cursor.
 */
module Scanner {
  import opened Patterns
  import opened Reverse
  import opened Delimiters
  import opened Numeric
  import opened NumberScan

  /** `{ pos, lastPos, lastMatch }`, the snapshot `pointer` and `lastState` hold. */
  datatype ScannerState = ScannerState(pos: nat, lastPos: nat, lastMatch: Option<string>)

  const StartState: ScannerState := ScannerState(0, 0, None)

  /** A requested position pulled into `[0, len]`. */
  function Clamp(n: int, len: nat): (p: nat)
    ensures p <= len
    ensures 0 <= n <= len ==> p == n
    ensures n < 0 ==> p == 0
    ensures n > len ==> p == len
  {
    if n < 0 then 0 else if n > len then len else n
  }

  /** Where `s.slice(0, n)` ends on a string of length `len`: a negative `n` counts from the end. */
  function SliceEnd(n: int, len: nat): (e: nat)
    ensures e <= len
    ensures 0 <= n ==> e == Clamp(n, len)
    ensures n < 0 ==> e == Clamp(len + n, len)
  {
    if n < 0 then Clamp(len + n, len) else Clamp(n, len)
  }

  /** A pattern of the list matches non-empty at index `i` of `text`: a truthy `scan` there. */
  predicate StopsAt(text: string, i: nat, patterns: seq<Pattern>, insensitive: bool) {
    i <= |text| &&
    var m := FirstMatch(text[i..], patterns, insensitive);
    m.Some? && m.value != ""
  }

  /** The first index from `i` on at which the patterns stop `scanUntil`; the text length when none does. */
  function StopIndex(text: string, i: nat, patterns: seq<Pattern>, insensitive: bool): (k: nat)
    requires i <= |text|
    ensures i <= k <= |text|
    ensures k < |text| ==> StopsAt(text, k, patterns, insensitive)
    ensures forall j :: i <= j < k ==> !StopsAt(text, j, patterns, insensitive)
    decreases |text| - i
  {
    if i == |text| then i
    else if StopsAt(text, i, patterns, insensitive) then i
    else StopIndex(text, i + 1, patterns, insensitive)
  }

  class YScanner {
    var text: string
    var pos: nat
    var lastPos: nat
    var lastMatch: Option<string>
    var lastState: ScannerState
    var insensitive: bool

    /** Every position the scanner holds, now or in its last state, lies within the text. */
    ghost predicate Valid()
      reads this
    {
      pos <= |text| && lastPos <= |text| && lastState.pos <= |text| && lastState.lastPos <= |text|
    }

    constructor(t: string)
      ensures Valid() && text == t && !insensitive
      ensures Pointer() == StartState && lastState == StartState
    {
      text := t;
      pos := 0;
      lastPos := 0;
      lastMatch := None;
      lastState := StartState;
      insensitive := false;
    }

    function ScannedText(): (s: string)
      reads this
      requires Valid()
      ensures |s| == pos && s <= text
    {
      text[..pos]
    }

    function UnscannedText(): (s: string)
      reads this
      requires Valid()
      ensures ScannedText() + s == text
    {
      text[pos..]
    }

    function Pointer(): ScannerState
      reads this
    {
      ScannerState(pos, lastPos, lastMatch)
    }

    /** `eos`: nothing is left to scan. */
    predicate Eos(): (b: bool)
      reads this
      requires Valid()
      ensures b <==> UnscannedText() == ""
    {
      pos >= |text|
    }

    /** `peek(n)`: the unscanned text cut like `slice(0, n)`, without moving. */
    function Peek(n: int): (s: string)
      reads this
      requires Valid()
      ensures s <= UnscannedText()
      ensures |s| == SliceEnd(n, |text| - pos)
    {
      UnscannedText()[..SliceEnd(n, |text| - pos)]
    }

    /** `checkString(s)`: the literal matched at the position, without moving. */
    function CheckString(s: string): (r: Option<string>)
      reads this
      requires Valid()
      ensures r.Some? <==> LiteralAt(text, pos, s, insensitive)
      ensures r.Some? ==> r.value == text[pos..pos + |s|]
    {
      MatchLiteral(UnscannedText(), s, insensitive)
    }

    /**
     * The effect of `updateMatch(m)`: the match is recorded, and unless it is
     * empty the position moves past it (clamped to the text) after the old
     * pointer is saved as the last state.
     */
    twostate predicate Matched(m: string)
      reads this
    {
      text == old(text) && insensitive == old(insensitive) && lastMatch == Some(m) &&
      if m == "" then
        pos == old(pos) && lastPos == old(lastPos) && lastState == old(lastState)
      else
        pos == Clamp(old(pos) + |m|, |text|) && lastPos == old(pos) && lastState == old(Pointer())
    }

    method LoadPointer(p: ScannerState)
      modifies this
      ensures Pointer() == p && lastState == old(Pointer())
      ensures text == old(text) && insensitive == old(insensitive)
      ensures old(Valid()) && p.pos <= |text| && p.lastPos <= |text| ==> Valid()
    {
      lastState := Pointer();
      pos := p.pos;
      lastPos := p.lastPos;
      lastMatch := p.lastMatch;
    }

    method MovePosition(n: int)
      requires Valid()
      modifies this
      ensures Valid() && text == old(text) && insensitive == old(insensitive) && lastMatch == old(lastMatch)
      ensures n == 0 ==> pos == old(pos) && lastPos == old(lastPos) && lastState == old(lastState)
      ensures n != 0 ==> pos == Clamp(old(pos) + n, |text|) && lastPos == old(pos) && lastState == old(Pointer())
    {
      if n == 0 {
        return;
      }
      lastState := Pointer();
      lastPos := pos;
      pos := Clamp(pos + n, |text|);
    }

    method SetPosition(n: int)
      requires Valid()
      modifies this
      ensures Valid() && text == old(text) && insensitive == old(insensitive) && lastMatch == old(lastMatch)
      ensures pos == Clamp(n, |text|) && lastPos == old(pos) && lastState == old(Pointer())
    {
      lastState := Pointer();
      lastPos := pos;
      pos := Clamp(n, |text|);
    }

    method UpdateMatch(m: string)
      requires Valid()
      modifies this
      ensures Valid() && Matched(m)
      ensures old(pos) + |m| <= |text| ==> pos == old(pos) + |m|
    {
      MovePosition(|m|);
      lastMatch := Some(m);
    }

    /** `grab(n)`: consume what `peek(n)` shows and record it as the match. */
    method Grab(n: int) returns (s: string)
      requires Valid()
      modifies this
      ensures Valid() && Matched(s)
      ensures s <= old(UnscannedText()) && |s| == SliceEnd(n, |text| - old(pos))
      ensures pos == old(pos) + |s|
    {
      s := Peek(n);
      UpdateMatch(s);
    }

    method Reset()
      modifies this
      ensures Valid() && text == old(text) && !insensitive
      ensures Pointer() == StartState && lastState == StartState
    {
      pos := 0;
      lastPos := 0;
      lastMatch := None;
      insensitive := false;
      lastState := StartState;
    }

    /** `unscan`: the pointer and the last state trade places, so a second unscan undoes the first. */
    method Unscan()
      requires Valid()
      modifies this
      ensures Valid() && text == old(text) && insensitive == old(insensitive)
      ensures Pointer() == old(lastState) && lastState == old(Pointer())
    {
      var previous := Pointer();
      pos := lastState.pos;
      lastPos := lastState.lastPos;
      lastMatch := lastState.lastMatch;
      lastState := previous;
    }

    /** `duplicate`: a new scanner in the same state, sharing nothing mutable. */
    method Duplicate() returns (d: YScanner)
      ensures fresh(d)
      ensures d.text == text && d.Pointer() == Pointer() && d.lastState == lastState
      ensures d.insensitive == insensitive
      ensures Valid() ==> d.Valid()
    {
      d := new YScanner(text);
      d.pos := pos;
      d.lastPos := lastPos;
      d.lastMatch := lastMatch;
      d.lastState := lastState;
      d.insensitive := insensitive;
    }

    /** `check(...patterns)`: the first pattern in order that matches wins; nothing moves. */
    method Check(patterns: seq<Pattern>) returns (m: Option<string>)
      requires Valid()
      ensures m == FirstMatch(UnscannedText(), patterns, insensitive)
    {
      var i := 0;
      while i < |patterns|
        invariant 0 <= i <= |patterns|
        invariant forall j :: 0 <= j < i ==> MatchAt(UnscannedText(), patterns[j], insensitive).None?
      {
        m := MatchAt(UnscannedText(), patterns[i], insensitive);
        if m.Some? {
          FirstIndexUnique(UnscannedText(), patterns, insensitive, i);
          return;
        }
        i := i + 1;
      }
      m := None;
    }

    /** `scan(...patterns)`: `check`, then commit the match unless it is null or empty. */
    method Scan(patterns: seq<Pattern>) returns (m: Option<string>)
      requires Valid()
      modifies this
      ensures Valid()
      ensures m == FirstMatch(old(UnscannedText()), patterns, insensitive)
      ensures m.Some? && m.value != "" ==> Matched(m.value) && pos == old(pos) + |m.value|
      ensures !(m.Some? && m.value != "") ==> unchanged(this)
    {
      m := Check(patterns);
      if m.Some? && m.value != "" {
        UpdateMatch(m.value);
      }
    }

    /** `scanString(s)`: a literal, committed when it matches. */
    method ScanString(s: string) returns (m: Option<string>)
      requires Valid()
      modifies this
      ensures Valid()
      ensures m.Some? <==> LiteralAt(old(text), old(pos), s, insensitive)
      ensures m.Some? ==> Matched(m.value) && pos == old(pos) + |s| && m.value == text[old(pos)..pos]
      ensures m.None? ==> unchanged(this)
    {
      m := CheckString(s);
      if m.Some? {
        UpdateMatch(m.value);
      }
    }

    /** `skip(...patterns)`: move past the first match without recording it; its length. */
    method Skip(patterns: seq<Pattern>) returns (n: nat)
      requires Valid()
      modifies this
      ensures Valid() && text == old(text) && insensitive == old(insensitive)
      ensures n == |OrEmpty(FirstMatch(old(UnscannedText()), patterns, insensitive))|
      ensures n > 0 ==> pos == old(pos) + n && lastPos == old(pos) && lastState == old(Pointer())
      ensures lastMatch == old(lastMatch)
      ensures n == 0 ==> unchanged(this)
    {
      var m := Check(patterns);
      if m.Some? && m.value != "" {
        MovePosition(|m.value|);
      }
      n := |OrEmpty(m)|;
    }

    /** `terminate`: jump to the end of the text, optionally forgetting the last match. */
    method Terminate(clear: bool)
      requires Valid()
      modifies this
      ensures Valid() && Eos() && text == old(text) && insensitive == old(insensitive)
      ensures pos == |text| && lastPos == old(pos) && lastState == old(Pointer())
      ensures lastMatch == if clear then None else old(lastMatch)
    {
      SetPosition(|text|);
      if clear {
        lastMatch := None;
      }
    }

    /** `append`: only the text changes, and only by growing at its end. */
    method Append(t: string)
      requires Valid()
      modifies this
      ensures Valid() && text == old(text) + t
      ensures Pointer() == old(Pointer()) && lastState == old(lastState) && insensitive == old(insensitive)
      ensures ScannedText() == old(ScannedText())
    {
      text := text + t;
    }

    /**
     * `prepend`: the new text goes in front; either the scanner is reset, or
     * the position moves over the new text so that what is left to scan is
     * unchanged.
     */
    method Prepend(t: string, reset: bool)
      requires Valid()
      modifies this
      ensures Valid() && text == t + old(text)
      ensures reset ==> Pointer() == StartState && lastState == StartState && !insensitive
      ensures !reset ==> UnscannedText() == old(UnscannedText())
      ensures !reset ==> lastMatch == old(lastMatch) && insensitive == old(insensitive)
      ensures !reset && t != "" ==> pos == old(pos) + |t| && lastPos == old(pos) && lastState == old(Pointer())
      ensures !reset && t == "" ==> pos == old(pos) && lastPos == old(lastPos) && lastState == old(lastState)
    {
      text := t + text;
      if reset {
        Reset();
      } else {
        MovePosition(|t|);
        assert text[pos..] == old(text)[old(pos)..];
      }
    }

    /**
     * What a committed `scanDelimited(g)` did: from the old position it
     * consumed the start delimiter, a body and, when `closed`, the end
     * delimiter (otherwise it ran to the end of the text, which only a grammar
     * with `noEndFail` off accepts); all of it became the last match and the
     * old pointer the last state.
     */
    twostate predicate DelimitedCommitted(g: Grammar, body: string, closed: bool)
      reads this
    {
      var start := old(pos);
      var bodyStart := start + |g.start|;
      text == old(text) && insensitive == old(insensitive) &&
      LiteralAt(text, start, g.start, insensitive) && bodyStart <= pos <= |text| &&
      lastPos == start && lastState == old(Pointer()) &&
      (closed ==> bodyStart + |g.end| <= pos && LiteralAt(text, pos - |g.end|, g.end, insensitive)) &&
      (!closed ==> !g.noEndFail && pos == |text|) &&
      lastMatch == Some(text[start..bodyStart] + body + (if closed then text[pos - |g.end|..pos] else ""))
    }

    /**
     * `scanDelimited(g)`: on a duplicate, scan the start delimiter, then the
     * body up to the end delimiter; commit only a success. Without escape and
     * inner grammars the body is the text up to the first end delimiter.
     */
    method ScanDelimited(g: Grammar) returns (r: Option<string>, ghost body: string, ghost closed: bool)
      requires Valid()
      modifies this
      decreases |text| - pos, 1
      ensures Valid()
      ensures !LiteralAt(old(text), old(pos), g.start, insensitive) ==> r.None?
      ensures r.None? ==> unchanged(this)
      ensures r.Some? ==> DelimitedCommitted(g, body, closed)
      ensures r.Some? ==> r.value == if g.keepDelimiters then lastMatch.value else body
      ensures r.Some? && Plain(g) ==>
                lastMatch == Some(text[old(pos)..pos]) &&
                NoLiteralIn(text, old(pos) + |g.start|, pos - (if closed then |g.end| else 0), g.end, insensitive)
      ensures NoInner(g) ==>
                var d := DelimitedSpec(old(text), old(pos), g, old(insensitive));
                (r.None? <==> d.None? || (g.noEndFail && !d.value.closed)) &&
                (r.Some? ==> d == Some(Delimited(body, closed, pos)))
    {
      ghost var spec := DelimitedSpec(text, pos, g, insensitive);
      var dup := Duplicate();
      var opener, matched, closer, bodyStart, bodyEnd := dup.DelimitedParts(g);
      assert NoInner(g) ==> (opener.None? <==> spec.None?);
      assert NoInner(g) && opener.Some? ==> matched.Some? && spec == Some(Delimited(matched.value, closer.Some?, dup.pos));
      if opener.None? || matched.None? || (g.noEndFail && closer.None?) {
        return None, "", false;
      }
      var full := opener.value + matched.value + OrEmpty(closer);
      if Plain(g) {
        SliceJoin3(text, pos, bodyStart, bodyEnd, dup.pos);
      }
      LoadPointer(ScannerState(dup.pos, pos, Some(full)));
      r := Some(if g.keepDelimiters then full else matched.value);
      body, closed := matched.value, closer.Some?;
    }

    /**
     * The work `scanDelimited` does on its duplicate: the start delimiter,
     * then the body and the end delimiter. `opener` is `None` when the start
     * delimiter is not there, `matched` is `None` when a nested scan failed,
     * and `closer` is `None` when the text ended first; the body lies in
     * `[bodyStart, bodyEnd)`.
     */
    method DelimitedParts(g: Grammar) returns (opener: Option<string>, matched: Option<string>, closer: Option<string>,
                                               ghost bodyStart: nat, ghost bodyEnd: nat)
      requires Valid()
      modifies this
      decreases |text| - pos, 0
      ensures Valid() && text == old(text) && insensitive == old(insensitive) && old(pos) <= pos
      ensures opener.None? <==> !LiteralAt(text, old(pos), g.start, insensitive)
      ensures opener.Some? ==>
                bodyStart == old(pos) + |g.start| <= pos && opener.value == text[old(pos)..bodyStart]
      ensures opener.Some? && matched.Some? ==>
                bodyStart <= bodyEnd <= pos && OrEmpty(closer) == text[bodyEnd..pos]
      ensures opener.Some? && matched.Some? && closer.Some? ==>
                bodyEnd == pos - |g.end| && LiteralAt(text, bodyEnd, g.end, insensitive)
      ensures opener.Some? && matched.Some? && closer.None? ==> bodyEnd == pos == |text|
      ensures opener.Some? && matched.Some? && Plain(g) ==>
                matched.value == text[bodyStart..bodyEnd] && NoLiteralIn(text, bodyStart, bodyEnd, g.end, insensitive)
      ensures NoInner(g) && opener.Some? ==>
                matched.Some? && DelimitedSpec(text, old(pos), g, insensitive) == Some(Delimited(matched.value, closer.Some?, pos))
    {
      // `scan(start)` with a string pattern is `scanString(start)`.
      opener := ScanString(g.start);
      bodyStart := pos;
      if opener.None? {
        return None, None, None, bodyStart, bodyStart;
      }
      matched, closer, bodyEnd := DelimitedBody(g);
    }

    /**
     * The loop of `scanDelimited`, run on the duplicate just past the start
     * delimiter: escaped characters, nested delimited texts and plain
     * characters make up the body until the end delimiter or the end of the
     * text. `None` when a nested scan failed; the body ends at `bodyEnd`.
     */
    method DelimitedBody(g: Grammar) returns (matched: Option<string>, closer: Option<string>, ghost bodyEnd: nat)
      requires Valid()
      modifies this
      decreases |text| - pos, 7
      ensures Valid() && text == old(text) && insensitive == old(insensitive) && old(pos) <= pos
      ensures matched.Some? ==> old(pos) <= bodyEnd <= pos && OrEmpty(closer) == text[bodyEnd..pos]
      ensures matched.Some? && closer.Some? ==>
                bodyEnd == pos - |g.end| && LiteralAt(text, bodyEnd, g.end, insensitive)
      ensures matched.Some? && closer.None? ==> bodyEnd == pos == |text|
      ensures matched.Some? && Plain(g) ==>
                matched.value == text[old(pos)..bodyEnd] && NoLiteralIn(text, old(pos), bodyEnd, g.end, insensitive)
      ensures NoInner(g) ==>
                matched.Some? && Delimited(matched.value, closer.Some?, pos) == BodyFrom(text, old(pos), g, insensitive, false, "")
    {
      var plain := Plain(g);
      var escaped := false;
      var body := "";
      closer := None;
      bodyEnd := pos;
      while !Eos()
        invariant Valid() && text == old(text) && insensitive == old(insensitive)
        invariant old(pos) <= pos
        invariant g.escape.None? ==> !escaped
        invariant plain ==> body == text[old(pos)..pos] && NoLiteralIn(text, old(pos), pos, g.end, insensitive)
        invariant NoInner(g) ==>
                    BodyFrom(text, pos, g, insensitive, escaped, body) == BodyFrom(text, old(pos), g, insensitive, false, "")
        decreases |text| - pos
      {
        ghost var from := pos;
        var piece, found, next := DelimitedStep(g, escaped, body);
        if found.Some? {
          closer, bodyEnd := found, from;
          matched := Some(body);
          return;
        }
        if piece.None? {
          return None, None, pos;
        }
        if plain {
          SliceJoin(text, old(pos), from, pos);
          NoLiteralAfter(text, old(pos), from, g.end, insensitive);
        }
        body := body + piece.value;
        escaped := next;
      }
      matched, bodyEnd := Some(body), pos;
    }

    /**
     * One pass of the `scanDelimited` loop before the end of the text: after
     * an escape, any one character; otherwise the end delimiter, an escape,
     * or else a nested text or a plain character, tried in that order.
     * Returns what the pass adds to the body (`None` when a nested scan
     * failed), the end delimiter when it was found, and whether the next
     * character is escaped.
     */
    method DelimitedStep(g: Grammar, escaped: bool, ghost acc: string)
      returns (piece: Option<string>, closer: Option<string>, escapedNext: bool)
      requires Valid() && !Eos()
      modifies this
      decreases |text| - pos, 6
      ensures Valid() && text == old(text) && insensitive == old(insensitive) && old(pos) <= pos
      ensures closer.Some? ==>
                !escaped && LiteralAt(text, old(pos), g.end, insensitive) &&
                pos == old(pos) + |g.end| && closer.value == text[old(pos)..pos]
      ensures piece.Some? && closer.None? ==> old(pos) < pos
      ensures g.escape.None? ==> !escapedNext
      ensures Plain(g) && !escaped && closer.None? ==>
                !LiteralAt(text, old(pos), g.end, insensitive) &&
                piece == Some(text[old(pos)..pos]) && pos == old(pos) + 1
      ensures NoInner(g) && closer.Some? ==> BodyFrom(text, old(pos), g, insensitive, escaped, acc) == Delimited(acc, true, pos)
      ensures NoInner(g) && closer.None? ==>
                piece.Some? &&
                BodyFrom(text, old(pos), g, insensitive, escaped, acc) == BodyFrom(text, pos, g, insensitive, escapedNext, acc + piece.value)
    {
      if escaped {
        BodyFromPass(text, pos, g, insensitive, escaped, acc);
        var c := Grab(1);
        assert c == text[old(pos)..pos];
        return Some(c), None, false;
      }
      piece, closer, escapedNext := UnescapedStep(g, acc);
    }

    /** A pass of the body loop when the previous pass did not escape. */
    method UnescapedStep(g: Grammar, ghost acc: string)
      returns (piece: Option<string>, closer: Option<string>, escapedNext: bool)
      requires Valid() && !Eos()
      modifies this
      decreases |text| - pos, 5
      ensures Valid() && text == old(text) && insensitive == old(insensitive) && old(pos) <= pos
      ensures closer.Some? ==>
                LiteralAt(text, old(pos), g.end, insensitive) &&
                pos == old(pos) + |g.end| && closer.value == text[old(pos)..pos]
      ensures piece.Some? && closer.None? ==> old(pos) < pos
      ensures g.escape.None? ==> !escapedNext
      ensures Plain(g) && closer.None? ==>
                !LiteralAt(text, old(pos), g.end, insensitive) &&
                piece == Some(text[old(pos)..pos]) && pos == old(pos) + 1
      ensures NoInner(g) && closer.Some? ==> BodyFrom(text, old(pos), g, insensitive, false, acc) == Delimited(acc, true, pos)
      ensures NoInner(g) && closer.None? ==>
                piece.Some? &&
                BodyFrom(text, old(pos), g, insensitive, false, acc) == BodyFrom(text, pos, g, insensitive, escapedNext, acc + piece.value)
    {
      BodyFromPass(text, pos, g, insensitive, false, acc);
      // `scan(end)` with a string pattern is `scanString(end)`.
      closer := ScanString(g.end);
      if closer.Some? {
        return Some(""), closer, false;
      }
      piece, escapedNext := EscapeOrNested(g, acc);
    }

    /** The rest of a pass once the end delimiter did not match: an escape, or a nested text or a character. */
    method EscapeOrNested(g: Grammar, ghost acc: string) returns (piece: Option<string>, escapedNext: bool)
      requires Valid() && !Eos() && !LiteralAt(text, pos, g.end, insensitive)
      modifies this
      decreases |text| - pos, 4
      ensures Valid() && text == old(text) && insensitive == old(insensitive) && old(pos) <= pos
      ensures piece.Some? ==> old(pos) < pos
      ensures g.escape.None? ==> !escapedNext
      ensures Plain(g) ==> piece == Some(text[old(pos)..pos]) && pos == old(pos) + 1
      ensures NoInner(g) ==>
                piece.Some? &&
                BodyFrom(text, old(pos), g, insensitive, false, acc) == BodyFrom(text, pos, g, insensitive, escapedNext, acc + piece.value)
    {
      BodyFromPass(text, pos, g, insensitive, false, acc);
      if g.escape.Some? {
        var e := ScanString(g.escape.value);
        if e.Some? {
          return Some(""), true;
        }
      }
      piece := NestedOrChar(g);
      escapedNext := false;
    }

    /**
     * The last two cases of a pass: a nested delimited text when one of the
     * inner start delimiters matches, otherwise one plain character.
     */
    method NestedOrChar(g: Grammar) returns (piece: Option<string>)
      requires Valid() && !Eos()
      modifies this
      decreases |text| - pos, 3
      ensures Valid() && text == old(text) && insensitive == old(insensitive) && old(pos) <= pos
      ensures piece.Some? ==> old(pos) < pos
      ensures NoInner(g) ==> piece == Some(text[old(pos)..pos]) && pos == old(pos) + 1
    {
      var entries := Entries(g);
      var starts := Starts(entries);
      var innerStart: Option<string> := None;
      if |entries| > 0 {
        FirstMatchNonEmpty(UnscannedText(), starts, insensitive);
        innerStart := Scan(starts);
      }
      if innerStart.Some? {
        Unscan();
        piece := NestedText(g);
      } else {
        ghost var from := pos;
        var c := Grab(1);
        assert c == text[from..from + 1];
        piece := Some(c);
      }
    }

    /**
     * A nested delimited text inside `g`, at a position where one of the
     * start delimiters of `g`'s inner grammars matches: the first matching
     * entry is scanned; when its end differs from `g`'s and it swallowed
     * `g`'s end delimiter, that delimiter is dropped unless `g` keeps
     * delimiters.
     */
    method NestedText(g: Grammar) returns (outcome: Option<string>)
      requires Valid()
      requires FirstIndex(UnscannedText(), Starts(Entries(g)), insensitive).Some?
      modifies this
      decreases |text| - pos, 2
      ensures Valid() && text == old(text) && insensitive == old(insensitive) && old(pos) <= pos
      ensures outcome.Some? ==> old(pos) < pos
    {
      var entries := Entries(g);
      var k := FirstIndex(UnscannedText(), Starts(entries), insensitive).value;
      var inner := entries[k];
      ghost var innerBody, innerClosed;
      outcome, innerBody, innerClosed := ScanDelimited(inner);
      var swallow := Backscan(OrEmpty(outcome), Lit(g.end));
      if inner.end != g.end && swallow.result.Some? && !g.keepDelimiters {
        outcome := Some(swallow.newText);
      }
    }

    /**
     * `scanUntil(patterns, { failIfNone, includePattern })`: the text up to
     * the first place where a pattern matches (non-empty), with that match
     * appended when `includePattern` is set; null only when nothing stops the
     * scan and `failIfNone` is set.
     */
    method ScanUntil(patterns: seq<Pattern>, failIfNone: bool, includePattern: bool) returns (r: Option<string>)
      requires Valid()
      modifies this
      ensures Valid()
      ensures text == old(text) && insensitive == old(insensitive)
      ensures var k := StopIndex(text, old(pos), patterns, insensitive);
        r.None? <==> failIfNone && k == |text|
      ensures r.None? ==> unchanged(this)
      ensures r.Some? ==> Matched(r.value)
      ensures var k := StopIndex(text, old(pos), patterns, insensitive);
        r.Some? && !includePattern ==> r.value == text[old(pos)..k] && pos == k
      ensures var k := StopIndex(text, old(pos), patterns, insensitive);
        r.Some? && includePattern && k < |text| ==>
          var m := FirstMatch(text[k..], patterns, insensitive).value;
          r.value == text[old(pos)..k] + m && pos == k + |m|
      ensures var k := StopIndex(text, old(pos), patterns, insensitive);
        r.Some? && includePattern && k == |text| ==>
          r.value == JsConcat(text[old(pos)..], if old(pos) < |text| then Some(text[|text| - 1..]) else old(lastMatch)) &&
          pos == |text|
    {
      var dup := Duplicate();
      var matched, found, stop := dup.AdvanceUntil(patterns);
      if failIfNone && !found {
        return None;
      }
      var matchedOption := dup.lastMatch;
      var finalMatch := if includePattern then JsConcat(matched, matchedOption) else matched;
      if !includePattern {
        // Backs up the duplicate only; this scanner moves by the match below.
        dup.Unscan();
      }
      assert |finalMatch| >= stop - pos;
      UpdateMatch(finalMatch);
      r := Some(finalMatch);
    }

    /**
     * The loop of `scanUntil`, run on the duplicate: grab one character at a
     * time until a pattern matches non-empty (that match is then scanned) or
     * the text ends.
     */
    method AdvanceUntil(patterns: seq<Pattern>) returns (matched: string, found: bool, ghost stop: nat)
      requires Valid()
      modifies this
      ensures Valid() && text == old(text) && insensitive == old(insensitive)
      ensures stop == StopIndex(text, old(pos), patterns, insensitive)
      ensures matched == text[old(pos)..stop] && (found <==> stop < |text|)
      ensures found ==> lastMatch == FirstMatch(text[stop..], patterns, insensitive)
      ensures !found ==> lastMatch == if old(pos) == |text| then old(lastMatch) else Some(text[|text| - 1..])
    {
      stop := StopIndex(text, pos, patterns, insensitive);
      matched := "";
      found := false;
      while !Eos()
        invariant Valid() && text == old(text) && insensitive == old(insensitive)
        invariant old(pos) <= pos <= stop
        invariant matched == text[old(pos)..pos]
        invariant lastMatch == if pos == old(pos) then old(lastMatch) else Some(text[pos - 1..pos])
        decreases |text| - pos
      {
        ghost var from := pos;
        assert StopsAt(text, from, patterns, insensitive) <==> from == stop;
        var c;
        c, found := UntilStep(patterns);
        if found {
          return;
        }
        SliceJoin(text, old(pos), from, from + 1);
        matched := matched + c;
      }
      if old(pos) < |text| {
        assert text[pos - 1..pos] == text[|text| - 1..];
      }
    }

    /**
     * One pass of the `scanUntil` loop: scan the patterns; when none matches
     * non-empty, grab one character instead.
     */
    method UntilStep(patterns: seq<Pattern>) returns (c: string, found: bool)
      requires Valid() && !Eos()
      modifies this
      ensures Valid() && text == old(text) && insensitive == old(insensitive) && old(pos) <= pos
      ensures found <==> StopsAt(text, old(pos), patterns, insensitive)
      ensures found ==> lastMatch == FirstMatch(text[old(pos)..], patterns, insensitive)
      ensures !found ==> pos == old(pos) + 1 && c == text[old(pos)..pos] && lastMatch == Some(c)
    {
      ghost var from := pos;
      var m := Scan(patterns);
      found := m.Some? && m.value != "";
      c := "";
      if !found {
        c := Grab(1);
        assert c == text[from..from + 1];
      }
    }

    /**
     * `YScanner.backscan(text, pattern)`: try the tails of `text` from the
     * shortest up, keeping at least one character in front, and cut off the
     * first tail the pattern matches. A one-character text is compared whole.
     */
    static method Backscan(text: string, pattern: Pattern) returns (b: Backscanned)
      ensures b == BackscanSpec(text, pattern)
    {
      if |text| == 1 {
        match pattern {
          case Lit(p) =>
            var matched := text == p;
            return Backscanned(if matched then Some(text) else None, if matched then "" else text);
          case Re(rx) =>
            var matched := rx(false, text);
            if matched.Some? {
              return Backscanned(Some(matched.value), "");
            }
            return Backscanned(None, text);
        }
      }
      match pattern {
        case Lit(p) => b := BackscanLiteralTails(text, p);
        case Re(rx) => b := BackscanRegexTails(text, rx);
      }
    }

    /** The offset loop of `backscan` for a literal pattern. */
    static method BackscanLiteralTails(text: string, p: string) returns (b: Backscanned)
      requires |text| != 1
      ensures b == BackscanLiteral(text, p)
    {
      var result, newText := "", text;
      var offset := 1;
      while newText != "" && offset < |newText|
        invariant 1 <= offset
        invariant result == "" && newText == text
        invariant forall j :: 1 <= j < offset && j < |text| ==> !TailIs(text, p, j)
        decreases |newText| - offset
      {
        var slice := newText[|newText| - offset..];
        if slice == p {
          assert result == "" && slice + result == p;
          result := slice + result;
          newText := newText[..|newText| - offset];
          break;
        }
        assert !TailIs(text, p, offset);
        offset := offset + 1;
      }
      assert result == "" && 0 < |p| < |text| ==> !TailIs(text, p, |p|);
      b := Backscanned(if result == "" then None else Some(result), newText);
    }

    /** The offset loop of `backscan` for a regex. */
    static method BackscanRegexTails(text: string, rx: Regex) returns (b: Backscanned)
      requires |text| != 1
      ensures b == BackscanRegex(text, rx)
    {
      var result, newText := "", text;
      var offset := 1;
      while newText != "" && offset < |newText|
        invariant 1 <= offset
        invariant result == "" && newText == text
        invariant forall j :: 1 <= j < offset && j < |text| ==> !SuffixHit(text, rx, j)
        decreases |newText| - offset
      {
        var slice := newText[|newText| - offset..];
        if rx(false, slice).Some? {
          assert SuffixHit(text, rx, offset);
          assert result == "" && slice + result == slice;
          result := slice + result;
          newText := newText[..|newText| - offset];
          break;
        }
        assert !SuffixHit(text, rx, offset);
        offset := offset + 1;
      }
      b := Backscanned(if result == "" then None else Some(result), newText);
    }

    // ------------------------------------------------------------ number scans

    /** `p != null ? scan(p) : null` */
    method ScanOptional(p: Option<Pattern>) returns (m: Option<string>)
      requires Valid()
      modifies this
      ensures Valid() && text == old(text) && insensitive == old(insensitive)
      ensures m == ScanOpt(text, old(pos), p, insensitive) && pos == After(old(pos), m)
    {
      m := None;
      if p.Some? {
        m := Scan([p.value]);
      }
    }

    /** `scan(...digits)` for a string of digit characters, `scan(digits)` for a regex. */
    method ScanDigit(d: Digits) returns (m: Option<string>)
      requires Valid()
      modifies this
      ensures Valid() && text == old(text) && insensitive == old(insensitive)
      ensures m == ScanAt(text, old(pos), DigitPatterns(d), insensitive) && pos == After(old(pos), m)
    {
      m := Scan(DigitPatterns(d));
    }

    /** `while (scan(s)) acc += lastMatch`: the literal scanned for as long as it repeats. */
    method ScanRepeated(s: string, acc: string) returns (r: string)
      requires Valid()
      modifies this
      ensures Valid() && text == old(text) && insensitive == old(insensitive)
      ensures pos == RepeatLiteral(text, old(pos), s, insensitive) && r == acc + text[old(pos)..pos]
    {
      r := acc;
      while true
        invariant Valid() && text == old(text) && insensitive == old(insensitive)
        invariant old(pos) <= pos && r == acc + text[old(pos)..pos]
        invariant RepeatLiteral(text, pos, s, insensitive) == RepeatLiteral(text, old(pos), s, insensitive)
        decreases |text| - pos
      {
        ghost var from := pos;
        var found := ScanLiteralOnce(s);
        if !found {
          break;
        }
        ExtendBySlices(acc, text, old(pos), from, pos);
        r := r + lastMatch.value;
      }
    }

    /** One `scan(s)` of a literal: it moves past the literal exactly when the literal is next. */
    method ScanLiteralOnce(s: string) returns (found: bool)
      requires Valid()
      modifies this
      ensures Valid() && text == old(text) && insensitive == old(insensitive)
      ensures found <==> LiteralAt(text, old(pos), s, insensitive)
      ensures found ==> pos == old(pos) + |s| && lastMatch == Some(text[old(pos)..pos]) &&
                        RepeatLiteral(text, pos, s, insensitive) == RepeatLiteral(text, old(pos), s, insensitive)
      ensures !found ==> pos == old(pos) && RepeatLiteral(text, pos, s, insensitive) == pos
    {
      ghost var from := pos;
      ghost var lit := LiteralAt(text, from, s, insensitive);
      ScanLiteral(text, from, s, insensitive);
      assert UnscannedText() == text[from..];
      var m := Scan([Lit(s)]);
      found := m.Some? && m.value != "";
      if lit {
        assert m == Some(text[from..from + |s|]) && found;
      } else {
        assert !found;
      }
    }

    /** The leading part: a literal scanned for as long as it repeats, or a regex scanned once. */
    method ScanLeading(p: Option<Pattern>) returns (m: Option<string>)
      requires Valid()
      modifies this
      ensures Valid() && text == old(text) && insensitive == old(insensitive)
      ensures m == LeadingAt(text, old(pos), p, insensitive) && pos == After(old(pos), m)
    {
      m := None;
      if p.Some? {
        match p.value {
          case Lit(s) =>
            var leading := ScanRepeated(s, "");
            assert "" + text[old(pos)..pos] == text[old(pos)..pos];
            m := Some(leading);
          case Re(_) =>
            m := Scan([p.value]);
        }
      }
    }

    /** The sign, the prefix and the leading part, in that order. */
    method NumberHead(sign: Option<Pattern>, prefix: Option<Pattern>, leading: Option<Pattern>) returns (h: Head)
      requires Valid()
      modifies this
      ensures Valid() && text == old(text) && insensitive == old(insensitive)
      ensures h == HeadAt(text, old(pos), sign, prefix, leading, insensitive) && pos == h.end
    {
      var signPart := ScanOptional(sign);
      var prefixPart := ScanOptional(prefix);
      var leadingPart := ScanLeading(leading);
      h := Head(signPart, prefixPart, leadingPart, pos);
    }

    /**
     * `[...digits].map(d => backscan(text, d)).find(m => m.result !== null)`:
     * the first digit character, in the order given, that `text` ends with.
     */
    static method FindLeadingDigit(text: string, chars: string) returns (f: Option<Backscanned>)
      ensures f == FindDigit(text, chars)
    {
      var k := 0;
      while k < |chars|
        invariant 0 <= k <= |chars|
        invariant FindDigit(text, chars[k..]) == FindDigit(text, chars)
      {
        assert chars[k..][1..] == chars[k + 1..];
        var b := Backscan(text, Lit([chars[k]]));
        if b.result.Some? {
          return Some(b);
        }
        k := k + 1;
      }
      f := None;
    }

    /** One backward step over the leading part with the digit pattern(s). */
    static method BackscanDigit(text: string, d: Digits) returns (b: Backscanned)
      ensures b == DigitBackscan(text, d)
    {
      match d {
        case DigitChars(chars) =>
          var f := FindLeadingDigit(text, chars);
          b := if f.Some? then f.value else Backscanned(None, text);
        case DigitPattern(rx) =>
          b := Backscan(text, Re(rx));
      }
    }

    /**
     * The decimal reclaim loop: while the leading part ends with a digit (and,
     * when `guarded`, while the whole part is empty or more than one
     * character of the leading part is left), move that digit to the front of
     * the whole part.
     */
    static method ReclaimLeading(leading: string, whole: string, d: Digits, guarded: bool) returns (rest: string, w: string)
      requires DigitsNeverEmpty(d)
      ensures (rest, w) == Reclaimed(leading, whole, d, guarded)
    {
      rest, w := leading, whole;
      var back := BackscanDigit(rest, d);
      while back.result.Some? && (!guarded || w == "" || |rest| > 1)
        invariant back == DigitBackscan(rest, d)
        invariant Reclaimed(rest, w, d, guarded) == Reclaimed(leading, whole, d, guarded)
        decreases |rest|
      {
        rest, w := back.newText, back.result.value + w;
        back := BackscanDigit(rest, d);
      }
    }

    /**
     * The trailing loop over the fraction: while it ends with the trailing
     * pattern (and, when `guarded`, has more than one character), move that
     * tail to the front of the trailing part and cut as many characters off
     * `full`.
     */
    static method TrimTrailing(frac: string, full: string, p: Pattern, guarded: bool)
      returns (f: string, fu: string, trail: string)
      ensures (f, fu, trail) == TrailBack(frac, full, "", p, guarded)
    {
      f, fu, trail := frac, full, "";
      var back := Backscan(f, p);
      while back.result.Some? && (!guarded || |f| > 1)
        invariant back == BackscanSpec(f, p)
        invariant TrailBack(f, fu, trail, p, guarded) == TrailBack(frac, full, "", p, guarded)
        decreases |f|
      {
        f := back.newText;
        fu := DropLast(fu, |back.result.value|);
        trail := back.result.value + trail;
        back := Backscan(f, p);
      }
    }

    /**
     * The trailing text after the number: a literal scanned for as long as
     * it repeats; a regex scanned, and when that succeeds scanned again with
     * only the second result appended.
     */
    method ScanTrailing(p: Pattern, trail: string) returns (t: string)
      requires Valid()
      modifies this
      ensures Valid() && text == old(text) && insensitive == old(insensitive)
      ensures (t, pos) == LiveTrailing(text, old(pos), p, insensitive, trail)
    {
      match p {
        case Lit(s) =>
          t := ScanRepeated(s, trail);
        case Re(_) =>
          t := trail;
          var first := Scan([p]);
          if first.Some? {
            var second := Scan([p]);
            t := JsConcat(t, second);
          }
      }
    }

    /**
     * The integer digit loop: until the end of the text, one pass after
     * another, stopping at a pass that finds neither a digit nor a
     * separator.
     */
    method IntegerDigitLoop(g: IntegerGrammar, ghost step: Stepper) returns (run: IntegerRun)
      requires Valid() && IntegerWellFormed(g)
      requires Passes(text, step)
      requires forall j: nat {:trigger IntegerStep(text, j, g, insensitive)} ::
                 j <= |text| ==> step(j) == IntegerStep(text, j, g, insensitive)
      modifies this
      ensures Valid() && text == old(text) && insensitive == old(insensitive)
      ensures (run, pos) == IntegerDigits(text, old(pos), step, g.removeSeparators, IntegerRun("", "", false))
    {
      run := IntegerRun("", "", false);
      while !Eos()
        invariant Valid() && text == old(text) && insensitive == old(insensitive)
        invariant IntegerDigits(text, pos, step, g.removeSeparators, run) ==
                  IntegerDigits(text, old(pos), step, g.removeSeparators, IntegerRun("", "", false))
        decreases |text| - pos
      {
        assert step(pos) == IntegerStep(text, pos, g, insensitive);
        var found;
        run, found := IntegerPass(g, step, run);
        if !found {
          break;
        }
      }
      if Eos() {
        IntegerDigitsDone(text, pos, step, g.removeSeparators, run);
      }
    }

    /**
     * One pass of the integer digit loop: a digit goes to `matchNumber` and
     * `fullMatchNumber`, a separator to `fullMatchNumber` and, unless
     * separators are removed, to `matchNumber`.
     */
    method IntegerPass(g: IntegerGrammar, ghost step: Stepper, run: IntegerRun) returns (next: IntegerRun, found: bool)
      requires Valid() && IntegerWellFormed(g) && !Eos()
      requires Passes(text, step) && step(pos) == IntegerStep(text, pos, g, insensitive)
      modifies this
      ensures Valid() && text == old(text) && insensitive == old(insensitive)
      ensures found ==> old(pos) < pos
      ensures found ==> IntegerDigits(text, old(pos), step, g.removeSeparators, run) ==
                        IntegerDigits(text, pos, step, g.removeSeparators, next)
      ensures !found ==> pos == old(pos) && next == run
      ensures !found ==> IntegerDigits(text, pos, step, g.removeSeparators, run) == (run, pos)
    {
      ghost var from := pos;
      var digit, separator := DigitOrSeparator(g);
      next := run;
      if digit.Some? {
        next := IntegerRun(run.number + digit.value, run.full + digit.value, true);
      } else if separator.Some? {
        next := IntegerRun(if g.removeSeparators then run.number else run.number + separator.value,
                           run.full + separator.value, run.sawDigit);
      }
      found := digit.Some? || separator.Some?;
      if found {
        IntegerDigitsNext(text, from, step, g.removeSeparators, run);
      } else {
        IntegerDigitsDone(text, from, step, g.removeSeparators, run);
      }
    }

    /** `foundDigit = scanDigit()`, then `foundSeparator` only when no digit was found. */
    method DigitOrSeparator(g: IntegerGrammar) returns (digit: Option<string>, separator: Option<string>)
      requires Valid() && IntegerWellFormed(g)
      modifies this
      ensures Valid() && text == old(text) && insensitive == old(insensitive)
      ensures var s := IntegerStep(text, old(pos), g, insensitive);
        (s.Digit? ==> digit == Some(s.m) && separator.None?) &&
        (s.Separator? ==> digit.None? && separator == Some(s.m)) &&
        (s.Nothing? ==> digit.None? && separator.None?) &&
        pos == old(pos) + (if s.Nothing? then 0 else |s.m|)
    {
      digit := ScanDigit(g.digits);
      separator := None;
      if digit.None? {
        separator := ScanOptional(g.separator);
      }
    }

    /**
     * What `checkInteger` and `scanInteger` do on their duplicate: the head,
     * the digit loop, one digit taken back from the leading part when no
     * digit was found, then the postfix.
     */
    method IntegerParts(g: IntegerGrammar) returns (s: Option<IntegerScan>)
      requires Valid() && IntegerWellFormed(g)
      modifies this
      ensures Valid() && text == old(text) && insensitive == old(insensitive)
      ensures s == IntegerSpec(text, old(pos), g, insensitive)
      ensures s.Some? ==> pos == s.value.end
    {
      var h := NumberHead(g.sign, g.prefix, g.leading);
      ghost var step := IntegerStepper(text, g, insensitive);
      var run := IntegerDigitLoop(g, step);
      IntegerDigitsText(text, h.end, step, g.removeSeparators, IntegerRun("", "", false));
      var numberEnd := pos;
      var leading, number, full, sawDigit := h.leading, run.number, run.full, run.sawDigit;
      if !sawDigit && OrEmpty(leading) != "" {
        var back := BackscanDigit(OrEmpty(leading), g.digits);
        if back.result.Some? {
          number := back.result.value + number;
          full := back.result.value + full;
          leading := Some(back.newText);
          sawDigit := true;
        }
      }
      if !sawDigit {
        return None;
      }
      var postfix := ScanOptional(g.postfix);
      s := Some(IntegerScan(IntegerMatch(h.sign, h.prefix, leading, number, postfix), full, numberEnd, pos));
    }

    /** `checkInteger(g)`: the integer at the position, scanned on a duplicate; nothing moves. */
    method CheckInteger(g: IntegerGrammar) returns (r: Option<NumberResult<IntegerSplit>>)
      requires Valid() && IntegerWellFormed(g)
      ensures r == IntegerResult(IntegerSpec(text, pos, g, insensitive), g.split)
    {
      var dup := Duplicate();
      var s := dup.IntegerParts(g);
      r := if s.None? then None else Some(IntegerOutcome(s.value.parts, g.split));
    }

    /**
     * `scanInteger(g)`: as `checkInteger`, and on success the parts with
     * `fullMatchNumber` for the number are committed, which moves the
     * position to the end of the integer.
     */
    method ScanInteger(g: IntegerGrammar) returns (r: Option<NumberResult<IntegerSplit>>)
      requires Valid() && IntegerWellFormed(g)
      modifies this
      ensures Valid()
      ensures var s := IntegerSpec(old(text), old(pos), g, old(insensitive));
        r == IntegerResult(s, g.split) &&
        (s.None? ==> unchanged(this)) &&
        (s.Some? ==> Matched(IntegerCommitted(s.value)) && pos == s.value.end)
    {
      var dup := Duplicate();
      var s := dup.IntegerParts(g);
      assert unchanged(this);
      if s.None? {
        return None;
      }
      var committed := IntegerCommitted(s.value);
      assert pos + |committed| == s.value.end <= |text| by {
        IntegerCommitsConsumed(text, pos, g, insensitive);
      }
      UpdateMatch(committed);
      r := Some(IntegerOutcome(s.value.parts, g.split));
    }

    /**
     * The decimal digit loop: until the end of the text, one pass after
     * another, stopping at a pass that finds no digit, separator or radix.
     */
    method DecimalDigitLoop(g: DecimalGrammar, flavour: Flavour, ghost step: Stepper) returns (run: DecimalRun)
      requires Valid() && DecimalWellFormed(g)
      requires Passes(text, step)
      requires forall j: nat {:trigger DecimalStep(text, j, g, insensitive)} ::
                 j <= |text| ==> step(j) == DecimalStep(text, j, g, insensitive)
      modifies this
      ensures Valid() && text == old(text) && insensitive == old(insensitive)
      ensures (run, pos) == DecimalDigits(text, old(pos), step, g.removeSeparators, flavour,
                                          DecimalRun("", "", None, "", false, false))
    {
      run := DecimalRun("", "", None, "", false, false);
      while !Eos()
        invariant Valid() && text == old(text) && insensitive == old(insensitive)
        invariant DecimalDigits(text, pos, step, g.removeSeparators, flavour, run) ==
                  DecimalDigits(text, old(pos), step, g.removeSeparators, flavour, DecimalRun("", "", None, "", false, false))
        decreases |text| - pos
      {
        assert step(pos) == DecimalStep(text, pos, g, insensitive);
        var found;
        run, found := DecimalPass(g, flavour, step, run);
        if !found {
          break;
        }
      }
      if Eos() {
        DecimalDigitsDone(text, pos, step, g.removeSeparators, flavour, run);
      }
    }

    /**
     * One pass of the decimal digit loop: a digit goes to the whole part, or
     * past the radix to the fraction; a kept separator goes to the fraction
     * past the radix, and before it to the whole part (`scanDecimal`) or, as
     * the null digit, to the fraction (`checkDecimal`); a radix is recorded.
     */
    method DecimalPass(g: DecimalGrammar, flavour: Flavour, ghost step: Stepper, run: DecimalRun)
      returns (next: DecimalRun, found: bool)
      requires Valid() && DecimalWellFormed(g) && !Eos()
      requires Passes(text, step) && step(pos) == DecimalStep(text, pos, g, insensitive)
      modifies this
      ensures Valid() && text == old(text) && insensitive == old(insensitive)
      ensures found ==> old(pos) < pos
      ensures found ==> DecimalDigits(text, old(pos), step, g.removeSeparators, flavour, run) ==
                        DecimalDigits(text, pos, step, g.removeSeparators, flavour, next)
      ensures !found ==> pos == old(pos) && next == run
      ensures !found ==> DecimalDigits(text, pos, step, g.removeSeparators, flavour, run) == (run, pos)
    {
      ghost var from := pos;
      var digit, separator, radix := DigitSeparatorOrRadix(g);
      next := run;
      if digit.Some? {
        if run.pastRadix {
          next := next.(fractional := run.fractional + digit.value);
        } else {
          next := next.(whole := run.whole + digit.value);
        }
        next := next.(sawDigit := true, full := run.full + digit.value);
      } else if separator.Some? && !g.removeSeparators {
        if run.pastRadix {
          next := next.(fractional := run.fractional + separator.value);
        } else if flavour.Checking? {
          next := next.(fractional := JsConcat(run.fractional, digit));
        } else {
          next := next.(whole := run.whole + separator.value);
        }
        next := next.(full := run.full + separator.value);
      } else if radix.Some? && radix.value != "" {
        next := next.(radix := radix, pastRadix := true, full := run.full + radix.value);
      }
      found := digit.Some? || separator.Some? || radix.Some?;
      if found {
        DecimalDigitsNext(text, from, step, g.removeSeparators, flavour, run);
      } else {
        DecimalDigitsDone(text, from, step, g.removeSeparators, flavour, run);
      }
    }

    /** `foundDigit`, then `foundSeparator` only when no digit, then `foundRadix` only when neither was found. */
    method DigitSeparatorOrRadix(g: DecimalGrammar) returns (digit: Option<string>, separator: Option<string>,
                                                            radix: Option<string>)
      requires Valid() && DecimalWellFormed(g)
      modifies this
      ensures Valid() && text == old(text) && insensitive == old(insensitive)
      ensures var s := DecimalStep(text, old(pos), g, insensitive);
        (s.Digit? ==> digit == Some(s.m) && separator.None? && radix.None?) &&
        (s.Separator? ==> digit.None? && separator == Some(s.m) && radix.None?) &&
        (s.Radix? ==> digit.None? && separator.None? && radix == Some(s.m)) &&
        (s.Nothing? ==> digit.None? && separator.None? && radix.None?) &&
        pos == old(pos) + (if s.Nothing? then 0 else |s.m|)
    {
      digit := ScanDigit(g.digits);
      separator, radix := None, None;
      if digit.None? {
        separator := ScanOptional(g.separator);
      }
      if digit.None? && separator.None? {
        radix := ScanOptional(Some(g.radix));
      }
    }

    /**
     * After the decimal digits: the trailing pattern taken off the end of the
     * fraction and scanned after the number, then the postfix.
     */
    method DecimalTailParts(g: DecimalGrammar, flavour: Flavour, run: DecimalRun) returns (t: DecimalTail)
      requires Valid()
      modifies this
      ensures Valid() && text == old(text) && insensitive == old(insensitive)
      ensures t == TailAt(text, run, old(pos), g, insensitive, flavour) && pos == t.end
    {
      var fractional, full, trailing := run.fractional, run.full, None;
      if g.trailing.Some? {
        var f, fu, trail := TrimTrailing(run.fractional, run.full, g.trailing.value, flavour.Scanning?);
        var live := ScanTrailing(g.trailing.value, trail);
        fractional, full, trailing := f, fu, Some(live);
      }
      var postfix := ScanOptional(g.postfix);
      t := DecimalTail(fractional, full, trailing, postfix, pos);
    }

    /**
     * What `checkDecimal` and `scanDecimal` do on their duplicate: the head,
     * the digit loop, no number without a digit, the digits of the leading
     * part given back to an empty whole part, then the trailing part and the
     * postfix.
     */
    method DecimalParts(g: DecimalGrammar, flavour: Flavour) returns (s: Option<DecimalScan>)
      requires Valid() && DecimalWellFormed(g)
      modifies this
      ensures Valid() && text == old(text) && insensitive == old(insensitive)
      ensures s == DecimalSpec(text, old(pos), g, insensitive, flavour)
      ensures s.Some? ==> pos == s.value.end
    {
      var h := NumberHead(g.sign, g.prefix, g.leading);
      ghost var step := DecimalStepper(text, g, insensitive);
      var run := DecimalDigitLoop(g, flavour, step);
      DecimalDigitsText(text, h.end, step, g.removeSeparators, flavour, DecimalRun("", "", None, "", false, false));
      var numberEnd := pos;
      if !run.sawDigit {
        return None;
      }
      var leading, whole, reclaimed := h.leading, run.whole, "";
      if run.whole == "" && OrEmpty(h.leading) != "" {
        var rest, w := ReclaimLeading(OrEmpty(h.leading), "", g.digits, flavour.Scanning?);
        leading, whole, reclaimed := Some(rest), w, w;
      }
      var t := DecimalTailParts(g, flavour, run);
      s := Some(DecimalScan(DecimalMatch(h.sign, h.prefix, leading, whole, run.radix, t.fractional, t.trailing, t.postfix),
                            t.full, reclaimed, numberEnd, t.end));
    }

    /** `checkDecimal(g)`: the decimal at the position, scanned on a duplicate; nothing moves. */
    method CheckDecimal(g: DecimalGrammar) returns (r: Option<NumberResult<DecimalSplit>>)
      requires Valid() && DecimalWellFormed(g)
      ensures r == DecimalResult(DecimalSpec(text, pos, g, insensitive, Checking), g.split)
    {
      var dup := Duplicate();
      var s := dup.DecimalParts(g, Checking);
      r := if s.None? then None else Some(DecimalOutcome(s.value.parts, g.split));
    }

    /**
     * `scanDecimal(g)`: as `checkDecimal` but with the guards of the reclaim
     * and the trailing loop, and on success the parts with `fullMatchNumber`
     * for the number are committed. The digits the reclaim took are in
     * neither, so the position then stops short of the end of the number by
     * as many characters (`NumberScan.DecimalCommitShortfall`).
     */
    method ScanDecimal(g: DecimalGrammar) returns (r: Option<NumberResult<DecimalSplit>>)
      requires Valid() && DecimalWellFormed(g)
      modifies this
      ensures Valid()
      ensures var s := DecimalSpec(old(text), old(pos), g, old(insensitive), Scanning);
        r == DecimalResult(s, g.split) &&
        (s.None? ==> unchanged(this)) &&
        (s.Some? ==> Matched(DecimalCommitted(s.value)))
    {
      var dup := Duplicate();
      var s := dup.DecimalParts(g, Scanning);
      assert unchanged(this);
      if s.None? {
        return None;
      }
      UpdateMatch(DecimalCommitted(s.value));
      r := Some(DecimalOutcome(s.value.parts, g.split));
    }
  }
}
