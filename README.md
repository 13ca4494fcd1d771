# Y-Scanner core in Dafny

This project models `YScanner`, the stateful lexical scanner of the Y-Scanner library
(`src/index.ts`, class `YScanner`). The scanner holds a text, a cursor position, the previous
position, the latest match, one saved snapshot for undoing the last step (`lastState`), and a
case-insensitive flag. Every composite scan runs on a `duplicate()` and commits only on
success, through one `loadPointer` or `updateMatch` call.

The model is split into these modules:

- `Patterns` (`patterns.dfy`): the matching primitives.
  - Literal matching against the unscanned remainder, with an ASCII case fold.
  - The regular-expression engine as an abstract anchored matcher: a match is a prefix of the text it was applied to.
  - The first-match-wins alternation used by `check`, `scan` and `skip`.
- `Reverse` (`reverse.dfy`): what the static `backscan` returns, in closed form, for a literal and for a regex.
- `Delimiters` (`delimiters.dfy`): the `scanDelimited` grammar, and how missing options are filled in.
  - At the top level they come from fixed defaults.
  - For an inner entry and for an `autoNest` grammar they come from the enclosing grammar.
  - `autoNest` pointing back at itself is the tag `SelfNest`, not a cyclic object.
- `Numeric` (`numeric.dfy`): the grammars of the four number scanners and the shape of their results.
  - Empty split parts are reported as `null`.
  - The reclaim of digits from the leading part.
  - The trimming of trailing text off the fraction.
- `NumberScan` (`number_scan.dfy`): specification functions for the number scanners.
  - The functions say what `checkInteger`, `scanInteger`, `checkDecimal` and `scanDecimal` compute: the head (sign, prefix, leading part), the digit loop, the reclaim, the trailing part and the postfix.
  - The lemmas relate the committed text to the consumed text.
  - Worked examples ("0.5" and "1,5" with the default decimal grammar) show the quirks below.
- `Scanner` (`scanner.dfy`): `class YScanner` itself.
  - Its fields are the scanner's fields.
  - Its methods change them under `modifies this`, with the source's loops and their invariants.
  - Each loop-carrying method is proved against the specification functions above.

The number scanners keep the following behaviour of the code as written:

- `checkDecimal` appends the null `foundDigit` in the whole-part separator branch. The fraction then reads "null".
- A regex `trailing` pattern is scanned twice, and only the second result is appended.
- The digits that `scanDecimal` takes back from the leading part are not added to `fullMatchNumber`. So the committed text, and the move, can be shorter than what the duplicate consumed.
- With `removeSeparators` (the default), `scanDecimal` leaves separators out of `fullMatchNumber` too. On "1,5" it consumes three characters, commits "15" and moves the position by two.
- `checkDecimal` lacks the length guards that `scanDecimal` has on both backward loops.
- `scanUntil` with `includePattern` and no terminator appends a stale `lastMatch`.

Where the library's documentation and the code disagree, the model follows the code:

- `scanDelimited` defaults `noEndFail` to `true`, although the doc comment at `src/index.ts:567` says `false`.
- `prepend` without reset moves the position through `movePosition`. `lastPos` therefore becomes the old position; it is not shifted by the prepended length.
- The documented "failures are signalled by null, never by an exception" does not hold for the decimal reclaim with string digits (see Findings).

## Model

| member | source | states |
|---|---|---|
| Scanner.YScanner.constructor | src/index.ts:178-180 | a new scanner has the given text, position 0, no match, the zero snapshot and case-sensitive matching |
| Scanner.YScanner.ScannedText | src/index.ts:192-194 | the scanned text is the prefix of the text whose length is the position |
| Scanner.YScanner.UnscannedText | src/index.ts:185-187 | scanned text followed by unscanned text is the whole text |
| Scanner.Clamp | src/index.ts:240-247 | a requested position is pulled into `[0, |text|]`, unchanged when already inside |
| Scanner.StopIndex | src/index.ts:758-766 | the first index from the position at which some terminator matches non-empty, with none before it; the text length when there is none |
| Scanner.YScanner.Eos | src/index.ts:519-521 | the end of the text is reached exactly when nothing is left to scan |
| Scanner.YScanner.Peek | src/index.ts:285-287 | `peek(n)` is a prefix of the unscanned text, of length `n` clamped to what is left (negative `n` counted from the end as `slice` does), and reads without changing anything |
| Scanner.YScanner.CheckString | src/index.ts:378-388 | `checkString(s)` succeeds exactly when the non-empty literal, folded when insensitive, occurs at the position; the result is the text's own characters there; the empty literal never matches |
| Scanner.YScanner.LoadPointer | src/index.ts:219-225 | the pointer becomes the given snapshot and `lastState` the old pointer; text and flag are unchanged |
| Scanner.YScanner.MovePosition | src/index.ts:235-251 | a zero move changes nothing; any other move clamps the position into `[0, |text|]`, sets `lastPos` to the old position and `lastState` to the old pointer, and keeps the match |
| Scanner.YScanner.SetPosition | src/index.ts:261-273 | the position becomes `n` clamped into `[0, |text|]`, with `lastPos` and `lastState` recording the old state |
| Scanner.YScanner.UpdateMatch | src/index.ts:332-335 | the match is recorded and the position moves by its length (clamped; an empty match does not move), saving the old state |
| Scanner.YScanner.Grab | src/index.ts:299-305 | `grab(n)` consumes and records exactly what `peek(n)` shows |
| Scanner.YScanner.Reset | src/index.ts:310-320 | every field but the text returns to its constructor value, the flag included |
| Scanner.YScanner.Unscan | src/index.ts:341-348 | the pointer and `lastState` are swapped, so a second `unscan` restores both; text and flag are unchanged |
| Scanner.YScanner.Duplicate | src/index.ts:358-368 | the copy is a fresh object with the same text, pointer, snapshot and flag |
| Scanner.YScanner.Check | src/index.ts:465-480 | `check(...patterns)` returns the match of the first pattern, in argument order, that matches the remainder, and changes nothing |
| Scanner.YScanner.Scan | src/index.ts:489-497 | `scan` returns what `check` returns; it commits through `updateMatch` only a non-empty match, and otherwise leaves the scanner unchanged |
| Scanner.YScanner.ScanString | src/index.ts:397-405 | `scanString(s)` succeeds exactly when the literal occurs at the position, then moves past it and records it; otherwise nothing changes |
| Scanner.YScanner.Skip | src/index.ts:509-517 | `skip` returns the length of the first match, moves by it and keeps `lastMatch`; a zero-length result changes nothing |
| Scanner.YScanner.Terminate | src/index.ts:533-539 | the position reaches the end, the old state is saved, and the match is cleared only when asked |
| Scanner.YScanner.Append | src/index.ts:1816-1818 | only the text changes, by the appended suffix; the scanned text is the same |
| Scanner.YScanner.Prepend | src/index.ts:1835-1848 | with reset the state is the constructor's; without reset the unscanned text is unchanged (the same character stays under the cursor), a non-empty prefix moves the position by its length, and an empty prefix leaves position, `lastPos` and the snapshot as they were |
| Scanner.YScanner.ScanDelimited | src/index.ts:594-723 | fails without change when `start` does not occur at the position; on success the scanner has consumed the start delimiter, the body and, when closed, an end delimiter, and an unclosed text is accepted only with `noEndFail` off and at the end of the text; the old position goes to `lastPos`, `lastMatch` is start + body + end, and the result is that text or the body alone by `keepDelimiters`; for a grammar without inner grammars it fails exactly when `DelimitedSpec` finds no start or finds an unclosed text under `noEndFail`, and otherwise its body, closedness and final position are those of `DelimitedSpec`; with no escape either, the match is exactly the consumed text and the body holds no end delimiter |
| Scanner.YScanner.DelimitedParts | src/index.ts:595-707 | the opener is the start literal exactly when it occurs at the position; the body runs from after it to the closing end delimiter, or to the end of the text when none closes it; without inner grammars the body is always produced and agrees with `DelimitedSpec` |
| Scanner.YScanner.DelimitedBody | src/index.ts:624-705 | the delimited-text loop: a closing end delimiter occurs right before where it stops; without one it stops at the end of the text; without inner grammars it always produces a body, and body, closedness and stop are `BodyFrom` of the text; with no escape either the body is the text up to the first end delimiter |
| Scanner.YScanner.DelimitedStep | src/index.ts:624-703 | one pass of that loop: an escaped character is grabbed as it is; a closer is an end delimiter at the position and is consumed; any other piece consumes at least one character; without an escape nothing is marked escaped; without inner grammars the pass is exactly one unrolling of `BodyFrom` |
| Scanner.YScanner.UnescapedStep | src/index.ts:631-703 | an unescaped pass: the end delimiter, when it occurs at the position, closes the body; otherwise the rest of the pass; without inner grammars it is one unrolling of `BodyFrom` |
| Scanner.YScanner.EscapeOrNested | src/index.ts:640-703 | once no end delimiter matched: an escape literal is consumed and marks the next character escaped, adding nothing to the body; otherwise a nested text or one character; without inner grammars it is one unrolling of `BodyFrom` |
| Scanner.YScanner.NestedOrChar | src/index.ts:649-703 | an inner delimited text when an inner start matches, else one grabbed character; a piece always advances the position, and without inner grammars it is exactly the next character |
| Scanner.YScanner.NestedText | src/index.ts:649-697 | an inner delimited text scanned recursively after an inner start matched, with the entry chosen by the first matching start (see Findings); on success the position has advanced (see Left out) |
| Scanner.YScanner.ScanUntil | src/index.ts:743-788 | with `failIfNone` and no terminator ahead: null and no change; otherwise the text up to the first index where a terminator matches non-empty, followed by the terminator's match when included; when included and no terminator matches, the stale last match is appended: the last grabbed character, or the previous match (spelled "null" when absent) when nothing was left |
| Scanner.YScanner.AdvanceUntil | src/index.ts:753-766 | the `scanUntil` loop stops at the first index where some pattern matches non-empty, having collected the text before it; the last match is then the terminator's match, or the last grabbed character |
| Scanner.YScanner.UntilStep | src/index.ts:759-765 | one pass: a terminator is found exactly when a pattern matches non-empty at the position; otherwise one character is grabbed |
| Scanner.YScanner.Backscan | src/index.ts:1862-1922 | `backscan` returns what `Reverse.BackscanSpec` describes |
| Scanner.YScanner.BackscanLiteralTails | src/index.ts:1886-1899 | the offset loop for a literal cuts off the pattern exactly when the text ends with it and it is shorter than the text |
| Scanner.YScanner.BackscanRegexTails | src/index.ts:1901-1919 | the offset loop for a regex cuts off the shortest proper tail that the regex matches at its start |
| Reverse.BackscanLiteral | src/index.ts:1870-1899 | `newText + (result ?? '')` is the text; a result equals the pattern, is non-empty, ends the text, and is shorter than a text of two or more characters; a miss returns the text unchanged; the empty text always misses |
| Reverse.BackscanRegex | src/index.ts:1875-1919 | a miss returns the text unchanged; for texts other than one character, new text + result is the text; a regex that never matches empty yields a non-empty tail |
| Reverse.ShortestSuffix | src/index.ts:1907-1918 | the shortest proper tail length the regex matches, with no shorter one matching |
| Reverse.BackscanSpec | src/index.ts:1862-1922 | a miss returns the text unchanged and a hit shortens it; the empty text always misses; for a pattern that cannot match empty, the result is a non-empty tail and new text + result is the text |
| Patterns.MatchLiteral | src/index.ts:378-388 | the literal matches exactly when it is non-empty and, folded when insensitive, a prefix of the remainder; the match is the remainder's own characters |
| Patterns.MatchLiteralSensitive | src/index.ts:378-388 | with case-sensitive matching a literal matches exactly when it is a non-empty prefix, and returns itself |
| Patterns.MatchLiteralInsensitiveWidens | src/index.ts:378-388 | case-insensitive matching accepts whatever case-sensitive matching accepts, with the same text |
| Patterns.MatchLiteralAt | src/index.ts:378-388 | `checkString` at an index succeeds exactly when the literal occurs there |
| Patterns.FirstIndex | src/index.ts:465-480 | the index of the first pattern in argument order that matches, with every earlier one failing |
| Patterns.FirstMatch | src/index.ts:465-480 | the alternation succeeds exactly when some pattern matches, and its match is a prefix of the remainder |
| Patterns.FirstIndexUnique | src/index.ts:465-480 | first-match-wins: the first matching index is the unique matching index with no earlier match |
| Patterns.FirstMatchNonEmpty | src/index.ts:489-497 | when no pattern can match empty, neither can the alternation |
| Patterns.LookupByMatchedStart | src/index.ts:649-658 | with case-sensitive matching, finding the inner grammar by the start text that matched gives the first-matching index |
| Patterns.FindStart | src/index.ts:653-655 | `find` by start: the first entry whose start is identical to the text, or none when no entry has it |
| Patterns.FindByMatchedStart | src/index.ts:649-658 | the lookup as written: the entry found has a start identical to the matched text, and none is found exactly when no start is identical to it |
| Patterns.FoldedStartNotFound | src/index.ts:649-661 | insensitive start "b" on "Bxe": the start matches, but the lookup finds no entry |
| Patterns.FoldedStartFoundLater | src/index.ts:649-658 | insensitive starts "b", "B" on "Bx": the first entry matches, but the lookup returns the second |
| Delimiters.FromOptions | src/index.ts:576-593 | top-level defaults field by field: `"` for each missing delimiter, `\` escape when missing and none when set to null, delimiters kept only when `keepDelimiters` is true, no inner grammars when missing, `noEndFail` true when missing, no auto-nesting when missing |
| Delimiters.ResolveInner | src/index.ts:653-665 | an inner entry keeps its delimiters, takes the outer escape when its own is missing or null, keeps its inner list or none, keeps delimiters unless it says otherwise, keeps its own `autoNest` or none, and inherits `noEndFail` when missing |
| Delimiters.Materialize | src/index.ts:607-615 | field by field, an `autoNest` grammar keeps what it sets and otherwise takes the outer grammar's delimiters, inner list and flags, and the outer END delimiter as its escape; it nests inside itself when its own `autoNest` is missing |
| Delimiters.Entries | src/index.ts:616-620 | the inner grammars tried, in order: each inner entry completed by `ResolveInner`, then the `autoNest` grammar pushed last (the grammar itself, or its completion by `Materialize`) |
| Delimiters.BodyFrom | src/index.ts:624-705 | the body loop for a grammar without inner grammars, as a function of the text: it stops after an end delimiter (closed) or at the end of the text (unclosed), never before where it started |
| Delimiters.BodyFromPass | src/index.ts:624-645 | one unrolling of that loop: an escaped character is taken as it is, an end delimiter closes, an escape adds nothing and escapes the next character, any other character is appended |
| Delimiters.DelimitedSpec | src/index.ts:594-723 | `scanDelimited` without inner grammars: present exactly when the start delimiter occurs, and then the body runs from after it |
| Delimiters.PlainBody | src/index.ts:624-705 | with no escape and no inner grammar, the body is the text up to the first end delimiter (or the end of the text), and no end delimiter occurs inside it |
| Delimiters.DefaultQuoted | src/index.ts:576-593 | with the default grammar, `"abc"` gives the body `abc`, closed, after five characters |
| Delimiters.DefaultEscapedQuote | src/index.ts:624-645 | with the default grammar, an escaped quote inside `"a\"b"` is part of the body `a"b` |
| Delimiters.DefaultUnclosed | src/index.ts:705-714 | with the default grammar, `"open` without a closing quote runs to the end of the text, unclosed |
| Numeric.DigitPatterns | src/index.ts:905-908 | string digits give one literal pattern per character, in order; a regex is tried alone |
| Numeric.DefaultsWellFormed | src/index.ts:1567-1601 | the default grammars' digit, separator and radix patterns cannot match empty |
| Numeric.NonEmpty | src/index.ts:974-980 | an empty part is reported as null, and the text it stands for is unchanged |
| Numeric.IntegerOutcome | src/index.ts:973-990 | split results carry the number and report no empty part |
| Numeric.DecimalOutcome | src/index.ts:1473-1497 | split results report no empty part, and their number is whole + radix + fraction |
| Numeric.IntegerFlatIsJoinedSplit | src/index.ts:973-990 | the flat integer result is the concatenation of the split parts |
| Numeric.DecimalFlatIsJoinedSplit | src/index.ts:1473-1497 | the flat decimal result is the concatenation of the split parts |
| Numeric.IntegerFlatConcatenates | src/index.ts:983-989 | the flat integer result is sign + prefix + leading + number + postfix |
| Numeric.DecimalFlatConcatenates | src/index.ts:1487-1496 | the flat decimal result is sign + prefix + leading + whole + radix + fraction + trailing + postfix |
| Numeric.FindDigit | src/index.ts:941-943 | a digit character is found exactly when the text ends with one of them; it is cut off the end |
| Numeric.DigitBackscan | src/index.ts:939-959 | a digit taken back from the end of the leading part leaves the text in front of it; a miss leaves the text |
| Numeric.Reclaimed | src/index.ts:1702-1736 | the decimal reclaim moves digits from the end of the leading part to the front of the whole part without losing text; unguarded it stops only when no digit is left at the end; guarded it may stop when one character is left |
| Numeric.TrailBack | src/index.ts:1742-1759 | trailing text is cut off the end of the fraction without losing text; the guarded loop keeps at least one fraction character |
| Numeric.DropLast | src/index.ts:1754 | `slice(0, -n)`: a prefix, `n` characters shorter, or empty when `n` is not in range |
| Numeric.ReclaimStepAsWritten | src/index.ts:1405-1420 | one pass of the string-digit reclaim loop as written; when it continues, no text is lost |
| Numeric.ReclaimTestNeverFails | src/index.ts:1407-1411 | the loop test `backMatch?.result !== null` passes even when `find` found no digit |
| Numeric.CheckDecimalReclaimThrows | src/index.ts:1405-1420 | `checkDecimal` with string digits reclaims the last digit, then throws |
| Numeric.ScanDecimalReclaimThrows | src/index.ts:1703-1720 | `scanDecimal` with string digits throws when the leading part does not end with a digit |
| NumberScan.ScanAt | src/index.ts:489-497 | a scan from an index yields the text's own characters there |
| NumberScan.RepeatLiteral | src/index.ts:895-897 | `while (scan(s))` stops at the first index after back-to-back occurrences where the literal does not occur |
| NumberScan.ScanLiteral | src/index.ts:895-897 | one `scan(s)` of a literal matches exactly when the literal occurs, and the repetition then continues after it |
| NumberScan.LeadingAt | src/index.ts:891-903 | the leading part is the text there; for a literal it runs up to where the literal no longer occurs |
| NumberScan.HeadAt | src/index.ts:883-903 | sign, prefix and leading part together are exactly the text consumed |
| NumberScan.IntegerStep | src/index.ts:916-931 | one pass takes a digit, else a separator, never both; it consumes exactly the matched text |
| NumberScan.IntegerUpdate | src/index.ts:1127-1138 | after a pass the run has seen a digit exactly when it had before or the pass found one |
| NumberScan.IntegerDigits | src/index.ts:1122-1143 | the integer digit loop ends at the end of the text or where neither a digit nor a separator follows |
| NumberScan.IntegerDigitsText | src/index.ts:1122-1143 | `fullMatchNumber` gains exactly the consumed text, and so does the number when separators are kept |
| NumberScan.IntegerSpec | src/index.ts:1080-1183 | a found integer has a non-empty number within the text; with separators kept, the number is `fullMatchNumber` |
| NumberScan.IntegerFinish | src/index.ts:1150-1183 | null exactly when no digit was seen and none can be taken back from the leading part; the reclaimed digit moves from leading to number without losing text; the postfix is the text after the number |
| NumberScan.IntegerCommitsConsumed | src/index.ts:1185-1192 | `scanInteger` commits exactly the text its duplicate consumed, separators and the reclaimed digit included |
| NumberScan.IntegerFlatIsConsumed | src/index.ts:973-990 | with separators kept, the flat integer result is exactly the consumed text |
| NumberScan.IntegerStopsAtNonDigit | src/index.ts:916-932 | after the number, neither a digit nor a separator follows |
| NumberScan.DecimalStep | src/index.ts:1356-1362 | one pass takes a digit, else a separator, else a radix, each only when the earlier ones fail |
| NumberScan.DecimalUpdate | src/index.ts:1656-1683 | a pass keeps the run well-shaped: a radix is recorded with the past-radix flag, and a digit is seen only in the whole part or past the radix |
| NumberScan.DecimalDigits | src/index.ts:1648-1692 | the decimal digit loop ends at the end of the text or where no digit, separator or radix follows |
| NumberScan.DecimalDigitsText | src/index.ts:1648-1692 | with separators kept, `fullMatchNumber` gains exactly the consumed text; the run stays well-shaped |
| NumberScan.LiveTrailing | src/index.ts:1763-1773 | a literal trailing pattern appends exactly the text it repeats over; a regex that does not match changes nothing |
| NumberScan.TrailingRegexSpellsNull | src/index.ts:1769-1772 | a trailing regex that matches once consumes its match but appends "null" |
| NumberScan.DecimalSpec | src/index.ts:1603-1780 | a found decimal lies within the text and has a non-empty whole, radix or fraction |
| NumberScan.TailAt | src/index.ts:1738-1780 | a trailing part is present exactly when a trailing pattern is given; without one the fraction is kept and the postfix is the text after the number |
| NumberScan.DecimalFinish | src/index.ts:1694-1780 | null exactly when no digit was seen (before any reclaim); reclaimed digits come off the leading part into an empty whole part |
| NumberScan.DecimalStopsAtNonDigit | src/index.ts:1648-1692 | after the number, no digit, separator or radix follows |
| NumberScan.DecimalCommitsAllButReclaimed | src/index.ts:1782-1790 | with separators kept and no trailing pattern, sign + prefix + leading + reclaimed digits + `fullMatchNumber` + postfix are exactly the consumed text; with nothing reclaimed the commit is the consumed text |
| NumberScan.DecimalCommitShortfall | src/index.ts:1782-1790 | with separators kept and no trailing pattern, the committed text falls short of the consumed text by exactly the reclaimed digits |
| NumberScan.ScanDecimalCommitsWithoutReclaimedZero | src/index.ts:1702-1790 | `scanDecimal` on "0.5" reports whole "0" and fraction "5" and consumes three characters, but commits only ".5" |
| NumberScan.OneCommaFive | src/index.ts:1603-1780 | on "1,5" with separators kept, both number scanners consume all three characters; `checkDecimal` builds whole "15" and fraction "null", `scanDecimal` whole "1,5" and an empty fraction |
| NumberScan.CheckDecimalSpellsNull | src/index.ts:1374-1380 | `checkDecimal` on "1,5" with separators kept returns "15null" |
| NumberScan.ScanDecimalKeepsSeparator | src/index.ts:1668-1677 | `scanDecimal` on "1,5" with separators kept returns "1,5" |
| NumberScan.OneCommaFiveDigitsRemoved | src/index.ts:1668-1677 | with separators removed, the digit loop over "1,5" drops the separator from both the whole part and `fullMatchNumber` |
| NumberScan.ScanDecimalDropsSeparator | src/index.ts:1577-1790 | `scanDecimal()` on "1,5" with the default grammar consumes three characters but commits "15", one character short |
| Scanner.YScanner.ScanOptional | src/index.ts:1608-1614 | `p != null ? scan(p) : null` from the position, moving past the match |
| Scanner.YScanner.ScanDigit | src/index.ts:1630-1633 | `scan(...digits)` or `scan(digits)` from the position, moving past the match |
| Scanner.YScanner.ScanRepeated | src/index.ts:1620-1622 | the literal loop ends where `RepeatLiteral` says and appends exactly the text passed over |
| Scanner.YScanner.ScanLiteralOnce | src/index.ts:1620 | one `scan(s)` of a literal moves past it exactly when it occurs, recording it as the match |
| Scanner.YScanner.ScanLeading | src/index.ts:1616-1628 | the leading part as `LeadingAt` describes it |
| Scanner.YScanner.NumberHead | src/index.ts:1603-1628 | sign, prefix and leading part as `HeadAt` describes them |
| Scanner.YScanner.FindLeadingDigit | src/index.ts:941-943 | the map-and-find over digit characters computes `FindDigit` |
| Scanner.YScanner.BackscanDigit | src/index.ts:939-959 | the backscan of the leading part by the digits computes `DigitBackscan` |
| Scanner.YScanner.ReclaimLeading | src/index.ts:1702-1736 | the reclaim loop computes `Reclaimed`, guarded for `scanDecimal` |
| Scanner.YScanner.TrimTrailing | src/index.ts:1746-1759 | the backward trailing loop computes `TrailBack`, guarded for `scanDecimal` |
| Scanner.YScanner.ScanTrailing | src/index.ts:1763-1773 | the forward trailing scan computes `LiveTrailing`, the regex scanned twice |
| Scanner.YScanner.IntegerDigitLoop | src/index.ts:1122-1143 | the integer digit loop computes `IntegerDigits` |
| Scanner.YScanner.IntegerPass | src/index.ts:1123-1142 | one pass advances the run as `IntegerDigits` unrolls, or stops without moving |
| Scanner.YScanner.DigitOrSeparator | src/index.ts:1123-1125 | the separator is scanned only when no digit was found, and the position moves by what was found |
| Scanner.YScanner.IntegerParts | src/index.ts:1080-1183 | the duplicate's scan computes `IntegerSpec`, ending where the scan ended |
| Scanner.YScanner.CheckInteger | src/index.ts:848-991 | `checkInteger` returns `IntegerResult` of `IntegerSpec` and changes nothing |
| Scanner.YScanner.ScanInteger | src/index.ts:1050-1207 | null with no change when `IntegerSpec` finds no integer; otherwise it commits the parts with `fullMatchNumber` and ends where the duplicate ended |
| Scanner.YScanner.DecimalDigitLoop | src/index.ts:1648-1692 | the decimal digit loop computes `DecimalDigits` |
| Scanner.YScanner.DecimalPass | src/index.ts:1649-1691 | one pass advances the run as `DecimalDigits` unrolls, or stops without moving |
| Scanner.YScanner.DigitSeparatorOrRadix | src/index.ts:1649-1654 | the separator is scanned only without a digit, the radix only without either, and the position moves by what was found |
| Scanner.YScanner.DecimalTailParts | src/index.ts:1738-1780 | the trailing part and postfix as `TailAt` describes them |
| Scanner.YScanner.DecimalParts | src/index.ts:1603-1780 | the duplicate's scan computes `DecimalSpec`, ending where the scan ended |
| Scanner.YScanner.CheckDecimal | src/index.ts:1276-1498 | `checkDecimal` returns `DecimalResult` of the unguarded `DecimalSpec` and changes nothing |
| Scanner.YScanner.ScanDecimal | src/index.ts:1567-1808 | null with no change when the guarded `DecimalSpec` finds no number; otherwise it commits `DecimalCommitted`, which leaves out the reclaimed digits |

## Left out

- Regular expressions are abstract anchored matchers.
  - Not modelled: `checkRegex`/`scanRegex` source rewriting (the `(?:)` check, `^` prefixing, flag edits).
  - The regex is applied to the remainder with the scanner's case flag; inside `backscan` it is applied case-sensitively.
  - `backscan` of a one-character text uses the same anchored matcher, where the code calls an unanchored `match`.
- Case folding is ASCII only. Unicode `toLowerCase` and UTF-16 code-unit lengths are not modelled; strings are sequences of characters.
- Digit, separator and radix patterns that can match the empty string are excluded by precondition (`DecimalWellFormed`, `IntegerWellFormed`). With them, the digit loops of the code never end.
- Grammars are immutable values. The in-place completion of caller-supplied grammar objects, their aliasing, and duplicate `autoNest` entries pushed onto a shared `inner` list are not modelled.
- `deepCopy` is not part of this model. `duplicate` copies the value fields one by one.
- The decimal reclaim with string digits is modelled by its corrected stop (`Numeric.Reclaimed`). The as-written pass, which throws, is `Numeric.ReclaimStepAsWritten`.
- Scanner.YScanner.ScanDecimal: its contract states the commit, not the final position. With separators kept and no trailing pattern, the position follows from `Matched` and `NumberScan.DecimalCommitShortfall`. With separators removed it also falls short by the separators (`NumberScan.ScanDecimalDropsSeparator`); that shortfall is shown on an example, not stated for every input.
- Scanner.YScanner.NestedText: it states only that the position advances on success. The inner text's shape is not stated beyond the grammar completion it performs. It picks the entry by the first matching start (`Patterns.FirstIndex`), the corrected lookup of the Findings table.
- Scanner.YScanner.ScanDelimited: with inner grammars or `autoNest`, the body is tied to the text only through `lastMatch`; when such a scan succeeds, and what its body is, is not given by a reference function.

## Findings

| source | as written | input that shows it | evidently intended | confidence | as-written member | corrected member |
|---|---|---|---|---|---|---|
| src/index.ts:1405-1420, src/index.ts:1703-1720 | the reclaim loop over string digits tests `backMatch?.result !== null`; when `find` finds no digit, `backMatch` is `undefined`, so the test passes and the body hands `undefined` to `backscan`, which throws | `checkDecimal({ digits: '0123456789' })` on "0.5": the leading "0" is reclaimed, then the next pass throws on the empty leading part; `scanDecimal({ digits: '123456789' })` on "0.5": the leading "0" ends with no listed digit and the first pass throws | stop when no digit is found at the end of the leading part, as the regex branch does | not executed | Numeric.ReclaimStepAsWritten, Numeric.CheckDecimalReclaimThrows, Numeric.ScanDecimalReclaimThrows | Numeric.Reclaimed |
| src/index.ts:649-661 | after `scan(...innerStarts)` succeeds, the inner grammar is looked up with `inner.find(i => i.start === innerStart)`, where `innerStart` is the matched text in the case of the scanned text | on an insensitive scanner, inner `[{ start: 'b', end: 'e' }]` and the text "Bxe": "b" matches, `find` returns `undefined` and line 660 throws a TypeError; with inner starts "b" then "B" on "Bx", the first entry matched but the second is used | use the entry whose start matched, the one `scan` chose | not executed | Patterns.FindByMatchedStart, Patterns.FoldedStartNotFound, Patterns.FoldedStartFoundLater | Patterns.FirstIndex, Patterns.LookupByMatchedStart |
