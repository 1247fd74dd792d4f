/**
 * The pure helpers of the current controller: prefix stripping, the indent
 * unit, the whitespace shown in overlays, brace-depth re-indentation of a
 * suggestion, the run of blank lines below a line, and the overlays of a
 * multi-line preview. The loops of the controller are proved against the
 * functions defined here.
 */
module Layout {
  import opened Wrappers
  import opened Text
  import opened Host

  // ---------------------------------------------------------------- prefixes

  /** The longest non-empty token that is a prefix of `text`. */
  function LongestPrefixToken(text: string, tokens: seq<string>): (r: Option<string>)
    ensures r.Some? ==> r.value in tokens && r.value != [] && r.value <= text
    ensures forall u | u in tokens && u != [] && u <= text :: r.Some? && |u| <= |r.value|
  {
    if tokens == [] then None
    else
      var rest := LongestPrefixToken(text, tokens[1..]);
      assert forall u | u in tokens && u != tokens[0] :: u in tokens[1..];
      var t := tokens[0];
      if t != [] && t <= text && (rest.None? || |rest.value| < |t|) then Some(t) else rest
  }

  /** `removeLeadingTokens(text, tokens)`: the tokens are tried longest first, and the
      first non-empty one that prefixes the text is cut off. */
  function RemoveLeadingTokens(text: string, tokens: seq<string>): (r: string)
    ensures |r| <= |text| && r == text[|text| - |r|..]
    ensures r == text <==> forall u | u in tokens :: u == [] || !(u <= text)
    ensures r != text ==> text[..|text| - |r|] in tokens
    ensures forall u | u in tokens && u != [] && u <= text :: |u| <= |text| - |r|
  {
    match LongestPrefixToken(text, tokens)
    case None => text
    case Some(t) =>
      assert text[..|t|] == t;
      text[|t|..]
  }

  /** With the single token the controller passes: cut it off when it is a non-empty prefix. */
  lemma RemoveSingleToken(text: string, token: string)
    ensures RemoveLeadingTokens(text, [token]) == if token != [] && token <= text then text[|token|..] else text
  {
    var r := RemoveLeadingTokens(text, [token]);
    if token != [] && token <= text {
      assert text[..|text| - |r|] == token;
    }
  }

  /** Cutting a token that prefixes the text leaves the rest of the text. */
  lemma RemovePrefixSplits(text: string, token: string)
    requires token <= text
    ensures text == token + RemoveLeadingTokens(text, [token])
  {
    RemoveSingleToken(text, token);
    if token != [] {
      assert text == text[..|token|] + text[|token|..];
    }
  }

  /** The ghost text completes the line: when the matched text prefixes the trimmed line and
      the typed remainder `res` prefixes the first fragment, the trimmed line followed by the
      shortened fragment reads as the matched text followed by the whole fragment. */
  lemma FirstFragmentIdentity(trimmed: string, matched: string, first: string)
    requires matched <= trimmed
    requires RemoveLeadingTokens(trimmed, [matched]) <= first
    ensures trimmed + RemoveLeadingTokens(first, [RemoveLeadingTokens(trimmed, [matched])]) == matched + first
  {
    var res := RemoveLeadingTokens(trimmed, [matched]);
    var rf := RemoveLeadingTokens(first, [res]);
    RemovePrefixSplits(trimmed, matched);
    RemovePrefixSplits(first, res);
    ConcatRegroup(trimmed, matched, res, first, rf);
  }

  lemma ConcatRegroup(trimmed: string, matched: string, res: string, first: string, rf: string)
    requires trimmed == matched + res && first == res + rf
    ensures trimmed + rf == matched + first
  {
    assert trimmed + rf == matched + (res + rf);
  }

  // ---------------------------------------------------------------- indentation options

  /** `Number(editor.options.tabSize) || 2`. */
  function TabWidth(o: EditorOptions): (w: nat)
    ensures w >= 1
    ensures w == 2 <== o.tabSize.None? || o.tabSize.value == 0
    ensures o.tabSize.Some? && o.tabSize.value > 0 ==> w == o.tabSize.value
  {
    if o.tabSize.Some? && o.tabSize.value > 0 then o.tabSize.value else 2
  }

  /** `getIndentUnit(editor)`: a tab only when `insertSpaces` is exactly `false`. */
  function IndentUnit(o: EditorOptions): (u: string)
    ensures u == "\t" <==> o.insertSpaces == Some(false)
    ensures u != "\t" ==> u == Fill(' ', TabWidth(o))
  {
    if o.insertSpaces == Some(false) then "\t"
    else
      assert Fill(' ', TabWidth(o))[0] == ' ';
      Fill(' ', TabWidth(o))
  }

  // ---------------------------------------------------------------- overlay whitespace

  const NoBreakSpace: char := '\U{00A0}'

  predicate IsIndentChar(c: char)
  {
    c == ' ' || c == '\t'
  }

  /** The length of the match of `^[ \t]+` (zero when there is none). */
  function IndentLength(s: string): (k: nat)
    ensures k <= |s|
    ensures forall i | 0 <= i < k :: IsIndentChar(s[i])
    ensures k < |s| ==> !IsIndentChar(s[k])
  {
    if s != [] && IsIndentChar(s[0]) then 1 + IndentLength(s[1..]) else 0
  }

  /** `s.replace(/\t/g, " ".repeat(tabSize))`. */
  function ExpandTabs(s: string, tabSize: nat): string
  {
    if s == [] then "" else (if s[0] == '\t' then Fill(' ', tabSize) else [s[0]]) + ExpandTabs(s[1..], tabSize)
  }

  /** Expanding a run of spaces and tabs gives only spaces: one per space and `tabSize` per tab. */
  lemma {:induction false} ExpandIndent(s: string, tabSize: nat)
    requires forall i | 0 <= i < |s| :: IsIndentChar(s[i])
    ensures var r := ExpandTabs(s, tabSize);
            (forall i | 0 <= i < |r| :: r[i] == ' ')
            && |r| == multiset(s)[' '] + tabSize * multiset(s)['\t']
  {
    if s != [] {
      ExpandIndent(s[1..], tabSize);
      MultisetOfCons(s);
      var tabs := multiset(s[1..])['\t'];
      assert tabSize * (tabs + 1) == tabSize * tabs + tabSize;
      var head := if s[0] == '\t' then Fill(' ', tabSize) else [s[0]];
      assert forall i | 0 <= i < |head| :: head[i] == ' ';
    }
  }

  /** Counting spaces and tabs one character at a time. */
  lemma MultisetOfCons(s: string)
    requires s != [] && IsIndentChar(s[0])
    ensures multiset(s)[' '] == multiset(s[1..])[' '] + (if s[0] == ' ' then 1 else 0)
    ensures multiset(s)['\t'] == multiset(s[1..])['\t'] + (if s[0] == '\t' then 1 else 0)
  {
    assert s == [s[0]] + s[1..];
    assert multiset(s) == multiset{s[0]} + multiset(s[1..]);
  }

  /** `.replace(/ /g, " ")`. */
  function ReplaceSpaces(s: string): (r: string)
    ensures |r| == |s|
    ensures forall i | 0 <= i < |s| :: r[i] == if s[i] == ' ' then NoBreakSpace else s[i]
  {
    seq(|s|, i requires 0 <= i < |s| => if s[i] == ' ' then NoBreakSpace else s[i])
  }

  lemma FillUnique(s: string, c: char)
    requires forall i | 0 <= i < |s| :: s[i] == c
    ensures s == Fill(c, |s|)
  {
  }

  /** `renderDecorationWhitespace(editor, line)`: the leading run of spaces and tabs becomes a
      run of no-break spaces, one per space and `tabSize` per tab; the rest of the line is kept. */
  function RenderDecorationWhitespace(o: EditorOptions, line: string): (r: string)
    ensures var k := IndentLength(line);
            r == Fill(NoBreakSpace, multiset(line[..k])[' '] + TabWidth(o) * multiset(line[..k])['\t']) + line[k..]
  {
    var k := IndentLength(line);
    var e := ReplaceSpaces(ExpandTabs(line[..k], TabWidth(o)));
    ExpandIndent(line[..k], TabWidth(o));
    FillUnique(e, NoBreakSpace);
    e + line[k..]
  }

  /** A line without leading blanks is shown as it is. */
  lemma RenderKeepsUnindentedLine(o: EditorOptions, line: string)
    requires line == [] || !IsIndentChar(line[0])
    ensures RenderDecorationWhitespace(o, line) == line
  {
    assert IndentLength(line) == 0;
    assert line[..0] == [];
  }

  // ---------------------------------------------------------------- re-indentation

  /** The brace depth of the first fragment's successors: one if it opens a block. */
  function FirstDepth(first: string): nat
  {
    if OpensBlock(Trim(first)) then 1 else 0
  }

  /** The depth a later fragment is indented at: one less, never below zero, before a fragment that
      starts with a closing bracket. */
  function LevelOf(depth: nat, fragment: string): nat
  {
    if ClosesBlock(TrimStart(fragment)) then (if depth > 0 then depth - 1 else 0) else depth
  }

  /** The depth after a later fragment: one more after a fragment that ends with `{`.
      A blank fragment leaves the depth as it is. */
  function NextDepth(depth: nat, fragment: string): nat
  {
    var level := LevelOf(depth, fragment);
    if OpensBlock(TrimStart(fragment)) then level + 1 else level
  }

  /** `blockDepth` on entry to iteration `i`. */
  function DepthBefore(fragments: seq<string>, i: nat): nat
    requires i <= |fragments|
    decreases i
  {
    if i == 0 then 0
    else if i == 1 then FirstDepth(fragments[0])
    else NextDepth(DepthBefore(fragments, i - 1), fragments[i - 1])
  }

  /** One more fragment: the first sets the depth from its own last brace, a later one steps it. */
  lemma DepthBeforeNext(fragments: seq<string>, i: nat)
    requires i < |fragments|
    ensures DepthBefore(fragments, i + 1)
            == if i == 0 then FirstDepth(fragments[0]) else NextDepth(DepthBefore(fragments, i), fragments[i])
  {
  }

  /** A later fragment, trimmed and put behind the anchor's indent and `level` indent units. */
  function IndentLine(baseIndent: string, unit: string, depth: nat, fragment: string): string
  {
    baseIndent + Repeat(unit, LevelOf(depth, fragment)) + TrimStart(fragment)
  }

  /** Output `i` of `buildIndentedSuggestionLines` for anchor indent `baseIndent`. */
  function IndentedAt(baseIndent: string, unit: string, fragments: seq<string>, i: nat): string
    requires i < |fragments|
  {
    if i == 0 then fragments[0] else IndentLine(baseIndent, unit, DepthBefore(fragments, i), fragments[i])
  }

  /** What `buildIndentedSuggestionLines` returns for anchor indent `baseIndent`. */
  function IndentedLines(baseIndent: string, unit: string, fragments: seq<string>): (r: seq<string>)
    ensures |r| == |fragments|
  {
    seq(|fragments|, i requires 0 <= i < |fragments| => IndentedAt(baseIndent, unit, fragments, i))
  }

  /** One output per fragment; the first is kept as it is; every later one is the anchor's indent,
      then some number of indent units, then the fragment without its own leading whitespace, and a
      blank fragment becomes indentation only, at the current depth. */
  lemma IndentedLinesShape(baseIndent: string, unit: string, fragments: seq<string>, i: nat)
    requires i < |fragments|
    ensures var r := IndentedLines(baseIndent, unit, fragments);
            |r| == |fragments| && (i == 0 ==> r[0] == fragments[0])
            && (i > 0 ==> exists k: nat :: r[i] == baseIndent + Repeat(unit, k) + TrimStart(fragments[i]))
            && (i > 0 && IsBlank(fragments[i]) ==> r[i] == baseIndent + Repeat(unit, DepthBefore(fragments, i)))
  {
    if i > 0 {
      var k := LevelOf(DepthBefore(fragments, i), fragments[i]);
      assert IndentedLines(baseIndent, unit, fragments)[i] == baseIndent + Repeat(unit, k) + TrimStart(fragments[i]);
      if IsBlank(fragments[i]) {
        IsBlankTrims(fragments[i]);
        assert !ClosesBlock(TrimStart(fragments[i]));
      }
    }
  }

  /** Depth moves by at most one per fragment: it drops before a closing fragment (unless already
      zero) and rises after an opening one. */
  lemma DepthSteps(fragments: seq<string>, i: nat)
    requires 1 <= i < |fragments|
    ensures var d := DepthBefore(fragments, i); var t := TrimStart(fragments[i]);
            (ClosesBlock(t) && d > 0 ==> LevelOf(d, fragments[i]) == d - 1)
            && (!ClosesBlock(t) ==> LevelOf(d, fragments[i]) == d)
            && (OpensBlock(t) <==> DepthBefore(fragments, i + 1) == LevelOf(d, fragments[i]) + 1)
  {
  }

  /** The result depends on the later fragments only through their trimmed text: the indentation a
      fragment carries in the rule table is discarded. */
  lemma {:induction false} DepthIgnoresFragmentIndent(a: seq<string>, b: seq<string>, i: nat)
    requires |a| == |b| && |a| >= 1 && a[0] == b[0]
    requires forall j | 1 <= j < |a| :: TrimStart(a[j]) == TrimStart(b[j])
    requires 1 <= i <= |a|
    ensures DepthBefore(a, i) == DepthBefore(b, i)
    decreases i
  {
    if i > 1 {
      DepthIgnoresFragmentIndent(a, b, i - 1);
      var d := DepthBefore(a, i - 1);
      assert TrimStart(a[i - 1]) == TrimStart(b[i - 1]);
      assert LevelOf(d, a[i - 1]) == LevelOf(d, b[i - 1]);
      assert DepthBefore(a, i) == NextDepth(d, a[i - 1]) == NextDepth(d, b[i - 1]) == DepthBefore(b, i);
    } else {
      assert DepthBefore(a, 1) == FirstDepth(a[0]);
    }
  }

  lemma ReindentIgnoresFragmentIndent(baseIndent: string, unit: string, a: seq<string>, b: seq<string>)
    requires |a| == |b| && |a| >= 1 && a[0] == b[0]
    requires forall j | 1 <= j < |a| :: TrimStart(a[j]) == TrimStart(b[j])
    ensures IndentedLines(baseIndent, unit, a) == IndentedLines(baseIndent, unit, b)
  {
    var ra := IndentedLines(baseIndent, unit, a);
    var rb := IndentedLines(baseIndent, unit, b);
    forall i | 0 <= i < |a|
      ensures ra[i] == rb[i]
    {
      if i > 0 {
        DepthIgnoresFragmentIndent(a, b, i);
        var d := DepthBefore(a, i);
        assert ra[i] == IndentLine(baseIndent, unit, d, a[i]);
        assert rb[i] == IndentLine(baseIndent, unit, d, b[i]);
        assert TrimStart(a[i]) == TrimStart(b[i]);
      }
    }
  }

  /** What `buildIndentedSuggestionLines` returns on the document `lines`: nothing for no fragments,
      and `None` when the anchor line does not exist (`lineAt` throws). */
  function IndentedSuggestion(lines: seq<string>, lineNumber: nat, o: EditorOptions,
                              fragments: seq<string>): Option<seq<string>>
  {
    if fragments == [] then Some([])
    else if lineNumber >= |lines| then None
    else Some(IndentedLines(LeadingSpace(lines[lineNumber]), IndentUnit(o), fragments))
  }

  // ---------------------------------------------------------------- blank lines below a line

  /** The number of blank lines starting at line `i`. */
  function BlankRunFrom(lines: seq<string>, i: nat): nat
    decreases |lines| - i
  {
    if i >= |lines| || !IsBlank(lines[i]) then 0 else 1 + BlankRunFrom(lines, i + 1)
  }

  /** One step of the run: a blank line at `i` extends the run from `i + 1`, anything else ends it. */
  lemma BlankRunFromStep(lines: seq<string>, i: nat)
    requires i < |lines|
    ensures BlankRunFrom(lines, i) == if IsBlank(lines[i]) then 1 + BlankRunFrom(lines, i + 1) else 0
  {
  }

  /** The run starting at `i` is maximal: every line in it is blank, and the line after it, if
      there is one, is not. */
  lemma {:induction false} BlankRunFromIsMaximal(lines: seq<string>, i: nat)
    ensures var n := BlankRunFrom(lines, i);
            (i + n <= |lines| || n == 0)
            && (forall k | i <= k < i + n :: IsBlank(lines[k]))
            && (i + n < |lines| ==> !IsBlank(lines[i + n]))
    decreases |lines| - i
  {
    if i < |lines| && IsBlank(lines[i]) {
      BlankRunFromIsMaximal(lines, i + 1);
      var n := BlankRunFrom(lines, i + 1);
      assert BlankRunFrom(lines, i) == 1 + n;
      assert forall k | i + 1 <= k < i + 1 + n :: IsBlank(lines[k]);
    } else {
      assert BlankRunFrom(lines, i) == 0;
    }
  }

  /** `countAvailableEmptyLines(doc, lineNumber)`: the maximal run of blank lines right after the line. */
  function BlankRunAfter(lines: seq<string>, lineNumber: nat): nat
  {
    BlankRunFrom(lines, lineNumber + 1)
  }

  /** The run after a line, maximal: every line in it exists and is blank, and the line after it,
      if there is one, is not. */
  lemma BlankRunAfterIsMaximal(lines: seq<string>, lineNumber: nat)
    ensures var n := BlankRunAfter(lines, lineNumber);
            (forall k | lineNumber < k <= lineNumber + n :: k < |lines| && IsBlank(lines[k]))
            && (lineNumber + n + 1 < |lines| ==> !IsBlank(lines[lineNumber + n + 1]))
  {
    BlankRunFromIsMaximal(lines, lineNumber + 1);
  }

  /** The run is at most what is left below the line. */
  lemma BlankRunAfterBound(lines: seq<string>, lineNumber: nat)
    requires lineNumber < |lines|
    ensures BlankRunAfter(lines, lineNumber) <= |lines| - lineNumber - 1
  {
    BlankRunFromIsMaximal(lines, lineNumber + 1);
  }

  /** Blank lines put in front of a run of blanks lengthen it by their number. */
  lemma {:induction false} BlankRunFromInsert(before: seq<string>, blanks: seq<string>, after: seq<string>)
    requires forall k | 0 <= k < |blanks| :: IsBlank(blanks[k])
    ensures BlankRunFrom(before + blanks + after, |before|) == |blanks| + BlankRunFrom(before + after, |before|)
    decreases |blanks|
  {
    if blanks == [] {
      assert before + blanks + after == before + after;
    } else {
      var s := before + blanks + after;
      assert s[|before|] == blanks[0];
      assert s == (before + [blanks[0]]) + blanks[1..] + after;
      BlankRunFromInsert(before + [blanks[0]], blanks[1..], after);
      BlankRunFromShift(before, blanks[0], after);
    }
  }

  /** Moving the start past one more line before the run does not change the run. */
  lemma {:induction false} BlankRunFromShift(before: seq<string>, x: string, after: seq<string>)
    ensures BlankRunFrom((before + [x]) + after, |before| + 1) == BlankRunFrom(before + after, |before|)
  {
    BlankRunFromShiftAt(before, x, after, 0);
  }

  lemma {:induction false} BlankRunFromShiftAt(before: seq<string>, x: string, after: seq<string>, k: nat)
    ensures BlankRunFrom((before + [x]) + after, |before| + 1 + k) == BlankRunFrom(before + after, |before| + k)
    decreases |after| - k
  {
    var s := (before + [x]) + after;
    var t := before + after;
    if k < |after| {
      assert s[|before| + 1 + k] == after[k] == t[|before| + k];
      BlankRunFromShiftAt(before, x, after, k + 1);
      assert BlankRunFrom(s, |before| + 1 + k)
          == if IsBlank(after[k]) then 1 + BlankRunFrom(s, |before| + 1 + k + 1) else 0;
      assert BlankRunFrom(t, |before| + k)
          == if IsBlank(after[k]) then 1 + BlankRunFrom(t, |before| + k + 1) else 0;
    } else {
      assert |s| <= |before| + 1 + k && |t| <= |before| + k;
    }
  }

  // ---------------------------------------------------------------- overlays

  /** The layout decision: one overlay line when there is more than one fragment and fewer blank
      lines below than fragments after the first. */
  predicate UseSingleLine(fragmentCount: nat, available: nat)
  {
    fragmentCount > 1 && available < fragmentCount - 1
  }

  /** Multi-line mode: fragment `i` after line `lineNumber + i`, stopping at the end of the document. */
  function MultiLineOverlays(lineNumber: nat, display: seq<string>, lineCount: nat): (r: seq<Overlay>)
    ensures |r| <= |display|
    ensures |r| == |display| || lineNumber + |r| >= lineCount
    ensures forall i | 0 <= i < |r| :: r[i] == Overlay(lineNumber + i, display[i]) && lineNumber + i < lineCount
  {
    var n := if lineNumber >= lineCount then 0
             else if |display| <= lineCount - lineNumber then |display| else lineCount - lineNumber;
    seq(n, i requires 0 <= i < n => Overlay(lineNumber + i, display[i]))
  }

  // ---------------------------------------------------------------- presentation

  /** The overlay text of every suggestion line: `indentedLines.map(renderDecorationWhitespace)`. */
  function DisplayLines(o: EditorOptions, lines: seq<string>): (r: seq<string>)
    ensures |r| == |lines|
  {
    seq(|lines|, i requires 0 <= i < |lines| => RenderDecorationWhitespace(o, lines[i]))
  }

  datatype DisplayMode = Single | Multi

  /** `pendingSuggestion`: the anchor line, the text offered, the fragments to accept, the layout
      used and the key of the rule that produced it. */
  datatype Pending = Pending(line: nat, text: string, lines: seq<string>, displayMode: DisplayMode,
                             patternKey: Option<string>)

  /** What one render puts on screen and records as pending. */
  datatype Shown = Shown(decorations: seq<Overlay>, pending: Pending)

  /** The end of `showSuggestion` on a document `lines`, from the fragments, their re-indented form
      and their overlay text: `None` when the single-line layout asks for a line that does not exist. */
  function Present(lineNumber: nat, fragments: seq<string>, indented: seq<string>, display: seq<string>,
                   lines: seq<string>, patternKey: Option<string>): Option<Shown>
  {
    var single := UseSingleLine(|fragments|, BlankRunAfter(lines, lineNumber));
    if single && lineNumber >= |lines| then None
    else
      var decorations := if single then [Overlay(lineNumber, Join(display, " "))]
                         else MultiLineOverlays(lineNumber, display, |lines|);
      Some(Shown(decorations, Pending(lineNumber, Join(indented, "\n"), fragments,
                                      if single then Single else Multi, patternKey)))
  }

  /** The layout decision and what each layout shows: single-line mode exactly one overlay, on the
      anchor line, holding all display lines joined by spaces; multi-line mode display line `i` on
      line `lineNumber + i`, all of them unless the document ends first. The record keeps the raw
      fragments and the key. */
  lemma PresentLayout(lineNumber: nat, fragments: seq<string>, indented: seq<string>, display: seq<string>,
                      lines: seq<string>, patternKey: Option<string>)
    requires lineNumber < |lines|
    ensures var r := Present(lineNumber, fragments, indented, display, lines, patternKey);
            r.Some? && r.value.pending.line == lineNumber && r.value.pending.lines == fragments
            && r.value.pending.patternKey == patternKey
            && (r.value.pending.displayMode == Single <==>
                  |fragments| > 1 && BlankRunAfter(lines, lineNumber) < |fragments| - 1)
            && (r.value.pending.displayMode == Single ==>
                  r.value.decorations == [Overlay(lineNumber, Join(display, " "))])
            && (r.value.pending.displayMode == Multi ==>
                  |r.value.decorations| <= |display|
                  && (|r.value.decorations| == |display| || lineNumber + |r.value.decorations| == |lines|)
                  && forall i | 0 <= i < |r.value.decorations| ::
                       r.value.decorations[i] == Overlay(lineNumber + i, display[i]) && lineNumber + i < |lines|)
  {
    var r := Present(lineNumber, fragments, indented, display, lines, patternKey);
    if r.value.pending.displayMode == Multi {
      var m := MultiLineOverlays(lineNumber, display, |lines|);
      assert r.value.decorations == m;
      if |m| < |display| {
        assert lineNumber + |m| >= |lines|;
        if |m| > 0 {
          assert lineNumber + |m| - 1 < |lines|;
        }
      }
    }
  }

  // ---------------------------------------------------------------- acceptance text

  /** The text that replaces the anchor line on acceptance: its current text with the first
      suggestion line appended, each later one after a line break. */
  function AcceptedText(current: string, indented: seq<string>): string
  {
    current + Join(indented, "\n")
  }

  /** The anchor line replaced by the lines of `text`. */
  function ReplaceLine(lines: seq<string>, lineNumber: nat, text: string): seq<string>
    requires lineNumber < |lines|
  {
    lines[..lineNumber] + SplitLines(text) + lines[lineNumber + 1..]
  }

  /** Split back into lines, the accepted text is the anchor line extended by the first
      suggestion line, followed by the later ones. */
  lemma {:induction false} AcceptedTextLines(current: string, indented: seq<string>)
    requires IsLine(current) && indented != []
    requires forall i | 0 <= i < |indented| :: IsLine(indented[i])
    ensures SplitLines(AcceptedText(current, indented)) == [current + indented[0]] + indented[1..]
  {
    var parts := [current + indented[0]] + indented[1..];
    assert current + Join(indented, "\n") == Join(parts, "\n") by {
      if |indented| > 1 {
        assert parts[1..] == indented[1..];
      }
    }
    assert IsLine(current + indented[0]);
    assert forall i | 0 <= i < |parts| :: IsLine(parts[i]);
    SplitJoin(parts);
  }

  /** Accepting adds one document line per suggestion line after the first: the anchor line gets the
      first one appended, the later ones follow it, and every other line is kept. */
  lemma {:induction false} AcceptedDocument(lines: seq<string>, lineNumber: nat, indented: seq<string>)
    requires IsDocument(lines) && lineNumber < |lines|
    requires forall i | 0 <= i < |indented| :: IsLine(indented[i])
    ensures var r := ReplaceLine(lines, lineNumber, AcceptedText(lines[lineNumber], indented));
            var added := if indented == [] then 0 else |indented| - 1;
            IsDocument(r) && |r| == |lines| + added
            && r[..lineNumber] == lines[..lineNumber]
            && r[lineNumber] == lines[lineNumber] + (if indented == [] then "" else indented[0])
            && (forall k | 1 <= k < |indented| :: r[lineNumber + k] == indented[k])
            && r[lineNumber + 1 + added..] == lines[lineNumber + 1..]
  {
    var current := lines[lineNumber];
    var mid: seq<string>;
    if indented == [] {
      assert AcceptedText(current, indented) == current;
      SplitLinesOfLine(current);
      mid := [current];
    } else {
      AcceptedTextLines(current, indented);
      mid := [current + indented[0]] + indented[1..];
      assert forall k | 1 <= k < |indented| :: mid[k] == indented[k];
    }
    ReplaceLinesShape(lines, lineNumber, mid);
  }

  /** Line `lineNumber` replaced by the lines `mid`. */
  lemma {:induction false} ReplaceLinesShape(lines: seq<string>, lineNumber: nat, mid: seq<string>)
    requires IsDocument(lines) && lineNumber < |lines| && mid != []
    requires forall k | 0 <= k < |mid| :: IsLine(mid[k])
    ensures var r := lines[..lineNumber] + mid + lines[lineNumber + 1..];
            IsDocument(r) && |r| == |lines| + |mid| - 1
            && r[..lineNumber] == lines[..lineNumber]
            && (forall k | 0 <= k < |mid| :: r[lineNumber + k] == mid[k])
            && r[lineNumber + |mid|..] == lines[lineNumber + 1..]
  {
    var r := lines[..lineNumber] + mid + lines[lineNumber + 1..];
    forall k | 0 <= k < |r|
      ensures IsLine(r[k])
    {
      if k < lineNumber {
        assert r[k] == lines[k];
      } else if k < lineNumber + |mid| {
        assert r[k] == mid[k - lineNumber];
      } else {
        assert r[k] == lines[k - |mid| + 1];
      }
    }
    assert r[lineNumber + |mid|..] == lines[lineNumber + 1..];
  }

  /** Accepting fragments that are lines keeps a document a document, one line longer per fragment
      after the first. */
  lemma AcceptKeepsDocument(lines: seq<string>, lineNumber: nat, o: EditorOptions, fragments: seq<string>)
    requires IsDocument(lines) && lineNumber < |lines| && AllLines(fragments)
    ensures var current := lines[lineNumber];
            var r := ReplaceLine(lines, lineNumber,
                                 AcceptedText(current, IndentedLines(LeadingSpace(current), IndentUnit(o), fragments)));
            IsDocument(r) && |r| == |lines| + (if fragments == [] then 0 else |fragments| - 1)
  {
    var current := lines[lineNumber];
    var baseIndent := LeadingSpace(current);
    assert baseIndent == current[..|baseIndent|];
    SliceIsLine(current, 0, |baseIndent|);
    IndentUnitIsLine(o);
    IndentedLinesAreLines(baseIndent, IndentUnit(o), fragments);
    AcceptedDocument(lines, lineNumber, IndentedLines(baseIndent, IndentUnit(o), fragments));
  }

  /** Re-indented fragments stay single lines when the anchor's indent, the unit and the fragments are. */
  lemma {:induction false} IndentedLinesAreLines(baseIndent: string, unit: string, fragments: seq<string>)
    requires IsLine(baseIndent) && IsLine(unit)
    requires forall i | 0 <= i < |fragments| :: IsLine(fragments[i])
    ensures forall i | 0 <= i < |fragments| :: IsLine(IndentedLines(baseIndent, unit, fragments)[i])
  {
    forall i | 0 <= i < |fragments|
      ensures IsLine(IndentedLines(baseIndent, unit, fragments)[i])
    {
      if i > 0 {
        IndentLineIsLine(baseIndent, unit, DepthBefore(fragments, i), fragments[i]);
      }
    }
  }

  lemma {:induction false} IndentLineIsLine(baseIndent: string, unit: string, depth: nat, fragment: string)
    requires IsLine(baseIndent) && IsLine(unit) && IsLine(fragment)
    ensures IsLine(IndentLine(baseIndent, unit, depth, fragment))
  {
    RepeatIsLine(unit, LevelOf(depth, fragment));
    SliceIsLine(fragment, LeadingSpaceCount(fragment), |fragment|);
    assert TrimStart(fragment) == fragment[LeadingSpaceCount(fragment)..|fragment|];
  }

  /** The indent unit holds no line break. */
  lemma IndentUnitIsLine(o: EditorOptions)
    ensures IsLine(IndentUnit(o))
  {
    if o.insertSpaces != Some(false) {
      assert forall i | 0 <= i < |IndentUnit(o)| :: IndentUnit(o)[i] == ' ';
    }
  }
}
