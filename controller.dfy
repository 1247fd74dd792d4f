/**
 * The current controller, `SuggestionController` of `src/SuggestionController.js`: the
 * pending suggestion, the accepted lines, the per-line suppressions, the request counter,
 * the preview spacer and the two busy flags, and the operations that update them.
 * Every `await` is one atomic step, so an asynchronous method runs to completion where
 * it is called; a `lineAt` on a missing line throws, which ends the operation at that
 * point (a rejected promise, or a caught error where the source catches it).
 */
module Controller {
  import opened Wrappers
  import opened Text
  import opened Host
  import opened Patterns
  import opened Matching
  import opened Layout
  import opened Preview

  /** One entry of `event.contentChanges`: the line its range starts on, the inserted text and
      the length of the replaced range. */
  datatype Change = Change(line: nat, text: string, rangeLength: nat)

  /** `change.text === "" && change.rangeLength > 0`. */
  predicate IsDeletion(c: Change)
  {
    c.text == "" && c.rangeLength > 0
  }

  /** A pattern key JavaScript treats as true: present and not empty. */
  predicate Truthy(key: Option<string>)
  {
    key.Some? && key.value != ""
  }

  /** A deletion on the line of the pending suggestion, whose rule key is set: the key is
      suppressed on that line. */
  predicate Suppresses(pending: Option<Pending>, c: Change)
  {
    IsDeletion(c) && SuppressesOn(pending, c.line)
  }

  /** A suggestion is pending on the line and its rule key is set. */
  predicate SuppressesOn(pending: Option<Pending>, lineNumber: nat)
  {
    pending.Some? && pending.value.line == lineNumber && Truthy(pending.value.patternKey)
  }

  /** `resFinal` of `handleTextChange`: the part of the line after the trigger's match is cut
      from the front of the suggestion, so the ghost text starts where the typing stopped. */
  function Remaining(m: TriggerMatch, exec: RegexEngine, lineText: string): (r: seq<string>)
    ensures |m.suggestion| > 1 ==> |r| == |m.suggestion| && r[1..] == m.suggestion[1..]
    ensures |m.suggestion| <= 1 ==> |r| == 1
  {
    var currentLineText := TrimStart(lineText);
    var actualMatch := exec(m.trigger.source, currentLineText);
    var matchedText := if actualMatch.Some? then actualMatch.value.text else "";
    var res := RemoveLeadingTokens(currentLineText, [matchedText]);
    CutTyped(m.suggestion, res)
  }

  /** The fragments with `res`, the rest of the typed line, cut from the front of the first one;
      a single fragment (or none) is joined by commas first. Only a prefix of the first fragment
      is removed. */
  function CutTyped(suggestion: seq<string>, res: string): (r: seq<string>)
    ensures |suggestion| > 1 ==> |r| == |suggestion| && r[1..] == suggestion[1..]
    ensures |suggestion| <= 1 ==> |r| == 1
    ensures var first := if |suggestion| > 1 then suggestion[0] else Join(suggestion, ",");
            |r[0]| <= |first| && r[0] == first[|first| - |r[0]|..]
  {
    if |suggestion| > 1 then [RemoveLeadingTokens(suggestion[0], [res])] + suggestion[1..]
    else [RemoveLeadingTokens(Join(suggestion, ","), [res])]
  }

  /** The first fragment completes the line: when the trigger matched a prefix of the trimmed line
      and the rest of the line is a prefix of the first suggestion, the trimmed line followed by the
      first ghost fragment reads as the matched text followed by the whole first suggestion. */
  lemma RemainingCompletesLine(m: TriggerMatch, exec: RegexEngine, lineText: string)
    requires |m.suggestion| >= 1
    requires var current := TrimStart(lineText); var a := exec(m.trigger.source, current);
             a.Some? && a.value.text <= current
             && RemoveLeadingTokens(current, [a.value.text]) <= m.suggestion[0]
    ensures var current := TrimStart(lineText);
            current + Remaining(m, exec, lineText)[0] == exec(m.trigger.source, current).value.text + m.suggestion[0]
  {
    var current := TrimStart(lineText);
    var matched := exec(m.trigger.source, current).value.text;
    FirstFragmentIdentity(current, matched, m.suggestion[0]);
    if |m.suggestion| == 1 {
      assert Join(m.suggestion, ",") == m.suggestion[0];
    }
  }

  /** Cutting the typed text from fragments that are lines leaves lines. */
  lemma RemainingAreLines(m: TriggerMatch, exec: RegexEngine, lineText: string)
    requires AllLines(m.suggestion)
    ensures AllLines(Remaining(m, exec, lineText))
  {
    var currentLineText := TrimStart(lineText);
    var actualMatch := exec(m.trigger.source, currentLineText);
    var matchedText := if actualMatch.Some? then actualMatch.value.text else "";
    CutTypedAreLines(m.suggestion, RemoveLeadingTokens(currentLineText, [matchedText]));
  }

  lemma CutTypedAreLines(suggestion: seq<string>, res: string)
    requires AllLines(suggestion)
    ensures AllLines(CutTyped(suggestion, res))
  {
    var r := CutTyped(suggestion, res);
    var first := if |suggestion| > 1 then suggestion[0] else Join(suggestion, ",");
    if |suggestion| <= 1 {
      JoinIsLine(suggestion, ",");
    }
    SuffixIsLine(first, r[0]);
    assert forall i | 1 <= i < |r| :: r[i] == r[1..][i - 1];
  }

  /** The loop of `buildIndentedSuggestionLines`, with `blockDepth` counting open blocks. */
  method IndentFragments(baseIndent: string, indentUnit: string, lines: seq<string>)
    returns (result: seq<string>)
    ensures result == IndentedLines(baseIndent, indentUnit, lines)
  {
    ghost var spec := IndentedLines(baseIndent, indentUnit, lines);
    result := [];
    var blockDepth: nat := 0;
    var i := 0;
    while i < |lines|
      invariant 0 <= i <= |lines|
      invariant result == spec[..i]
      invariant blockDepth == DepthBefore(lines, i)
    {
      var line;
      line, blockDepth := IndentStep(baseIndent, indentUnit, lines, i, blockDepth);
      PrefixSnoc(spec, i);
      result := result + [line];
      i := i + 1;
    }
    assert spec[..|lines|] == spec;
  }

  /** Iteration `i` of the loop of `buildIndentedSuggestionLines`: the first fragment is kept and
      sets the depth from its own last brace; a later one is re-indented at the current depth. */
  method IndentStep(baseIndent: string, indentUnit: string, lines: seq<string>, i: nat, depth: nat)
    returns (line: string, blockDepth: nat)
    requires i < |lines| && depth == DepthBefore(lines, i)
    ensures line == IndentedAt(baseIndent, indentUnit, lines, i)
    ensures blockDepth == DepthBefore(lines, i + 1)
  {
    var rawLine := lines[i];
    DepthBeforeNext(lines, i);
    if i == 0 {
      line := rawLine;
      blockDepth := if OpensBlock(Trim(rawLine)) then 1 else depth;
    } else {
      line, blockDepth := IndentFragment(baseIndent, indentUnit, depth, rawLine);
    }
  }

  /** One later iteration of the loop of `buildIndentedSuggestionLines`: a blank fragment becomes
      indentation at the current depth; any other loses its own indentation, is indented one
      level less when it starts with a closing bracket, and raises the depth when it ends with `{`. */
  method IndentFragment(baseIndent: string, indentUnit: string, depth: nat, rawLine: string)
    returns (line: string, blockDepth: nat)
    ensures line == IndentLine(baseIndent, indentUnit, depth, rawLine)
    ensures blockDepth == NextDepth(depth, rawLine)
  {
    blockDepth := depth;
    var trimmedLine := TrimStart(rawLine);
    if |trimmedLine| == 0 {
      line := baseIndent + Repeat(indentUnit, blockDepth);
      assert line + trimmedLine == line;
      return;
    }
    if ClosesBlock(trimmedLine) {
      blockDepth := if blockDepth > 0 then blockDepth - 1 else 0;
    }
    line := baseIndent + Repeat(indentUnit, blockDepth) + trimmedLine;
    if OpensBlock(trimmedLine) {
      blockDepth := blockDepth + 1;
    }
  }

  /** `countAvailableEmptyLines(doc, lineNumber)`: the blank lines directly below the line. It reads
      nothing of the controller, so it is modelled outside the class. */
  method CountAvailableEmptyLines(doc: seq<string>, lineNumber: nat) returns (availableLines: nat)
    ensures availableLines == BlankRunAfter(doc, lineNumber)
    ensures forall k | lineNumber < k <= lineNumber + availableLines :: k < |doc| && IsBlank(doc[k])
    ensures lineNumber + availableLines + 1 < |doc| ==> !IsBlank(doc[lineNumber + availableLines + 1])
  {
    availableLines := 0;
    var i := lineNumber + 1;
    while i < |doc|
      invariant i == lineNumber + 1 + availableLines
      invariant BlankRunFrom(doc, lineNumber + 1) == availableLines + BlankRunFrom(doc, i)
      decreases |doc| - i
    {
      BlankRunFromStep(doc, i);
      if IsBlank(doc[i]) {
        availableLines := availableLines + 1;
      } else {
        break;
      }
      i := i + 1;
    }
    BlankRunAfterIsMaximal(doc, lineNumber);
  }

  class SuggestionController {
    const patterns: PatternTable
    const exec: RegexEngine
    var pendingSuggestion: Option<Pending>
    var acceptedLines: set<nat>
    var isAccepting: bool
    var isAdjustingPreviewSpace: bool
    var suggestionRequestId: nat
    var superpressedPatterns: Suppression
    var previewSpacer: Option<Spacer>

    /** Every rule of the table offers lines, and so do the fragments of a pending suggestion:
        what a match offers after the typed text is cut from it. */
    ghost predicate Valid()
      reads this`pendingSuggestion
    {
      WellFormedTable(patterns) && (pendingSuggestion.Some? ==> AllLines(pendingSuggestion.value.lines))
    }

    /** A controller over the rule table of `createPatterns`, with nothing pending. */
    constructor (exec: RegexEngine)
      ensures Valid() && patterns == CreatePatterns() && this.exec == exec
      ensures pendingSuggestion.None? && acceptedLines == {} && !isAccepting && !isAdjustingPreviewSpace
      ensures suggestionRequestId == 0 && superpressedPatterns == map[] && previewSpacer.None?
    {
      CreatePatternsWellFormed();
      patterns := CreatePatterns();
      this.exec := exec;
      pendingSuggestion := None;
      acceptedLines := {};
      isAccepting := false;
      isAdjustingPreviewSpace := false;
      suggestionRequestId := 0;
      superpressedPatterns := map[];
      previewSpacer := None;
    }

    /** `buildIndentedSuggestionLines(editor, lineNumber, lines)`: the first fragment as it is,
        every later one re-indented under the anchor line's indentation. */
    method BuildIndentedSuggestionLines(editor: Editor, lineNumber: nat, lines: seq<string>)
      returns (r: Option<seq<string>>)
      ensures r == IndentedSuggestion(editor.lines, lineNumber, editor.options, lines)
      ensures r.Some? ==> |r.value| == |lines|
      ensures lineNumber < |editor.lines| ==>
                r == Some(IndentedLines(LeadingSpace(editor.lines[lineNumber]), IndentUnit(editor.options), lines))
    {
      if lines == [] {
        return Some([]);
      }
      if lineNumber >= |editor.lines| {
        return None;
      }
      var baseIndent := LeadingSpace(editor.lines[lineNumber]);
      var indentUnit := IndentUnit(editor.options);
      var result := IndentFragments(baseIndent, indentUnit, lines);
      return Some(result);
    }

    /** `clearPreviewSpace(editor)`. */
    method ClearPreviewSpace(editor: Editor)
      requires editor.Valid()
      modifies this`previewSpacer, this`isAdjustingPreviewSpace, editor`lines
      ensures editor.Valid()
      ensures PreviewState(editor.lines, previewSpacer) == ClearPreview(old(PreviewState(editor.lines, previewSpacer)))
      ensures isAdjustingPreviewSpace ==
              (old(isAdjustingPreviewSpace) && !ClearEdits(old(PreviewState(editor.lines, previewSpacer))))
    {
      ClearKeepsDocument(PreviewState(editor.lines, previewSpacer));
      if previewSpacer.None? {
        return;
      }
      var anchorLine := previewSpacer.value.anchorLine;
      var count := previewSpacer.value.count;
      if count <= 0 {
        previewSpacer := None;
        return;
      }
      if anchorLine >= |editor.lines| {
        previewSpacer := None;
        return;
      }
      var endLine := Min(anchorLine + count, |editor.lines| - 1);
      isAdjustingPreviewSpace := true;
      editor.lines := editor.lines[..anchorLine] + editor.lines[endLine..];
      isAdjustingPreviewSpace := false;
      previewSpacer := None;
    }

    /** `ensurePreviewSpace(editor, lineNumber, requiredExtraLines)`. */
    method EnsurePreviewSpace(editor: Editor, lineNumber: nat, requiredExtraLines: int)
      requires editor.Valid()
      modifies this`previewSpacer, this`isAdjustingPreviewSpace, editor`lines
      ensures editor.Valid()
      ensures PreviewState(editor.lines, previewSpacer)
              == EnsurePreview(old(PreviewState(editor.lines, previewSpacer)), lineNumber, requiredExtraLines)
      ensures isAdjustingPreviewSpace ==
              (old(isAdjustingPreviewSpace)
               && !EnsureTouches(old(PreviewState(editor.lines, previewSpacer)), lineNumber, requiredExtraLines))
    {
      ghost var p := PreviewState(editor.lines, previewSpacer);
      if requiredExtraLines <= 0 {
        return;
      }
      var anchorLine := lineNumber + 1;
      if previewSpacer.Some? && previewSpacer.value.anchorLine != anchorLine {
        ClearPreviewSpace(editor);
      }
      assert PreviewState(editor.lines, previewSpacer) == Settled(p, lineNumber);
      GrowPreviewSpace(editor, lineNumber, requiredExtraLines);
    }

    /** The part of `ensurePreviewSpace` after a spacer at another anchor has been cleared: as many
        empty lines are inserted at `lineNumber + 1` as the blank lines there fall short of
        `requiredExtraLines`, and the spacer of that anchor counts them. */
    method GrowPreviewSpace(editor: Editor, lineNumber: nat, requiredExtraLines: int)
      requires previewSpacer.Some? ==> previewSpacer.value.anchorLine == lineNumber + 1
      requires editor.Valid()
      modifies this`previewSpacer, this`isAdjustingPreviewSpace, editor`lines
      ensures editor.Valid()
      ensures PreviewState(editor.lines, previewSpacer)
              == Grow(old(PreviewState(editor.lines, previewSpacer)), lineNumber, requiredExtraLines)
      ensures isAdjustingPreviewSpace ==
              (old(isAdjustingPreviewSpace)
               && !GrowEdits(old(PreviewState(editor.lines, previewSpacer)), lineNumber, requiredExtraLines))
    {
      ghost var s := PreviewState(editor.lines, previewSpacer);
      GrowKeepsDocument(s, lineNumber, requiredExtraLines);
      var anchorLine := lineNumber + 1;
      if anchorLine > |editor.lines| {
        return;
      }
      var availableLines := CountAvailableEmptyLines(editor.lines, lineNumber);
      var needed := requiredExtraLines - availableLines;
      if needed <= 0 {
        return;
      }
      assert Grow(s, lineNumber, requiredExtraLines) == GrowBy(s, anchorLine, needed);
      isAdjustingPreviewSpace := true;
      editor.lines := InsertBlankLines(editor.lines, anchorLine, needed);
      if previewSpacer.Some? && previewSpacer.value.anchorLine == anchorLine {
        previewSpacer := Some(Spacer(anchorLine, previewSpacer.value.count + needed));
      } else {
        previewSpacer := Some(Spacer(anchorLine, needed));
      }
      isAdjustingPreviewSpace := false;
    }

    /** `showSuggestion(editor, lineNumber, suggestionLines, patternKey, requestId)`. The fragments
        are re-indented under the anchor line (a missing anchor line throws there and nothing
        changes); room for the later fragments is made below the anchor; a render whose request is
        no longer the latest stops there; otherwise the overlays are set and the suggestion recorded
        as pending. */
    method ShowSuggestion(editor: Editor, lineNumber: nat, suggestionLines: seq<string>,
                          patternKey: Option<string>, requestId: Option<nat>)
      requires Valid() && editor.Valid()
      modifies this`previewSpacer, this`isAdjustingPreviewSpace, this`pendingSuggestion
      modifies editor`lines, editor`decorations
      ensures editor.Valid()
      ensures AllLines(suggestionLines) ==> Valid()
      ensures IndentedSuggestion(old(editor.lines), lineNumber, editor.options, suggestionLines).None? ==>
                editor.lines == old(editor.lines) && previewSpacer == old(previewSpacer)
                && isAdjustingPreviewSpace == old(isAdjustingPreviewSpace)
                && editor.decorations == old(editor.decorations) && pendingSuggestion == old(pendingSuggestion)
      ensures var indented := IndentedSuggestion(old(editor.lines), lineNumber, editor.options, suggestionLines);
              indented.Some? ==>
                var p := old(PreviewState(editor.lines, previewSpacer));
                var q := EnsurePreview(p, lineNumber, |suggestionLines| - 1);
                var shown := Present(lineNumber, suggestionLines, indented.value,
                                     DisplayLines(editor.options, indented.value), q.lines, patternKey);
                var current := requestId.None? || requestId.value == suggestionRequestId;
                PreviewState(editor.lines, previewSpacer) == q
                && isAdjustingPreviewSpace ==
                   (old(isAdjustingPreviewSpace) && !EnsureTouches(p, lineNumber, |suggestionLines| - 1))
                && (current && shown.Some? ==>
                      editor.decorations == shown.value.decorations && pendingSuggestion == Some(shown.value.pending))
                && (!current || shown.None? ==>
                      editor.decorations == old(editor.decorations) && pendingSuggestion == old(pendingSuggestion))
      ensures pendingSuggestion == old(pendingSuggestion)
              || (pendingSuggestion.Some? && pendingSuggestion.value.line == lineNumber
                  && pendingSuggestion.value.lines == suggestionLines && pendingSuggestion.value.patternKey == patternKey)
      ensures !old(isAdjustingPreviewSpace) ==> !isAdjustingPreviewSpace
    {
      var lines := suggestionLines;
      var built := BuildIndentedSuggestionLines(editor, lineNumber, lines);
      if built.None? {
        return;
      }
      var indentedLines := built.value;
      var displayLines := DisplayLines(editor.options, indentedLines);
      if |lines| > 1 {
        EnsurePreviewSpace(editor, lineNumber, |lines| - 1);
      }
      if requestId.Some? && requestId.value != suggestionRequestId {
        return;
      }
      RenderSuggestion(editor, lineNumber, lines, indentedLines, displayLines, patternKey);
    }

    /** The end of `showSuggestion` once room is made and the request is still the latest: one
        overlay in single-line layout, one per line in multi-line layout, and the suggestion
        recorded as pending; nothing changes when single-line layout finds no anchor line. */
    method RenderSuggestion(editor: Editor, lineNumber: nat, lines: seq<string>, indentedLines: seq<string>,
                            displayLines: seq<string>, patternKey: Option<string>)
      requires |displayLines| == |indentedLines|
      modifies this`pendingSuggestion, editor`decorations
      ensures var shown := Present(lineNumber, lines, indentedLines, displayLines, editor.lines, patternKey);
              (shown.Some? ==> editor.decorations == shown.value.decorations && pendingSuggestion == Some(shown.value.pending))
              && (shown.None? ==> editor.decorations == old(editor.decorations) && pendingSuggestion == old(pendingSuggestion))
      ensures pendingSuggestion == old(pendingSuggestion)
              || (pendingSuggestion.Some? && pendingSuggestion.value.line == lineNumber
                  && pendingSuggestion.value.lines == lines && pendingSuggestion.value.patternKey == patternKey)
    {
      ghost var shown := Present(lineNumber, lines, indentedLines, displayLines, editor.lines, patternKey);
      var available := CountAvailableEmptyLines(editor.lines, lineNumber);
      var needsMultiLine := |lines| > 1;
      var hasEnoughSpace := available >= |lines| - 1;
      var useSingleLine := if needsMultiLine then !hasEnoughSpace else false;
      assert useSingleLine == UseSingleLine(|lines|, BlankRunAfter(editor.lines, lineNumber));
      var decorations: seq<Overlay>;
      if useSingleLine {
        if lineNumber >= |editor.lines| {
          return;
        }
        decorations := [Overlay(lineNumber, Join(displayLines, " "))];
      } else {
        decorations := MultiLineDecorations(editor.lines, lineNumber, displayLines);
      }
      var pending := Pending(lineNumber, Join(indentedLines, "\n"), lines,
                             if useSingleLine then Single else Multi, patternKey);
      assert shown == Some(Shown(decorations, pending));
      editor.decorations := decorations;
      pendingSuggestion := Some(pending);
    }

    /** `removeSuggestion(editor)`: a new request id, so that a render still in flight is dropped;
        with an editor, its overlays removed and the spacer cleared; nothing pending. */
    method RemoveSuggestion(editor: Editor?)
      requires Valid() && (editor != null ==> editor.Valid())
      modifies this`suggestionRequestId, this`pendingSuggestion, this`previewSpacer, this`isAdjustingPreviewSpace
      modifies editor
      ensures Valid() && (editor != null ==> editor.Valid())
      ensures suggestionRequestId == old(suggestionRequestId) + 1 && pendingSuggestion.None?
      ensures editor == null ==>
                previewSpacer == old(previewSpacer) && isAdjustingPreviewSpace == old(isAdjustingPreviewSpace)
      ensures editor != null ==>
                editor.decorations == [] && editor.selection == old(editor.selection)
                && PreviewState(editor.lines, previewSpacer) == ClearPreview(old(PreviewState(editor.lines, previewSpacer)))
                && isAdjustingPreviewSpace ==
                   (old(isAdjustingPreviewSpace) && !ClearEdits(old(PreviewState(editor.lines, previewSpacer))))
    {
      suggestionRequestId := suggestionRequestId + 1;
      if editor != null {
        editor.decorations := [];
        ClearPreviewSpace(editor);
      }
      pendingSuggestion := None;
    }

    /** `acceptSuggestion(editor)`. Nothing happens without a pending suggestion or while an
        acceptance runs. Otherwise the spacer is cleared; the anchor line, if it still exists, is
        replaced by its text followed by the fragments re-indented on the cleared document; the line
        is marked accepted, the suggestion removed and the cursor put at the end of the last
        inserted line when that line exists. */
    method AcceptSuggestion(editor: Editor)
      requires Valid() && editor.Valid()
      modifies this`isAccepting, this`previewSpacer, this`isAdjustingPreviewSpace, this`acceptedLines
      modifies this`suggestionRequestId, this`pendingSuggestion, editor
      ensures Valid() && editor.Valid()
      ensures old(pendingSuggestion.None? || isAccepting) ==>
                isAccepting == old(isAccepting) && previewSpacer == old(previewSpacer)
                && isAdjustingPreviewSpace == old(isAdjustingPreviewSpace) && acceptedLines == old(acceptedLines)
                && suggestionRequestId == old(suggestionRequestId) && pendingSuggestion == old(pendingSuggestion)
                && editor.lines == old(editor.lines) && editor.decorations == old(editor.decorations)
                && editor.selection == old(editor.selection)
      ensures old(pendingSuggestion.Some? && !isAccepting) ==>
                var ln := old(pendingSuggestion.value.line);
                var fragments := old(pendingSuggestion.value.lines);
                var cleared := ClearPreview(old(PreviewState(editor.lines, previewSpacer))).lines;
                !isAccepting && previewSpacer.None?
                && isAdjustingPreviewSpace ==
                   (old(isAdjustingPreviewSpace) && !ClearEdits(old(PreviewState(editor.lines, previewSpacer))))
                && (ln >= |cleared| ==>
                      editor.lines == cleared && acceptedLines == old(acceptedLines)
                      && suggestionRequestId == old(suggestionRequestId) && pendingSuggestion == old(pendingSuggestion)
                      && editor.decorations == old(editor.decorations) && editor.selection == old(editor.selection))
                && (ln < |cleared| ==>
                      |editor.lines| == |cleared| + (if fragments == [] then 0 else |fragments| - 1)
                      && editor.lines == ReplaceLine(cleared, ln, AcceptedText(cleared[ln],
                                        IndentedLines(LeadingSpace(cleared[ln]), IndentUnit(editor.options), fragments)))
                      && acceptedLines == old(acceptedLines) + {ln}
                      && suggestionRequestId == old(suggestionRequestId) + 1 && pendingSuggestion.None?
                      && editor.decorations == []
                      && var last := ln + |fragments| - 1;
                         (0 <= last < |editor.lines| ==> editor.selection == Position(last, |editor.lines[last]|))
                         && (!(0 <= last < |editor.lines|) ==> editor.selection == old(editor.selection)))
    {
      if pendingSuggestion.None? || isAccepting {
        return;
      }
      isAccepting := true;
      var lineNumber := pendingSuggestion.value.line;
      var lines := pendingSuggestion.value.lines;
      ClearPreviewSpace(editor);
      if lineNumber >= |editor.lines| {
        isAccepting := false;
        return;
      }
      ReplaceAnchorLine(editor, lineNumber, lines);
      isAccepting := false;
    }

    /** The edit of `acceptSuggestion` once the spacer is gone and the anchor line is known to exist:
        the line becomes its text followed by the re-indented fragments; the line is marked accepted,
        the suggestion removed and the cursor put at the end of the last inserted line when that line
        exists. */
    method ReplaceAnchorLine(editor: Editor, lineNumber: nat, lines: seq<string>)
      requires lineNumber < |editor.lines| && previewSpacer.None?
      requires Valid() && editor.Valid() && AllLines(lines)
      modifies this`acceptedLines, this`suggestionRequestId, this`pendingSuggestion, this`previewSpacer
      modifies this`isAdjustingPreviewSpace, editor
      ensures Valid() && editor.Valid()
      ensures |editor.lines| == old(|editor.lines|) + (if lines == [] then 0 else |lines| - 1)
      ensures var doc := old(editor.lines);
              editor.lines == ReplaceLine(doc, lineNumber, AcceptedText(doc[lineNumber],
                                IndentedLines(LeadingSpace(doc[lineNumber]), IndentUnit(editor.options), lines)))
      ensures acceptedLines == old(acceptedLines) + {lineNumber}
      ensures suggestionRequestId == old(suggestionRequestId) + 1 && pendingSuggestion.None?
      ensures editor.decorations == [] && previewSpacer.None? && isAdjustingPreviewSpace == old(isAdjustingPreviewSpace)
      ensures var last := lineNumber + |lines| - 1;
              (0 <= last < |editor.lines| ==> editor.selection == Position(last, |editor.lines[last]|))
              && (!(0 <= last < |editor.lines|) ==> editor.selection == old(editor.selection))
    {
      AcceptKeepsDocument(editor.lines, lineNumber, editor.options, lines);
      var currentLine := editor.lines[lineNumber];
      var built := BuildIndentedSuggestionLines(editor, lineNumber, lines);
      var fullText := JoinAccepted(currentLine, built.value);
      editor.lines := ReplaceLine(editor.lines, lineNumber, fullText);
      acceptedLines := acceptedLines + {lineNumber};
      RemoveSuggestion(editor);
      var lastLineNumber := lineNumber + |lines| - 1;
      if 0 <= lastLineNumber < |editor.lines| {
        editor.selection := Position(lastLineNumber, |editor.lines[lastLineNumber]|);
      }
    }

    /** One entry of `event.contentChanges` in `handleTextChange`; `aborted` when the change starts
        on a line the document does not have, where `lineAt` throws and the handler stops. */
    method HandleChange(editor: Editor, change: Change) returns (aborted: bool)
      requires Valid() && editor.Valid()
      modifies this`pendingSuggestion, this`acceptedLines, this`suggestionRequestId, this`superpressedPatterns
      modifies this`previewSpacer, this`isAdjustingPreviewSpace, editor
      ensures Valid() && editor.Valid()
      ensures aborted <==> change.line >= old(|editor.lines|)
      ensures aborted ==>
                pendingSuggestion == old(pendingSuggestion) && acceptedLines == old(acceptedLines)
                && suggestionRequestId == old(suggestionRequestId) && previewSpacer == old(previewSpacer)
                && editor.lines == old(editor.lines) && editor.decorations == old(editor.decorations)
      ensures superpressedPatterns ==
                if !aborted && Suppresses(old(pendingSuggestion), change)
                then Suppress(old(superpressedPatterns), change.line, old(pendingSuggestion).value.patternKey.value)
                else old(superpressedPatterns)
      ensures editor.selection == old(editor.selection)
      ensures !old(isAdjustingPreviewSpace) ==> !isAdjustingPreviewSpace
      ensures old(suggestionRequestId) <= suggestionRequestId
      ensures acceptedLines <= old(acceptedLines)
    {
      var lineNumber := change.line;
      if lineNumber >= |editor.lines| {
        return true;
      }
      var lineText := editor.lines[lineNumber];
      if IsDeletion(change) {
        HandleDeletion(editor, lineNumber);
      } else {
        HandleEdit(editor, lineNumber, lineText);
      }
      return false;
    }

    /** The deletion branch of `handleTextChange`: a deletion on the pending suggestion's line
        whose rule key is set suppresses that key on the line; any other deletion un-accepts the
        line. Either way the suggestion is removed. */
    method HandleDeletion(editor: Editor, lineNumber: nat)
      requires Valid() && editor.Valid()
      modifies this`pendingSuggestion, this`acceptedLines, this`suggestionRequestId, this`superpressedPatterns
      modifies this`previewSpacer, this`isAdjustingPreviewSpace, editor
      ensures Valid() && editor.Valid()
      ensures var suppresses := SuppressesOn(old(pendingSuggestion), lineNumber);
              superpressedPatterns == (if suppresses
                                       then Suppress(old(superpressedPatterns), lineNumber,
                                                     old(pendingSuggestion).value.patternKey.value)
                                       else old(superpressedPatterns))
              && acceptedLines == (if suppresses then old(acceptedLines) else old(acceptedLines) - {lineNumber})
      ensures pendingSuggestion.None? && suggestionRequestId == old(suggestionRequestId) + 1
      ensures editor.decorations == [] && editor.selection == old(editor.selection)
      ensures PreviewState(editor.lines, previewSpacer) == ClearPreview(old(PreviewState(editor.lines, previewSpacer)))
      ensures isAdjustingPreviewSpace ==
              (old(isAdjustingPreviewSpace) && !ClearEdits(old(PreviewState(editor.lines, previewSpacer))))
    {
      if pendingSuggestion.Some? && pendingSuggestion.value.line == lineNumber {
        var patternKey := pendingSuggestion.value.patternKey;
        if Truthy(patternKey) {
          superpressedPatterns := Suppress(superpressedPatterns, lineNumber, patternKey.value);
          RemoveSuggestion(editor);
          return;
        }
      }
      RemoveSuggestion(editor);
      // The source removes the line once more when its trimmed text is empty; that second removal
      // changes nothing and is not repeated here.
      acceptedLines := acceptedLines - {lineNumber};
    }

    /** The branch of `handleTextChange` for any other change of line `lineNumber`, whose text is
        `lineText`. An accepted line that still matches is left alone; one that no longer matches
        is un-accepted. A match replaces the pending suggestion by a fresh render of the match's
        remaining fragments under a new request id; no match removes a suggestion pending on the
        line. */
    method HandleEdit(editor: Editor, lineNumber: nat, lineText: string)
      requires Valid() && editor.Valid()
      modifies this`pendingSuggestion, this`acceptedLines, this`suggestionRequestId
      modifies this`previewSpacer, this`isAdjustingPreviewSpace, editor
      ensures Valid() && editor.Valid()
      ensures editor.selection == old(editor.selection)
      ensures !old(isAdjustingPreviewSpace) ==> !isAdjustingPreviewSpace
      ensures var m := FindTriggerMatch(patterns, superpressedPatterns, exec, lineText, Some(lineNumber));
              var pendingHere := old(pendingSuggestion).Some? && old(pendingSuggestion).value.line == lineNumber;
              (lineNumber in old(acceptedLines) && m.Some? ==>
                 pendingSuggestion == old(pendingSuggestion) && acceptedLines == old(acceptedLines)
                 && suggestionRequestId == old(suggestionRequestId) && previewSpacer == old(previewSpacer)
                 && editor.lines == old(editor.lines) && editor.decorations == old(editor.decorations))
              && (m.None? ==>
                    acceptedLines == old(acceptedLines) - {lineNumber}
                    && (pendingHere ==> pendingSuggestion.None? && suggestionRequestId == old(suggestionRequestId) + 1)
                    && (!pendingHere ==>
                          pendingSuggestion == old(pendingSuggestion) && suggestionRequestId == old(suggestionRequestId)
                          && previewSpacer == old(previewSpacer) && editor.lines == old(editor.lines)
                          && editor.decorations == old(editor.decorations)))
              && (lineNumber !in old(acceptedLines) && m.Some? ==>
                    acceptedLines == old(acceptedLines) && suggestionRequestId > old(suggestionRequestId)
                    && (pendingSuggestion.Some? ==>
                          pendingSuggestion.value.line == lineNumber
                          && pendingSuggestion.value.patternKey == Some(m.value.key)
                          && pendingSuggestion.value.lines == Remaining(m.value, exec, lineText)))
    {
      if lineNumber in acceptedLines {
        var stillMatching := FindTriggerMatch(patterns, superpressedPatterns, exec, lineText, Some(lineNumber));
        if stillMatching.None? {
          acceptedLines := acceptedLines - {lineNumber};
        } else {
          return;
        }
      }
      var m := FindTriggerMatch(patterns, superpressedPatterns, exec, lineText, Some(lineNumber));
      MatchOffersLines(patterns, superpressedPatterns, exec, lineText, Some(lineNumber));
      if m.Some? {
        SuggestMatch(editor, lineNumber, lineText, m.value);
      } else if pendingSuggestion.Some? && pendingSuggestion.value.line == lineNumber {
        RemoveSuggestion(editor);
      }
    }

    /** A match on line `lineNumber`: the pending suggestion, if any, is removed, and the match's
        remaining fragments are rendered under a new request id. Whatever is pending afterwards is
        that render, for this line and this rule. */
    method SuggestMatch(editor: Editor, lineNumber: nat, lineText: string, m: TriggerMatch)
      requires Valid() && editor.Valid() && AllLines(m.suggestion)
      modifies this`pendingSuggestion, this`suggestionRequestId, this`previewSpacer, this`isAdjustingPreviewSpace
      modifies editor
      ensures Valid() && editor.Valid()
      ensures suggestionRequestId > old(suggestionRequestId)
      ensures editor.selection == old(editor.selection)
      ensures !old(isAdjustingPreviewSpace) ==> !isAdjustingPreviewSpace
      ensures pendingSuggestion.Some? ==>
                pendingSuggestion.value.line == lineNumber && pendingSuggestion.value.patternKey == Some(m.key)
                && pendingSuggestion.value.lines == Remaining(m, exec, lineText)
    {
      if pendingSuggestion.Some? {
        RemoveSuggestion(editor);
      }
      var resFinal := Remaining(m, exec, lineText);
      RemainingAreLines(m, exec, lineText);
      suggestionRequestId := suggestionRequestId + 1;
      var requestId := suggestionRequestId;
      ShowSuggestion(editor, lineNumber, resFinal, Some(m.key), Some(requestId));
    }

    /** `handleTextChange(event)` for the active editor (`null` when there is none): nothing while
        an acceptance or a spacer edit runs; otherwise every change in order, stopping at one that
        names a missing line. Suppression only grows, no line becomes accepted, and the request
        counter never goes back. */
    method HandleTextChange(editor: Editor?, changes: seq<Change>)
      requires Valid() && (editor != null ==> editor.Valid())
      modifies this`pendingSuggestion, this`acceptedLines, this`suggestionRequestId, this`superpressedPatterns
      modifies this`previewSpacer, this`isAdjustingPreviewSpace, editor
      ensures Valid() && (editor != null ==> editor.Valid())
      ensures editor == null || old(isAccepting) || old(isAdjustingPreviewSpace) ==>
                pendingSuggestion == old(pendingSuggestion) && acceptedLines == old(acceptedLines)
                && suggestionRequestId == old(suggestionRequestId) && superpressedPatterns == old(superpressedPatterns)
                && previewSpacer == old(previewSpacer) && isAdjustingPreviewSpace == old(isAdjustingPreviewSpace)
      ensures editor != null && (old(isAccepting) || old(isAdjustingPreviewSpace)) ==>
                editor.lines == old(editor.lines) && editor.decorations == old(editor.decorations)
      ensures Grows(old(superpressedPatterns), superpressedPatterns)
      ensures old(suggestionRequestId) <= suggestionRequestId
      ensures acceptedLines <= old(acceptedLines)
      ensures !old(isAdjustingPreviewSpace) ==> !isAdjustingPreviewSpace
      ensures editor != null ==> editor.selection == old(editor.selection)
    {
      if editor == null || isAccepting || isAdjustingPreviewSpace {
        return;
      }
      var i := 0;
      while i < |changes|
        invariant Valid() && editor.Valid()
        invariant Grows(old(superpressedPatterns), superpressedPatterns)
        invariant old(suggestionRequestId) <= suggestionRequestId
        invariant acceptedLines <= old(acceptedLines)
        invariant !isAdjustingPreviewSpace
        invariant editor.selection == old(editor.selection)
      {
        ghost var before := superpressedPatterns;
        var aborted := HandleChange(editor, changes[i]);
        GrowsTransitive(old(superpressedPatterns), before, superpressedPatterns);
        if aborted {
          return;
        }
        i := i + 1;
      }
    }
  }

  /** The loop of `acceptSuggestion` building `fullText`: the first suggestion line appended to
      the anchor line's text, each later one after a line break. */
  method JoinAccepted(currentLine: string, indentedLines: seq<string>) returns (fullText: string)
    ensures fullText == AcceptedText(currentLine, indentedLines)
  {
    fullText := currentLine;
    var i := 0;
    while i < |indentedLines|
      invariant 0 <= i <= |indentedLines|
      invariant fullText == currentLine + Join(indentedLines[..i], "\n")
    {
      var suggestionLine := indentedLines[i];
      PrefixSnoc(indentedLines, i);
      if i == 0 {
        fullText := fullText + suggestionLine;
      } else {
        JoinSnoc(indentedLines[..i], "\n", suggestionLine);
        fullText := fullText + "\n" + suggestionLine;
      }
      i := i + 1;
    }
    assert indentedLines[..|indentedLines|] == indentedLines;
  }

  /** The multi-line loop of `showSuggestion`: display line `i` after document line
      `lineNumber + i`, stopping at the end of the document. */
  method MultiLineDecorations(doc: seq<string>, lineNumber: nat, displayLines: seq<string>)
    returns (decorations: seq<Overlay>)
    ensures decorations == MultiLineOverlays(lineNumber, displayLines, |doc|)
  {
    ghost var all := MultiLineOverlays(lineNumber, displayLines, |doc|);
    decorations := [];
    var i := 0;
    while i < |displayLines|
      invariant 0 <= i <= |all| && decorations == all[..i]
    {
      var targetLine := lineNumber + i;
      if targetLine >= |doc| {
        break;
      }
      PrefixSnoc(all, i);
      decorations := decorations + [Overlay(targetLine, displayLines[i])];
      i := i + 1;
    }
    assert all[..|all|] == all;
  }

  /** The current controller makes room before it lays out: on an anchor line that survives the
      clearing of an old spacer, the multi-line layout is always chosen and every fragment gets its
      own overlay, fragment `i` after line `lineNumber + i`. */
  lemma {:induction false} ShownIsMultiLine(p: PreviewState, lineNumber: nat, fragments: seq<string>,
                                            indented: seq<string>, display: seq<string>,
                                            patternKey: Option<string>)
    requires lineNumber < |Settled(p, lineNumber).lines|
    requires |display| == |fragments|
    ensures var q := EnsurePreview(p, lineNumber, |fragments| - 1);
            var r := Present(lineNumber, fragments, indented, display, q.lines, patternKey);
            r.Some? && r.value.pending.displayMode == Multi && |r.value.decorations| == |fragments|
            && forall i | 0 <= i < |fragments| :: r.value.decorations[i] == Overlay(lineNumber + i, display[i])
  {
    var q := EnsurePreview(p, lineNumber, |fragments| - 1);
    EnsureMakesRoom(p, lineNumber, |fragments| - 1);
    assert lineNumber < |q.lines| by {
      if |fragments| > 1 {
        EnsureKeepsAnchor(p, lineNumber, |fragments| - 1);
      }
    }
    BlankRunAfterBound(q.lines, lineNumber);
    PresentLayout(lineNumber, fragments, indented, display, q.lines, patternKey);
  }
}
/** The `while` suggestion, re-indented: the loop body at one unit below the anchor's indent and
    the closing brace back at the anchor's indent. */
module WhileIndent {
  import opened Text
  import opened Patterns
  import opened Layout

  /** The loop body's first line loses its four spaces of indentation. */
  lemma BodyTrimmed()
    ensures TrimStart(WhileFragments[1]) == "System.out.println(x);"
  {
    LeadingSpaceCountIs(WhileFragments[1], 4);
    assert WhileFragments[1][4..] == "System.out.println(x);";
  }

  /** So does its second line. */
  lemma StepTrimmed()
    ensures TrimStart(WhileFragments[2]) == "x++;"
  {
    LeadingSpaceCountIs(WhileFragments[2], 4);
    assert WhileFragments[2][4..] == "x++;";
  }

  /** The closing brace has no indentation of its own. */
  lemma BraceTrimmed()
    ensures TrimStart(WhileFragments[3]) == "}"
  {
    LeadingSpaceCountIs(WhileFragments[3], 0);
  }

  /** The first fragment ends with the brace that opens the loop body. */
  lemma HeadOpens()
    ensures OpensBlock(Trim(WhileFragments[0]))
  {
    LeadingSpaceCountIs(WhileFragments[0], 1);
    var first := TrimStart(WhileFragments[0]);
    assert first == "(x < 10) {";
    assert TrailingSpaceCount(first) == 0;
  }

  /** Neither body line opens or closes a block. */
  lemma BodyIsFlat()
    ensures !OpensBlock("System.out.println(x);") && !ClosesBlock("System.out.println(x);")
    ensures !OpensBlock("x++;") && !ClosesBlock("x++;")
  {
    assert TrailingSpaceCount("System.out.println(x);") == 0;
    assert TrailingSpaceCount("x++;") == 0;
  }

  /** The depth is one from the first fragment to the closing brace. */
  lemma WhileDepths()
    ensures DepthBefore(WhileFragments, 1) == 1
    ensures DepthBefore(WhileFragments, 2) == 1
    ensures DepthBefore(WhileFragments, 3) == 1
  {
    HeadOpens();
    BodyTrimmed();
    StepTrimmed();
    BodyIsFlat();
    assert DepthBefore(WhileFragments, 2) == NextDepth(1, WhileFragments[1]);
    assert DepthBefore(WhileFragments, 3) == NextDepth(1, WhileFragments[2]);
  }

  /** A later fragment that keeps the depth it is laid out at. */
  lemma IndentAtDepth(baseIndent: string, unit: string, depth: nat, fragment: string, text: string)
    requires TrimStart(fragment) == text && !ClosesBlock(text)
    ensures IndentLine(baseIndent, unit, depth, fragment) == baseIndent + Repeat(unit, depth) + text
  {
  }

  /** A later fragment that starts with a closing bracket, laid out at depth one. */
  lemma IndentClosing(baseIndent: string, unit: string, fragment: string, text: string)
    requires TrimStart(fragment) == text && ClosesBlock(text)
    ensures IndentLine(baseIndent, unit, 1, fragment) == baseIndent + text
  {
    assert baseIndent + Repeat(unit, 0) == baseIndent;
  }

  /** The loop body's lines, one `unit` below the anchor's indent. */
  lemma WhileBodyLines(baseIndent: string, unit: string)
    ensures IndentedAt(baseIndent, unit, WhileFragments, 1) == baseIndent + unit + "System.out.println(x);"
    ensures IndentedAt(baseIndent, unit, WhileFragments, 2) == baseIndent + unit + "x++;"
  {
    WhileDepths();
    BodyTrimmed();
    StepTrimmed();
    BodyIsFlat();
    assert Repeat(unit, 1) == unit;
    IndentAtDepth(baseIndent, unit, 1, WhileFragments[1], "System.out.println(x);");
    IndentAtDepth(baseIndent, unit, 1, WhileFragments[2], "x++;");
  }

  /** The closing brace, at the anchor's indent. */
  lemma WhileBraceLine(baseIndent: string, unit: string)
    ensures IndentedAt(baseIndent, unit, WhileFragments, 3) == baseIndent + "}"
  {
    WhileDepths();
    BraceTrimmed();
    IndentClosing(baseIndent, unit, WhileFragments[3], "}");
  }

  /** A sequence of four elements, element by element. */
  lemma SeqOfFour<T>(r: seq<T>, a: T, b: T, c: T, d: T)
    requires |r| == 4 && r[0] == a && r[1] == b && r[2] == c && r[3] == d
    ensures r == [a, b, c, d]
  {
  }

  /** The `while` rule's fragments as `buildIndentedSuggestionLines` lays them out under an anchor
      indented by `baseIndent`: the first kept as it is, the two body lines one `unit` deeper than
      the anchor, and the closing brace at the anchor's indent. */
  lemma WhileNestsOnce(baseIndent: string, unit: string)
    ensures IndentedLines(baseIndent, unit, WhileFragments)
         == [WhileFragments[0], baseIndent + unit + "System.out.println(x);",
             baseIndent + unit + "x++;", baseIndent + "}"]
  {
    WhileBodyLines(baseIndent, unit);
    WhileBraceLine(baseIndent, unit);
    var r := IndentedLines(baseIndent, unit, WhileFragments);
    assert r[1] == IndentedAt(baseIndent, unit, WhileFragments, 1);
    assert r[2] == IndentedAt(baseIndent, unit, WhileFragments, 2);
    assert r[3] == IndentedAt(baseIndent, unit, WhileFragments, 3);
    SeqOfFour(r, WhileFragments[0], baseIndent + unit + "System.out.println(x);",
              baseIndent + unit + "x++;", baseIndent + "}");
  }
}
