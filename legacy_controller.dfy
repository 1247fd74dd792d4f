/**
 * The older controller, `SuggestionController` of `extension.js`. It keeps its own copy of the
 * rule table, shows the fragments as they are (no re-indentation, no preview spacer, no request
 * counter) and records the rule key on the pending suggestion only after showing it. Acceptance
 * puts the anchor line's own indentation in front of every later fragment.
 * `showSuggestion` is declared `async` but awaits nothing, so a call that is not awaited still
 * completes before the caller's next statement; `acceptSuggestion`'s one `await` is an atomic step.
 */
module LegacyController {
  import opened Wrappers
  import opened Text
  import opened Host
  import opened Patterns
  import opened Matching
  import opened Layout
  import Controller

  // ---------------------------------------------------------------- rule table

  /** The variable `int` rule of this table: `\bint\s+(\w+)\b`, with neither the line-start anchor
      nor the exclusion of `int[` of the newer table. */
  const LegacyIntRule := Rule(Regex("\\bint\\s+(\\w+)\\b"), IntReadBuilder)

  /** `this.patterns`: the Scanner rule and the looser `int` rule, and the twelve generic rules of
      `createPatterns`. */
  function LegacyPatterns(): (t: PatternTable)
    ensures t.generic == CreatePatterns().generic
    ensures |t.variableDependent| == 2 && t.variableDependent[0] == CreatePatterns().variableDependent[0]
    ensures t.variableDependent[1] != CreatePatterns().variableDependent[1]
    ensures t.variableDependent[1].template == CreatePatterns().variableDependent[1].template
  {
    PatternTable([ScannerRule, LegacyIntRule], GenericRules)
  }

  /** Every rule of the older table offers a non-empty list of single-line fragments. */
  lemma LegacyPatternsWellFormed()
    ensures WellFormedTable(LegacyPatterns())
  {
    CreatePatternsWellFormed();
    var old_ := ScanOrder(CreatePatterns());
    var rules := ScanOrder(LegacyPatterns());
    assert forall i | 0 <= i < 13 :: rules[i] == old_[i];
    assert rules[13].template == old_[13].template;
    assert WellFormedRule(old_[13]);
  }

  /** The fourteen triggers of the older table are different too, so a key names one rule. */
  lemma LegacyPatternsKeysDistinct()
    ensures DistinctKeys(ScanOrder(LegacyPatterns()))
  {
    CreatePatternsKeysDistinct();
    var old_ := ScanOrder(CreatePatterns());
    var rules := ScanOrder(LegacyPatterns());
    assert forall i | 0 <= i < 13 :: rules[i] == old_[i];
    LegacyIntTriggerIsNew(rules);
    forall i, j | 0 <= i < j < |rules| ensures Key(rules[i].trigger) != Key(rules[j].trigger) {
      if j < 13 {
        assert Key(old_[i].trigger) != Key(old_[j].trigger);
      } else if Key(rules[i].trigger) == Key(rules[j].trigger) {
        KeyInjective(rules[i].trigger, rules[j].trigger);
      }
    }
  }

  /** The looser `int` trigger is none of the thirteen before it. */
  lemma LegacyIntTriggerIsNew(rules: seq<Rule>)
    requires rules == ScanOrder(LegacyPatterns())
    ensures |rules| == 14 && forall i | 0 <= i < 13 :: rules[i].trigger != rules[13].trigger
  {
  }

  /** Both tables agree wherever the `int` rules are not the ones that decide: when some generic rule
      fits, or the Scanner rule does, the older and the newer lookups give the same result. */
  lemma LegacyLookupAgrees(s: Suppression, exec: RegexEngine, lineText: string, lineNumber: Option<nat>)
    requires FirstHit(GenericRules, exec, lineText).Some? || Fits(exec, ScannerRule, lineText)
    ensures FindTriggerMatch(LegacyPatterns(), s, exec, lineText, lineNumber)
            == FindTriggerMatch(CreatePatterns(), s, exec, lineText, lineNumber)
  {
    if FirstHit(GenericRules, exec, lineText).None? {
      assert FirstHit(LegacyPatterns().variableDependent, exec, lineText) == Some(0);
      assert FirstHit(CreatePatterns().variableDependent, exec, lineText) == Some(0);
    }
  }

  /** `int secret = rng` and `int avg` also fit the looser `int` rule; with the generic rules
      scanned first it is never the one reported on such a line. */
  lemma LegacyGenericIntRulesWin(s: Suppression, exec: RegexEngine, lineText: string, lineNumber: Option<nat>)
    requires Fits(exec, SecretRule, lineText) || Fits(exec, AverageCallRule, lineText)
    ensures var r := FindTriggerMatch(LegacyPatterns(), s, exec, lineText, lineNumber);
            r.Some? ==> r.value.kind == Generic
  {
    var t := LegacyPatterns();
    assert t.generic[6] == SecretRule && t.generic[11] == AverageCallRule;
  }

  // ---------------------------------------------------------------- acceptance text

  /** The suggestion lines `acceptSuggestion` writes: the first fragment as it is, every later one
      behind the anchor line's indentation `currentIndent`. */
  function LegacyIndentedLines(currentIndent: string, lines: seq<string>): (r: seq<string>)
    ensures |r| == |lines|
  {
    seq(|lines|, i requires 0 <= i < |lines| => if i == 0 then lines[0] else currentIndent + lines[i])
  }

  /** The loop of `acceptSuggestion` building `fullText`. */
  method LegacyJoinAccepted(currentLine: string, currentIndent: string, lines: seq<string>)
    returns (fullText: string)
    ensures fullText == AcceptedText(currentLine, LegacyIndentedLines(currentIndent, lines))
  {
    ghost var spec := LegacyIndentedLines(currentIndent, lines);
    fullText := currentLine;
    var i := 0;
    while i < |lines|
      invariant 0 <= i <= |lines|
      invariant fullText == currentLine + Join(spec[..i], "\n")
    {
      var suggestionLine := lines[i];
      PrefixSnoc(spec, i);
      if i == 0 {
        fullText := fullText + suggestionLine;
      } else {
        JoinSnoc(spec[..i], "\n", currentIndent + suggestionLine);
        fullText := fullText + "\n" + currentIndent + suggestionLine;
      }
      i := i + 1;
    }
    assert spec[..|lines|] == spec;
  }

  /** Accepting in the older controller adds one document line per fragment after the first: the anchor
      line gets the first fragment appended, line `lineNumber + k` is the anchor's indentation followed
      by fragment `k` verbatim, and every other line is kept. */
  lemma LegacyAcceptedDocument(lines: seq<string>, lineNumber: nat, fragments: seq<string>)
    requires IsDocument(lines) && lineNumber < |lines|
    requires forall i | 0 <= i < |fragments| :: IsLine(fragments[i])
    ensures var indent := LeadingSpace(lines[lineNumber]);
            var r := ReplaceLine(lines, lineNumber, AcceptedText(lines[lineNumber], LegacyIndentedLines(indent, fragments)));
            var added := if fragments == [] then 0 else |fragments| - 1;
            IsDocument(r) && |r| == |lines| + added
            && r[..lineNumber] == lines[..lineNumber]
            && r[lineNumber] == lines[lineNumber] + (if fragments == [] then "" else fragments[0])
            && (forall k | 1 <= k < |fragments| :: r[lineNumber + k] == indent + fragments[k])
            && r[lineNumber + 1 + added..] == lines[lineNumber + 1..]
  {
    var current := lines[lineNumber];
    var indent := LeadingSpace(current);
    var indented := LegacyIndentedLines(indent, fragments);
    assert IsLine(indent) by {
      SliceIsLine(current, 0, LeadingSpaceCount(current));
      assert indent == current[0..LeadingSpaceCount(current)];
    }
    assert forall k | 1 <= k < |fragments| :: indented[k] == indent + fragments[k];
    assert fragments != [] ==> indented[0] == fragments[0];
    forall i | 0 <= i < |indented|
      ensures IsLine(indented[i])
    {
      if i > 0 {
        assert indented[i] == indent + fragments[i];
      }
    }
    AcceptedDocument(lines, lineNumber, indented);
  }

  /** On a flat suggestion the two controllers write the same lines: when the first fragment does not
      open a block and no later fragment opens one or carries its own indentation, the newer
      re-indentation is exactly the older one's prefixing with the anchor's indentation. */
  lemma FlatReindentIsLegacy(baseIndent: string, unit: string, fragments: seq<string>)
    requires fragments != [] && FirstDepth(fragments[0]) == 0
    requires forall i | 1 <= i < |fragments| :: TrimStart(fragments[i]) == fragments[i] && !OpensBlock(fragments[i])
    ensures IndentedLines(baseIndent, unit, fragments) == LegacyIndentedLines(baseIndent, fragments)
  {
    var a := IndentedLines(baseIndent, unit, fragments);
    var b := LegacyIndentedLines(baseIndent, fragments);
    forall i | 0 <= i < |fragments|
      ensures a[i] == b[i]
    {
      if i > 0 {
        FlatDepth(fragments, i);
        FlatLine(baseIndent, unit, fragments[i]);
        assert TrimStart(fragments[i]) == fragments[i];
        assert a[i] == IndentLine(baseIndent, unit, 0, fragments[i]);
      }
    }
  }

  /** An unindented fragment at depth zero is put right behind the anchor's indentation. */
  lemma FlatLine(baseIndent: string, unit: string, fragment: string)
    ensures IndentLine(baseIndent, unit, 0, fragment) == baseIndent + TrimStart(fragment)
  {
    assert LevelOf(0, fragment) == 0;
    assert Repeat(unit, 0) == "";
    assert baseIndent + "" == baseIndent;
  }

  /** On a flat suggestion the brace depth stays zero. */
  lemma {:induction false} FlatDepth(fragments: seq<string>, i: nat)
    requires 1 <= i <= |fragments| && FirstDepth(fragments[0]) == 0
    requires forall j | 1 <= j < |fragments| :: TrimStart(fragments[j]) == fragments[j] && !OpensBlock(fragments[j])
    ensures DepthBefore(fragments, i) == 0
    decreases i
  {
    if i > 1 {
      FlatDepth(fragments, i - 1);
      assert TrimStart(fragments[i - 1]) == fragments[i - 1];
      assert NextDepth(0, fragments[i - 1]) == 0;
    }
  }

  // ---------------------------------------------------------------- layout

  /** With fewer than three blank lines below, the `while` suggestion is shown on one line: its four
      fragments joined by spaces, after the anchor line. */
  lemma LegacyWhileOnOneLine(lines: seq<string>, lineNumber: nat)
    requires lineNumber < |lines| && BlankRunAfter(lines, lineNumber) < 3
    ensures var w := WhileFragments;
            var r := Present(lineNumber, w, w, w, lines, None);
            r.Some? && r.value.pending.displayMode == Single
            && r.value.decorations == [Overlay(lineNumber, w[0] + " " + w[1] + " " + w[2] + " " + w[3])]
  {
    var w := WhileFragments;
    PresentLayout(lineNumber, w, w, w, lines, None);
    JoinFour(w, " ");
  }

  /** The state an edit of the existing line `lineNumber` leaves, given the match `m` found on it, the
      document `doc` and the pending suggestion, accepted lines and overlays before (`pending0`,
      `accepted0`, `overlays0`) and after (`pending`, `accepted`, `overlays`). An accepted line that
      still matches is left alone; no match un-accepts the line and removes a suggestion pending there;
      a match on a line not accepted shows its fragments as they are, keyed by its rule. */
  predicate EditOutcome(m: Option<TriggerMatch>, lineNumber: nat, doc: seq<string>,
                        pending0: Option<Pending>, accepted0: set<nat>, overlays0: seq<Overlay>,
                        pending: Option<Pending>, accepted: set<nat>, overlays: seq<Overlay>)
  {
    var pendingHere := pending0.Some? && pending0.value.line == lineNumber;
    (lineNumber in accepted0 && m.Some? ==>
       pending == pending0 && accepted == accepted0 && overlays == overlays0)
    && (m.None? ==>
          accepted == accepted0 - {lineNumber}
          && (pendingHere ==> pending.None? && overlays == [])
          && (!pendingHere ==> pending == pending0 && overlays == overlays0))
    && (lineNumber !in accepted0 && m.Some? ==>
          var shown := Present(lineNumber, m.value.suggestion, m.value.suggestion, m.value.suggestion,
                               doc, Some(m.value.key));
          accepted == accepted0 && shown.Some?
          && pending == Some(shown.value.pending) && overlays == shown.value.decorations)
  }

  // ---------------------------------------------------------------- the controller

  class SuggestionController {
    const patterns: PatternTable
    const exec: RegexEngine
    var pendingSuggestion: Option<Pending>
    var acceptedLines: set<nat>
    var isAccepting: bool
    var superpressedPatterns: Suppression

    /** Every rule of the table offers lines, and so do the fragments of a pending suggestion. */
    ghost predicate Valid()
      reads this`pendingSuggestion
    {
      WellFormedTable(patterns) && (pendingSuggestion.Some? ==> AllLines(pendingSuggestion.value.lines))
    }

    /** A controller over its own rule table, with nothing pending. */
    constructor (exec: RegexEngine)
      ensures Valid() && patterns == LegacyPatterns() && this.exec == exec
      ensures pendingSuggestion.None? && acceptedLines == {} && !isAccepting && superpressedPatterns == map[]
    {
      LegacyPatternsWellFormed();
      patterns := LegacyPatterns();
      this.exec := exec;
      pendingSuggestion := None;
      acceptedLines := {};
      isAccepting := false;
      superpressedPatterns := map[];
    }

    /** `showSuggestion(editor, lineNumber, suggestionLines)`: the blank lines below decide the layout;
        single-line mode on a missing anchor line throws in `lineAt` and changes nothing; otherwise the
        fragments themselves are the overlay text and the pending suggestion, with no key yet. */
    method ShowSuggestion(editor: Editor, lineNumber: nat, suggestionLines: seq<string>)
      requires Valid()
      modifies this`pendingSuggestion, editor`decorations
      ensures AllLines(suggestionLines) ==> Valid()
      ensures var shown := Present(lineNumber, suggestionLines, suggestionLines, suggestionLines, editor.lines, None);
              (shown.Some? ==>
                 editor.decorations == shown.value.decorations && pendingSuggestion == Some(shown.value.pending))
              && (shown.None? ==>
                    editor.decorations == old(editor.decorations) && pendingSuggestion == old(pendingSuggestion))
    {
      var lines := suggestionLines;
      ghost var shown := Present(lineNumber, lines, lines, lines, editor.lines, None);
      var availableLines := Controller.CountAvailableEmptyLines(editor.lines, lineNumber);
      var needsMultiLine := |lines| > 1;
      var hasEnoughSpace := availableLines >= |lines| - 1;
      var useSingleLine := needsMultiLine && !hasEnoughSpace;
      assert useSingleLine == UseSingleLine(|lines|, BlankRunAfter(editor.lines, lineNumber));
      var decorations: seq<Overlay>;
      if useSingleLine {
        if lineNumber >= |editor.lines| {
          return;
        }
        decorations := [Overlay(lineNumber, Join(lines, " "))];
      } else {
        decorations := Controller.MultiLineDecorations(editor.lines, lineNumber, lines);
      }
      var pending := Pending(lineNumber, Join(lines, "\n"), lines, if useSingleLine then Single else Multi, None);
      assert shown == Some(Shown(decorations, pending));
      editor.decorations := decorations;
      pendingSuggestion := Some(pending);
    }

    /** `removeSuggestion(editor)`: the overlays of the editor, if there is one, are removed, and
        nothing is pending. */
    method RemoveSuggestion(editor: Editor?)
      requires Valid()
      modifies this`pendingSuggestion, editor
      ensures Valid()
      ensures pendingSuggestion.None?
      ensures editor != null ==>
                editor.decorations == [] && editor.lines == old(editor.lines) && editor.selection == old(editor.selection)
    {
      if editor != null {
        editor.decorations := [];
      }
      pendingSuggestion := None;
    }

    /** `acceptSuggestion(editor)`. Nothing happens without a pending suggestion or while an
        acceptance runs. Otherwise, when the anchor line exists, it is replaced by its text followed by
        the fragments, every later one behind the anchor's indentation; the line is marked accepted,
        the suggestion removed and the cursor put at the end of the last inserted line when that line
        exists. A missing anchor line throws and is caught: only the busy flag is reset. */
    method AcceptSuggestion(editor: Editor)
      requires Valid() && editor.Valid()
      modifies this`isAccepting, this`acceptedLines, this`pendingSuggestion, editor
      ensures Valid() && editor.Valid()
      ensures old(pendingSuggestion.None? || isAccepting) ==>
                isAccepting == old(isAccepting) && acceptedLines == old(acceptedLines)
                && pendingSuggestion == old(pendingSuggestion) && editor.lines == old(editor.lines)
                && editor.decorations == old(editor.decorations) && editor.selection == old(editor.selection)
      ensures old(pendingSuggestion.Some? && !isAccepting) ==>
                var ln := old(pendingSuggestion.value.line);
                var fragments := old(pendingSuggestion.value.lines);
                var doc := old(editor.lines);
                !isAccepting
                && (ln >= |doc| ==>
                      editor.lines == doc && acceptedLines == old(acceptedLines)
                      && pendingSuggestion == old(pendingSuggestion)
                      && editor.decorations == old(editor.decorations) && editor.selection == old(editor.selection))
                && (ln < |doc| ==>
                      |editor.lines| == |doc| + (if fragments == [] then 0 else |fragments| - 1)
                      && editor.lines == ReplaceLine(doc, ln, AcceptedText(doc[ln],
                                                  LegacyIndentedLines(LeadingSpace(doc[ln]), fragments)))
                      && acceptedLines == old(acceptedLines) + {ln}
                      && pendingSuggestion.None? && editor.decorations == []
                      && var last := ln + |fragments| - 1;
                         (0 <= last < |editor.lines| ==> editor.selection == Position(last, |editor.lines[last]|))
                         && (!(0 <= last < |editor.lines|) ==> editor.selection == old(editor.selection)))
    {
      if pendingSuggestion.None? || isAccepting {
        return;
      }
      isAccepting := true;
      var lineNumber := pendingSuggestion.value.line;
      var lines := pendingSuggestion.value.lines;
      if lineNumber >= |editor.lines| {
        isAccepting := false;
        return;
      }
      LegacyAcceptedDocument(editor.lines, lineNumber, lines);
      var currentLine := editor.lines[lineNumber];
      var currentIndent := LeadingSpace(currentLine);
      var fullText := LegacyJoinAccepted(currentLine, currentIndent, lines);
      editor.lines := ReplaceLine(editor.lines, lineNumber, fullText);
      acceptedLines := acceptedLines + {lineNumber};
      RemoveSuggestion(editor);
      var lastLineNumber := lineNumber + |lines| - 1;
      if 0 <= lastLineNumber < |editor.lines| {
        editor.selection := Position(lastLineNumber, |editor.lines[lastLineNumber]|);
      }
      isAccepting := false;
    }

    /** One entry of `event.contentChanges` in `handleTextChange`; `aborted` when the change starts on
        a line the document does not have, where `lineAt` throws and the handler stops. The document
        and the cursor are never changed here. */
    method HandleChange(editor: Editor, change: Controller.Change) returns (aborted: bool)
      requires Valid()
      modifies this`pendingSuggestion, this`acceptedLines, this`superpressedPatterns, editor
      ensures Valid()
      ensures editor.lines == old(editor.lines) && editor.selection == old(editor.selection)
      ensures aborted <==> change.line >= |editor.lines|
      ensures aborted ==>
                pendingSuggestion == old(pendingSuggestion) && acceptedLines == old(acceptedLines)
                && editor.decorations == old(editor.decorations)
      ensures superpressedPatterns ==
                if !aborted && Controller.Suppresses(old(pendingSuggestion), change)
                then Suppress(old(superpressedPatterns), change.line, old(pendingSuggestion).value.patternKey.value)
                else old(superpressedPatterns)
      ensures acceptedLines <= old(acceptedLines)
      ensures !aborted && Controller.IsDeletion(change) ==>
                pendingSuggestion.None? && editor.decorations == []
                && acceptedLines == (if Controller.SuppressesOn(old(pendingSuggestion), change.line)
                                     then old(acceptedLines) else old(acceptedLines) - {change.line})
      ensures !aborted && !Controller.IsDeletion(change) ==>
                EditOutcome(FindTriggerMatch(patterns, superpressedPatterns, exec, editor.lines[change.line],
                                             Some(change.line)),
                            change.line, editor.lines,
                            old(pendingSuggestion), old(acceptedLines), old(editor.decorations),
                            pendingSuggestion, acceptedLines, editor.decorations)
    {
      var lineNumber := change.line;
      if lineNumber >= |editor.lines| {
        return true;
      }
      var lineText := editor.lines[lineNumber];
      if Controller.IsDeletion(change) {
        HandleDeletion(editor, lineNumber);
      } else {
        HandleEdit(editor, lineNumber, lineText);
      }
      return false;
    }

    /** The deletion branch of `handleTextChange`: a deletion on the pending suggestion's line whose
        rule key is set suppresses that key on the line; any other deletion un-accepts the line.
        Either way the suggestion is removed. */
    method HandleDeletion(editor: Editor, lineNumber: nat)
      requires Valid()
      modifies this`pendingSuggestion, this`acceptedLines, this`superpressedPatterns, editor
      ensures Valid()
      ensures editor.lines == old(editor.lines) && editor.selection == old(editor.selection)
      ensures var suppresses := Controller.SuppressesOn(old(pendingSuggestion), lineNumber);
              superpressedPatterns == (if suppresses
                                       then Suppress(old(superpressedPatterns), lineNumber,
                                                     old(pendingSuggestion).value.patternKey.value)
                                       else old(superpressedPatterns))
              && acceptedLines == (if suppresses then old(acceptedLines) else old(acceptedLines) - {lineNumber})
      ensures pendingSuggestion.None? && editor.decorations == []
    {
      if pendingSuggestion.Some? && pendingSuggestion.value.line == lineNumber {
        var patternKey := pendingSuggestion.value.patternKey;
        if Controller.Truthy(patternKey) {
          superpressedPatterns := Suppress(superpressedPatterns, lineNumber, patternKey.value);
          RemoveSuggestion(editor);
          return;
        }
      }
      RemoveSuggestion(editor);
      // The source removes the line once more when its trimmed text is empty; that second removal
      // changes nothing and is not repeated here.
      acceptedLines := acceptedLines - {lineNumber};
    }

    /** The branch of `handleTextChange` for any other change of the existing line `lineNumber`, whose
        text is `lineText`. An accepted line that still matches is left alone; one that no longer
        matches is un-accepted. A match replaces the pending suggestion by the match's fragments,
        shown as they are and carrying the match's key; no match removes a suggestion pending on the
        line. */
    method HandleEdit(editor: Editor, lineNumber: nat, lineText: string)
      requires lineNumber < |editor.lines| && Valid()
      modifies this`pendingSuggestion, this`acceptedLines, editor
      ensures Valid()
      ensures editor.lines == old(editor.lines) && editor.selection == old(editor.selection)
      ensures EditOutcome(FindTriggerMatch(patterns, superpressedPatterns, exec, lineText, Some(lineNumber)),
                          lineNumber, editor.lines,
                          old(pendingSuggestion), old(acceptedLines), old(editor.decorations),
                          pendingSuggestion, acceptedLines, editor.decorations)
    {
      if lineNumber in acceptedLines {
        var stillMatching := FindTriggerMatch(patterns, superpressedPatterns, exec, lineText, Some(lineNumber));
        if stillMatching.None? {
          acceptedLines := acceptedLines - {lineNumber};
        } else {
          return;
        }
      }
      var m := FindTriggerMatch(patterns, superpressedPatterns, exec, lineText, Some(lineNumber));
      MatchOffersLines(patterns, superpressedPatterns, exec, lineText, Some(lineNumber));
      if m.Some? {
        SuggestMatch(editor, lineNumber, m.value);
      } else if pendingSuggestion.Some? && pendingSuggestion.value.line == lineNumber {
        RemoveSuggestion(editor);
      }
    }

    /** A match on the existing line `lineNumber`: the pending suggestion, if any, is removed, the
        match's fragments are shown, and the key of the match is stored on the new pending
        suggestion. */
    method SuggestMatch(editor: Editor, lineNumber: nat, m: TriggerMatch)
      requires lineNumber < |editor.lines| && Valid() && AllLines(m.suggestion)
      modifies this`pendingSuggestion, editor
      ensures Valid()
      ensures editor.lines == old(editor.lines) && editor.selection == old(editor.selection)
      ensures var shown := Present(lineNumber, m.suggestion, m.suggestion, m.suggestion, editor.lines, Some(m.key));
              shown.Some? && pendingSuggestion == Some(shown.value.pending) && editor.decorations == shown.value.decorations
    {
      if pendingSuggestion.Some? {
        RemoveSuggestion(editor);
      }
      PresentLayout(lineNumber, m.suggestion, m.suggestion, m.suggestion, editor.lines, None);
      ShowSuggestion(editor, lineNumber, m.suggestion);
      if pendingSuggestion.Some? {
        pendingSuggestion := Some(pendingSuggestion.value.(patternKey := Some(m.key)));
      }
    }

    /** `handleTextChange(event)` for the active editor (`null` when there is none): nothing while an
        acceptance runs; otherwise every change in order, stopping at one that names a missing line.
        Suppression only grows, no line becomes accepted, and the document and the cursor are left as
        they are. */
    method HandleTextChange(editor: Editor?, changes: seq<Controller.Change>)
      requires Valid()
      modifies this`pendingSuggestion, this`acceptedLines, this`superpressedPatterns, editor
      ensures Valid()
      ensures editor == null || old(isAccepting) ==>
                pendingSuggestion == old(pendingSuggestion) && acceptedLines == old(acceptedLines)
                && superpressedPatterns == old(superpressedPatterns)
      ensures editor != null && old(isAccepting) ==> editor.decorations == old(editor.decorations)
      ensures Grows(old(superpressedPatterns), superpressedPatterns)
      ensures acceptedLines <= old(acceptedLines)
      ensures editor != null ==> editor.lines == old(editor.lines) && editor.selection == old(editor.selection)
    {
      if editor == null || isAccepting {
        return;
      }
      var i := 0;
      while i < |changes|
        invariant Valid()
        invariant Grows(old(superpressedPatterns), superpressedPatterns)
        invariant acceptedLines <= old(acceptedLines)
        invariant editor.lines == old(editor.lines) && editor.selection == old(editor.selection)
      {
        ghost var before := superpressedPatterns;
        var aborted := HandleChange(editor, changes[i]);
        GrowsTransitive(old(superpressedPatterns), before, superpressedPatterns);
        if aborted {
          return;
        }
        i := i + 1;
      }
    }
  }
}
