# AntiCopilot suggestion controllers in Dafny

AntiCopilot is a VS Code add-on that shows deliberately faulty Java completions as grey
ghost text. A rule fires when the line being typed matches its regular expression. A
deletion on the line of the pending suggestion suppresses that rule on that line for
good. Accepting writes the suggestion into the document.

This project models the two versions of the controller and the rule table they read:

- `SuggestionController` in `src/SuggestionController.js` (module `Controller`, with the
  pure parts in `Layout` and `Preview`):
  - it re-indents later fragments by brace depth under the anchor line's indentation;
  - it makes room for a multi-line preview by inserting empty lines below the anchor
    (the *preview spacer*) and deletes them again;
  - it drops renders that a newer request has overtaken.
- The older `SuggestionController` in `extension.js` (module `LegacyController`):
  - it shows fragments as they are and never edits the document while typing;
  - it prefixes every later fragment with the anchor's indentation on acceptance.
- `createPatterns` in `src/patterns.js` (module `Patterns`).
- `findTriggerMatch`, which both controllers share (module `Matching`).
  - Generic rules are scanned before variable-dependent ones. The first rule that fits
    decides.
  - If that rule's key is suppressed on the line, nothing is reported, even when a
    later rule fits.
  - The key is the trigger's `toString()`; `Patterns.KeyInjective` shows distinct
    triggers give distinct keys.

State-changing operations are methods of a Dafny `class` over the same fields as the
source. They are proved against functions of the model:
`EnsurePreview`, `ClearPreview`, `IndentedLines`, `Present`, `AcceptedText`,
`ReplaceLine`, `FindTriggerMatch` and `Suppress`. The loops that compute a value are
`while` loops with their invariants: re-indentation, counting blank lines, building
overlays and joining the accepted text. Two kinds of `for … of` scan that return at the
first hit are recursive functions instead. In `removeLeadingTokens`, the sort and the
scan together become `Layout.LongestPrefixToken`. The pattern scans of both
`findTriggerMatch` methods become `Matching.FirstHit`.

Some behaviours the model follows:

- **Suppression does not fall through.** When the first rule that fits is suppressed,
  `findTriggerMatch` returns `null`; it does not try the next rule. The in-code comment
  says "Skip suppressed patterns", but the model follows the code
  (`Matching.SuppressedWhileHidesScanner`).
- **Preview round trip.** Inserting room and then clearing it gives the document back
  whenever the line below the anchor exists (`Preview.EnsureThenClearRestores`).
- **Round trip at the end of the document.** On the last line, the clamp of the delete
  range to `lineCount - 1` keeps one of the inserted lines, so one extra empty line is
  left (`Preview.EnsureThenClearAtEnd`).
- **Invariants kept by every event.** `Editor.Valid()` says the document has at least one
  line and no line holds a line break. Each controller's `Valid()` says its rule table offers
  line-free fragments and so does the pending suggestion. Every method of both controllers
  keeps both; `ShowSuggestion` keeps the controller's when the fragments it is given are
  line-free, and the fragments left after the typed part is cut off stay free of line
  breaks (`Controller.RemainingAreLines`). The `while` rule is re-indented with its body one
  level inside the anchor's indentation (`WhileIndent.WhileNestsOnce`).
- **Multi-line layout after room is made.** The current controller always ends in
  multi-line layout once room has been made (`Controller.ShownIsMultiLine`). The older
  one falls back to one line when the blank lines below are too few
  (`LegacyController.LegacyWhileOnOneLine`).

Modelling conventions:

- **Regular expressions are a parameter.** A value `exec: (source, text) -> Option<RegexMatch>`
  stands for `new RegExp(source).exec(text)`.
- **The document** is a sequence of lines split at `\n`.
- **`editor.options`** is an `EditorOptions` value.
- **Atomic awaits.** Every `await` is one atomic step, so an asynchronous method runs to
  completion where it is called.
- **`lineAt` out of range** ends the operation at that point. In the source this is a
  thrown error: a rejected promise, or a caught error where the source catches it.

## Model

| member | source | states |
|---|---|---|
| Patterns.Key | src/SuggestionController.js:172 | the suppression key is the trigger source between two slashes |
| Patterns.KeyInjective | src/SuggestionController.js:172 | two triggers with the same key are the same trigger |
| Patterns.Suggestion | src/patterns.js:4-80 | a fixed rule offers its list; the Scanner and `int` builders offer their one fragment whatever the name |
| Patterns.SuggestionIgnoresName | src/patterns.js:5-12 | the builders ignore the captured variable name |
| Patterns.CreatePatterns | src/patterns.js:1-82 | two variable-dependent rules (Scanner builder, then `int` builder) and twelve fixed generic rules |
| Patterns.CreatePatternsWellFormed | src/patterns.js:1-82 | every rule offers a non-empty list of fragments without line breaks |
| Patterns.CreatePatternsKeysDistinct | src/patterns.js:1-82 | the fourteen keys are pairwise different, so a suppressed key names one rule |
| Matching.FirstHit | src/SuggestionController.js:169-171 | the index of the first rule whose trigger matches; no earlier rule matches; `None` only when none matches |
| Matching.FirstHitAppend | src/SuggestionController.js:167-221 | scanning generic-then-variable rules is scanning the first list, then the second |
| Matching.Suppress | src/SuggestionController.js:449-455 | the key joins the line's set (created when missing); other lines untouched; suppression only grows |
| Matching.SuppressedStaysHidden | src/SuggestionController.js:442-458 | a key suppressed on a line is never reported on that line, however the map grows later |
| Matching.Resolve | src/SuggestionController.js:172-191 | the first fitting rule is reported with its key unless that key is suppressed on the line |
| Matching.FindTriggerMatch | src/SuggestionController.js:167-221 | a result is unsuppressed, its trigger matches the line, variable matches happen only when no generic rule fits and carry capture group 1; no fitting rule gives `null` |
| Matching.FindTriggerMatchScansInOrder | src/SuggestionController.js:167-221 | a result exists iff some rule fits and the first fitting rule's key is not suppressed; it is that rule, of the right kind |
| Matching.FindTriggerMatchSuggestion | src/SuggestionController.js:182-215 | the reported fragments are the first fitting rule's |
| Matching.MatchOffersLines | src/SuggestionController.js:167-221 | with a rule table whose fragments hold no line breaks, a reported match offers fragments without line breaks |
| Matching.SuppressionIsPerLine | src/SuggestionController.js:175-179 | entries for other lines do not change the result |
| Matching.NoLineNoSuppression | src/SuggestionController.js:175 | without a line number the suppression map is not consulted |
| Matching.SuppressedWhileHidesScanner | src/SuggestionController.js:177-179 | with `while` suppressed on a line that also fits the Scanner rule, nothing is suggested |
| Matching.GenericIntRulesWin | src/patterns.js:10-78 | on a line fitting `int secret = rng` or `int avg`, the variable `int` rule is never the one reported |
| Text.TrimStartIsMaximal | src/SuggestionController.js:57 | `trimStart` removes the whole leading whitespace run and nothing after it |
| Text.LeadingSpace | src/SuggestionController.js:41 | the match of `^\s*` followed by the trimmed text is the line |
| Text.LeadingSpaceIsSpace | src/SuggestionController.js:41 | the match of `^\s*` is whitespace only |
| Text.TrimEndIsMaximal | src/SuggestionController.js:51 | trimming the end leaves no trailing whitespace |
| Text.SplitJoin | src/SuggestionController.js:348-354 | lines joined by `\n` split back into the same lines |
| Layout.LongestPrefixToken | src/SuggestionController.js:25-28 | the chosen token is a non-empty prefix from the list, at least as long as every other such token |
| Layout.RemoveLeadingTokens | src/SuggestionController.js:24-30 | the result is a suffix of the text; it is the text iff no non-empty token prefixes it; otherwise the cut part is a token, the longest one that fits |
| Layout.RemoveSingleToken | src/SuggestionController.js:24-30 | with one token: cut when non-empty and a prefix, otherwise unchanged |
| Layout.RemovePrefixSplits | src/SuggestionController.js:24-30 | a prefix token followed by what is left is the text |
| Layout.FirstFragmentIdentity | src/SuggestionController.js:497-514 | the trimmed line followed by the shortened first fragment is the matched text followed by the whole fragment |
| Layout.TabWidth | src/SuggestionController.js:34 | the tab size when it is a positive number, else 2 |
| Layout.IndentUnit | src/SuggestionController.js:32-36 | a tab iff `insertSpaces` is exactly `false`, otherwise tab-size spaces |
| Layout.IndentUnitIsLine | src/SuggestionController.js:32-36 | the indent unit holds no line break |
| Layout.IndentLength | src/SuggestionController.js:79 | the length of the maximal leading run of spaces and tabs |
| Layout.ExpandIndent | src/SuggestionController.js:80 | expanding a run of blanks gives spaces only: one per space, tab-size per tab |
| Layout.ReplaceSpaces | src/SuggestionController.js:80 | every space becomes a no-break space, everything else is kept |
| Layout.RenderDecorationWhitespace | src/SuggestionController.js:77-82 | the leading blank run becomes that many no-break spaces (tabs counted tab-size times); the rest of the line is kept |
| Layout.RenderKeepsUnindentedLine | src/SuggestionController.js:77-82 | a line without leading blanks is shown unchanged |
| Layout.DepthBeforeNext | src/SuggestionController.js:46-72 | the first fragment sets the depth from its own last brace; a later one steps it |
| Layout.IndentedLines | src/SuggestionController.js:38-75 | one output line per fragment |
| Layout.IndentedLinesShape | src/SuggestionController.js:46-72 | the first fragment is kept; a later one is the anchor's indent, some indent units and the fragment without its own indent; a blank one is indentation at the current depth |
| Layout.DepthSteps | src/SuggestionController.js:63-71 | a closing fragment is indented one level less (not below zero); the depth rises after exactly the fragments that end with `{` |
| Layout.DepthIgnoresFragmentIndent | src/SuggestionController.js:57-71 | the depth depends on later fragments only through their trimmed text |
| Layout.ReindentIgnoresFragmentIndent | src/SuggestionController.js:46-72 | the indentation a fragment carries in the rule table is discarded |
| Layout.IndentedLinesAreLines | src/SuggestionController.js:46-72 | re-indented fragments have no line breaks when the inputs have none |
| Layout.IndentLineIsLine | src/SuggestionController.js:67 | one re-indented fragment has no line break |
| Layout.BlankRunFromIsMaximal | src/SuggestionController.js:86-93 | the run is all blank lines and ends at a non-blank line or the end of the document |
| Layout.BlankRunAfterIsMaximal | src/SuggestionController.js:84-95 | the `n` lines right below the line exist and are blank; the next line, if there is one, is not |
| Layout.BlankRunAfterBound | src/SuggestionController.js:84-95 | the run is at most the number of lines below |
| Layout.BlankRunFromInsert | src/SuggestionController.js:151-153 | blank lines put before a run lengthen it by their number |
| Layout.MultiLineOverlays | src/SuggestionController.js:279-296 | fragment i is shown after line `lineNumber + i`, all of them unless the document ends first |
| Layout.DisplayLines | src/SuggestionController.js:241-243 | one overlay text per re-indented line |
| Layout.PresentLayout | src/SuggestionController.js:255-307 | single-line layout iff several fragments and too few blank lines below; then one overlay with all display lines joined by spaces, otherwise overlay i on line `lineNumber + i`; the record keeps the fragments and the key |
| Layout.AcceptedTextLines | src/SuggestionController.js:336-346 | split into lines, the accepted text is the anchor line extended by the first line, then the later ones |
| Layout.AcceptedDocument | src/SuggestionController.js:336-354 | acceptance adds one document line per later fragment, puts the first after the anchor's text and keeps every other line |
| Layout.AcceptKeepsDocument | src/SuggestionController.js:336-354 | acceptance with fragments free of line breaks keeps a well-formed document, one line longer per later fragment |
| Layout.ReplaceLinesShape | src/SuggestionController.js:348-354 | replacing one line by several keeps the lines before and after |
| Preview.BlankLines | src/SuggestionController.js:147 | `n` empty lines |
| Preview.InsertBlankLines | src/SuggestionController.js:146-153 | `n` empty lines before line `anchor`, everything else kept |
| Preview.ClearPreview | src/SuggestionController.js:97-129 | the spacer is forgotten; the document only shrinks and keeps at least one line |
| Preview.Settled | src/SuggestionController.js:134-137 | a spacer that survives belongs to the anchor `lineNumber + 1` |
| Preview.EnsureSteps | src/SuggestionController.js:131-165 | with the line below missing nothing is inserted; otherwise the shortfall of blank lines is inserted, and the edit happens exactly when it is positive |
| Preview.EnsureKeepsAnchor | src/SuggestionController.js:139-164 | after any clear, making room only inserts |
| Preview.EnsureInserts | src/SuggestionController.js:142-159 | a successful insert puts exactly the shortfall of empty lines at `lineNumber + 1` and adds it to that anchor's spacer |
| Preview.GrowInserts | src/SuggestionController.js:142-159 | the same for the state after the clear |
| Preview.EnsureMakesRoom | src/SuggestionController.js:131-165 | afterwards at least `required` blank lines follow the line |
| Preview.GrowMakesRoom | src/SuggestionController.js:142-153 | the same for the state after the clear |
| Preview.InsertLengthensRun | src/SuggestionController.js:146-153 | inserted empty lines lengthen the blank run by their number |
| Preview.ClearRestores | src/SuggestionController.js:112-128 | clearing a spacer inserted into a document gives that document back |
| Preview.EnsureKeepsSpacer | src/SuggestionController.js:131-165 | making room keeps the spacer an insertion into the same document; counts add up at one anchor |
| Preview.GrowKeepsSpacer | src/SuggestionController.js:139-159 | the same for the state after the clear |
| Preview.GrowByKeepsSpacer | src/SuggestionController.js:155-159 | lines inserted at the spacer's anchor join its run |
| Preview.EnsureThenClearRestores | src/SuggestionController.js:97-165 | round trip: making room and then clearing gives the document back when the line below exists |
| Preview.EnsureThenClearAtEnd | src/SuggestionController.js:112 | on the last line, the round trip leaves one extra empty line |
| Preview.ClearKeepsDocument | src/SuggestionController.js:112-122 | clearing keeps a well-formed document |
| Preview.EnsureKeepsDocument | src/SuggestionController.js:131-165 | making room keeps a well-formed document |
| Preview.GrowKeepsDocument | src/SuggestionController.js:146-153 | the insert keeps a well-formed document |
| Preview.InsertKeepsDocument | src/SuggestionController.js:146-153 | inserted empty lines keep a well-formed document |
| Controller.Remaining | src/SuggestionController.js:497-532 | several fragments: same count, only the first shortened; one or none: a single fragment |
| Controller.RemainingCompletesLine | src/SuggestionController.js:497-532 | the trimmed line followed by the first ghost fragment reads as the matched text followed by the rule's first fragment |
| Controller.CutTyped | src/SuggestionController.js:505-532 | several fragments: same count, the first one loses only a prefix; one or none: a single fragment, a suffix of the list joined by commas |
| Controller.RemainingAreLines | src/SuggestionController.js:497-532 | what is left to offer holds no line break when the rule's fragments hold none |
| Controller.IndentFragments | src/SuggestionController.js:43-74 | the loop computes `IndentedLines` |
| Controller.IndentStep | src/SuggestionController.js:47-71 | one iteration gives output i and the depth before iteration i + 1 |
| Controller.IndentFragment | src/SuggestionController.js:57-71 | a later fragment is indented at its level and the depth steps as `NextDepth` says |
| Controller.CountAvailableEmptyLines | src/SuggestionController.js:84-95 | the maximal run of blank lines right below the line |
| Controller.JoinAccepted | src/SuggestionController.js:336-346 | the loop computes the anchor text followed by the lines joined by `\n` |
| Controller.MultiLineDecorations | src/SuggestionController.js:279-296 | the loop computes `MultiLineOverlays` |
| Controller.ShownIsMultiLine | src/SuggestionController.js:246-262 | once room is made, the layout is multi-line and every fragment gets its own overlay |
| Controller.SuggestionController.constructor | src/SuggestionController.js:5-22 | the rule table of `createPatterns`, nothing pending, nothing accepted or suppressed, counter 0, no spacer; both invariants hold |
| Controller.SuggestionController.BuildIndentedSuggestionLines | src/SuggestionController.js:38-75 | no fragments give none; a missing anchor line throws; otherwise `IndentedLines` under the anchor's indentation |
| Controller.SuggestionController.ClearPreviewSpace | src/SuggestionController.js:97-129 | the new document and spacer are `ClearPreview` of the old; the busy flag is back to its old value after a delete |
| Controller.SuggestionController.EnsurePreviewSpace | src/SuggestionController.js:131-165 | the new document and spacer are `EnsurePreview` of the old; the busy flag is back after any edit |
| Controller.SuggestionController.GrowPreviewSpace | src/SuggestionController.js:139-164 | the insert step after a clear, as `Grow` |
| Controller.SuggestionController.ShowSuggestion | src/SuggestionController.js:222-308 | a missing anchor changes nothing; otherwise room is made; a stale request id or a missing single-line anchor leaves overlays and pending as they were; otherwise both are `Present` on the new document; the document stays well formed and, for line-free fragments, so does the controller |
| Controller.SuggestionController.RenderSuggestion | src/SuggestionController.js:255-307 | overlays and pending are `Present` of the lines; a missing single-line anchor changes neither; whatever is pending afterwards is either the old suggestion or this line's one with these fragments and key |
| Controller.SuggestionController.RemoveSuggestion | src/SuggestionController.js:310-317 | new request id, nothing pending; with an editor, no overlays and the spacer cleared |
| Controller.SuggestionController.AcceptSuggestion | src/SuggestionController.js:319-404 | no-op without a pending suggestion or while accepting; otherwise clear, replace the anchor line by its text and the re-indented fragments, mark it accepted, remove the suggestion, cursor at the end of the last inserted line when it exists; the document stays well formed, the cleared one one line longer per later fragment |
| Controller.SuggestionController.ReplaceAnchorLine | src/SuggestionController.js:328-370 | the edit and bookkeeping of acceptance on an existing anchor line; the document stays well formed and grows by one line per later fragment |
| Controller.SuggestionController.HandleChange | src/SuggestionController.js:426-561 | a change on a missing line stops the handler with nothing changed; a deletion under a keyed pending suggestion suppresses that key on the line; no line becomes accepted; the cursor is kept |
| Controller.SuggestionController.HandleDeletion | src/SuggestionController.js:442-468 | suppresses the pending key on the line, or else un-accepts the line; the suggestion is removed either way |
| Controller.SuggestionController.HandleEdit | src/SuggestionController.js:470-560 | an accepted line that still matches is left alone; no match un-accepts the line and removes a suggestion pending there; a new match leaves pending only this line's render of the remaining fragments, keyed by the rule |
| Controller.SuggestionController.SuggestMatch | src/SuggestionController.js:483-544 | a new request id; whatever is pending afterwards is this line's render, keyed by the rule |
| Controller.SuggestionController.HandleTextChange | src/SuggestionController.js:419-562 | nothing without an editor, while accepting or while adjusting the spacer; otherwise suppression only grows, no line becomes accepted, the counter never goes back, the cursor is kept, both invariants are kept |
| WhileIndent.WhileDepths | src/SuggestionController.js:46-72 | after the `while` head opens its brace, the two body lines and the closing brace are all at depth one |
| WhileIndent.WhileNestsOnce | src/patterns.js:16-24 | under anchor indentation `b` and unit `u` the `while` rule becomes its head, the two body lines at `b + u` and the closing brace at `b` |
| LegacyController.LegacyPatterns | extension.js:16-91 | the same generic rules and Scanner rule as `createPatterns`; the `int` rule has another trigger and the same builder |
| LegacyController.LegacyPatternsWellFormed | extension.js:16-91 | every rule offers a non-empty list of fragments without line breaks |
| LegacyController.LegacyPatternsKeysDistinct | extension.js:16-91 | the fourteen keys are pairwise different |
| LegacyController.LegacyLookupAgrees | extension.js:99-153 | when a generic rule or the Scanner rule fits, both tables give the same result |
| LegacyController.LegacyGenericIntRulesWin | extension.js:99-153 | on `int secret = rng` or `int avg` lines, the looser `int` rule is never reported |
| LegacyController.LegacyIndentedLines | extension.js:248-257 | one line per fragment |
| LegacyController.LegacyJoinAccepted | extension.js:247-257 | the loop computes the anchor text, the first fragment, then each later fragment after `\n` and the anchor's indentation |
| LegacyController.LegacyAcceptedDocument | extension.js:243-265 | line `lineNumber + k` becomes the anchor's indentation followed by fragment k verbatim; every other line is kept |
| LegacyController.FlatReindentIsLegacy | extension.js:248-257 | on a flat suggestion both controllers write the same lines |
| LegacyController.LegacyWhileOnOneLine | extension.js:164-196 | with fewer than three blank lines below, the `while` suggestion is one overlay of its four fragments joined by spaces |
| LegacyController.SuggestionController.constructor | extension.js:8-97 | its own rule table, nothing pending, nothing accepted or suppressed; its invariant holds |
| LegacyController.SuggestionController.ShowSuggestion | extension.js:155-227 | overlays and pending are `Present` of the raw fragments with no key; a missing single-line anchor changes nothing; with line-free fragments the invariant holds afterwards |
| LegacyController.SuggestionController.RemoveSuggestion | extension.js:229-234 | nothing pending; with an editor, no overlays, document and cursor kept |
| LegacyController.SuggestionController.AcceptSuggestion | extension.js:236-311 | no-op without a pending suggestion or while accepting; otherwise the anchor line is replaced by its text and the fragments behind its indentation, marked accepted, the suggestion removed, cursor at the end of the last inserted line when it exists; the document stays well formed and grows by one line per later fragment |
| LegacyController.SuggestionController.HandleChange | extension.js:332-418 | a change on a missing line stops the handler with nothing changed; a deletion under a keyed pending suggestion suppresses that key on the line, any other deletion un-accepts it, and either way nothing is pending or shown afterwards; any other change leaves the state `EditOutcome` gives for the match on the line; document and cursor never change |
| LegacyController.SuggestionController.HandleDeletion | extension.js:348-374 | suppresses the pending key on the line, or else un-accepts the line; the suggestion is removed either way |
| LegacyController.SuggestionController.HandleEdit | extension.js:376-417 | an accepted line that still matches is left alone; no match un-accepts the line and removes a suggestion pending there; a new match shows its fragments with the rule's key; all three as the predicate `EditOutcome` |
| LegacyController.SuggestionController.SuggestMatch | extension.js:389-401 | the match is shown and the pending suggestion carries its key |
| LegacyController.SuggestionController.HandleTextChange | extension.js:326-419 | nothing without an editor or while accepting; otherwise suppression only grows, no line becomes accepted, document and cursor kept, the invariant kept |

## Left out

- Regular-expression semantics: `exec` is a parameter of both controllers, so nothing is claimed about which lines a trigger matches.
- The grey decoration type, hover text, status messages (`showInformationMessage`), logging and the commands: output with no effect on the modelled state.
- `activate` and `deactivate` in `extension.js`, and `src/AutoClosingBracketsManager.js`: outside the controllers.
- `findPattern` of both controllers: it is called by nothing in the controllers.
- The delayed `formatSelection` after acceptance (`setTimeout` and the editor's formatter): a timer and a foreign command; the cursor is modelled as set right after the edit.
- The interleaving of asynchronous calls: every `await` is one atomic step, so the guard that drops a stale render only fires when `showSuggestion` is called with an old id. A render overtaken by a later keystroke is not modelled.
- A failing `editor.edit`: edits are modelled as succeeding, so the `catch` branches that only catch a rejected edit are never taken. The `catch`/`finally` of `acceptSuggestion` for a missing anchor line is modelled: the flag is reset and nothing else changes.
- Line ends other than `\n` (`\r\n` documents): the document is split at `\n` only.
- `editor.options.tabSize` values that are not natural numbers: `repeat` throws on a negative or infinite count and truncates a fractional one, while `tabSize` here is a natural number or absent (`src/SuggestionController.js:34-35`, `:78`).
- Columns in UTF-16 code units: `Position.character` counts characters (code points), while VS Code counts UTF-16 code units. On a line with characters outside the Basic Multilingual Plane, the cursor column set after acceptance (`Controller.SuggestionController.ReplaceAnchorLine`, `LegacyController.SuggestionController.AcceptSuggestion`) differs from the source's.
- A generic rule whose `suggestion` is a function: no rule in the table has one.
- Controller.SuggestionController.HandleDeletion: does not repeat the source's second `acceptedLines.delete` for a blank line, because after the first delete it changes nothing.
- Controller.CountAvailableEmptyLines: modelled outside the class, because it reads no field of the controller.
- Controller.SuggestionController.HandleEdit: for a new match, states only that whatever is pending is this line's render of the remaining fragments with the rule's key. The full overlays and spacer are given by `ShowSuggestion`'s contract, not by this one.
- Controller.SuggestionController.SuggestMatch: states the same weaker property as `HandleEdit` for the render it starts.
- Controller.SuggestionController.HandleChange: states the suppression update exactly, but only bounds the other fields; `HandleDeletion` and `HandleEdit` state them.
- Controller.SuggestionController.HandleTextChange: states invariants of the whole event (suppression grows, accepted lines shrink, the counter grows), not the state after each change.
- LegacyController.SuggestionController.HandleTextChange: states the same invariants, not the state after each change.
