/**
 * `findTriggerMatch`, shared by both controllers: the generic rules are tried
 * in order, then the variable-dependent ones; the first rule whose trigger
 * matches decides the result, and a suppressed first match yields nothing.
 * The regular-expression engine is a parameter: `exec(source, text)` is what
 * `new RegExp(source).exec(text)` reports.
 */
module Matching {
  import opened Wrappers
  import opened Text
  import opened Patterns

  /** A successful `exec`: the matched text (`match[0]`) and capture group 1 (`match[1]`). */
  datatype RegexMatch = RegexMatch(text: string, group1: Option<string>)

  /** A regular-expression engine: the first match of the expression with the given source in a text. */
  type RegexEngine = (string, string) -> Option<RegexMatch>

  datatype Kind = Generic | VariableDependent

  /** The record `findTriggerMatch` returns. */
  datatype TriggerMatch = TriggerMatch(kind: Kind, key: string, trigger: Trigger,
                                       variableName: Option<string>, suggestion: seq<string>)

  /** `superpressedPatterns`: line number to the keys suppressed on that line. */
  type Suppression = map<nat, set<string>>

  predicate Fits(exec: RegexEngine, r: Rule, text: string)
  {
    exec(r.trigger.source, text).Some?
  }

  /** The index of the first rule whose trigger matches the text. */
  function FirstHit(rules: seq<Rule>, exec: RegexEngine, text: string): (r: Option<nat>)
    ensures r.Some? ==> r.value < |rules| && Fits(exec, rules[r.value], text)
    ensures r.Some? ==> forall k | 0 <= k < r.value :: !Fits(exec, rules[k], text)
    ensures r.None? ==> forall k | 0 <= k < |rules| :: !Fits(exec, rules[k], text)
  {
    if rules == [] then None
    else if Fits(exec, rules[0], text) then Some(0)
    else
      match FirstHit(rules[1..], exec, text)
      case None => None
      case Some(i) => Some(i + 1)
  }

  /** Scanning a concatenation is scanning the first part, then the second. */
  lemma {:induction false} FirstHitAppend(a: seq<Rule>, b: seq<Rule>, exec: RegexEngine, text: string)
    ensures FirstHit(a + b, exec, text) ==
      if FirstHit(a, exec, text).Some? then FirstHit(a, exec, text)
      else if FirstHit(b, exec, text).Some? then Some(|a| + FirstHit(b, exec, text).value)
      else None
  {
    assert forall k | 0 <= k < |a| :: (a + b)[k] == a[k];
    assert forall k | 0 <= k < |b| :: (a + b)[|a| + k] == b[k];
  }

  /** The key is in the set stored for the line; without a line number nothing is suppressed. */
  predicate IsSuppressed(s: Suppression, lineNumber: Option<nat>, key: string)
  {
    lineNumber.Some? && lineNumber.value in s && key in s[lineNumber.value]
  }

  /** Recording a deleted suggestion: `key` joins the set of `lineNumber`, which is created when
      missing; no other line is touched. */
  function Suppress(s: Suppression, lineNumber: nat, key: string): (r: Suppression)
    ensures IsSuppressed(r, Some(lineNumber), key)
    ensures Grows(s, r)
    ensures forall l | l in r && l != lineNumber :: l in s && r[l] == s[l]
    ensures lineNumber in s ==> r[lineNumber] == s[lineNumber] + {key}
    ensures lineNumber !in s ==> r[lineNumber] == {key}
  {
    s[lineNumber := (if lineNumber in s then s[lineNumber] else {}) + {key}]
  }

  /** Suppression only grows: every line keeps at least the keys it had. */
  predicate Grows(s: Suppression, r: Suppression)
  {
    forall l | l in s :: l in r && s[l] <= r[l]
  }

  lemma GrowsTransitive(s: Suppression, r: Suppression, q: Suppression)
    requires Grows(s, r) && Grows(r, q)
    ensures Grows(s, q)
  {
  }

  /** A table of well-formed rules only ever offers fragments that are lines. */
  lemma {:induction false} MatchOffersLines(t: PatternTable, s: Suppression, exec: RegexEngine,
                                            lineText: string, lineNumber: Option<nat>)
    requires WellFormedTable(t)
    ensures var r := FindTriggerMatch(t, s, exec, lineText, lineNumber);
            r.Some? ==> AllLines(r.value.suggestion)
  {
    FindTriggerMatchSuggestion(t, s, exec, lineText, lineNumber);
    if FindTriggerMatch(t, s, exec, lineText, lineNumber).Some? {
      var h := FirstHit(ScanOrder(t), exec, lineText);
      assert WellFormedRule(ScanOrder(t)[h.value]);
    }
  }

  /** A key once suppressed on a line stays suppressed there, and the rule it names is never
      reported on that line again. */
  lemma SuppressedStaysHidden(t: PatternTable, s: Suppression, r: Suppression, exec: RegexEngine,
                              lineText: string, line: nat, key: string)
    requires IsSuppressed(s, Some(line), key) && Grows(s, r)
    ensures var m := FindTriggerMatch(t, r, exec, lineText, Some(line)); m.Some? ==> m.value.key != key
  {
    assert IsSuppressed(r, Some(line), key);
  }

  /** The result for the first matching rule: nothing when its key is suppressed. */
  function Resolve(kind: Kind, rule: Rule, s: Suppression, lineNumber: Option<nat>,
                   variableName: Option<string>): (r: Option<TriggerMatch>)
    ensures r.None? <==> IsSuppressed(s, lineNumber, Key(rule.trigger))
    ensures r.Some? ==> r.value.trigger == rule.trigger && r.value.key == Key(rule.trigger)
  {
    var key := Key(rule.trigger);
    if IsSuppressed(s, lineNumber, key) then None
    else Some(TriggerMatch(kind, key, rule.trigger, variableName,
                           Suggestion(rule.template, if variableName.Some? then variableName.value else "")))
  }

  /** `findTriggerMatch(lineText, lineNumber)`; `lineNumber` is `None` when the caller passes `undefined`. */
  function FindTriggerMatch(t: PatternTable, s: Suppression, exec: RegexEngine,
                            lineText: string, lineNumber: Option<nat>): (r: Option<TriggerMatch>)
    ensures r.Some? ==> !IsSuppressed(s, lineNumber, r.value.key)
    ensures r.Some? ==> r.value.key == Key(r.value.trigger) && exec(r.value.trigger.source, lineText).Some?
    ensures r.Some? && r.value.kind == Generic ==> r.value.variableName.None?
    ensures r.Some? && r.value.kind == VariableDependent ==>
      forall k | 0 <= k < |t.generic| :: !Fits(exec, t.generic[k], lineText)
    ensures r.Some? && r.value.kind == VariableDependent ==>
      r.value.variableName == exec(r.value.trigger.source, lineText).value.group1
    ensures (forall k | 0 <= k < |t.generic| + |t.variableDependent| :: !Fits(exec, ScanOrder(t)[k], lineText)) ==> r.None?
  {
    assert forall k | 0 <= k < |t.generic| :: ScanOrder(t)[k] == t.generic[k];
    assert forall k | 0 <= k < |t.variableDependent| :: ScanOrder(t)[|t.generic| + k] == t.variableDependent[k];
    match FirstHit(t.generic, exec, lineText)
    case Some(i) => Resolve(Generic, t.generic[i], s, lineNumber, None)
    case None =>
      match FirstHit(t.variableDependent, exec, lineText)
      case Some(i) =>
        var rule := t.variableDependent[i];
        Resolve(VariableDependent, rule, s, lineNumber, exec(rule.trigger.source, lineText).value.group1)
      case None => None
  }

  /** One scan over generic-then-variable-dependent rules decides the result: the first
      rule that fits is the one reported, unless its key is suppressed, in which case
      nothing is reported even when later rules fit. */
  lemma FindTriggerMatchScansInOrder(t: PatternTable, s: Suppression, exec: RegexEngine,
                                     lineText: string, lineNumber: Option<nat>)
    ensures var r := FindTriggerMatch(t, s, exec, lineText, lineNumber);
            var h := FirstHit(ScanOrder(t), exec, lineText);
            (r.Some? <==> h.Some? && !IsSuppressed(s, lineNumber, Key(ScanOrder(t)[h.value].trigger)))
            && (r.Some? ==> h.Some? && r.value.trigger == ScanOrder(t)[h.value].trigger
                            && r.value.kind == (if h.value < |t.generic| then Generic else VariableDependent))
  {
    FirstHitAppend(t.generic, t.variableDependent, exec, lineText);
    var h := FirstHit(ScanOrder(t), exec, lineText);
    if h.Some? {
      if h.value < |t.generic| {
        assert ScanOrder(t)[h.value] == t.generic[h.value];
      } else {
        assert ScanOrder(t)[h.value] == t.variableDependent[h.value - |t.generic|];
      }
    }
  }

  /** The suggestion reported is the matched rule's: the fragments of a generic rule, the
      builder's output for a variable-dependent one. */
  lemma FindTriggerMatchSuggestion(t: PatternTable, s: Suppression, exec: RegexEngine,
                                   lineText: string, lineNumber: Option<nat>)
    ensures var r := FindTriggerMatch(t, s, exec, lineText, lineNumber);
            var h := FirstHit(ScanOrder(t), exec, lineText);
            r.Some? ==> h.Some? && r.value.suggestion == Suggestion(ScanOrder(t)[h.value].template, "")
  {
    FindTriggerMatchScansInOrder(t, s, exec, lineText, lineNumber);
    var r := FindTriggerMatch(t, s, exec, lineText, lineNumber);
    if r.Some? {
      var h := FirstHit(ScanOrder(t), exec, lineText);
      var rule := ScanOrder(t)[h.value];
      var name := if r.value.variableName.Some? then r.value.variableName.value else "";
      FirstHitAppend(t.generic, t.variableDependent, exec, lineText);
      if h.value < |t.generic| {
        assert rule == t.generic[h.value];
      } else {
        assert rule == t.variableDependent[h.value - |t.generic|];
      }
      assert r.value.suggestion == Suggestion(rule.template, name);
      SuggestionIgnoresName(rule.template, name, "");
    }
  }

  /** Suppression is keyed by line: entries for other lines change nothing. */
  lemma SuppressionIsPerLine(t: PatternTable, s: Suppression, exec: RegexEngine, lineText: string,
                             line: nat, other: nat, keys: set<string>)
    requires other != line
    ensures FindTriggerMatch(t, s[other := keys], exec, lineText, Some(line)) ==
            FindTriggerMatch(t, s, exec, lineText, Some(line))
  {
    assert forall k :: IsSuppressed(s[other := keys], Some(line), k) == IsSuppressed(s, Some(line), k);
  }

  /** Without a line number the suppression map is not consulted. */
  lemma NoLineNoSuppression(t: PatternTable, s: Suppression, exec: RegexEngine, lineText: string)
    ensures FindTriggerMatch(t, s, exec, lineText, None) == FindTriggerMatch(t, map[], exec, lineText, None)
  {
  }

  /** The code does not fall through: with `while` suppressed on a line, a line that also
      matches the Scanner rule gets no suggestion at all. */
  lemma SuppressedWhileHidesScanner(s: Suppression, exec: RegexEngine, lineText: string, line: nat)
    requires Fits(exec, WhileRule, lineText) && Fits(exec, ScannerRule, lineText)
    requires line in s && Key(WhileRule.trigger) in s[line]
    ensures FindTriggerMatch(CreatePatterns(), s, exec, lineText, Some(line)).None?
  {
    var t := CreatePatterns();
    assert t.generic[0] == WhileRule;
    assert FirstHit(t.generic, exec, lineText) == Some(0);
  }

  /** `int secret = rng` and `int avg` also fit the variable `int` rule, but generic rules are
      scanned first: on such a line the variable `int` rule is never the one reported. */
  lemma GenericIntRulesWin(s: Suppression, exec: RegexEngine, lineText: string, lineNumber: Option<nat>)
    requires Fits(exec, SecretRule, lineText) || Fits(exec, AverageCallRule, lineText)
    ensures var r := FindTriggerMatch(CreatePatterns(), s, exec, lineText, lineNumber);
            r.Some? ==> r.value.kind == Generic
  {
    var t := CreatePatterns();
    assert t.generic[6] == SecretRule && t.generic[11] == AverageCallRule;
  }
}
