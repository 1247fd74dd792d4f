/**
 * The rule table of `src/patterns.js`: two ordered categories of trigger,
 * each paired with the (deliberately faulty) Java fragments it suggests.
 * A trigger is kept as the source text of its regular expression; matching
 * it is the job of the regular-expression engine, a parameter of the model.
 */
module Patterns {
  import opened Text

  /** A regular expression, identified by its source text. */
  datatype Trigger = Regex(source: string)

  /** What a rule suggests: a fixed list of fragments, or one of the two
      builders that receive the captured variable name. */
  datatype Template = Fixed(fragments: seq<string>) | ScannerBuilder | IntReadBuilder

  datatype Rule = Rule(trigger: Trigger, template: Template)

  datatype PatternTable = PatternTable(variableDependent: seq<Rule>, generic: seq<Rule>)

  /** `trigger.toString()` for a regular expression without flags: the
      suppression key of a rule. */
  function Key(t: Trigger): (k: string)
    ensures |k| == |t.source| + 2 && k[0] == '/' && k[|k| - 1] == '/'
    ensures k[1..|k| - 1] == t.source
  {
    "/" + t.source + "/"
  }

  /** Distinct triggers have distinct keys. */
  lemma KeyInjective(a: Trigger, b: Trigger)
    requires Key(a) == Key(b)
    ensures a == b
  {
    assert a.source == Key(a)[1..|Key(a)| - 1];
  }

  /** The fragments a rule offers. The builders ignore the variable name. */
  function Suggestion(t: Template, variableName: string): (r: seq<string>)
    ensures t.ScannerBuilder? ==> r == [" = new Scanner(System.in);"]
    ensures t.IntReadBuilder? ==> r == ["= sc.next();"]
  {
    match t
    case Fixed(fragments) => fragments
    case ScannerBuilder => [" = new Scanner(System.in);"]
    case IntReadBuilder => ["= sc.next();"]
  }

  const ScannerRule := Rule(Regex("\\bScanner\\s+(\\w+)\\b"), ScannerBuilder)
  const IntVariableRule := Rule(Regex("^\\s*int(?!\\s*\\[)\\s+(\\w+)\\b"), IntReadBuilder)

  const WhileFragments := [" (x < 10) {", "    System.out.println(x);", "    x++;", "}"]
  const IntArrayFragments :=
    [" = {1, 2, 3, 4, 5};", "for (int i = 0; i <= numbers.length; i++) {",
     "    System.out.println(numbers[i]);", "}"]

  const WhileRule := Rule(Regex("\\bwhile\\b"), Fixed(WhileFragments))
  const IntArrayRule := Rule(Regex("\\bint\\[\\]\\s+[a-zA-Z_][a-zA-Z0-9_]*"), Fixed(IntArrayFragments))
  const GuessAboveRule := Rule(Regex("if\\s*\\(\\s*guess\\s*>\\s*secret\\s*\\)"),
    Fixed(["{", "minV = Math.max(minV, guess + 1);", "} else if (guess < secret) {",
           "maxV = Math.min(maxV, guess - 1);", "}"]))
  const RangeCheckRule := Rule(Regex("if\\s*\\(\\s*maxV\\s*>\\s*minV\\s*\\)"),
    Fixed([" {", "  minV = maxV;", "}"]))
  const ReturnRangeRule := Rule(Regex("return\\s\\/new\\s+int\\[\\]\\s*;"), Fixed(["int[] { minV, maxV };"]))
  const ReturnAverageRule := Rule(Regex("return\\s+sum\\s+\\/\\s+guesses\\.length\\s*;"),
    Fixed(["(int) sum / guesses.length;"]))
  const SecretRule := Rule(Regex("\\bint\\s+secret\\s*=\\s*rng\\b"), Fixed([".nextInt(minV - maxV + 2) + minV;"]))
  const AttemptLoopRule := Rule(Regex("\\bfor\\s*\\(\\s*int\\s+attempt\\s*="), Fixed(["1; attempt < 8; attempt++) {"]))
  const MinRangeRule := Rule(Regex("\\bminV\\s*=\\s*range\\b"), Fixed(["[0]"]))
  const MaxRangeRule := Rule(Regex("\\bmaxV\\s*=\\s*range\\b"), Fixed(["[2]"]))
  const LastGuessRule := Rule(Regex("\\bif\\s*\\(\\s*guesses\\["), Fixed(["guesses.length - 1] != secret){"]))
  const AverageCallRule := Rule(Regex("\\bint\\s+avg"), Fixed(["(int) averageGuess(guesses);"]))

  /** The generic rules, in the order they are tried. */
  const GenericRules :=
    [WhileRule, IntArrayRule, GuessAboveRule, RangeCheckRule, ReturnRangeRule, ReturnAverageRule,
     SecretRule, AttemptLoopRule, MinRangeRule, MaxRangeRule, LastGuessRule, AverageCallRule]

  /** The rules in the order `findTriggerMatch` scans them: generic first. */
  function ScanOrder(t: PatternTable): seq<Rule>
  {
    t.generic + t.variableDependent
  }

  /** The builders ignore the captured name: a rule offers the same fragments on every line it fits. */
  lemma SuggestionIgnoresName(t: Template, a: string, b: string)
    ensures Suggestion(t, a) == Suggestion(t, b)
  {
  }

  /** A rule's suggestion is a non-empty list of single-line fragments
      (for every name, by SuggestionIgnoresName). */
  predicate WellFormedRule(r: Rule)
  {
    var s := Suggestion(r.template, "");
    s != [] && forall i | 0 <= i < |s| :: IsLine(s[i])
  }

  /** Every rule of the table is well formed. */
  predicate WellFormedTable(t: PatternTable)
  {
    forall i | 0 <= i < |ScanOrder(t)| :: WellFormedRule(ScanOrder(t)[i])
  }

  /** No two rules of the list share a key. */
  predicate DistinctKeys(rules: seq<Rule>)
  {
    forall i, j | 0 <= i < j < |rules| :: Key(rules[i].trigger) != Key(rules[j].trigger)
  }

  /** `createPatterns()`. */
  function CreatePatterns(): (t: PatternTable)
    ensures |t.variableDependent| == 2 && |t.generic| == 12
    ensures t.variableDependent[0].template.ScannerBuilder? && t.variableDependent[1].template.IntReadBuilder?
    ensures forall i | 0 <= i < |t.generic| :: t.generic[i].template.Fixed?
  {
    PatternTable([ScannerRule, IntVariableRule], GenericRules)
  }

  /** Every rule of the table offers a non-empty list of single-line fragments. */
  lemma CreatePatternsWellFormed()
    ensures WellFormedTable(CreatePatterns())
  {
    WhileRuleWellFormed();
    IntArrayRuleWellFormed();
    GuessAboveRuleWellFormed();
    RangeRulesWellFormed();
    ReturnRulesWellFormed();
    AttemptLoopRuleWellFormed();
    SecretRuleWellFormed();
    GuessRulesWellFormed();
    BuilderRulesWellFormed();
    var rules := ScanOrder(CreatePatterns());
    assert rules == GenericRules + [ScannerRule, IntVariableRule];
  }

  lemma WhileRuleWellFormed()
    ensures WellFormedRule(WhileRule)
  {
  }

  lemma IntArrayRuleWellFormed()
    ensures WellFormedRule(IntArrayRule)
  {
    IntArrayOuterAreLines();
    IntArrayLoopIsLine();
    IntArrayBodyIsLine();
    assert IntArrayRule.template.fragments == IntArrayFragments;
  }

  lemma IntArrayOuterAreLines()
    ensures IsLine(IntArrayFragments[0]) && IsLine(IntArrayFragments[3])
  {
  }

  lemma IntArrayLoopIsLine()
    ensures IsLine(IntArrayFragments[1])
  {
  }

  lemma IntArrayBodyIsLine()
    ensures IsLine(IntArrayFragments[2])
  {
  }

  lemma GuessAboveRuleWellFormed()
    ensures WellFormedRule(GuessAboveRule)
  {
    GuessAboveOpeningAreLines();
    GuessAboveElseIsLine();
    GuessAboveTailAreLines();
  }

  lemma GuessAboveOpeningAreLines()
    ensures IsLine(GuessAboveRule.template.fragments[0]) && IsLine(GuessAboveRule.template.fragments[1])
  {
  }

  lemma GuessAboveElseIsLine()
    ensures IsLine(GuessAboveRule.template.fragments[2])
  {
  }

  lemma GuessAboveTailAreLines()
    ensures IsLine(GuessAboveRule.template.fragments[3]) && IsLine(GuessAboveRule.template.fragments[4])
  {
  }

  lemma RangeRulesWellFormed()
    ensures WellFormedRule(RangeCheckRule) && WellFormedRule(MinRangeRule) && WellFormedRule(MaxRangeRule)
  {
  }

  lemma ReturnRulesWellFormed()
    ensures WellFormedRule(ReturnRangeRule) && WellFormedRule(ReturnAverageRule)
  {
  }

  lemma AttemptLoopRuleWellFormed()
    ensures WellFormedRule(AttemptLoopRule)
  {
  }

  lemma SecretRuleWellFormed()
    ensures WellFormedRule(SecretRule)
  {
  }

  lemma GuessRulesWellFormed()
    ensures WellFormedRule(LastGuessRule) && WellFormedRule(AverageCallRule)
  {
  }

  lemma BuilderRulesWellFormed()
    ensures WellFormedRule(ScannerRule) && WellFormedRule(IntVariableRule)
  {
  }

  /** All fourteen triggers are different, so a key names one rule. */
  lemma CreatePatternsKeysDistinct()
    ensures DistinctKeys(ScanOrder(CreatePatterns()))
  {
    var rules := ScanOrder(CreatePatterns());
    SourcesDistinctFrom(rules, 0, 5);
    SourcesDistinctFrom(rules, 5, 9);
    SourcesDistinctFrom(rules, 9, 14);
    forall i, j | 0 <= i < j < |rules| ensures Key(rules[i].trigger) != Key(rules[j].trigger) {
      if Key(rules[i].trigger) == Key(rules[j].trigger) {
        KeyInjective(rules[i].trigger, rules[j].trigger);
      }
    }
  }

  /** The triggers of the rules numbered lo..hi-1 of the scan differ from every later trigger. */
  lemma SourcesDistinctFrom(rules: seq<Rule>, lo: nat, hi: nat)
    requires rules == ScanOrder(CreatePatterns()) && lo <= hi <= |rules|
    ensures forall i, j | lo <= i < hi && i < j < |rules| :: rules[i].trigger != rules[j].trigger
  {
  }
}
