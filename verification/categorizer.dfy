/** The description categorizer: an ordered table of keyword rules
    (first matching category wins) followed by a table of regex
    word-boundary fallback patterns. The tables are values, so the rule
    set can be substituted; the program's fixed tables are the constants
    `KeywordRules` and `FallbackPatterns`. */
module Categorizer {
  import opened Wrappers
  import opened Text

  /** A category and the lower-case keywords that select it. */
  datatype Rule = Rule(category: string, keywords: seq<string>)

  /** A fallback `\b(w1|w2|...)\b` pattern and the category it selects. */
  datatype Pattern = Pattern(words: seq<string>, category: string)

  const Uncategorized: string := "Uncategorized"

  /** The keyword table, in its declared order. */
  const KeywordRules: seq<Rule> := [
    Rule("Groceries", ["grocery", "supermarket", "food", "market", "fresh", "organic"]),
    Rule("Transportation", ["gas", "fuel", "uber", "lyft", "taxi", "parking", "metro", "bus"]),
    Rule("Dining", ["restaurant", "cafe", "coffee", "pizza", "burger", "dining", "food court"]),
    Rule("Entertainment", ["movie", "theater", "netflix", "spotify", "amazon prime", "concert"]),
    Rule("Utilities", ["electric", "water", "gas bill", "internet", "phone", "utility"]),
    Rule("Healthcare", ["pharmacy", "doctor", "medical", "dental", "health", "clinic"]),
    Rule("Shopping", ["clothing", "store", "mall", "amazon", "target", "walmart", "shopping"]),
    Rule("Health & Fitness", ["gym", "fitness", "yoga", "workout", "sports", "athletic"]),
    Rule("Education", ["book", "course", "class", "tuition", "education", "learning"]),
    Rule("Travel", ["hotel", "flight", "airline", "vacation", "travel", "trip"])
  ]

  /** The fallback patterns, in their declared order. */
  const FallbackPatterns: seq<Pattern> := [
    Pattern(["restaurant", "cafe", "coffee", "pizza", "burger", "dining"], "Dining"),
    Pattern(["gas", "fuel", "uber", "lyft", "taxi", "parking"], "Transportation"),
    Pattern(["grocery", "supermarket", "food", "market"], "Groceries"),
    Pattern(["movie", "theater", "netflix", "spotify", "concert"], "Entertainment"),
    Pattern(["electric", "water", "gas bill", "internet", "phone"], "Utilities"),
    Pattern(["pharmacy", "doctor", "medical", "dental", "clinic"], "Healthcare"),
    Pattern(["clothing", "store", "mall", "amazon", "target", "walmart"], "Shopping"),
    Pattern(["gym", "fitness", "yoga", "workout", "sports"], "Health & Fitness")
  ]

  function Names(rules: seq<Rule>): (r: seq<string>)
    ensures |r| == |rules|
    ensures forall i :: 0 <= i < |rules| ==> r[i] == rules[i].category
  {
    seq(|rules|, i requires 0 <= i < |rules| => rules[i].category)
  }

  /** Some keyword of `rule` is a substring of `text`. */
  ghost predicate RuleMatches(text: string, rule: Rule) {
    exists j :: 0 <= j < |rule.keywords| && Contains(text, rule.keywords[j])
  }

  /** Whether any of `keywords` is a substring of `text`. */
  function AnyKeyword(text: string, keywords: seq<string>): (b: bool)
    ensures b <==> exists j :: 0 <= j < |keywords| && Contains(text, keywords[j])
  {
    if |keywords| == 0 then false
    else HasSubstring(text, keywords[0]) || AnyKeyword(text, keywords[1..])
  }

  /** The position of the first rule, in table order, with a keyword in `text`. */
  function FirstRule(text: string, rules: seq<Rule>): (r: Option<nat>)
    ensures r.Some? ==> r.value < |rules| && RuleMatches(text, rules[r.value])
    ensures r.Some? ==> forall j :: 0 <= j < r.value ==> !RuleMatches(text, rules[j])
    ensures r.None? <==> forall j :: 0 <= j < |rules| ==> !RuleMatches(text, rules[j])
  {
    if |rules| == 0 then None
    else if AnyKeyword(text, rules[0].keywords) then Some(0)
    else
      match FirstRule(text, rules[1..])
      case None => None
      case Some(i) => Some(i + 1)
  }

  /** The keyword pass of the categorizer on an already lower-cased text. */
  function KeywordPass(text: string, rules: seq<Rule>): (r: Option<string>)
    ensures r.None? <==> forall j :: 0 <= j < |rules| ==> !RuleMatches(text, rules[j])
    ensures r.Some? ==> exists i :: 0 <= i < |rules| && RuleMatches(text, rules[i]) && r.value == rules[i].category
                                    && forall j :: 0 <= j < i ==> !RuleMatches(text, rules[j])
  {
    match FirstRule(text, rules)
    case None => None
    case Some(i) => Some(rules[i].category)
  }

  /** The fallback pass: the category of the first pattern that matches. */
  function PatternPass(text: string, patterns: seq<Pattern>): (r: Option<string>)
    ensures r.Some? ==> exists p :: 0 <= p < |patterns| && MatchesWordPattern(text, patterns[p].words)
                                    && r.value == patterns[p].category
    ensures r.None? <==> forall p :: 0 <= p < |patterns| ==> !MatchesWordPattern(text, patterns[p].words)
  {
    if |patterns| == 0 then None
    else if MatchesWordPattern(text, patterns[0].words) then Some(patterns[0].category)
    else
      var r := PatternPass(text, patterns[1..]);
      assert forall p :: 1 <= p < |patterns| ==> patterns[p] == patterns[1..][p - 1];
      r
  }

  /** The category of a transaction description; `None` is a missing
      (NaN) description. */
  function Categorize(description: Option<string>): (c: string)
    ensures description.None? || description == Some("") ==> c == Uncategorized
  {
    match description
    case None => Uncategorized
    case Some(d) =>
      if d == "" then Uncategorized
      else
        var text := Lower(d);
        match KeywordPass(text, KeywordRules)
        case Some(c) => c
        case None =>
          match PatternPass(text, FallbackPatterns)
          case Some(c) => c
          case None => Uncategorized
  }

  /** The rule at position `r` has the pattern's category and every word of
      the pattern among its keywords. */
  ghost predicate CoveredBy(pattern: Pattern, rule: Rule) {
    rule.category == pattern.category && forall w :: w in pattern.words ==> w in rule.keywords
  }

  /** Every pattern is covered by some rule for the same category. */
  ghost predicate Subsumes(rules: seq<Rule>, patterns: seq<Pattern>) {
    forall p :: 0 <= p < |patterns| ==> exists r :: 0 <= r < |rules| && CoveredBy(patterns[p], rules[r])
  }

  /** A fallback match implies a keyword match for the same category, so
      the keyword pass cannot have come back empty. */
  lemma SubsumedMatchHasKeyword(text: string, rules: seq<Rule>, patterns: seq<Pattern>)
    requires Subsumes(rules, patterns)
    requires PatternPass(text, patterns).Some?
    ensures KeywordPass(text, rules).Some?
  {
    var p :| 0 <= p < |patterns| && MatchesWordPattern(text, patterns[p].words);
    var r :| 0 <= r < |rules| && CoveredBy(patterns[p], rules[r]);
    CoveredMatchIsRuleMatch(text, patterns[p], rules[r]);
    MatchingRuleGivesKeyword(text, rules, r);
  }

  /** A whole-word match of a covered pattern is a keyword match of the
      covering rule. */
  lemma CoveredMatchIsRuleMatch(text: string, pattern: Pattern, rule: Rule)
    requires CoveredBy(pattern, rule)
    requires MatchesWordPattern(text, pattern.words)
    ensures RuleMatches(text, rule)
  {
    WordPatternHasSubstring(text, pattern.words);
    var w :| 0 <= w < |pattern.words| && Contains(text, pattern.words[w]);
    assert pattern.words[w] in rule.keywords;
    var j :| 0 <= j < |rule.keywords| && rule.keywords[j] == pattern.words[w];
    assert Contains(text, rule.keywords[j]);
  }

  /** Once some rule matches, the keyword pass finds a category. */
  lemma MatchingRuleGivesKeyword(text: string, rules: seq<Rule>, r: nat)
    requires r < |rules| && RuleMatches(text, rules[r])
    ensures KeywordPass(text, rules).Some?
  {
    assert FirstRule(text, rules).Some?;
  }

  /** A rule matches as soon as one of its keywords occurs. */
  lemma KeywordMatch(text: string, rule: Rule, j: nat)
    requires j < |rule.keywords| && Contains(text, rule.keywords[j])
    ensures RuleMatches(text, rule)
  {
  }

  /** Once rule `i` matches, the first matching rule is no later than `i`. */
  lemma FirstRuleAtMost(text: string, rules: seq<Rule>, i: nat)
    requires i < |rules| && RuleMatches(text, rules[i])
    ensures FirstRule(text, rules).Some? && FirstRule(text, rules).value <= i
  {
  }

  /** The first matching rule is the one `FirstRule` reports. */
  lemma FirstRuleAt(text: string, rules: seq<Rule>, i: nat)
    requires i < |rules| && RuleMatches(text, rules[i])
    requires forall j :: 0 <= j < i ==> !RuleMatches(text, rules[j])
    ensures FirstRule(text, rules) == Some(i)
  {
    var f := FirstRule(text, rules);
    assert f.Some?;
    assert !(f.value < i);
    assert !(f.value > i);
  }

  /** The program's fallback patterns are subsumed by its keyword table. */
  lemma FallbackPatternsSubsumed()
    ensures Subsumes(KeywordRules, FallbackPatterns)
  {
    assert CoveredBy(FallbackPatterns[0], KeywordRules[2]);
    assert CoveredBy(FallbackPatterns[1], KeywordRules[1]);
    assert CoveredBy(FallbackPatterns[2], KeywordRules[0]);
    assert CoveredBy(FallbackPatterns[3], KeywordRules[3]);
    assert CoveredBy(FallbackPatterns[4], KeywordRules[4]);
    assert CoveredBy(FallbackPatterns[5], KeywordRules[5]);
    assert CoveredBy(FallbackPatterns[6], KeywordRules[6]);
    assert CoveredBy(FallbackPatterns[7], KeywordRules[7]);
  }

  /** The regex fallback is dead code: categorizing equals the keyword pass
      alone, with "Uncategorized" when no keyword occurs. */
  lemma CategorizeIsKeywordPass(d: string)
    ensures Categorize(Some(d)) == if d == "" then Uncategorized else KeywordPass(Lower(d), KeywordRules).GetOr(Uncategorized)
  {
    if d != "" && PatternPass(Lower(d), FallbackPatterns).Some? {
      FallbackPatternsSubsumed();
      SubsumedMatchHasKeyword(Lower(d), KeywordRules, FallbackPatterns);
    }
  }

  /** The ten category names of the keyword table are pairwise different. */
  lemma KeywordCategoriesDistinct()
    ensures forall i, j :: 0 <= i < j < |KeywordRules| ==> KeywordRules[i].category != KeywordRules[j].category
    ensures forall i :: 0 <= i < |KeywordRules| ==> KeywordRules[i].category != Uncategorized
  {
  }

  /** The result is always one of the ten declared category names or
      "Uncategorized". */
  lemma CategorizeResultDeclared(description: Option<string>)
    ensures Categorize(description) == Uncategorized || Categorize(description) in Names(KeywordRules)
  {
    if description.Some? {
      CategorizeIsKeywordPass(description.value);
    }
  }

  /** First match wins: a non-empty description gets the category at
      position `i` of the table exactly when one of that rule's keywords
      occurs in the lower-cased description and no keyword of an earlier
      rule does. */
  lemma CategorizeFirstMatch(d: string, i: nat)
    requires d != "" && i < |KeywordRules|
    ensures Categorize(Some(d)) == KeywordRules[i].category
            <==> RuleMatches(Lower(d), KeywordRules[i])
                 && forall j :: 0 <= j < i ==> !RuleMatches(Lower(d), KeywordRules[j])
  {
    CategorizeIsKeywordPass(d);
    KeywordCategoriesDistinct();
  }

  /** A non-empty description is uncategorized exactly when no keyword of
      any rule occurs in it. */
  lemma CategorizeNoMatch(d: string)
    requires d != ""
    ensures Categorize(Some(d)) == Uncategorized
            <==> forall j :: 0 <= j < |KeywordRules| ==> !RuleMatches(Lower(d), KeywordRules[j])
  {
    CategorizeIsKeywordPass(d);
    KeywordCategoriesDistinct();
  }

  /** A description with keywords of one category only gets that category. */
  lemma CategorizeSoleMatch(d: string, i: nat)
    requires i < |KeywordRules|
    requires RuleMatches(Lower(d), KeywordRules[i])
    requires forall j :: 0 <= j < |KeywordRules| && j != i ==> !RuleMatches(Lower(d), KeywordRules[j])
    ensures Categorize(Some(d)) == KeywordRules[i].category
  {
    assert d != "";
    CategorizeFirstMatch(d, i);
  }

  /** A description whose lower-cased form contains a non-empty keyword is
      not empty. */
  lemma NonEmptyWhenContains(d: string, k: string)
    requires k != "" && Contains(Lower(d), k)
    ensures d != ""
  {
  }

  /** The first rule, in table order, that matches decides the category. */
  lemma CategorizeAt(d: string, i: nat)
    requires d != ""
    requires i < |KeywordRules| && RuleMatches(Lower(d), KeywordRules[i])
    requires forall j :: 0 <= j < i ==> !RuleMatches(Lower(d), KeywordRules[j])
    ensures Categorize(Some(d)) == KeywordRules[i].category
  {
    FirstRuleAt(Lower(d), KeywordRules, i);
    CategorizeIsKeywordPass(d);
  }

  /** The table entries the two lemmas below rely on. */
  lemma TableEntries()
    ensures |KeywordRules| == 10
    ensures KeywordRules[0].category == "Groceries" && |KeywordRules[0].keywords| == 6 && KeywordRules[0].keywords[2] == "food"
    ensures KeywordRules[1].category == "Transportation" && |KeywordRules[1].keywords| == 8 && KeywordRules[1].keywords[0] == "gas"
  {
  }

  /** "gas" belongs to Transportation, which precedes Utilities' "gas bill":
      a description mentioning gas is Groceries (when a Groceries keyword
      occurs too) or Transportation, never Utilities. */
  lemma GasIsTransportation(d: string)
    requires Contains(Lower(d), "gas")
    ensures Categorize(Some(d)) == "Groceries" || Categorize(Some(d)) == "Transportation"
  {
    TableEntries();
    KeywordMatch(Lower(d), KeywordRules[1], 0);
    NonEmptyWhenContains(d, "gas");
    FirstRuleAtMost(Lower(d), KeywordRules, 1);
    CategorizeIsKeywordPass(d);
  }

  /** Dining's "food court" always contains Groceries' "food", and Groceries
      comes first, so no description reaches Dining through "food court". */
  lemma FoodCourtIsGroceries(d: string)
    requires Contains(Lower(d), "food court")
    ensures Categorize(Some(d)) == "Groceries"
  {
    ContainsPrefix(Lower(d), "food court", 4);
    assert "food court"[..4] == "food";
    TableEntries();
    KeywordMatch(Lower(d), KeywordRules[0], 2);
    NonEmptyWhenContains(d, "food");
    CategorizeAt(d, 0);
  }
}
