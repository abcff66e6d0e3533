/** The ordered container of rules that share one origin directory. */
module RuleContainers {
  import opened Wrappers
  import opened Text
  import opened Rules

  type RuleContainer = seq<FilesystemRule>

  const MAXIMUM_RULE_COUNT: nat := 64

  /** More file patterns first; rules with equally many patterns are ordered by name. */
  predicate RuleLess(a: FilesystemRule, b: FilesystemRule) {
    if |a.filePatterns| == |b.filePatterns| then LessCaseInsensitive(a.name, b.name)
    else |a.filePatterns| > |b.filePatterns|
  }

  /** What the ordered set takes for the same element. */
  predicate Equivalent(a: FilesystemRule, b: FilesystemRule) {
    |a.filePatterns| == |b.filePatterns| && Fold(a.name) == Fold(b.name)
  }

  ghost predicate Ordered(rules: RuleContainer) {
    forall i, j :: 0 <= i < j < |rules| ==> RuleLess(rules[i], rules[j])
  }

  lemma RuleLessTrichotomy(a: FilesystemRule, b: FilesystemRule)
    ensures Equivalent(a, b) <==> !RuleLess(a, b) && !RuleLess(b, a)
  {
    LessTotal(Fold(a.name), Fold(b.name));
    LessIrreflexive(Fold(a.name));
  }

  lemma RuleLessTransitive(a: FilesystemRule, b: FilesystemRule, c: FilesystemRule)
    requires RuleLess(a, b) && RuleLess(b, c)
    ensures RuleLess(a, c)
  {
    if |a.filePatterns| == |b.filePatterns| == |c.filePatterns| {
      LessTransitive(Fold(a.name), Fold(b.name), Fold(c.name));
    }
  }

  /** In an ordered container, rules with more patterns come first, and equally many go by name. */
  lemma OrderMeaning(rules: RuleContainer, i: nat, j: nat)
    requires Ordered(rules) && i < j < |rules|
    ensures |rules[i].filePatterns| >= |rules[j].filePatterns|
    ensures
      |rules[i].filePatterns| == |rules[j].filePatterns| ==> LessCaseInsensitive(rules[i].name, rules[j].name)
  {
    assert RuleLess(rules[i], rules[j]);
  }

  datatype EmplaceResult = Full | Existing(rule: FilesystemRule) | Inserted

  /** Insertion into the ordered set, refused when the container is full; an equivalent element
      that is already present stays and the new rule is dropped. */
  method EmplaceRule(rules: RuleContainer, rule: FilesystemRule) returns (r: RuleContainer, result: EmplaceResult)
    requires Ordered(rules)
    ensures Ordered(r)
    ensures result == Full <==> |rules| >= 64
    ensures result.Existing? ==> result.rule in rules && Equivalent(result.rule, rule)
    ensures !result.Inserted? ==> r == rules
    ensures result == Inserted <==> |rules| < MAXIMUM_RULE_COUNT && forall x :: x in rules ==> !Equivalent(x, rule)
    ensures result == Inserted ==> multiset(r) == multiset(rules) + multiset{rule}
    ensures
      forall i, j :: 0 <= i < j < |r| ==>
        && |r[i].filePatterns| >= |r[j].filePatterns|
        && (|r[i].filePatterns| == |r[j].filePatterns| ==> LessCaseInsensitive(r[i].name, r[j].name))
  {
    if |rules| >= MAXIMUM_RULE_COUNT {
      return rules, Full;
    }
    var at := 0;
    while at < |rules| && RuleLess(rules[at], rule)
      invariant 0 <= at <= |rules|
      invariant forall i :: 0 <= i < at ==> RuleLess(rules[i], rule)
    {
      at := at + 1;
    }
    forall x | x in rules[..at]
      ensures !Equivalent(x, rule)
    {
      RuleLessTrichotomy(x, rule);
    }
    if at < |rules| && !RuleLess(rule, rules[at]) {
      RuleLessTrichotomy(rules[at], rule);
      return rules, Existing(rules[at]);
    }
    forall i | at <= i < |rules|
      ensures RuleLess(rule, rules[i]) && !Equivalent(rules[i], rule)
    {
      if at < i { RuleLessTransitive(rule, rules[at], rules[i]); }
      RuleLessTrichotomy(rule, rules[i]);
    }
    assert rules == rules[..at] + rules[at..];
    r, result := rules[..at] + [rule] + rules[at..], Inserted;
  }

  // ---------- Choosing a rule by file name ----------

  /** Position of the first rule whose patterns match, or the number of rules. */
  function FirstMatch(rules: RuleContainer, fileName: wstring): (r: nat)
    ensures r <= |rules|
    ensures r < |rules| ==> Matches(rules[r], fileName)
    ensures forall i :: 0 <= i < r ==> !Matches(rules[i], fileName)
  {
    if rules == [] || Matches(rules[0], fileName) then 0 else 1 + FirstMatch(rules[1..], fileName)
  }

  /** The first match among the positions up to and including `stopAt`. */
  function FirstMatchUpTo(rules: RuleContainer, fileName: wstring, stopAt: nat): Option<nat> {
    var i := FirstMatch(rules, fileName);
    if i < |rules| && i <= stopAt then Some(i) else None
  }

  method RuleMatchingFileName(rules: RuleContainer, fileName: wstring, stopAt: nat) returns (r: Option<nat>)
    ensures r == FirstMatchUpTo(rules, fileName, stopAt)
  {
    var i := 0;
    while i < |rules|
      invariant 0 <= i <= |rules| && i <= stopAt
      invariant forall j :: 0 <= j < i ==> !Matches(rules[j], fileName)
    {
      if Matches(rules[i], fileName) {
        return Some(i);
      }
      if i == stopAt {
        return None;
      }
      i := i + 1;
    }
    return None;
  }

  lemma FirstMatchIgnoresCase(rules: RuleContainer, a: wstring, b: wstring)
    requires Fold(a) == Fold(b)
    ensures FirstMatch(rules, a) == FirstMatch(rules, b)
  {
    forall rule: FilesystemRule
      ensures Matches(rule, a) == Matches(rule, b)
    {
      MatchIgnoresCase(a, rule.filePatterns);
      MatchIgnoresCase(b, rule.filePatterns);
    }
  }

  /** Which rule decides a file name: of all that match it, one with the most patterns, and of those the first by
      name. */
  lemma MostSpecificRuleDecides(rules: RuleContainer, fileName: wstring, j: nat)
    requires Ordered(rules) && j < |rules| && Matches(rules[j], fileName)
    ensures
      var i := FirstMatch(rules, fileName);
      && i < |rules| && Matches(rules[i], fileName)
      && |rules[i].filePatterns| >= |rules[j].filePatterns|
      && (i != j && |rules[i].filePatterns| == |rules[j].filePatterns| ==>
            LessCaseInsensitive(rules[i].name, rules[j].name))
  {
    var i := FirstMatch(rules, fileName);
    if i != j {
      OrderMeaning(rules, i, j);
    }
  }

  /** Every rule behind a pattern-less one is pattern-less too, so a catch-all rule never takes a
      name away from a more specific rule. */
  lemma CatchAllRulesComeLast(rules: RuleContainer, i: nat, fileName: wstring)
    requires Ordered(rules) && i < |rules| && rules[i].filePatterns == []
    ensures forall j :: i <= j < |rules| ==> rules[j].filePatterns == []
    ensures FirstMatch(rules, fileName) <= i
  {
    forall j | i < j < |rules|
      ensures rules[j].filePatterns == []
    {
      assert RuleLess(rules[i], rules[j]);
    }
    assert Matches(rules[i], fileName);
  }
}
