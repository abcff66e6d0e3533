/** Listing a directory and opening a file in it agree, and the director's consistency checks never
    fail for handles the director itself caused to be opened. */
module Agreement {
  import opened Wrappers
  import opened Text
  import opened Rules
  import opened RuleContainers
  import opened Filesystems
  import opened Directors
  import opened Redirections

  // ---------- The rule that did a redirection can be recovered ----------

  lemma {:induction false} IdentifyFirst(container: RuleContainer, redirectedPath: wstring, i: nat)
    requires i < |container| && IsTargetOf(container[i], redirectedPath)
    requires forall j :: 0 <= j < i ==> !IsTargetOf(container[j], redirectedPath)
    ensures IdentifyRule(container, redirectedPath) == Some(i)
  {
    if i > 0 {
      IdentifyFirst(container[1..], redirectedPath, i - 1);
    }
  }

  /** No other rule's target contains anything below this rule's target. */
  lemma OnlyOneTarget(rules: RuleIndex, k: Path, i: nat, j: nat, body: wstring)
    requires Accepted(rules) && IsRule(rules, k, i) && IsRule(rules, k, j)
    requires Normalised(body) && Key(rules[k][i].target) <= Key(body)
    ensures IsTargetOf(rules[k][j], body) <==> j == i
  {
    var a, b := rules[k][j], rules[k][i];
    assert a in rules[k] && WellFormedRule(a, k);
    CompareAgrees(body, a.target);
    assert TargetApart(rules, k, i, k, j) && TargetApart(rules, k, j, k, i);
    PrefixesAreComparable(Key(a.target), Key(b.target), Key(body));
  }

  /** Whatever a rule redirected is identified as the work of exactly that rule. */
  lemma IdentifiesTheRule(rules: RuleIndex, path: Path, body: wstring)
    requires Accepted(rules) && ChooseRule(rules, path).Some?
    requires Normalised(body)
    requires ChooseRule(rules, path).value.origin <= path
    requires Key(body) == RedirectedPath(rules, path, ChooseRule(rules, path).value)
    ensures
      var c := ChooseRule(rules, path).value;
      IdentifyRule(rules[c.origin], body) == Some(c.index)
  {
    var c := ChooseRule(rules, path).value;
    assert IsRule(rules, c.origin, c.index);
    forall j: nat | j <= c.index
      ensures IsTargetOf(rules[c.origin][j], body) <==> j == c.index
    {
      assert IsRule(rules, c.origin, j);
      OnlyOneTarget(rules, c.origin, c.index, j, body);
    }
    IdentifyFirst(rules[c.origin], body, c.index);
  }

  lemma PrefixesAreComparable(a: Path, b: Path, p: Path)
    requires b <= p
    ensures a <= p ==> a <= b || b <= a
  {
    if a <= p {
      assert a == p[..|a|] && b == p[..|b|];
    }
  }

  /** When one rule on its own is a configuration the director can rely on: exactly if its target is not below
      its origin. */
  lemma SingleRuleIsAccepted(rule: FilesystemRule)
    requires WellFormedRule(rule, Key(rule.origin))
    ensures Accepted(map[Key(rule.origin) := [rule]]) <==> !(Key(rule.origin) < Key(rule.target))
  {
    hide Key, WellFormedRule;
    var k := Key(rule.origin);
    var rules := map[k := [rule]];
    assert IsRule(rules, k, 0) && WellFormedContainer(rules[k], k);
    if !(k < Key(rule.target)) {
      forall l, i: nat, m, j: nat | IsRule(rules, l, i) && IsRule(rules, m, j)
        ensures TargetApart(rules, l, i, m, j)
      {
        assert l == m == k && i == j == 0;
      }
    } else {
      assert !TargetApart(rules, k, 0, k, 0);
    }
  }

  // ---------- Handles ----------

  /** What an operation on a path, possibly with a backslash at its end, leaves open when it opens the file it is
      redirected to, or the path itself if it is not redirected; without trailing backslashes. */
  ghost predicate LeavesOpen(
    rules: RuleIndex, fs: Filesystem, prefix: wstring, p: wstring, suffix: wstring, allowsCreate: bool,
    realOpenedPath: wstring)
  {
    match FileOperation(rules, fs, prefix + p + suffix, allowsCreate).redirectedFilename
    case None => realOpenedPath == prefix + p
    case Some(redirected) => realOpenedPath == RemoveTrailing(redirected)
  }

  /** The paths stored with a handle that a file operation opened: the path the application asked for, and the one
      that was actually opened, both without trailing backslashes. */
  ghost predicate IsHandleFor(
    rules: RuleIndex, fs: Filesystem, prefix: wstring, p: wstring, allowsCreate: bool, realOpenedPath: wstring)
  {
    exists suffix :: IsSuffix(suffix) && LeavesOpen(rules, fs, prefix, p, suffix, allowsCreate, realOpenedPath)
  }

  /** The same, on components. */
  ghost predicate OpenedAsChosen(rules: RuleIndex, prefix: wstring, p: wstring, realOpenedPath: wstring) {
    match ChooseRule(rules, Key(p))
    case None => realOpenedPath == prefix + p
    case Some(c) => c.origin <= Key(p) && LeadsTo(realOpenedPath, prefix, RedirectedPath(rules, Key(p), c), [])
  }

  lemma RemoveTrailingKeepsLead(s: wstring, prefix: wstring, path: Path, suffix: wstring)
    requires LeadsTo(s, prefix, path, suffix) && IsSuffix(suffix)
    ensures LeadsTo(RemoveTrailing(s), prefix, path, [])
  {
    hide RemoveTrailing;
    var body :| Normalised(body) && Key(body) == path && s == prefix + body + suffix;
    TrimmedRedirected(prefix, body, suffix);
    assert prefix + body + [] == prefix + body;
  }

  lemma LeftOpenAt(
    rules: RuleIndex, fs: Filesystem, prefix: wstring, p: wstring, suffix: wstring, allowsCreate: bool,
    realOpenedPath: wstring)
    requires WellFormed(rules) && IsNamespacePrefix(prefix) && IsQueryPath(p) && IsSuffix(suffix)
    requires LeavesOpen(rules, fs, prefix, p, suffix, allowsCreate, realOpenedPath)
    ensures OpenedAsChosen(rules, prefix, p, realOpenedPath)
  {
    hide FileOperation, RemoveTrailing, LeadsTo, ChooseRule, RedirectedPath;
    FileOperationMeaning(rules, fs, prefix, p, suffix, allowsCreate, prefix + p + suffix);
    if ChooseRule(rules, Key(p)).Some? {
      var c := ChooseRule(rules, Key(p)).value;
      var redirected := FileOperation(rules, fs, prefix + p + suffix, allowsCreate).redirectedFilename.value;
      RemoveTrailingKeepsLead(redirected, prefix, RedirectedPath(rules, Key(p), c), suffix);
    }
  }

  lemma HandleOpenedAt(
    rules: RuleIndex, fs: Filesystem, prefix: wstring, p: wstring, allowsCreate: bool, realOpenedPath: wstring)
    requires WellFormed(rules) && IsNamespacePrefix(prefix) && IsQueryPath(p)
    requires IsHandleFor(rules, fs, prefix, p, allowsCreate, realOpenedPath)
    ensures OpenedAsChosen(rules, prefix, p, realOpenedPath)
  {
    hide LeavesOpen, OpenedAsChosen;
    var suffix :| IsSuffix(suffix) && LeavesOpen(rules, fs, prefix, p, suffix, allowsCreate, realOpenedPath);
    LeftOpenAt(rules, fs, prefix, p, suffix, allowsCreate, realOpenedPath);
  }

  lemma ChoiceSelects(rules: RuleIndex, p: wstring)
    requires WellFormed(rules) && Normalised(p) && ChooseRule(rules, Key(p)).Some?
    ensures
      var c := ChooseRule(rules, Key(p)).value;
      && SelectRules(rules, p) == Some(rules[c.origin]) && c.origin <= Key(p)
      && DirectoryCompare(p, rules[c.origin][0].origin) in {Equal, CandidateIsChild, CandidateIsDescendant}
      && (DirectoryCompare(p, rules[c.origin][0].origin) == Equal <==> c.origin == Key(p))
  {
    var c := ChooseRule(rules, Key(p)).value;
    var origin := rules[c.origin][0];
    assert origin in rules[c.origin] && WellFormedRule(origin, c.origin);
    CompareAgrees(p, origin.origin);
  }

  lemma RedirectedHandleIsClassified(rules: RuleIndex, prefix: wstring, p: wstring, body: wstring)
    requires Accepted(rules) && IsNamespacePrefix(prefix) && Normalised(p) && Normalised(body)
    requires ChooseRule(rules, Key(p)).Some? && ChooseRule(rules, Key(p)).value.origin <= Key(p)
    requires Key(body) == RedirectedPath(rules, Key(p), ChooseRule(rules, Key(p)).value)
    requires prefix + p != prefix + body
    ensures
      var c := ChooseRule(rules, Key(p)).value;
      ClassifyEnumeration(rules, prefix + p, prefix + body) ==
      if c.origin == Key(p) then OriginItself(rules[c.origin]) else BelowOriginOf(ChosenRule(rules, c))
  {
    hide Key, Normalised, NamespacePrefix, Accepted, ChooseRule, RedirectedPath, SelectRules, IdentifyRule;
    AcceptedRulesAreWellFormed(rules);
    NormalisedEnds(body);
    PrefixIsRecovered(prefix, body);
    NormalisedEnds(p);
    PrefixIsRecovered(prefix, p);
    IdentifiesTheRule(rules, Key(p), body);
    ChoiceSelects(rules, p);
  }

  /** How a query is classified, by the choice on components. */
  ghost function CaseOfChoice(rules: RuleIndex, path: Path, redirected: bool): EnumerationCase {
    match ChooseRule(rules, path)
    case None => NotRedirected
    case Some(c) =>
      if !redirected then NotRedirected
      else if c.origin == path then OriginItself(rules[c.origin])
      else BelowOriginOf(ChosenRule(rules, c))
  }

  lemma ClassifiedByChoice(rules: RuleIndex, prefix: wstring, p: wstring, realOpenedPath: wstring)
    requires Accepted(rules) && IsNamespacePrefix(prefix) && Normalised(p)
    requires OpenedAsChosen(rules, prefix, p, realOpenedPath)
    ensures ClassifyEnumeration(rules, prefix + p, realOpenedPath)
         == CaseOfChoice(rules, Key(p), prefix + p != realOpenedPath)
  {
    if ChooseRule(rules, Key(p)).Some? && prefix + p != realOpenedPath {
      var c := ChooseRule(rules, Key(p)).value;
      var body :|
        Normalised(body) && Key(body) == RedirectedPath(rules, Key(p), c) && realOpenedPath == prefix + body + [];
      assert prefix + body + [] == prefix + body;
      RedirectedHandleIsClassified(rules, prefix, p, body);
    }
  }

  /** The enumeration of a handle is never an internal error, and it is classified as its history
      says: not redirected, the origin directory of the rules, or below it by the rule that was used. */
  lemma HandleIsClassified(
    rules: RuleIndex, fs: Filesystem, prefix: wstring, p: wstring, allowsCreate: bool, realOpenedPath: wstring)
    requires Accepted(rules) && IsNamespacePrefix(prefix) && IsQueryPath(p)
    requires IsHandleFor(rules, fs, prefix, p, allowsCreate, realOpenedPath)
    ensures
      var found := ClassifyEnumeration(rules, prefix + p, realOpenedPath);
      && found == CaseOfChoice(rules, Key(p), prefix + p != realOpenedPath)
      && !IsInternalError(found)
  {
    hide ClassifyEnumeration, Accepted, IsHandleFor, OpenedAsChosen, ChooseRule, Key;
    AcceptedRulesAreWellFormed(rules);
    HandleOpenedAt(rules, fs, prefix, p, allowsCreate, realOpenedPath);
    ClassifiedByChoice(rules, prefix, p, realOpenedPath);
  }
}
