/** The builder of filesystem directors: rules are added one by one, and building adds rules for missing
    parent directories until all constraints hold. */
module FilesystemDirectorBuilders {
  import opened Wrappers
  import opened Text
  import opened PathResolution
  import opened Rules
  import opened RuleContainers
  import opened PrefixTrees
  import opened Filesystems
  import opened Directors
  import opened BuilderStates
  import opened GeneratedRules
  import opened FilesystemDirectors

  method PrepareDirectory(path: wstring) returns (r: Result<wstring, DirectoryError>)
    ensures r == UsableDirectory(path)
  {
    var resolved := PathResolveRelativeToAbsolute(path, MAXIMUM_DEPTH);
    match resolved
    case Failure(error) => return Failure(NotResolved(error));
    case Success(directory) =>
      if !IsValidDirectoryString(directory) {
        return Failure(NotValid);
      }
      if BACKSLASH !in RemoveTrailing(directory) {
        return Failure(FilesystemRoot);
      }
      return Success(RemoveTrailing(directory));
  }

  method HasInvalidPattern(patterns: seq<wstring>) returns (r: bool)
    ensures r == exists p :: p in patterns && !IsValidFilePattern(p)
  {
    for i := 0 to |patterns|
      invariant forall p :: p in patterns[..i] ==> IsValidFilePattern(p)
    {
      if !IsValidFilePattern(patterns[i]) {
        return true;
      }
      assert patterns[..i + 1] == patterns[..i] + [patterns[i]];
    }
    assert patterns[..|patterns|] == patterns;
    return false;
  }

  class FilesystemDirectorBuilder {
    var originDirectories: map<wstring, wstring>
    var targetDirectories: map<wstring, wstring>
    var ruleNames: set<wstring>
    const rulesByOrigin: PrefixTree<RuleContainer>
    var rulesByName: map<wstring, FilesystemRule>

    ghost function State(): BuilderState
      reads this, rulesByOrigin, rulesByOrigin.nodes.Values
    {
      BuilderState(rulesByOrigin.Contents(), originDirectories, targetDirectories, ruleNames, rulesByName)
    }

    ghost predicate Valid()
      reads this, rulesByOrigin, rulesByOrigin.nodes.Values
    {
      rulesByOrigin.Valid() && rulesByOrigin.Pruned() && Consistent(State())
    }

    constructor ()
      ensures Valid() && State() == BuilderState(map[], map[], map[], {}, map[])
      ensures fresh(rulesByOrigin) && fresh(rulesByOrigin.nodes.Values)
    {
      originDirectories, targetDirectories, ruleNames, rulesByName := map[], map[], {}, map[];
      rulesByOrigin := new PrefixTree<RuleContainer>();
    }

    predicate HasOriginDirectory(directory: wstring)
      reads this
    {
      Fold(directory) in originDirectories
    }

    predicate HasTargetDirectory(directory: wstring)
      reads this
    {
      Fold(directory) in targetDirectories
    }

    /** The checks that come before any table is touched. */
    method CheckRule(name: wstring, origin: wstring, target: wstring, patterns: seq<wstring>)
      returns (r: Result<(wstring, wstring), AddError>)
      requires Valid()
      ensures
        match r
        case Failure(error) => Objection(State(), name, origin, target, patterns) == Some(error)
        case Success(paths) =>
          && Objection(State(), name, origin, target, patterns) == None
          && UsableDirectory(origin) == Success(paths.0) && UsableDirectory(target) == Success(paths.1)
      ensures r.Success? <==> Acceptable(State(), name, origin, target, patterns)
      ensures r.Failure? ==> IsFirstObjection(State(), name, origin, target, patterns, r.error)
    {
      hide Consistent, UsableDirectory, Acceptable, IsFirstObjection;
      hide PrefixTree.Valid, PrefixTree.Pruned, PrefixTree.Contents;
      ObjectionMeaning(State(), name, origin, target, patterns);
      if name in ruleNames {
        return Failure(NameInUse);
      }
      var badPattern := HasInvalidPattern(patterns);
      if badPattern {
        return Failure(BadPattern);
      }
      var originPath := PrepareDirectory(origin);
      if originPath.Failure? {
        return Failure(BadOrigin(originPath.error));
      }
      if HasTargetDirectory(originPath.value) {
        return Failure(OriginIsTarget);
      }
      var targetPath := PrepareDirectory(target);
      if targetPath.Failure? {
        return Failure(BadTarget(targetPath.error));
      }
      if HasOriginDirectory(targetPath.value) {
        return Failure(TargetIsOrigin);
      }
      if HasTargetDirectory(targetPath.value) {
        return Failure(TargetIsTarget);
      }
      return Success((originPath.value, targetPath.value));
    }

    /** Adds a rule. It gets as far as its container exactly if it is acceptable; otherwise there is a real objection,
        and nothing changes. Its patterns let through what they say. */
    method AddRule(
      name: wstring, origin: wstring, target: wstring, filePatterns: seq<wstring>, redirectMode: RedirectMode)
      returns (r: Result<FilesystemRule, AddError>, ghost rule: FilesystemRule)
      requires Valid()
      modifies this, rulesByOrigin, rulesByOrigin.nodes.Values
      ensures Valid() && fresh(rulesByOrigin.nodes.Values - old(rulesByOrigin.nodes.Values))
      ensures
        var before, objection := old(State()), Objection(old(State()), name, origin, target, filePatterns);
        if objection.Some? then r == Failure(objection.value) && State() == before
        else
          && UsableDirectory(origin).Success? && UsableDirectory(target).Success?
          && rule.name == name && rule.redirectMode == redirectMode && rule.target == UsableDirectory(target).value
          && Normalises(filePatterns, rule.filePatterns)
          && Unobjectionable(before, rule, UsableDirectory(origin).value)
          && Outcome(before, State(), rule, UsableDirectory(origin).value, r)
      ensures
        var before := old(State());
        if !Acceptable(before, name, origin, target, filePatterns)
        then r.Failure? && IsFirstObjection(before, name, origin, target, filePatterns, r.error) && State() == before
        else
          && (r.Failure? ==> r.error == TooManyRules) && Records(before, State(), name, origin, target)
          && (r.Failure? <==> |ContainerAt(before.index, Key(UsableDirectory(origin).value))| == MAXIMUM_RULE_COUNT)
          && forall f :: Matches(rule, f) <==> PatternsCover(filePatterns, f)
    {
      hide Consistent, Outcome, Acceptable, IsFirstObjection, Matches, PatternsCover, Normalises, Records, Usable;
      hide UsableDirectory, Key, PrefixTree.Valid, PrefixTree.Pruned, PrefixTree.Contents;
      ghost var before := State();
      ObjectionMeaning(before, name, origin, target, filePatterns);
      var checked := CheckRule(name, origin, target, filePatterns);
      if checked.Failure? {
        rule := FilesystemRule(name, redirectMode, origin, target, filePatterns);
        return Failure(checked.error), rule;
      }
      UsableDirectoryIsUsable(origin);
      UsableDirectoryIsUsable(target);
      r, rule := RecordRule(name, checked.value.0, checked.value.1, filePatterns, redirectMode);
      OutcomeRecords(before, State(), name, origin, target, rule, r);
      MatchMeaning(rule, filePatterns);
    }

    method RecordRule(
      name: wstring, originPath: wstring, targetPath: wstring, filePatterns: seq<wstring>, redirectMode: RedirectMode)
      returns (r: Result<FilesystemRule, AddError>, ghost rule: FilesystemRule)
      requires Valid() && Usable(originPath) && Usable(targetPath) && name !in ruleNames
      requires !HasTargetDirectory(originPath) && !HasOriginDirectory(targetPath) && !HasTargetDirectory(targetPath)
      modifies this, rulesByOrigin, rulesByOrigin.nodes.Values
      ensures Valid() && fresh(rulesByOrigin.nodes.Values - old(rulesByOrigin.nodes.Values))
      ensures rule.name == name && rule.redirectMode == redirectMode && rule.target == targetPath
      ensures Normalises(filePatterns, rule.filePatterns)
      ensures Unobjectionable(old(State()), rule, originPath) && Outcome(old(State()), State(), rule, originPath, r)
    {
      hide Consistent, Unobjectionable, Emplaced, Outcome, Usable;
      hide PrefixTree.Valid, PrefixTree.Pruned, PrefixTree.Contents;
      ghost var before := State();
      var newRule := NoteRule(name, originPath, targetPath, filePatterns, redirectMode);
      var result := EmplaceIntoTree(newRule);
      EmplacedOutcome(before, rulesByOrigin.Contents(), newRule, originPath, result);
      if result.Inserted? {
        rulesByName := rulesByName[name := newRule];
      }
      r, rule := ResultOf(result, newRule), newRule;
    }

    /** Records the directories and the name of a rule, and makes the rule. */
    method NoteRule(
      name: wstring, originPath: wstring, targetPath: wstring, filePatterns: seq<wstring>, redirectMode: RedirectMode)
      returns (rule: FilesystemRule)
      requires Valid() && Usable(originPath) && Usable(targetPath) && name !in ruleNames
      requires !HasTargetDirectory(originPath) && !HasOriginDirectory(targetPath) && !HasTargetDirectory(targetPath)
      modifies `originDirectories, `targetDirectories, `ruleNames
      ensures rulesByOrigin.Valid() && rulesByOrigin.Pruned() && ContainersValid(rulesByOrigin.Contents())
      ensures State() == Noted(old(State()), name, originPath, targetPath)
      ensures rule.name == name && rule.redirectMode == redirectMode && rule.target == targetPath
      ensures Normalises(filePatterns, rule.filePatterns)
      ensures Unobjectionable(old(State()), rule, originPath)
    {
      hide Consistent, Usable, PrefixTree.Valid, PrefixTree.Pruned, PrefixTree.Contents;
      OwnedSpelling(State(), originPath);
      originDirectories := Record(originDirectories, originPath);
      targetDirectories := Record(targetDirectories, targetPath);
      ruleNames := ruleNames + {name};
      var patterns := NormalisePatterns(filePatterns);
      rule := FilesystemRule(
        name, redirectMode, originDirectories[Fold(originPath)], targetDirectories[Fold(targetPath)], patterns);
    }

    /** Puts a rule into the container of its origin directory, which is created if need be. */
    method EmplaceIntoTree(rule: FilesystemRule) returns (result: EmplaceResult)
      requires rulesByOrigin.Valid() && rulesByOrigin.Pruned() && ContainersValid(rulesByOrigin.Contents())
      modifies rulesByOrigin, rulesByOrigin.nodes.Values
      ensures rulesByOrigin.Valid() && rulesByOrigin.Pruned()
      ensures fresh(rulesByOrigin.nodes.Values - old(rulesByOrigin.nodes.Values))
      ensures Emplaced(old(rulesByOrigin.Contents()), rulesByOrigin.Contents(), rule, result)
    {
      hide Key, LongestPrefixKey, Usable;
      ghost var k, before := Key(rule.origin), rulesByOrigin.Contents();
      assert k in before ==> ContainerValid(before[k], k);
      var node := rulesByOrigin.Find(rule.origin);
      var container := if node == null then [] else node.data.value;
      assert container == ContainerAt(before, k);
      assert Ordered(container) && |container| <= MAXIMUM_RULE_COUNT;
      var extended;
      extended, result := EmplaceRule(container, rule);
      assert |multiset(extended)| == |extended|;
      var _ := rulesByOrigin.Update(rule.origin, extended);
    }

    /** Checks the origin directory of one rule. */
    method CheckOrigin(fs: Filesystem, rule: FilesystemRule, ghost done: set<FilesystemRule>)
      returns (violation: Option<Violation>)
      requires Valid() && rule in rulesByName.Values && OriginsFine(State().index, fs, done)
      ensures
        match violation
        case None => OriginsFine(State().index, fs, done + {rule})
        case Some(v) => Violated(State().index, fs, v)
    {
      hide Consistent, Violated, OriginsFine, Key, LacksParent, PrefixTree.Valid, PrefixTree.Pruned,
          PrefixTree.Contents;
      ValuesAreIn(State(), rule);
      LacksParentMeaning(State(), fs, rule);
      OneMoreFine(State(), fs, done, rule);
      if Exists(fs, rule.origin) && !IsDirectory(fs, rule.origin) {
        return Some(OriginNotDirectory(rule));
      }
      var parent := ParentDirectory(rule.origin);
      if !IsDirectory(fs, parent) && !HasOriginDirectory(parent) {
        return Some(ParentMissing(rule));
      }
      return None;
    }

    method ListDirectories(all: PrefixTree<FilesystemRule>, rule: FilesystemRule, ghost done: set<FilesystemRule>)
      requires all.Valid() && all.Pruned() && Lists(all.Contents(), done)
      modifies all, all.nodes.Values
      ensures all.Valid() && all.Pruned() && Lists(all.Contents(), done + {rule})
      ensures fresh(all.nodes.Values - old(all.nodes.Values))
    {
      hide Lists, Key, PrefixTree.Valid, PrefixTree.Pruned, PrefixTree.Contents;
      OneMoreListed(all.Contents(), done, rule);
      var _, _ := all.Insert(rule.origin, rule);
      var _, _ := all.Insert(rule.target, rule);
    }

    /** Checks and lists one rule. */
    method VisitRule(
      fs: Filesystem, all: PrefixTree<FilesystemRule>, rule: FilesystemRule, ghost done: set<FilesystemRule>)
      returns (violation: Option<Violation>)
      requires Valid() && rule in rulesByName.Values && OriginsFine(State().index, fs, done)
      requires all.Valid() && all.Pruned() && Lists(all.Contents(), done)
      modifies all, all.nodes.Values
      ensures all.Valid() && all.Pruned() && fresh(all.nodes.Values - old(all.nodes.Values))
      ensures
        match violation
        case None => Lists(all.Contents(), done + {rule}) && OriginsFine(old(State()).index, fs, done + {rule})
        case Some(v) => Violated(old(State()).index, fs, v)
    {
      hide Violated, OriginsFine, Lists, Consistent, Key, PrefixTree.Valid, PrefixTree.Pruned, PrefixTree.Contents;
      violation := CheckOrigin(fs, rule, done);
      if violation == None {
        ListDirectories(all, rule, done);
      }
    }

    /** Checks the origin directories of all rules and collects all directories, in whatever order the
        rules are visited. */
    method CollectDirectories(fs: Filesystem) returns (violation: Option<Violation>, all: PrefixTree<FilesystemRule>)
      requires Valid()
      ensures violation.Some? ==> Violated(State().index, fs, violation.value)
      ensures fresh(all) && fresh(all.nodes.Values) && all.Valid() && all.Pruned()
      ensures violation.None? ==>
          Lists(all.Contents(), rulesByName.Values) && OriginsFine(State().index, fs, rulesByName.Values)
    {
      hide Violated, OriginsFine, Lists, PrefixTree.Valid, PrefixTree.Pruned, PrefixTree.Contents, Key;
      hide FilesystemDirectorBuilder.Valid, FilesystemDirectorBuilder.State, Consistent;
      all := new PrefixTree<FilesystemRule>();
      NothingListed(State().index, fs);
      var remaining := rulesByName.Values;
      ghost var done: set<FilesystemRule> := {};
      while remaining != {}
        invariant done + remaining == rulesByName.Values
        invariant Valid() && State() == old(State())
        invariant fresh(all) && fresh(all.nodes.Values) && all.Valid() && all.Pruned()
        invariant Lists(all.Contents(), done) && OriginsFine(State().index, fs, done)
        decreases |remaining|
      {
        var rule :| rule in remaining;
        remaining := remaining - {rule};
        violation := VisitRule(fs, all, rule, done);
        if violation.Some? {
          return;
        }
        done := done + {rule};
      }
      violation := None;
    }

    /** The rule that uses the closest directory above a directory. */
    method RuleAbove(all: PrefixTree<FilesystemRule>, directory: wstring) returns (above: Option<FilesystemRule>)
      requires all.Valid() && Key(directory) in all.Contents()
      ensures all.Valid() && all.Contents() == old(all.Contents())
      ensures
        var k := ClosestAncestorKey(all.Contents(), Key(directory));
        match above
        case None => k == None
        case Some(rule) => k.Some? && k.value in all.Contents() && all.Contents()[k.value] == rule
    {
      hide Key, ClosestAncestorKey;
      ClosestAncestorIsLongest(all.Contents(), Key(directory));
      var node := all.Find(directory);
      var ancestor := node.GetClosestAncestor(all, Key(directory));
      above := if ancestor == null then None else ancestor.data;
    }

    /** Finds a violated constraint, if there is one. */
    method VerifyPreBuildConstraints(fs: Filesystem) returns (violation: Option<Violation>)
      requires Valid()
      ensures violation == None ==> ConstraintsHold(State().index, fs)
      ensures violation.Some? ==> Violated(State().index, fs, violation.value)
    {
      hide Consistent, Violated, OriginsFine, Lists, ConstraintsHold, TargetClear, Key, ClosestAncestorKey;
      hide PrefixTree.Valid, PrefixTree.Pruned, PrefixTree.Contents;
      ghost var s := State();
      var all;
      violation, all := CollectDirectories(fs);
      if violation.Some? {
        return;
      }
      ghost var m := all.Contents();
      var remaining := rulesByName.Values;
      ghost var done: set<FilesystemRule> := {};
      while remaining != {}
        invariant done + remaining == rulesByName.Values
        invariant all.Valid() && all.Contents() == m
        invariant forall rule :: rule in done ==> TargetClear(s.index, rule)
        decreases |remaining|
      {
        var rule :| rule in remaining;
        remaining := remaining - {rule};
        AncestorOfTarget(s, fs, m, rule);
        var above := RuleAbove(all, rule.target);
        if above.Some? {
          return Some(TargetHasAncestor(rule, above.value));
        }
        done := done + {rule};
      }
      AllFine(s, fs);
      violation := None;
    }

    /** Adds the rule that makes the parent of an origin directory an origin directory itself. Whether or not that
        succeeds, all other rules stay; if it does not, for a real reason, nothing changes at all. */
    method AddParentRule(fs: Filesystem, child: FilesystemRule, temporaryDirectory: wstring)
      returns (r: Result<FilesystemRule, AddError>)
      requires Valid() && Violated(State().index, fs, ParentMissing(child))
      modifies this, rulesByOrigin, rulesByOrigin.nodes.Values
      ensures Valid() && fresh(rulesByOrigin.nodes.Values - old(rulesByOrigin.nodes.Values))
      ensures r.Success? ==> MissingAncestors(State().index) < old(MissingAncestors(State().index))
      ensures Extended(old(State().index), State().index) && (old(rulesByName) != map[] ==> rulesByName != map[])
      ensures r.Success? <==> ParentAcceptable(old(State()), child, temporaryDirectory)
      ensures r.Success? ==> AddsParent(old(State()), State(), child, temporaryDirectory, r.value)
      ensures
        r.Failure? ==>
          State() == old(State()) && ParentObjection(old(State()), child, temporaryDirectory, r.error)
    {
      hide Consistent, Violated, Outcome, Unobjectionable, MissingAncestors, UsableDirectory, Extended, Normalises;
      hide Acceptable, ObjectionHolds, Records, AddsParent, PatternsCover, Matches, LastBackslash, Key;
      hide PrefixTree.Valid, PrefixTree.Pruned, PrefixTree.Contents;
      ghost var before := State();
      ViolatorIsIn(before, fs, child);
      LacksParentMeaning(before, fs, child);
      ghost var rule;
      r, rule := AddRule(
        AUTO_GENERATED_RULE_NAME_PREFIX + child.origin, ParentDirectory(child.origin), temporaryDirectory, [], Simple);
      ParentOutcome(before, State(), fs, child, rule, r);
      if ParentAcceptable(before, child, temporaryDirectory) {
        ParentResult(before, State(), fs, child, temporaryDirectory, rule, r);
      }
    }

    /** Rules for missing parent directories are added one at a time until nothing is violated any more; each
        leaves strictly fewer levels without a rule, so this ends. */
    method SatisfyConstraints(fs: Filesystem, temporaryDirectories: nat -> wstring)
      returns (error: Option<BuildError>)
      requires Valid()
      modifies this, rulesByOrigin, rulesByOrigin.nodes.Values
      ensures Valid() && fresh(rulesByOrigin.nodes.Values - old(rulesByOrigin.nodes.Values))
      ensures Extended(old(State().index), State().index)
      ensures error == None ==> State().byName != map[] && ConstraintsHold(State().index, fs)
      ensures error.Some? && error.value.ConstraintViolated? ==> Violated(State().index, fs, error.value.violation)
      ensures error == Some(NoRules) <==> old(State()).byName == map[]
      ensures error == None ==> Completed(old(State()), State(), fs, temporaryDirectories)
      ensures
        error.Some? ==> exists n: nat :: StopsAt(old(State()), State(), fs, temporaryDirectories, n, error.value)
      ensures
        Buildable(old(State()), fs, temporaryDirectories) && NothingClashes(old(State()), fs, temporaryDirectories) ==>
          error == None
      ensures
        old(State()).byName != map[] && ConstraintsHold(old(State()).index, fs) ==>
          error == None && State() == old(State())
    {
      hide Consistent, Violated, ConstraintsHold, MissingAncestors, Extended, Grown, Buildable, NothingClashes;
      hide Completed, ParentAcceptable, AddsParent, ParentObjection;
      hide PrefixTree.Valid, PrefixTree.Pruned, PrefixTree.Contents;
      ghost var before := State();
      NothingExtended(State().index);
      NothingGrown(before, fs, temporaryDirectories);
      RulesAreNeeded(before, fs, temporaryDirectories);
      if rulesByName == map[] {
        assert StopsAt(before, State(), fs, temporaryDirectories, 0, NoRules);
        return Some(NoRules);
      }
      var generated := 0;
      var violation := VerifyPreBuildConstraints(fs);
      NothingToDo(before.index, fs, violation);
      while violation.Some?
        invariant Valid() && fresh(rulesByOrigin.nodes.Values - old(rulesByOrigin.nodes.Values))
        invariant rulesByName != map[] && Extended(old(State().index), State().index)
        invariant violation == None ==> ConstraintsHold(State().index, fs)
        invariant violation.Some? ==> Violated(State().index, fs, violation.value)
        invariant Grown(before, State(), fs, temporaryDirectories, generated)
        invariant ConstraintsHold(before.index, fs) ==> violation == None && State() == before
        decreases MissingAncestors(State().index), violation.Some?
      {
        BuildableGoesOn(before, State(), fs, temporaryDirectories, generated, violation.value);
        if !violation.value.ParentMissing? {
          assert StopsAt(before, State(), fs, temporaryDirectories, generated, ConstraintViolated(violation.value));
          return Some(ConstraintViolated(violation.value));
        }
        ghost var index, middle, child := State().index, State(), violation.value.rule;
        var added := AddParentRule(fs, violation.value.rule, temporaryDirectories(generated));
        ExtendedFurther(old(State().index), index, State().index);
        if added.Failure? {
          assert StopsAt(before, State(), fs, temporaryDirectories, generated, CouldNotAddParent(added.error));
          return Some(CouldNotAddParent(added.error));
        }
        GrownFurther(before, middle, State(), fs, temporaryDirectories, generated, child, added.value);
        generated := generated + 1;
        violation := VerifyPreBuildConstraints(fs);
      }
      CompletedAtEnd(before, State(), fs, temporaryDirectories, generated);
      error := None;
    }

    /** Builds a director. It has all the rules that were added, and besides exactly one rule for every level above one
        of their origins at which there is nothing, to replace its contents by those of a temporary directory. Its
        rules are accepted: all its consistency checks succeed, and there is something to list at every level above
        an origin directory. Nothing is generated if the constraints hold as it is. A director is only built if what
        was added and the temporary directories are as they have to be, and then it is built unless something
        clashes with what is generated. */
    method Build(fs: Filesystem, temporaryDirectories: nat -> wstring)
      returns (r: Result<FilesystemDirector, BuildError>)
      requires Valid()
      modifies this, rulesByOrigin, rulesByOrigin.nodes.Values
      ensures Valid() && fresh(rulesByOrigin.nodes.Values - old(rulesByOrigin.nodes.Values))
      ensures Extended(old(State().index), State().index)
      ensures
        match r
        case Success(director) =>
          && director.Valid() && director.Index() == State().index && director.Index() != map[]
          && ConstraintsHold(director.Index(), fs) && Accepted(director.Index())
          && forall k, n :: k in director.Index() && 0 < n < |k| ==>
              RealDirectory(fs, k[..n]) || k[..n] in director.Index()
        case Failure(error) =>
          && (error == NoRules <==> old(State()).byName == map[])
          && (error.ConstraintViolated? ==> Violated(State().index, fs, error.violation))
          && exists n: nat :: StopsAt(old(State()), State(), fs, temporaryDirectories, n, error)
      ensures r.Success? ==> Completed(old(State()), State(), fs, temporaryDirectories)
      ensures r.Success? ==> forall k :: k in r.value.Index() ==> Ordered(r.value.Index()[k])
      ensures
        Buildable(old(State()), fs, temporaryDirectories) && NothingClashes(old(State()), fs, temporaryDirectories) ==>
          r.Success?
      ensures
        old(State()).byName != map[] && ConstraintsHold(old(State()).index, fs) ==>
          r.Success? && State() == old(State())
    {
      hide Consistent, Violated, ConstraintsHold, Accepted, WellFormedContainer, RealDirectory, Extended;
      hide PrefixTree.Valid, PrefixTree.Pruned, PrefixTree.Contents, Completed, Buildable, NothingClashes, StopsAt;
      var error := SatisfyConstraints(fs, temporaryDirectories);
      if error.Some? {
        return Failure(error.value);
      }
      ContainersAreOrdered(State());
      SomeRuleIsIn(State());
      BuiltIsAccepted(State(), fs);
      AcceptedRulesAreWellFormed(State().index);
      var director := new FilesystemDirector(rulesByOrigin);
      r := Success(director);
    }
  }
}
