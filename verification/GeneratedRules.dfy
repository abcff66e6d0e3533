/** The rules that building generates for missing parent directories: for which levels, with which directories, and
    when that succeeds. */
module GeneratedRules {
  import opened Wrappers
  import opened Text
  import opened Rules
  import opened RuleContainers
  import opened PrefixTrees
  import opened Filesystems
  import opened Directors
  import opened Redirections
  import opened BuilderStates

  // ---------- Adding one ----------

  /** The rule for the parent of an origin directory can be added. */
  ghost predicate ParentAcceptable(s: BuilderState, child: FilesystemRule, temporaryDirectory: wstring) {
    && LastBackslash(child.origin) >= 0
    && Acceptable(
      s, AUTO_GENERATED_RULE_NAME_PREFIX + child.origin, ParentDirectory(child.origin), temporaryDirectory, [])
  }

  /** It cannot, for a reason that really holds. */
  ghost predicate ParentObjection(
    s: BuilderState, child: FilesystemRule, temporaryDirectory: wstring, error: AddError)
  {
    && LastBackslash(child.origin) >= 0
    && IsFirstObjection(
      s, AUTO_GENERATED_RULE_NAME_PREFIX + child.origin, ParentDirectory(child.origin), temporaryDirectory, [], error)
  }

  /** A level gets a container with one rule in it, which replaces whatever there may be. */
  ghost predicate AddsLevel(index: RuleIndex, after: RuleIndex, p: Path, rule: FilesystemRule) {
    p !in index && after == index[p := [rule]] && rule.redirectMode == Simple && rule.filePatterns == []
  }

  /** The rule for the parent has been added, and its directories are in use. */
  ghost predicate AddsParent(
    before: BuilderState, after: BuilderState, child: FilesystemRule, temporaryDirectory: wstring,
    rule: FilesystemRule)
  {
    && ParentAcceptable(before, child, temporaryDirectory) && Key(child.origin) != []
    && UsableDirectory(ParentDirectory(child.origin)) == Success(ParentDirectory(child.origin))
    && UsableDirectory(temporaryDirectory) == Success(rule.target)
    && rule.name == AUTO_GENERATED_RULE_NAME_PREFIX + child.origin
    && Key(ParentDirectory(child.origin)) == Parent(Key(child.origin)) == Key(rule.origin)
    && AddsLevel(before.index, after.index, Parent(Key(child.origin)), rule)
    && Records(before, after, rule.name, ParentDirectory(child.origin), temporaryDirectory)
  }

  /** An origin directory that lacks a parent has a container of its own, and its parent has none. */
  lemma LackingParent(s: BuilderState, fs: Filesystem, child: FilesystemRule)
    requires Consistent(s) && Violated(s.index, fs, ParentMissing(child))
    ensures LastBackslash(child.origin) >= 0 && IsIn(s.index, child) && |Key(child.origin)| >= 2
    ensures
      var p := Parent(Key(child.origin));
      && Key(ParentDirectory(child.origin)) == p && p !in s.index && !RealDirectory(fs, p)
      && if |p| == 1 then UsableDirectory(ParentDirectory(child.origin)) == Failure(FilesystemRoot)
         else UsableDirectory(ParentDirectory(child.origin)) == Success(ParentDirectory(child.origin))
  {
    hide UsableDirectory, Key, LastBackslash;
    assert ContainerValid(s.index[Key(child.origin)], Key(child.origin));
    ParentOfUsable(child.origin);
  }

  lemma ParentResult(
    before: BuilderState, after: BuilderState, fs: Filesystem, child: FilesystemRule, temporaryDirectory: wstring,
    rule: FilesystemRule, r: Result<FilesystemRule, AddError>)
    requires Consistent(before) && Violated(before.index, fs, ParentMissing(child))
    requires ParentAcceptable(before, child, temporaryDirectory)
    requires
      && rule.name == AUTO_GENERATED_RULE_NAME_PREFIX + child.origin && rule.redirectMode == Simple
      && Normalises([], rule.filePatterns) && rule.target == UsableDirectory(temporaryDirectory).value
      && Unobjectionable(before, rule, UsableDirectory(ParentDirectory(child.origin)).value)
      && Outcome(before, after, rule, UsableDirectory(ParentDirectory(child.origin)).value, r)
      && Records(before, after, rule.name, ParentDirectory(child.origin), temporaryDirectory)
    ensures r == Success(rule) && AddsParent(before, after, child, temporaryDirectory, rule)
  {
    hide UsableDirectory, Key, LastBackslash, Violated, Records, InUse, Added, Usable, Consistent;
    LackingParent(before, fs, child);
    SameDirectory(rule.origin, ParentDirectory(child.origin));
    NoPatternsStay(rule.filePatterns);
    assert ContainerAt(before.index, Key(rule.origin)) == [];
    AddedToNothing(before, after, rule);
  }

  lemma AddedToNothing(before: BuilderState, after: BuilderState, rule: FilesystemRule)
    requires Added(before, after, rule) && Key(rule.origin) !in before.index
    requires rule.redirectMode == Simple && rule.filePatterns == []
    ensures AddsLevel(before.index, after.index, Key(rule.origin), rule)
  {
    hide Key, Ordered;
    var k := Key(rule.origin);
    assert multiset(after.index[k]) == multiset{rule};
    assert |after.index[k]| == |multiset(after.index[k])| == 1;
    assert after.index[k][0] in multiset(after.index[k]);
    assert after.index[k] == [rule];
    assert after.index == before.index[k := [rule]];
  }

  /** Why the rule for a missing parent cannot be added: its name is taken, the parent is a drive that is not there or
      somebody's target, or the temporary directory cannot be used or is in use. */
  lemma WhyParentsFail(
    s: BuilderState, fs: Filesystem, child: FilesystemRule, temporaryDirectory: wstring, error: AddError)
    requires Consistent(s) && Violated(s.index, fs, ParentMissing(child))
    requires ParentObjection(s, child, temporaryDirectory, error)
    ensures
      match error
      case NameInUse => AUTO_GENERATED_RULE_NAME_PREFIX + child.origin in s.names
      case BadOrigin(reason) => reason == FilesystemRoot && |Key(child.origin)| == 2
      case OriginIsTarget => InUse(s.targets, ParentDirectory(child.origin))
      case BadTarget(reason) => UsableDirectory(temporaryDirectory) == Failure(reason)
      case TargetIsOrigin =>
        UsableDirectory(temporaryDirectory).Success? && InUse(s.origins, UsableDirectory(temporaryDirectory).value)
      case TargetIsTarget =>
        UsableDirectory(temporaryDirectory).Success? && InUse(s.targets, UsableDirectory(temporaryDirectory).value)
      case _ => false
  {
    hide UsableDirectory, Key, LastBackslash, Violated, InUse, Consistent;
    LackingParent(s, fs, child);
  }

  // ---------- Which levels ----------

  /** Levels above origin directories at which there is nothing: no real directory and no origin directory. */
  ghost function Needed(index: RuleIndex, fs: Filesystem): set<Path> {
    set p | p in MissingAncestors(index) && !RealDirectory(fs, p)
  }

  lemma NeededMeaning(index: RuleIndex, fs: Filesystem, p: Path)
    ensures
      p in Needed(index, fs) <==>
      p != [] && p !in index && !RealDirectory(fs, p) && exists k :: k in index && p < k
  {
    if k :| k in index && p < k {
      assert p == k[..|p|];
    }
    if p in MissingAncestors(index) {
      var k, n :| k in index && 0 < n < |k| && k[..n] !in index && p == k[..n];
      assert p < k;
    }
  }

  ghost function NewLevels(index: RuleIndex, after: RuleIndex): set<Path> {
    after.Keys - index.Keys
  }

  /** A number of needed levels has become origin directories; the containers there were are as before. */
  ghost predicate GrownIndex(index: RuleIndex, after: RuleIndex, fs: Filesystem, n: nat) {
    && index.Keys <= after.Keys && NewLevels(index, after) <= Needed(index, fs) && |NewLevels(index, after)| == n
    && forall k :: k in index ==> after[k] == index[k]
  }

  /** All there is at a level is one rule that replaces its contents by those of a temporary directory. */
  ghost predicate LeadsTo(after: RuleIndex, p: Path, temporaryDirectory: wstring) {
    && p in after && |after[p]| == 1 && after[p][0].redirectMode == Simple && after[p][0].filePatterns == []
    && UsableDirectory(temporaryDirectory) == Success(after[p][0].target)
  }

  ghost predicate LevelsLead(index: RuleIndex, after: RuleIndex, temporaryDirectories: nat -> wstring, n: nat) {
    forall p :: p in NewLevels(index, after) ==> exists i: nat :: i < n && LeadsTo(after, p, temporaryDirectories(i))
  }

  ghost predicate TemporariesUsed(index: RuleIndex, after: RuleIndex, temporaryDirectories: nat -> wstring, n: nat) {
    forall i: nat :: i < n ==> exists p :: p in NewLevels(index, after) && LeadsTo(after, p, temporaryDirectories(i))
  }

  /** A directory is one of the temporary ones, ignoring case. */
  ghost predicate IsTemporary(temporaryDirectory: wstring, d: wstring) {
    && UsableDirectory(temporaryDirectory).Success?
    && EqualsCaseInsensitive(d, UsableDirectory(temporaryDirectory).value)
  }

  ghost predicate OnlyLevels(origins: map<wstring, wstring>, after: map<wstring, wstring>, levels: set<Path>) {
    forall d :: InUse(after, d) ==> InUse(origins, d) || Key(d) in levels
  }

  ghost predicate OnlyTemporaries(
    targets: map<wstring, wstring>, after: map<wstring, wstring>, temporaryDirectories: nat -> wstring, n: nat)
  {
    forall d ::
      InUse(after, d) ==> InUse(targets, d) || exists i: nat :: i < n && IsTemporary(temporaryDirectories(i), d)
  }

  /** What has come into use besides. */
  ghost predicate GrownTables(s: BuilderState, after: BuilderState, temporaryDirectories: nat -> wstring, n: nat) {
    && OnlyLevels(s.origins, after.origins, NewLevels(s.index, after.index))
    && OnlyTemporaries(s.targets, after.targets, temporaryDirectories, n)
    && (forall d :: InUse(s.origins, d) ==> InUse(after.origins, d))
    && forall d :: InUse(s.targets, d) ==> InUse(after.targets, d)
  }

  ghost predicate GrownNames(s: BuilderState, after: BuilderState) {
    forall name :: name in after.names ==>
      name in s.names || exists d ::
        name == AUTO_GENERATED_RULE_NAME_PREFIX + d && Key(d) != [] && Parent(Key(d)) in after.index
  }

  /** The temporary directories taken so far were new when they were. */
  ghost predicate WereNew(s: BuilderState, after: BuilderState, temporaryDirectories: nat -> wstring, n: nat) {
    && (forall i: nat :: i < n ==> WasNew(s, after, temporaryDirectories(i)))
    && forall i: nat, j: nat :: i < j < n ==> Differ(temporaryDirectories(i), temporaryDirectories(j))
  }

  ghost predicate WasNew(s: BuilderState, after: BuilderState, temporaryDirectory: wstring) {
    && UsableDirectory(temporaryDirectory).Success?
    && var t := UsableDirectory(temporaryDirectory).value;
       !InUse(s.origins, t) && !InUse(s.targets, t) && InUse(after.targets, t)
  }

  ghost predicate Differ(a: wstring, b: wstring) {
    && UsableDirectory(a).Success? && UsableDirectory(b).Success?
    && Key(UsableDirectory(a).value) != Key(UsableDirectory(b).value)
  }

  ghost predicate NoLevelIsTarget(targets: map<wstring, wstring>, levels: set<Path>) {
    forall d :: d in targets.Values ==> Key(d) !in levels
  }

  /** What a number of generated rules makes of a builder's tables. */
  ghost predicate Grown(
    s: BuilderState, after: BuilderState, fs: Filesystem, temporaryDirectories: nat -> wstring, n: nat)
  {
    && GrownIndex(s.index, after.index, fs, n)
    && LevelsLead(s.index, after.index, temporaryDirectories, n)
    && TemporariesUsed(s.index, after.index, temporaryDirectories, n)
    && GrownTables(s, after, temporaryDirectories, n) && GrownNames(s, after)
    && WereNew(s, after, temporaryDirectories, n)
    && NoLevelIsTarget(s.targets, NewLevels(s.index, after.index))
  }

  lemma NothingGrown(s: BuilderState, fs: Filesystem, temporaryDirectories: nat -> wstring)
    ensures Grown(s, s, fs, temporaryDirectories, 0)
  {
    hide InUse, Key;
    assert NewLevels(s.index, s.index) == {};
  }

  // ---------- One more ----------

  /** The parent is a level that is needed and has had no rule. */
  lemma ParentIsNeeded(index: RuleIndex, middle: BuilderState, fs: Filesystem, n: nat, child: FilesystemRule)
    requires Consistent(middle) && GrownIndex(index, middle.index, fs, n)
    requires Violated(middle.index, fs, ParentMissing(child))
    ensures Key(child.origin) != []
    ensures Parent(Key(child.origin)) in Needed(index, fs) && Parent(Key(child.origin)) !in middle.index
  {
    hide Key, Consistent, RealDirectory, UsableDirectory, LastBackslash, Needed;
    LackingParent(middle, fs, child);
    var k, p := Key(child.origin), Parent(Key(child.origin));
    assert p < k && k in middle.index && p !in index;
    NeededMeaning(index, fs, p);
    if k !in index {
      NeededMeaning(index, fs, k);
      var l :| l in index && k < l;
      assert p < l;
    }
  }

  lemma LevelIsNew(
    index: RuleIndex, middle: RuleIndex, after: RuleIndex, fs: Filesystem, n: nat, p: Path, rule: FilesystemRule)
    requires GrownIndex(index, middle, fs, n) && AddsLevel(middle, after, p, rule) && p in Needed(index, fs)
    ensures GrownIndex(index, after, fs, n + 1) && NewLevels(index, after) == NewLevels(index, middle) + {p}
  {
    hide Needed, NewLevels;
    NewLevelAdded(index, middle, after, p, rule);
  }

  lemma NewLevelAdded(index: RuleIndex, middle: RuleIndex, after: RuleIndex, p: Path, rule: FilesystemRule)
    requires index.Keys <= middle.Keys && AddsLevel(middle, after, p, rule)
    ensures NewLevels(index, after) == NewLevels(index, middle) + {p} && p !in NewLevels(index, middle)
    ensures index.Keys <= after.Keys && p !in index
  {
    assert after.Keys == middle.Keys + {p};
  }

  lemma StillLeads(middle: RuleIndex, after: RuleIndex, p: Path, rule: FilesystemRule, q: Path, other: wstring)
    requires AddsLevel(middle, after, p, rule) && LeadsTo(middle, q, other)
    ensures LeadsTo(after, q, other)
  {
    hide UsableDirectory;
  }

  lemma LevelLeads(middle: RuleIndex, after: RuleIndex, p: Path, rule: FilesystemRule, temporaryDirectory: wstring)
    requires AddsLevel(middle, after, p, rule) && UsableDirectory(temporaryDirectory) == Success(rule.target)
    ensures LeadsTo(after, p, temporaryDirectory)
  {
    hide UsableDirectory;
  }

  lemma MoreLevelsLead(
    index: RuleIndex, middle: RuleIndex, after: RuleIndex, temporaryDirectories: nat -> wstring, n: nat, p: Path,
    rule: FilesystemRule)
    requires LevelsLead(index, middle, temporaryDirectories, n)
    requires AddsLevel(middle, after, p, rule) && UsableDirectory(temporaryDirectories(n)) == Success(rule.target)
    requires NewLevels(index, after) == NewLevels(index, middle) + {p}
    ensures LevelsLead(index, after, temporaryDirectories, n + 1)
  {
    hide NewLevels, LeadsTo, UsableDirectory, AddsLevel;
    forall q | q in NewLevels(index, after)
      ensures exists i: nat :: i < n + 1 && LeadsTo(after, q, temporaryDirectories(i))
    {
      if q == p {
        LevelLeads(middle, after, p, rule, temporaryDirectories(n));
      } else {
        var i: nat :| i < n && LeadsTo(middle, q, temporaryDirectories(i));
        StillLeads(middle, after, p, rule, q, temporaryDirectories(i));
      }
    }
  }

  lemma TemporaryIsUsed(
    index: RuleIndex, middle: RuleIndex, after: RuleIndex, temporaryDirectories: nat -> wstring, n: nat, p: Path,
    rule: FilesystemRule)
    requires TemporariesUsed(index, middle, temporaryDirectories, n)
    requires AddsLevel(middle, after, p, rule) && UsableDirectory(temporaryDirectories(n)) == Success(rule.target)
    requires NewLevels(index, after) == NewLevels(index, middle) + {p}
    ensures TemporariesUsed(index, after, temporaryDirectories, n + 1)
  {
    hide NewLevels, LeadsTo, UsableDirectory, AddsLevel;
    forall i: nat | i < n + 1
      ensures exists q :: q in NewLevels(index, after) && LeadsTo(after, q, temporaryDirectories(i))
    {
      if i < n {
        var q :| q in NewLevels(index, middle) && LeadsTo(middle, q, temporaryDirectories(i));
        StillLeads(middle, after, p, rule, q, temporaryDirectories(i));
      } else {
        LevelLeads(middle, after, p, rule, temporaryDirectories(n));
        assert p in NewLevels(index, after);
      }
    }
  }

  lemma SameKey(a: wstring, b: wstring)
    requires EqualsCaseInsensitive(a, b)
    ensures Key(a) == Key(b)
  {
  }

  lemma OriginsGrow(
    origins: map<wstring, wstring>, middle: map<wstring, wstring>, after: map<wstring, wstring>, levels: set<Path>,
    parent: wstring)
    requires OnlyLevels(origins, middle, levels)
    requires forall d :: InUse(after, d) <==> InUse(middle, d) || EqualsCaseInsensitive(d, parent)
    ensures OnlyLevels(origins, after, levels + {Key(parent)})
  {
    hide InUse, Key, EqualsCaseInsensitive;
    forall d | InUse(after, d)
      ensures InUse(origins, d) || Key(d) in levels + {Key(parent)}
    {
      if EqualsCaseInsensitive(d, parent) {
        SameKey(d, parent);
      }
    }
  }

  lemma TargetsGrow(
    targets: map<wstring, wstring>, middle: map<wstring, wstring>, after: map<wstring, wstring>,
    temporaryDirectories: nat -> wstring, n: nat)
    requires UsableDirectory(temporaryDirectories(n)).Success?
    requires OnlyTemporaries(targets, middle, temporaryDirectories, n)
    requires
      forall d ::
        InUse(after, d) <==>
        InUse(middle, d) || EqualsCaseInsensitive(d, UsableDirectory(temporaryDirectories(n)).value)
    ensures OnlyTemporaries(targets, after, temporaryDirectories, n + 1)
  {
    hide InUse, EqualsCaseInsensitive, UsableDirectory;
    forall d | InUse(after, d)
      ensures InUse(targets, d) || exists i: nat :: i < n + 1 && IsTemporary(temporaryDirectories(i), d)
    {
      if InUse(middle, d) && !InUse(targets, d) {
        var i: nat :| i < n && IsTemporary(temporaryDirectories(i), d);
      } else if !InUse(middle, d) {
        assert IsTemporary(temporaryDirectories(n), d);
      }
    }
  }

  lemma TablesGrow(
    s: BuilderState, middle: BuilderState, after: BuilderState, temporaryDirectories: nat -> wstring, n: nat,
    parent: wstring, name: wstring)
    requires GrownTables(s, middle, temporaryDirectories, n)
    requires UsableDirectory(parent) == Success(parent) && UsableDirectory(temporaryDirectories(n)).Success?
    requires Records(middle, after, name, parent, temporaryDirectories(n))
    requires NewLevels(s.index, after.index) == NewLevels(s.index, middle.index) + {Key(parent)}
    ensures GrownTables(s, after, temporaryDirectories, n + 1)
  {
    hide NewLevels, InUse, UsableDirectory, Key, EqualsCaseInsensitive, OnlyLevels, OnlyTemporaries;
    OriginsGrow(s.origins, middle.origins, after.origins, NewLevels(s.index, middle.index), parent);
    TargetsGrow(s.targets, middle.targets, after.targets, temporaryDirectories, n);
  }

  lemma NamesGrow(
    s: BuilderState, middle: BuilderState, after: BuilderState, origin: wstring, p: Path, rule: FilesystemRule)
    requires GrownNames(s, middle) && AddsLevel(middle.index, after.index, p, rule)
    requires Key(origin) != [] && Parent(Key(origin)) == p
    requires after.names == middle.names + {AUTO_GENERATED_RULE_NAME_PREFIX + origin}
    ensures GrownNames(s, after)
  {
    hide Key;
  }

  lemma TemporaryIsNew(
    s: BuilderState, middle: BuilderState, after: BuilderState, temporaryDirectories: nat -> wstring, n: nat)
    requires WereNew(s, middle, temporaryDirectories, n)
    requires WasNew(s, after, temporaryDirectories(n))
    requires !InUse(middle.targets, UsableDirectory(temporaryDirectories(n)).value)
    requires forall d :: InUse(middle.targets, d) ==> InUse(after.targets, d)
    ensures WereNew(s, after, temporaryDirectories, n + 1)
  {
    hide InUse, UsableDirectory;
    forall i: nat | i < n + 1
      ensures WasNew(s, after, temporaryDirectories(i))
    {
      assert i < n ==> WasNew(s, middle, temporaryDirectories(i));
    }
    forall i: nat, j: nat | i < j < n + 1
      ensures Differ(temporaryDirectories(i), temporaryDirectories(j))
    {
      if j == n {
        assert WasNew(s, middle, temporaryDirectories(i));
        NewOnesDiffer(s, middle, temporaryDirectories(i), temporaryDirectories(n));
      }
    }
  }

  lemma NewOnesDiffer(s: BuilderState, middle: BuilderState, a: wstring, b: wstring)
    requires WasNew(s, middle, a) && UsableDirectory(b).Success?
    requires !InUse(middle.targets, UsableDirectory(b).value)
    ensures Differ(a, b)
  {
    hide InUse, UsableDirectory, Usable, Key;
    UsableDirectoryIsUsable(a);
    UsableDirectoryIsUsable(b);
    SameDirectory(UsableDirectory(a).value, UsableDirectory(b).value);
    if Fold(UsableDirectory(a).value) == Fold(UsableDirectory(b).value) {
      SameInUse(middle.targets, UsableDirectory(a).value, UsableDirectory(b).value);
    }
  }

  lemma SameInUse(table: map<wstring, wstring>, a: wstring, b: wstring)
    requires Fold(a) == Fold(b)
    ensures InUse(table, a) <==> InUse(table, b)
  {
  }

  lemma LevelIsNoTarget(targets: map<wstring, wstring>, levels: set<Path>, parent: wstring)
    requires Recorded(targets) && NoLevelIsTarget(targets, levels) && Usable(parent) && !InUse(targets, parent)
    ensures NoLevelIsTarget(targets, levels + {Key(parent)})
  {
    hide InUse, Key, Usable, Recorded;
    forall d | d in targets.Values
      ensures Key(d) != Key(parent)
    {
      RecordedIsInUse(targets, d);
      SameDirectory(d, parent);
      if Fold(d) == Fold(parent) {
        SameInUse(targets, d, parent);
      }
    }
  }

  lemma RecordedIsInUse(table: map<wstring, wstring>, d: wstring)
    requires Recorded(table) && d in table.Values
    ensures InUse(table, d) && Usable(d)
  {
  }

  /** One more rule is generated. */
  lemma GrownFurther(
    s: BuilderState, middle: BuilderState, after: BuilderState, fs: Filesystem,
    temporaryDirectories: nat -> wstring, n: nat, child: FilesystemRule, rule: FilesystemRule)
    requires Consistent(s) && Consistent(middle) && Grown(s, middle, fs, temporaryDirectories, n)
    requires Violated(middle.index, fs, ParentMissing(child))
    requires AddsParent(middle, after, child, temporaryDirectories(n), rule)
    ensures Grown(s, after, fs, temporaryDirectories, n + 1)
  {
    hide Consistent, Violated, Needed, Key, UsableDirectory, InUse, AddsLevel, LastBackslash, Usable, NewLevels;
    hide GrownIndex, LevelsLead, TemporariesUsed, GrownTables, GrownNames, WereNew, NoLevelIsTarget;
    var p, parent := Parent(Key(child.origin)), ParentDirectory(child.origin);
    ParentIsNeeded(s.index, middle, fs, n, child);
    LevelIsNew(s.index, middle.index, after.index, fs, n, p, rule);
    MoreLevelsLead(s.index, middle.index, after.index, temporaryDirectories, n, p, rule);
    TemporaryIsUsed(s.index, middle.index, after.index, temporaryDirectories, n, p, rule);
    TablesGrow(s, middle, after, temporaryDirectories, n, parent, rule.name);
    NamesGrow(s, middle, after, child.origin, p, rule);
    AcceptedIsNew(s, middle, after, temporaryDirectories, n, child, rule);
    TemporaryIsNew(s, middle, after, temporaryDirectories, n);
    UsableDirectoryIsUsable(parent);
    LevelIsNoTarget(s.targets, NewLevels(s.index, middle.index), parent);
  }

  lemma AcceptedIsNew(
    s: BuilderState, middle: BuilderState, after: BuilderState, temporaryDirectories: nat -> wstring, n: nat,
    child: FilesystemRule, rule: FilesystemRule)
    requires Consistent(s) && GrownTables(s, middle, temporaryDirectories, n)
    requires AddsParent(middle, after, child, temporaryDirectories(n), rule)
    ensures WasNew(s, after, temporaryDirectories(n))
    ensures !InUse(middle.targets, UsableDirectory(temporaryDirectories(n)).value)
    ensures Recorded(s.targets) && !InUse(s.targets, ParentDirectory(child.origin))
    ensures forall d :: InUse(middle.targets, d) ==> InUse(after.targets, d)
  {
    hide ContainersValid, NamesAgree, TargetsDistinct, Usable;
    hide UsableDirectory, InUse, Key, LastBackslash, AddsLevel, OnlyLevels, OnlyTemporaries, GoodPattern;
  }

  // ---------- When building succeeds ----------

  /** A level at which a rule can be generated: below a drive, with nothing there, and not a directory that is a target
      or lies above one. */
  ghost predicate LevelIsFree(s: BuilderState, fs: Filesystem, p: Path) {
    && |p| >= 2 && p !in fs && (forall d :: d in s.targets.Values ==> Key(d) != p)
    && forall rule :: IsIn(s.index, rule) ==> !(p < Key(rule.target))
  }

  /** A temporary directory that can be a target: it is nobody's directory, nothing that is used lies above it, and no
      target lies below it. */
  ghost predicate TemporaryIsFree(s: BuilderState, fs: Filesystem, t: wstring) {
    && !InUse(s.origins, t) && !InUse(s.targets, t)
    && (forall rule :: IsIn(s.index, rule) ==>
          && !(Key(rule.origin) < Key(t)) && !(Key(rule.target) < Key(t)) && !(Key(t) < Key(rule.target)))
    && forall p :: p in Needed(s.index, fs) ==> !(p < Key(t))
  }

  /** Two temporary directories, neither of which is or contains the other. */
  ghost predicate Apart(a: wstring, b: wstring) {
    && UsableDirectory(a).Success? && UsableDirectory(b).Success?
    && !(Key(UsableDirectory(a).value) <= Key(UsableDirectory(b).value))
    && !(Key(UsableDirectory(b).value) <= Key(UsableDirectory(a).value))
  }

  ghost predicate OriginsAndTargetsFine(index: RuleIndex, fs: Filesystem) {
    forall rule :: IsIn(index, rule) ==> OriginUsable(fs, rule) && TargetClear(index, rule)
  }

  ghost predicate LevelsAreFree(s: BuilderState, fs: Filesystem) {
    forall p :: p in Needed(s.index, fs) ==> LevelIsFree(s, fs, p)
  }

  ghost predicate TemporariesAreFree(
    s: BuilderState, fs: Filesystem, temporaryDirectories: nat -> wstring, n: nat)
  {
    && (forall i: nat :: i < n ==>
          UsableDirectory(temporaryDirectories(i)).Success?
          && TemporaryIsFree(s, fs, UsableDirectory(temporaryDirectories(i)).value))
    && forall i: nat, j: nat :: i < j < n ==> Apart(temporaryDirectories(i), temporaryDirectories(j))
  }

  /** What the rules that were added, the filesystem and the temporary directories have to be like for a director to be
      built. As many temporary directories matter as there are levels that need a rule. */
  ghost predicate Buildable(s: BuilderState, fs: Filesystem, temporaryDirectories: nat -> wstring) {
    && s.byName != map[] && OriginsAndTargetsFine(s.index, fs) && LevelsAreFree(s, fs)
    && TemporariesAreFree(s, fs, temporaryDirectories, |Needed(s.index, fs)|)
  }

  /** No rule has a name like those that are generated, and no temporary directory is a level that needs a rule. */
  ghost predicate NothingClashes(s: BuilderState, fs: Filesystem, temporaryDirectories: nat -> wstring) {
    && (forall name :: name in s.names ==> !(AUTO_GENERATED_RULE_NAME_PREFIX <= name))
    && forall i: nat :: i < |Needed(s.index, fs)| ==> IsNoLevel(s.index, fs, temporaryDirectories(i))
  }

  ghost predicate IsNoLevel(index: RuleIndex, fs: Filesystem, temporaryDirectory: wstring) {
    UsableDirectory(temporaryDirectory).Success? ==>
      Key(UsableDirectory(temporaryDirectory).value) !in Needed(index, fs)
  }

  /** A rule is one of those that were there, or leads from a needed level to a temporary directory. */
  ghost predicate OldOrGenerated(
    s: BuilderState, fs: Filesystem, temporaryDirectories: nat -> wstring, n: nat, x: FilesystemRule)
  {
    || IsIn(s.index, x)
    || (&& Key(x.origin) in Needed(s.index, fs)
        && exists i: nat :: i < n && UsableDirectory(temporaryDirectories(i)) == Success(x.target))
  }

  lemma RulesOfGrown(
    s: BuilderState, after: BuilderState, fs: Filesystem, temporaryDirectories: nat -> wstring, n: nat,
    x: FilesystemRule)
    requires Grown(s, after, fs, temporaryDirectories, n) && IsIn(after.index, x)
    ensures OldOrGenerated(s, fs, temporaryDirectories, n, x)
  {
    hide Key, UsableDirectory, Needed, GrownTables, GrownNames, WereNew, NoLevelIsTarget, TemporariesUsed;
    hide LeadsTo;
    var k := Key(x.origin);
    if k !in s.index {
      assert k in NewLevels(s.index, after.index);
      var i: nat :| i < n && LeadsTo(after.index, k, temporaryDirectories(i));
      OnlyRule(after.index, k, temporaryDirectories(i), x);
    }
  }

  lemma OnlyRule(after: RuleIndex, p: Path, temporaryDirectory: wstring, x: FilesystemRule)
    requires LeadsTo(after, p, temporaryDirectory) && x in after[p]
    ensures UsableDirectory(temporaryDirectory) == Success(x.target)
  {
    hide UsableDirectory;
  }

  lemma FewerThanNeeded(s: BuilderState, after: BuilderState, fs: Filesystem, n: nat)
    requires GrownIndex(s.index, after.index, fs, n)
    ensures n <= |Needed(s.index, fs)|
    ensures Needed(s.index, fs) - after.index.Keys != {} ==> n < |Needed(s.index, fs)|
    ensures n == |Needed(s.index, fs)| ==> NewLevels(s.index, after.index) == Needed(s.index, fs)
  {
    hide Needed, NewLevels;
    SomeOfAll(NewLevels(s.index, after.index), Needed(s.index, fs));
    if p :| p in Needed(s.index, fs) - after.index.Keys {
      assert p !in NewLevels(s.index, after.index) by { NewIsIn(s.index, after.index); }
    }
  }

  lemma NewIsIn(index: RuleIndex, after: RuleIndex)
    ensures NewLevels(index, after) <= after.Keys
  {
  }

  lemma SomeOfAll(taken: set<Path>, all: set<Path>)
    requires taken <= all
    ensures |taken| <= |all|
    ensures |taken| == |all| <==> taken == all
  {
    assert all == taken + (all - taken);
    assert |all| == |taken| + |all - taken|;
  }

  /** Generated rules violate nothing themselves. */
  lemma OnlyParentsAreMissing(
    s: BuilderState, after: BuilderState, fs: Filesystem, temporaryDirectories: nat -> wstring, n: nat, v: Violation)
    requires Consistent(after) && Buildable(s, fs, temporaryDirectories)
    requires Grown(s, after, fs, temporaryDirectories, n) && Violated(after.index, fs, v)
    ensures v.ParentMissing?
  {
    hide Consistent, Grown, Key, UsableDirectory, Needed, IsIn, OriginUsable, TargetClear, InUse, Apart;
    hide Buildable, RealDirectory, OldOrGenerated;
    FewerThanNeeded(s, after, fs, n) by { GrownHasIndex(s, after, fs, temporaryDirectories, n); }
    RulesOfGrown(s, after, fs, temporaryDirectories, n, v.rule);
    match v
    case ParentMissing(_) =>
    case OriginNotDirectory(rule) =>
      OriginIsFine(s, after, fs, temporaryDirectories, n, rule);
    case TargetHasAncestor(rule, above) =>
      RulesOfGrown(s, after, fs, temporaryDirectories, n, above);
      TargetIsFine(s, fs, temporaryDirectories, n, rule, above);
  }

  lemma GrownHasIndex(
    s: BuilderState, after: BuilderState, fs: Filesystem, temporaryDirectories: nat -> wstring, n: nat)
    requires Grown(s, after, fs, temporaryDirectories, n)
    ensures GrownIndex(s.index, after.index, fs, n)
  {
  }

  lemma OriginIsFine(
    s: BuilderState, after: BuilderState, fs: Filesystem, temporaryDirectories: nat -> wstring, n: nat,
    rule: FilesystemRule)
    requires Consistent(after) && Buildable(s, fs, temporaryDirectories) && IsIn(after.index, rule)
    requires OldOrGenerated(s, fs, temporaryDirectories, n, rule)
    ensures OriginUsable(fs, rule)
  {
    hide Key, UsableDirectory, Needed, TargetClear, InUse, Apart, TemporariesAreFree;
    assert ContainerValid(after.index[Key(rule.origin)], Key(rule.origin));
    NormalisedFsKey(rule.origin);
    if !IsIn(s.index, rule) {
      assert LevelIsFree(s, fs, Key(rule.origin));
    }
  }

  /** Where a rule's target is, seen from other directories. */
  lemma TargetIsFine(
    s: BuilderState, fs: Filesystem, temporaryDirectories: nat -> wstring, n: nat, rule: FilesystemRule,
    above: FilesystemRule)
    requires Buildable(s, fs, temporaryDirectories) && n <= |Needed(s.index, fs)|
    requires OldOrGenerated(s, fs, temporaryDirectories, n, rule)
    requires OldOrGenerated(s, fs, temporaryDirectories, n, above)
    ensures !(Key(above.origin) < Key(rule.target)) && !(Key(above.target) < Key(rule.target))
  {
    hide Key, UsableDirectory, Needed, IsIn, OriginUsable, InUse;
    if IsIn(s.index, rule) {
      if IsIn(s.index, above) {
        assert TargetClear(s.index, rule);
      } else {
        assert LevelIsFree(s, fs, Key(above.origin));
        var i: nat :| i < n && UsableDirectory(temporaryDirectories(i)) == Success(above.target);
        assert TemporaryIsFree(s, fs, UsableDirectory(temporaryDirectories(i)).value);
      }
    } else {
      var i: nat :| i < n && UsableDirectory(temporaryDirectories(i)) == Success(rule.target);
      assert TemporaryIsFree(s, fs, UsableDirectory(temporaryDirectories(i)).value);
      if !IsIn(s.index, above) {
        var j: nat :| j < n && UsableDirectory(temporaryDirectories(j)) == Success(above.target);
        assert i < j ==> Apart(temporaryDirectories(i), temporaryDirectories(j));
        assert j < i ==> Apart(temporaryDirectories(j), temporaryDirectories(i));
      }
    }
  }

  /** The rule for a missing parent can be added. */
  lemma ParentIsAcceptable(
    s: BuilderState, after: BuilderState, fs: Filesystem, temporaryDirectories: nat -> wstring, n: nat,
    child: FilesystemRule)
    requires Consistent(after) && Buildable(s, fs, temporaryDirectories)
    requires NothingClashes(s, fs, temporaryDirectories)
    requires Grown(s, after, fs, temporaryDirectories, n) && Violated(after.index, fs, ParentMissing(child))
    ensures ParentAcceptable(after, child, temporaryDirectories(n))
  {
    hide Consistent, Violated, Key, UsableDirectory, Needed, InUse, LastBackslash, NewLevels, Apart, TemporaryIsFree;
    hide LevelIsFree, LevelsLead, TemporariesUsed, WereNew, NoLevelIsTarget, OriginsAndTargetsFine;
    hide OnlyLevels, OnlyTemporaries, GrownNames, LevelsAreFree, TemporariesAreFree, GrownIndex, IsNoLevel;
    LackingParent(after, fs, child);
    ParentIsNeeded(s.index, after, fs, n, child);
    FewerThanNeeded(s, after, fs, n);
    var p, parent := Parent(Key(child.origin)), ParentDirectory(child.origin);
    assert LevelIsFree(s, fs, p) by { LevelOf(s, fs, p); }
    assert |p| >= 2 by { LevelIsDeep(s, fs, p); }
    assert p in Needed(s.index, fs) - after.index.Keys;
    NameIsNew(s, after, fs, temporaryDirectories, child);
    ParentIsNoTarget(s, after, fs, temporaryDirectories, n, parent);
    TemporaryIsNobodys(s, after, fs, temporaryDirectories, n);
  }

  lemma LevelOf(s: BuilderState, fs: Filesystem, p: Path)
    requires LevelsAreFree(s, fs) && p in Needed(s.index, fs)
    ensures LevelIsFree(s, fs, p)
  {
  }

  lemma LevelIsDeep(s: BuilderState, fs: Filesystem, p: Path)
    requires LevelIsFree(s, fs, p)
    ensures |p| >= 2
  {
  }

  lemma NameIsNew(
    s: BuilderState, after: BuilderState, fs: Filesystem, temporaryDirectories: nat -> wstring, child: FilesystemRule)
    requires NothingClashes(s, fs, temporaryDirectories) && GrownNames(s, after)
    requires Key(child.origin) != [] && Parent(Key(child.origin)) !in after.index
    ensures AUTO_GENERATED_RULE_NAME_PREFIX + child.origin !in after.names
  {
    hide Key, Needed, IsNoLevel;
    var name := AUTO_GENERATED_RULE_NAME_PREFIX + child.origin;
    forall d | name == AUTO_GENERATED_RULE_NAME_PREFIX + d
      ensures d == child.origin
    {
      assert name[|AUTO_GENERATED_RULE_NAME_PREFIX|..] == d;
      assert name[|AUTO_GENERATED_RULE_NAME_PREFIX|..] == child.origin;
    }
  }

  lemma ParentIsNoTarget(
    s: BuilderState, after: BuilderState, fs: Filesystem, temporaryDirectories: nat -> wstring, n: nat,
    parent: wstring)
    requires NothingClashes(s, fs, temporaryDirectories) && n <= |Needed(s.index, fs)|
    requires OnlyTemporaries(s.targets, after.targets, temporaryDirectories, n)
    requires Key(parent) in Needed(s.index, fs) && LevelIsFree(s, fs, Key(parent))
    ensures !InUse(after.targets, parent)
  {
    hide Key, Needed, UsableDirectory;
    if InUse(s.targets, parent) {
      var d :| d in s.targets.Values && EqualsCaseInsensitive(d, parent);
      SameKey(d, parent);
    }
    forall i: nat | i < n
      ensures !IsTemporary(temporaryDirectories(i), parent)
    {
      assert IsNoLevel(s.index, fs, temporaryDirectories(i));
      if IsTemporary(temporaryDirectories(i), parent) {
        SameKey(parent, UsableDirectory(temporaryDirectories(i)).value);
      }
    }
  }

  lemma TemporaryIsNobodys(
    s: BuilderState, after: BuilderState, fs: Filesystem, temporaryDirectories: nat -> wstring, n: nat)
    requires NothingClashes(s, fs, temporaryDirectories) && n < |Needed(s.index, fs)|
    requires TemporariesAreFree(s, fs, temporaryDirectories, |Needed(s.index, fs)|)
    requires OnlyTemporaries(s.targets, after.targets, temporaryDirectories, n)
    requires GrownIndex(s.index, after.index, fs, n)
    requires OnlyLevels(s.origins, after.origins, NewLevels(s.index, after.index))
    ensures UsableDirectory(temporaryDirectories(n)).Success?
    ensures !InUse(after.origins, UsableDirectory(temporaryDirectories(n)).value)
    ensures !InUse(after.targets, UsableDirectory(temporaryDirectories(n)).value)
  {
    hide Key, Needed, UsableDirectory, InUse, NewLevels, Apart, EqualsCaseInsensitive;
    assert IsNoLevel(s.index, fs, temporaryDirectories(n));
    var t := UsableDirectory(temporaryDirectories(n)).value;
    assert TemporaryIsFree(s, fs, t);
    forall i: nat | i < n
      ensures !IsTemporary(temporaryDirectories(i), t)
    {
      assert Apart(temporaryDirectories(i), temporaryDirectories(n));
      ApartAreDifferent(temporaryDirectories(i), temporaryDirectories(n));
    }
  }

  lemma ApartAreDifferent(a: wstring, b: wstring)
    requires Apart(a, b)
    ensures UsableDirectory(b).Success? && !IsTemporary(a, UsableDirectory(b).value)
  {
    hide Key, UsableDirectory, EqualsCaseInsensitive;
    if IsTemporary(a, UsableDirectory(b).value) {
      SameKey(UsableDirectory(b).value, UsableDirectory(a).value);
    }
  }

  // ---------- Only then ----------

  /** When all constraints hold, every level that was needed has its rule, and things were as they had to be. */
  lemma GrownToTheEnd(
    s: BuilderState, after: BuilderState, fs: Filesystem, temporaryDirectories: nat -> wstring, n: nat)
    requires Consistent(s) && Consistent(after) && Grown(s, after, fs, temporaryDirectories, n)
    requires ConstraintsHold(after.index, fs) && s.byName != map[]
    ensures NewLevels(s.index, after.index) == Needed(s.index, fs) && n == |Needed(s.index, fs)|
    ensures Buildable(s, fs, temporaryDirectories)
  {
    hide Consistent, ConstraintsHold, Needed, LevelsLead, TemporariesUsed, GrownTables, GrownNames, WereNew;
    hide NoLevelIsTarget, OriginsAndTargetsFine, TemporariesAreFree, LevelsAreFree, Key;
    forall p | p in Needed(s.index, fs)
      ensures p in NewLevels(s.index, after.index)
    {
      EveryNeededLevelIsNew(s, after, fs, n, p);
    }
    assert NewLevels(s.index, after.index) == Needed(s.index, fs);
    FineBefore(s, after, fs, n);
    FreeBefore(s, after, fs, n);
    TemporariesBefore(s, after, fs, temporaryDirectories, n);
  }

  lemma EveryNeededLevelIsNew(s: BuilderState, after: BuilderState, fs: Filesystem, n: nat, p: Path)
    requires Consistent(after) && GrownIndex(s.index, after.index, fs, n) && ConstraintsHold(after.index, fs)
    requires p in Needed(s.index, fs)
    ensures p in NewLevels(s.index, after.index)
  {
    hide Consistent, ConstraintsHold, Needed, Key, RealDirectory;
    NeededMeaning(s.index, fs, p);
    var k :| k in s.index && p < k;
    BuiltIsAccepted(after, fs);
    assert p == k[..|p|] && k in after.index;
  }

  lemma FineBefore(s: BuilderState, after: BuilderState, fs: Filesystem, n: nat)
    requires GrownIndex(s.index, after.index, fs, n) && ConstraintsHold(after.index, fs)
    ensures OriginsAndTargetsFine(s.index, fs)
    ensures forall x :: IsIn(s.index, x) ==> IsIn(after.index, x)
  {
    hide Key, OriginUsable, LacksParent, Needed;
  }

  lemma FreeBefore(s: BuilderState, after: BuilderState, fs: Filesystem, n: nat)
    requires Consistent(after) && GrownIndex(s.index, after.index, fs, n) && ConstraintsHold(after.index, fs)
    requires NewLevels(s.index, after.index) == Needed(s.index, fs)
    requires NoLevelIsTarget(s.targets, NewLevels(s.index, after.index))
    ensures LevelsAreFree(s, fs)
  {
    hide Consistent, Key, Needed, ConstraintsHold, NoLevelIsTarget;
    FineBefore(s, after, fs, n);
    forall p | p in Needed(s.index, fs)
      ensures LevelIsFree(s, fs, p)
    {
      LevelWasFree(s, after, fs, p);
    }
  }

  lemma LevelWasFree(s: BuilderState, after: BuilderState, fs: Filesystem, p: Path)
    requires Consistent(after) && ConstraintsHold(after.index, fs) && p in after.index && p in Needed(s.index, fs)
    requires NoLevelIsTarget(s.targets, NewLevels(s.index, after.index)) && p in NewLevels(s.index, after.index)
    requires forall x :: IsIn(s.index, x) ==> IsIn(after.index, x)
    ensures LevelIsFree(s, fs, p)
  {
    hide Key, Needed, ConstraintsHold, Consistent, Usable, NewLevels, IsIn, Exists, IsDirectory;
    var rule := RuleAtLevel(after, p);
    NeededMeaning(s.index, fs, p);
    NothingAtOrigin(after.index, fs, rule);
    forall x | IsIn(s.index, x)
      ensures !(p < Key(x.target))
    {
      BothClear(after.index, fs, x, rule);
    }
  }

  lemma NothingAtOrigin(index: RuleIndex, fs: Filesystem, rule: FilesystemRule)
    requires ConstraintsHold(index, fs) && IsIn(index, rule) && Usable(rule.origin)
    requires !RealDirectory(fs, Key(rule.origin))
    ensures |Key(rule.origin)| >= 2 && Key(rule.origin) !in fs
  {
    hide Key, LacksParent, TargetClear;
    NormalisedFsKey(rule.origin);
  }

  lemma TemporariesBefore(
    s: BuilderState, after: BuilderState, fs: Filesystem, temporaryDirectories: nat -> wstring, n: nat)
    requires Consistent(after) && Grown(s, after, fs, temporaryDirectories, n) && ConstraintsHold(after.index, fs)
    requires NewLevels(s.index, after.index) == Needed(s.index, fs)
    ensures TemporariesAreFree(s, fs, temporaryDirectories, n)
  {
    hide Consistent, ConstraintsHold, Needed, NewLevels, UsableDirectory, Key, InUse, LeadsTo, TemporaryIsFree;
    hide GrownIndex, LevelsLead, GrownTables, GrownNames, NoLevelIsTarget, TemporariesUsed, WereNew;
    FineBefore(s, after, fs, n);
    forall i: nat | i < n
      ensures UsableDirectory(temporaryDirectories(i)).Success?
          && TemporaryIsFree(s, fs, UsableDirectory(temporaryDirectories(i)).value)
    {
      var p := LevelOfTemporary(s.index, after.index, temporaryDirectories, n, i);
      ThisWasNew(s, after, temporaryDirectories, n, i);
      TemporaryWasFree(s, after, fs, p, temporaryDirectories(i));
    }
    forall i: nat, j: nat | i < j < n
      ensures Apart(temporaryDirectories(i), temporaryDirectories(j))
    {
      var p := LevelOfTemporary(s.index, after.index, temporaryDirectories, n, i);
      var q := LevelOfTemporary(s.index, after.index, temporaryDirectories, n, j);
      TheyDiffer(s, after, temporaryDirectories, n, i, j);
      TemporariesWereApart(after, fs, p, q, temporaryDirectories(i), temporaryDirectories(j));
    }
  }

  lemma LevelOfTemporary(
    index: RuleIndex, after: RuleIndex, temporaryDirectories: nat -> wstring, n: nat, i: nat) returns (p: Path)
    requires TemporariesUsed(index, after, temporaryDirectories, n) && i < n
    ensures p in NewLevels(index, after) && LeadsTo(after, p, temporaryDirectories(i))
  {
    hide LeadsTo, NewLevels;
    var temporaryDirectory := temporaryDirectories(i);
    p :| p in NewLevels(index, after) && LeadsTo(after, p, temporaryDirectory);
  }

  lemma ThisWasNew(
    s: BuilderState, after: BuilderState, temporaryDirectories: nat -> wstring, n: nat, i: nat)
    requires WereNew(s, after, temporaryDirectories, n) && i < n
    ensures WasNew(s, after, temporaryDirectories(i))
  {
    hide WasNew, Differ;
  }

  lemma TheyDiffer(
    s: BuilderState, after: BuilderState, temporaryDirectories: nat -> wstring, n: nat, i: nat, j: nat)
    requires WereNew(s, after, temporaryDirectories, n) && i < j < n
    ensures Differ(temporaryDirectories(i), temporaryDirectories(j))
  {
    hide Differ, WasNew;
  }

  lemma TemporaryWasFree(
    s: BuilderState, after: BuilderState, fs: Filesystem, p: Path, temporaryDirectory: wstring)
    requires Consistent(after) && ConstraintsHold(after.index, fs)
    requires forall x :: IsIn(s.index, x) ==> IsIn(after.index, x)
    requires NewLevels(s.index, after.index) == Needed(s.index, fs)
    requires LeadsTo(after.index, p, temporaryDirectory) && WasNew(s, after, temporaryDirectory)
    ensures TemporaryIsFree(s, fs, UsableDirectory(temporaryDirectory).value)
  {
    hide Needed, UsableDirectory, Key, InUse, ConstraintsHold, Consistent, LeadsTo, NewLevels, IsIn;
    var rule := RuleOfLevel(after, p, temporaryDirectory);
    var t := UsableDirectory(temporaryDirectory).value;
    forall x | IsIn(s.index, x)
      ensures !(Key(x.origin) < Key(t)) && !(Key(x.target) < Key(t)) && !(Key(t) < Key(x.target))
    {
      BothClear(after.index, fs, rule, x);
      BothClear(after.index, fs, x, rule);
    }
    forall q | q in Needed(s.index, fs)
      ensures !(q < Key(t))
    {
      NewIsIn(s.index, after.index);
      var x := RuleAtLevel(after, q);
      BothClear(after.index, fs, rule, x);
    }
  }

  lemma BothClear(index: RuleIndex, fs: Filesystem, rule: FilesystemRule, other: FilesystemRule)
    requires ConstraintsHold(index, fs) && IsIn(index, rule) && IsIn(index, other)
    ensures !(Key(other.origin) < Key(rule.target)) && !(Key(other.target) < Key(rule.target))
  {
    hide Key, IsIn, LacksParent, OriginUsable;
    assert TargetClear(index, rule);
  }

  lemma RuleAtLevel(after: BuilderState, p: Path) returns (rule: FilesystemRule)
    requires Consistent(after) && p in after.index
    ensures IsIn(after.index, rule) && Key(rule.origin) == p && Usable(rule.origin)
  {
    hide Key, Usable;
    rule := after.index[p][0];
    assert ContainerValid(after.index[p], p) && rule in after.index[p];
  }

  lemma RuleOfLevel(after: BuilderState, p: Path, temporaryDirectory: wstring) returns (rule: FilesystemRule)
    requires Consistent(after) && LeadsTo(after.index, p, temporaryDirectory)
    ensures IsIn(after.index, rule) && UsableDirectory(temporaryDirectory) == Success(rule.target)
  {
    hide UsableDirectory, Key;
    rule := after.index[p][0];
    assert ContainerValid(after.index[p], p) && rule in after.index[p];
  }

  lemma TemporariesWereApart(after: BuilderState, fs: Filesystem, p: Path, q: Path, a: wstring, b: wstring)
    requires Consistent(after) && ConstraintsHold(after.index, fs) && Differ(a, b)
    requires LeadsTo(after.index, p, a) && LeadsTo(after.index, q, b)
    ensures Apart(a, b)
  {
    hide Consistent, UsableDirectory, Key, LacksParent, OriginUsable, LeadsTo, IsIn;
    var x := RuleOfLevel(after, p, a);
    var y := RuleOfLevel(after, q, b);
    assert TargetClear(after.index, x) && TargetClear(after.index, y);
    var t, u := Key(x.target), Key(y.target);
    assert t <= u ==> t < u || t == u;
    assert u <= t ==> u < t || t == u;
  }

  // ---------- How building ends ----------

  datatype BuildError = NoRules | ConstraintViolated(violation: Violation) | CouldNotAddParent(error: AddError)

  /** Where building stops: there is no rule at all, or after some rules were generated a constraint turns out to be
      violated, or the next rule cannot be added. */
  ghost predicate StopsAt(
    s: BuilderState, after: BuilderState, fs: Filesystem, temporaryDirectories: nat -> wstring, n: nat,
    error: BuildError)
  {
    && Grown(s, after, fs, temporaryDirectories, n)
    && match error
       case NoRules => s.byName == map[] && after == s
       case ConstraintViolated(v) => !v.ParentMissing? && Violated(after.index, fs, v)
       case CouldNotAddParent(reason) =>
         exists child ::
           Violated(after.index, fs, ParentMissing(child))
           && ParentObjection(after, child, temporaryDirectories(n), reason)
  }

  /** What building comes to once all constraints hold: each level that needs a rule has got one. */
  ghost predicate Completed(
    s: BuilderState, after: BuilderState, fs: Filesystem, temporaryDirectories: nat -> wstring)
  {
    && after.index.Keys == s.index.Keys + Needed(s.index, fs)
    && Grown(s, after, fs, temporaryDirectories, |Needed(s.index, fs)|)
    && Buildable(s, fs, temporaryDirectories)
  }

  lemma CompletedAtEnd(
    s: BuilderState, after: BuilderState, fs: Filesystem, temporaryDirectories: nat -> wstring, n: nat)
    requires Consistent(s) && Consistent(after) && Grown(s, after, fs, temporaryDirectories, n)
    requires ConstraintsHold(after.index, fs) && s.byName != map[]
    ensures Completed(s, after, fs, temporaryDirectories)
  {
    hide Consistent, Grown, ConstraintsHold, Buildable, Needed, GrownIndex, NewLevels;
    GrownToTheEnd(s, after, fs, temporaryDirectories, n);
    GrownHasIndex(s, after, fs, temporaryDirectories, n);
    KeysOfGrown(s.index, after.index, fs, n);
  }

  lemma KeysOfGrown(index: RuleIndex, after: RuleIndex, fs: Filesystem, n: nat)
    requires GrownIndex(index, after, fs, n)
    ensures after.Keys == index.Keys + NewLevels(index, after)
  {
    hide Needed;
  }

  lemma ViolatedDoesNotHold(index: RuleIndex, fs: Filesystem, v: Violation)
    requires Violated(index, fs, v)
    ensures !ConstraintsHold(index, fs)
  {
    hide Key, OriginUsable, LacksParent, IsIn;
  }

  /** What follows for a violated constraint where a director can be built. */
  lemma BuildableGoesOn(
    s: BuilderState, after: BuilderState, fs: Filesystem, temporaryDirectories: nat -> wstring, n: nat, v: Violation)
    requires Consistent(after) && Grown(s, after, fs, temporaryDirectories, n) && Violated(after.index, fs, v)
    ensures
      Buildable(s, fs, temporaryDirectories) && NothingClashes(s, fs, temporaryDirectories) ==>
        v.ParentMissing? && ParentAcceptable(after, v.rule, temporaryDirectories(n))
  {
    hide Consistent, Grown, Violated, Buildable, NothingClashes, ParentAcceptable;
    if Buildable(s, fs, temporaryDirectories) && NothingClashes(s, fs, temporaryDirectories) {
      OnlyParentsAreMissing(s, after, fs, temporaryDirectories, n, v);
      ParentIsAcceptable(s, after, fs, temporaryDirectories, n, v.rule);
    }
  }

  lemma RulesAreNeeded(s: BuilderState, fs: Filesystem, temporaryDirectories: nat -> wstring)
    ensures Buildable(s, fs, temporaryDirectories) ==> s.byName != map[]
  {
  }

  /** Constraints that hold are found to hold. */
  lemma NothingToDo(index: RuleIndex, fs: Filesystem, violation: Option<Violation>)
    requires violation.Some? ==> Violated(index, fs, violation.value)
    ensures ConstraintsHold(index, fs) ==> violation == None
  {
    hide Violated, ConstraintsHold;
    if violation.Some? {
      ViolatedDoesNotHold(index, fs, violation.value);
    }
  }
}
