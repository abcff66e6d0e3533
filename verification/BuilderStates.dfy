/** What a director under construction consists of, as values: which directories may be used, what holds
    between the builder's tables, and what a finished configuration guarantees. */
module BuilderStates {
  import opened Wrappers
  import opened Text
  import opened PathResolution
  import opened Rules
  import opened RuleContainers
  import opened PrefixTrees
  import opened Filesystems
  import opened Directors
  import opened Redirections

  // ---------- Valid directories and patterns ----------

  /** The most components a path may have; which number it is does not matter. */
  const MAXIMUM_DEPTH: nat

  /** Which characters can be printed is left open. */
  const IsPrintable: wchar -> bool

  /** / * ? " < > | */
  const DISALLOWED_IN_DIRECTORY: set<wchar> := {47, 42, 63, 34, 60, 62, 124}

  /** \ / : " < > | */
  const DISALLOWED_IN_PATTERN: set<wchar> := {92, 47, 58, 34, 60, 62, 124}

  predicate HasDoubleBackslash(s: wstring) {
    exists i :: 0 <= i < |s| - 1 && s[i] == s[i + 1] == BACKSLASH
  }

  predicate IsValidDirectoryString(s: wstring) {
    && |s| >= 2 && IsAlpha(s[0]) && s[1] == COLON
    && !HasDoubleBackslash(s)
    && forall c :: c in Split(s) && c != [] ==>
        && (forall ch :: ch in c ==> IsPrintable(ch) && ch !in DISALLOWED_IN_DIRECTORY)
        && exists ch :: ch in c && ch != PERIOD
  }

  predicate IsValidFilePattern(s: wstring) {
    s != [] && forall ch :: ch in s ==> IsPrintable(ch) && ch !in DISALLOWED_IN_PATTERN
  }

  datatype DirectoryError = NotResolved(error: ResolutionError) | NotValid | FilesystemRoot

  /** An origin or target directory as a rule will use it. */
  function UsableDirectory(path: wstring): Result<wstring, DirectoryError> {
    match Resolve(path, MAXIMUM_DEPTH)
    case Failure(error) => Failure(NotResolved(error))
    case Success(resolved) =>
      if !IsValidDirectoryString(resolved) then Failure(NotValid)
      else if BACKSLASH !in RemoveTrailing(resolved) then Failure(FilesystemRoot)
      else Success(RemoveTrailing(resolved))
  }

  /** A component a directory may have: all its characters can be printed and are allowed, and not all are periods. */
  predicate GoodComponent(c: wstring) {
    && (forall ch :: ch in c ==> IsPrintable(ch) && ch !in DISALLOWED_IN_DIRECTORY)
    && exists ch :: ch in c && ch != PERIOD
  }

  /** The components of a directory on a drive. */
  predicate GoodComponents(components: seq<wstring>) {
    && components != [] && |components[0]| >= 2 && IsAlpha(components[0][0]) && components[0][1] == COLON
    && forall c :: c in components ==> GoodComponent(c)
  }

  /** A usable directory is normalised, resolved, has good components, and is not a filesystem root. */
  ghost predicate Usable(directory: wstring) {
    && Normalised(directory) && IsResolved(directory, MAXIMUM_DEPTH) && GoodComponents(Split(directory))
    && |Key(directory)| >= 2
  }

  lemma JoinedOrdinary(components: seq<wstring>)
    requires AllOrdinary(components) && components != [] && |components| <= MAXIMUM_DEPTH
    ensures Normalised(Join(components)) && IsResolved(Join(components), MAXIMUM_DEPTH)
    ensures |Key(Join(components))| == |components| && Split(Join(components)) == components
    ensures |components| == 1 ==> BACKSLASH !in Join(components)
  {
    var directory := Join(components);
    assert directory == Rebuilt(components, false) by { assert directory + [] == directory; }
    SplitRebuilt(components, false);
    assert components + [] == components;
    NormalisedKey(directory);
    SplitFold(directory);
    assert components[0] in components;
  }

  /** Which directories can be used: those whose components, once resolved, are good and lead below the drive. They are
      used without a backslash at the end. What is wrong with the others comes from their components too. */
  lemma UsableDirectoryMeaning(path: wstring)
    ensures
      match Steps([], Split(path), MAXIMUM_DEPTH)
      case Failure(error) => UsableDirectory(path) == Failure(NotResolved(error))
      case Success(components) =>
        UsableDirectory(path) ==
        if !GoodComponents(components) then Failure(NotValid)
        else if |components| < 2 then Failure(FilesystemRoot)
        else Success(Join(components))
  {
    hide Split, Steps, IsValidDirectoryString, GoodComponents, Join;
    if Steps([], Split(path), MAXIMUM_DEPTH).Success? {
      var components := Steps([], Split(path), MAXIMUM_DEPTH).value;
      SplitPiecesHaveNoBackslash(path);
      StepsAreOrdinary([], Split(path), MAXIMUM_DEPTH);
      if components == [] {
        assert !GoodComponents([]) && !IsValidDirectoryString([]) by { NothingIsNoDirectory(); }
      } else {
        ValidMeansGood(components, EndsWithBackslash(path));
        SplitRebuilt(components, EndsWithBackslash(path));
        BackslashOfJoined(components);
      }
    }
  }

  lemma NothingIsNoDirectory()
    ensures !GoodComponents([]) && !IsValidDirectoryString([])
  {
  }

  lemma BackslashOfJoined(components: seq<wstring>)
    requires AllOrdinary(components) && components != []
    ensures BACKSLASH in Join(components) <==> |components| >= 2
  {
    if |components| == 1 {
      assert components[0] in components;
    } else {
      assert Join(components)[|components[0]|] == BACKSLASH;
    }
  }

  lemma ValidMeansGood(components: seq<wstring>, trailing: bool)
    requires AllOrdinary(components) && components != []
    ensures IsValidDirectoryString(Rebuilt(components, trailing)) <==> GoodComponents(components)
  {
    hide Split, HasDoubleBackslash;
    var s := Rebuilt(components, trailing);
    SplitRebuilt(components, trailing);
    NoDoubleBackslash(Join(components), trailing);
    BeginningOfJoined(components, trailing);
    assert forall c :: c in Split(s) && c != [] <==> c in components;
  }

  lemma BeginningOfJoined(components: seq<wstring>, trailing: bool)
    requires AllOrdinary(components) && components != []
    ensures
      var s := Rebuilt(components, trailing);
      && (|s| >= 2 && IsAlpha(s[0]) && s[1] == COLON <==>
          |components[0]| >= 2 && IsAlpha(components[0][0]) && components[0][1] == COLON)
  {
    var s, first := Rebuilt(components, trailing), components[0];
    assert first in components && first != [] && s[0] == first[0];
    if |first| >= 2 {
      assert s[1] == first[1];
    } else if |s| >= 2 {
      assert s[1] == BACKSLASH;
    }
  }

  lemma NoDoubleBackslash(s: wstring, trailing: bool)
    requires Normalised(s)
    ensures !HasDoubleBackslash(s + if trailing then [BACKSLASH] else [])
  {
    hide Split;
    NormalisedEnds(s);
    var t := s + if trailing then [BACKSLASH] else [];
    forall i | 0 <= i < |t| - 1
      ensures !(t[i] == t[i + 1] == BACKSLASH)
    {
      if i + 1 < |s| {
        NoDoubleBackslashAt(s, i);
      }
    }
  }

  lemma NoDoubleBackslashAt(s: wstring, i: nat)
    requires i + 1 < |s|
    ensures s[i] == s[i + 1] == BACKSLASH ==> !Normalised(s)
  {
    hide Split;
    if s[i] == s[i + 1] == BACKSLASH {
      var a, b := s[..i], s[i + 2..];
      assert s == a + [BACKSLASH] + ([BACKSLASH] + b) && [BACKSLASH] + b == [] + [BACKSLASH] + b;
      SplitConcat(a, [BACKSLASH] + b);
      SplitConcat([], b);
      SplitSingle([]);
      assert (Split(a) + ([[]] + Split(b)))[|Split(a)|] == [];
    }
  }

  lemma UsableDirectoryIsUsable(path: wstring)
    ensures UsableDirectory(path).Success? ==> Usable(UsableDirectory(path).value)
  {
    hide Split, Steps, GoodComponents, UsableDirectory, Join, Key, Normalised, IsResolved;
    UsableDirectoryMeaning(path);
    if UsableDirectory(path).Success? {
      var components := Steps([], Split(path), MAXIMUM_DEPTH).value;
      SplitPiecesHaveNoBackslash(path);
      StepsAreOrdinary([], Split(path), MAXIMUM_DEPTH);
      JoinedOrdinary(components);
    }
  }

  /** A directory with ordinary, good components is taken over as it is, unless it is a filesystem root. */
  lemma JoinedIsUsable(components: seq<wstring>)
    requires AllOrdinary(components) && GoodComponents(components) && |components| <= MAXIMUM_DEPTH
    ensures
      UsableDirectory(Join(components)) ==
      if |components| < 2 then Failure(FilesystemRoot) else Success(Join(components))
  {
    hide Split, Steps, GoodComponents, UsableDirectory, Join, AllOrdinary;
    assert components != [] by { GoodMeansSome(components); }
    JoinedOrdinary(components);
    StepsKeepOrdinary([], components, MAXIMUM_DEPTH);
    assert [] + components == components;
    UsableDirectoryMeaning(Join(components));
  }

  lemma GoodMeansSome(components: seq<wstring>)
    requires GoodComponents(components)
    ensures components != []
  {
  }

  lemma UsableStays(directory: wstring)
    requires Usable(directory)
    ensures UsableDirectory(directory) == Success(directory)
  {
    hide Split, UsableDirectory, Join, GoodComponents, Key;
    var components := ComponentsOfUsable(directory);
    JoinSplit(directory);
    JoinedIsUsable(components);
    JoinedOrdinary(components);
  }

  function ParentDirectory(directory: wstring): wstring
    requires LastBackslash(directory) >= 0
  {
    directory[..LastBackslash(directory)]
  }

  /** The parent of a usable directory is usable too, unless it is a filesystem root, and its path is the parent
      path. */
  lemma ParentOfUsable(directory: wstring)
    requires Usable(directory)
    ensures LastBackslash(directory) >= 0
    ensures
      var parent := ParentDirectory(directory);
      && Normalised(parent) && Key(parent) == Parent(Key(directory))
      && (if |Key(directory)| == 2 then UsableDirectory(parent) == Failure(FilesystemRoot)
          else UsableDirectory(parent) == Success(parent) && Usable(parent))
  {
    hide Split, UsableDirectory, Join, Key, LastBackslash;
    SplitPath(directory);
    var parent, name := ParentDirectory(directory), directory[LastBackslash(directory) + 1..];
    assert directory == parent + [BACKSLASH] + name;
    var components := ComponentsOfUsable(directory);
    SplitConcat(parent, name);
    SplitSingle(name);
    var above := components[..|components| - 1];
    assert Split(parent) + [name] == components && Split(parent) == above;
    JoinSplit(directory);
    JoinSplit(parent);
    JoinedOrdinary(components);
    GoodAbove(components);
    JoinedOrdinary(above);
    JoinedIsUsable(above);
  }

  lemma GoodAbove(components: seq<wstring>)
    requires AllOrdinary(components) && GoodComponents(components) && |components| >= 2
    ensures var above := components[..|components| - 1]; AllOrdinary(above) && GoodComponents(above)
  {
    var above := components[..|components| - 1];
    assert forall c :: c in above ==> c in components;
  }

  lemma ComponentsOfUsable(directory: wstring) returns (components: seq<wstring>)
    requires Usable(directory)
    ensures AllOrdinary(components) && 0 < |components| <= MAXIMUM_DEPTH && Split(directory) == components
  {
    var trailing;
    components, trailing :|
      AllOrdinary(components) && |components| <= MAXIMUM_DEPTH && directory == Rebuilt(components, trailing);
    NormalisedEnds(directory);
    SplitRebuilt(components, trailing);
    assert components + [] == components;
  }

  /** A normalised path names what it says on the filesystem. */
  lemma NormalisedFsKey(path: wstring)
    requires Normalised(path)
    ensures FsKey(path) == Key(path)
  {
    NormalisedEnds(path);
    PrefixIsRecovered([], path);
    assert [] + path == path;
  }

  // ---------- The tables ----------

  /** `origins` and `targets` map a directory, ignoring case, to the spelling in which it was first used. */
  datatype BuilderState = BuilderState(
    index: RuleIndex,
    origins: map<wstring, wstring>,
    targets: map<wstring, wstring>,
    names: set<wstring>,
    byName: map<wstring, FilesystemRule>)

  ghost predicate IsIn(index: RuleIndex, rule: FilesystemRule) {
    Key(rule.origin) in index && rule in index[Key(rule.origin)]
  }

  ghost predicate ContainerValid(container: RuleContainer, origin: Path) {
    && Ordered(container) && 0 < |container| <= MAXIMUM_RULE_COUNT
    && forall rule :: rule in container ==> Key(rule.origin) == origin && Usable(rule.origin) && Usable(rule.target)
  }

  ghost predicate ContainersValid(index: RuleIndex) {
    forall k :: k in index ==> ContainerValid(index[k], k)
  }

  ghost predicate Recorded(table: map<wstring, wstring>) {
    forall f :: f in table ==> Fold(table[f]) == f && Usable(table[f])
  }

  /** No target is used twice, and no target is an origin except of its own only rule. */
  ghost predicate TargetsDistinct(index: RuleIndex) {
    forall a, b :: IsIn(index, a) && IsIn(index, b) ==>
      && (Key(a.target) == Key(b.target) ==> a == b)
      && (Key(a.target) == Key(b.origin) ==> a == b)
  }

  ghost predicate NamesAgree(s: BuilderState) {
    && s.byName.Keys <= s.names
    && (forall n :: n in s.byName ==> s.byName[n].name == n && IsIn(s.index, s.byName[n]))
    && forall rule :: IsIn(s.index, rule) ==> rule.name in s.byName && s.byName[rule.name] == rule
  }

  ghost predicate TablesAgree(s: BuilderState) {
    && Recorded(s.origins) && Recorded(s.targets)
    && (forall f :: f in s.origins ==> Key(s.origins[f]) in s.index)
    && (forall rule :: IsIn(s.index, rule) ==> Fold(rule.origin) in s.origins && Fold(rule.target) in s.targets)
  }

  ghost predicate Consistent(s: BuilderState) {
    ContainersValid(s.index) && TablesAgree(s) && TargetsDistinct(s.index) && NamesAgree(s)
  }

  // ---------- Adding a rule ----------

  datatype AddError =
    | NameInUse
    | BadPattern
    | BadOrigin(error: DirectoryError)
    | OriginIsTarget
    | BadTarget(error: DirectoryError)
    | TargetIsOrigin
    | TargetIsTarget
    | TooManyRules

  function Record(table: map<wstring, wstring>, directory: wstring): map<wstring, wstring> {
    if Fold(directory) in table then table else table[Fold(directory) := directory]
  }

  function ContainerAt(index: RuleIndex, k: Path): RuleContainer {
    if k in index then index[k] else []
  }

  /** What is wrong with a rule before any table is touched. */
  function Objection(
    s: BuilderState, name: wstring, origin: wstring, target: wstring, patterns: seq<wstring>): Option<AddError>
  {
    if name in s.names then Some(NameInUse)
    else if exists p :: p in patterns && !IsValidFilePattern(p) then Some(BadPattern)
    else
      match UsableDirectory(origin)
      case Failure(error) => Some(BadOrigin(error))
      case Success(originPath) =>
        if Fold(originPath) in s.targets then Some(OriginIsTarget)
        else
          match UsableDirectory(target)
          case Failure(error) => Some(BadTarget(error))
          case Success(targetPath) =>
            if Fold(targetPath) in s.origins then Some(TargetIsOrigin)
            else if Fold(targetPath) in s.targets then Some(TargetIsTarget)
            else None
  }

  /** A directory is among those on record, ignoring case. */
  ghost predicate InUse(table: map<wstring, wstring>, directory: wstring) {
    exists d :: d in table.Values && EqualsCaseInsensitive(d, directory)
  }

  predicate GoodPattern(pattern: wstring) {
    pattern != [] && forall ch :: ch in pattern ==> IsPrintable(ch) && ch !in DISALLOWED_IN_PATTERN
  }

  /** What it takes for a rule to be accepted: a new name, patterns that are not empty and have allowed characters only,
      and directories that can be used, of which the origin is nobody's target and the target is nobody's directory. */
  ghost predicate Acceptable(
    s: BuilderState, name: wstring, origin: wstring, target: wstring, patterns: seq<wstring>)
  {
    && name !in s.names && (forall p :: p in patterns ==> GoodPattern(p))
    && UsableDirectory(origin).Success? && !InUse(s.targets, UsableDirectory(origin).value)
    && UsableDirectory(target).Success? && !InUse(s.origins, UsableDirectory(target).value)
    && !InUse(s.targets, UsableDirectory(target).value)
  }

  /** What is reported is really the case. */
  ghost predicate ObjectionHolds(
    s: BuilderState, name: wstring, origin: wstring, target: wstring, patterns: seq<wstring>, error: AddError)
  {
    match error
    case NameInUse => name in s.names
    case BadPattern => exists p :: p in patterns && !GoodPattern(p)
    case BadOrigin(reason) => UsableDirectory(origin) == Failure(reason)
    case OriginIsTarget => UsableDirectory(origin).Success? && InUse(s.targets, UsableDirectory(origin).value)
    case BadTarget(reason) => UsableDirectory(target) == Failure(reason)
    case TargetIsOrigin => UsableDirectory(target).Success? && InUse(s.origins, UsableDirectory(target).value)
    case TargetIsTarget => UsableDirectory(target).Success? && InUse(s.targets, UsableDirectory(target).value)
    case TooManyRules => false
  }

  lemma InUseMeaning(table: map<wstring, wstring>, directory: wstring)
    requires Recorded(table)
    ensures InUse(table, directory) <==> Fold(directory) in table
  {
    hide Usable;
    if Fold(directory) in table {
      assert table[Fold(directory)] in table.Values;
    }
    if d :| d in table.Values && EqualsCaseInsensitive(d, directory) {
      var f :| f in table && table[f] == d;
      assert f == Fold(d);
    }
  }

  /** Recording a directory makes it one that is in use, and no other. */
  lemma RecordMeaning(table: map<wstring, wstring>, directory: wstring, x: wstring)
    requires Recorded(table) && Usable(directory)
    ensures InUse(Record(table, directory), x) <==> InUse(table, x) || EqualsCaseInsensitive(x, directory)
  {
    RecordKeepsRecorded(table, directory);
    InUseMeaning(table, x);
    InUseMeaning(Record(table, directory), x);
  }

  /** In which order conflicts are looked for. */
  function Rank(error: AddError): nat {
    match error
    case NameInUse => 0
    case BadPattern => 1
    case BadOrigin(_) => 2
    case OriginIsTarget => 3
    case BadTarget(_) => 4
    case TargetIsOrigin => 5
    case TargetIsTarget => 6
    case TooManyRules => 7
  }

  /** A conflict exists, and none that is looked for earlier. */
  ghost predicate IsFirstObjection(
    s: BuilderState, name: wstring, origin: wstring, target: wstring, patterns: seq<wstring>, error: AddError)
  {
    && ObjectionHolds(s, name, origin, target, patterns, error)
    && forall other :: ObjectionHolds(s, name, origin, target, patterns, other) ==> Rank(error) <= Rank(other)
  }

  /** A rule meets an objection exactly if it is not acceptable, and the objection is a real one, the first there is. */
  lemma ObjectionMeaning(s: BuilderState, name: wstring, origin: wstring, target: wstring, patterns: seq<wstring>)
    requires Consistent(s)
    ensures Objection(s, name, origin, target, patterns) == None <==> Acceptable(s, name, origin, target, patterns)
    ensures
      Objection(s, name, origin, target, patterns).Some? ==>
        IsFirstObjection(
          s, name, origin, target, patterns, Objection(s, name, origin, target, patterns).value)
  {
    hide InUse, UsableDirectory, ContainersValid, TargetsDistinct, NamesAgree, Recorded;
    if UsableDirectory(origin).Success? {
      InUseMeaning(s.targets, UsableDirectory(origin).value);
    }
    if UsableDirectory(target).Success? {
      InUseMeaning(s.targets, UsableDirectory(target).value);
      InUseMeaning(s.origins, UsableDirectory(target).value);
    }
  }

  /** The tables after the directories and the name of a rule were recorded; the rules are as before. */
  function Noted(s: BuilderState, name: wstring, origin: wstring, target: wstring): BuilderState {
    s.(origins := Record(s.origins, origin), targets := Record(s.targets, target), names := s.names + {name})
  }

  /** The tables after a rule has become part of its container. */
  ghost predicate Added(s: BuilderState, after: BuilderState, rule: FilesystemRule) {
    var k := Key(rule.origin);
    && k in after.index
    && Ordered(after.index[k]) && |after.index[k]| <= MAXIMUM_RULE_COUNT
    && multiset(after.index[k]) == multiset(ContainerAt(s.index, k)) + multiset{rule}
    && after.index.Keys == s.index.Keys + {k}
    && (forall l :: l in s.index && l != k ==> after.index[l] == s.index[l])
    && after.byName == s.byName[rule.name := rule]
    && after.targets == Record(s.targets, rule.target) && after.names == s.names + {rule.name}
  }

  lemma RecordKeepsRecorded(table: map<wstring, wstring>, directory: wstring)
    requires Recorded(table) && Usable(directory)
    ensures Recorded(Record(table, directory)) && Fold(directory) in Record(table, directory)
  {
  }

  /** The spelling under which a directory is on record is the same directory. */
  lemma OwnedSpelling(s: BuilderState, directory: wstring)
    requires Consistent(s) && Usable(directory)
    ensures ContainersValid(s.index) && NamesAgree(s)
    ensures
      var owned := Record(s.origins, directory)[Fold(directory)];
      Fold(owned) == Fold(directory) && Usable(owned) && Key(owned) == Key(directory)
  {
  }

  /** Two usable directories are the same ignoring case exactly if their paths are the same. */
  lemma SameDirectory(a: wstring, b: wstring)
    requires Usable(a) && Usable(b)
    ensures Key(a) == Key(b) <==> Fold(a) == Fold(b)
  {
    KeyInjective(a, b);
  }

  /** Who is in the index after a rule was added. */
  lemma InAfterAdding(s: BuilderState, after: BuilderState, rule: FilesystemRule, x: FilesystemRule)
    requires ContainersValid(s.index) && Added(s, after, rule)
    ensures IsIn(after.index, x) <==> IsIn(s.index, x) || x == rule
  {
    var k := Key(rule.origin);
    assert x in after.index[k] <==> x in multiset(after.index[k]);
    assert x in ContainerAt(s.index, k) <==> x in multiset(ContainerAt(s.index, k));
    assert rule in multiset(after.index[k]);
  }

  /** A rule that meets no objection keeps the tables consistent. */
  lemma AddingKeepsConsistency(s: BuilderState, after: BuilderState, rule: FilesystemRule, origin: wstring)
    requires Consistent(s) && Added(s, after, rule) && after.origins == Record(s.origins, origin)
    requires after.targets == Record(s.targets, rule.target)
    requires after.byName == s.byName[rule.name := rule] && after.names == s.names + {rule.name}
    requires Usable(origin) && Fold(rule.origin) == Fold(origin) && Usable(rule.origin) && Usable(rule.target)
    requires rule.name !in s.names && Fold(origin) !in s.targets
    requires Fold(rule.target) !in s.origins && Fold(rule.target) !in s.targets
    ensures Consistent(after)
  {
    hide Added, Usable, ContainersValid, TargetsDistinct, NamesAgree, IsIn;
    RecordKeepsRecorded(s.origins, origin);
    RecordKeepsRecorded(s.targets, rule.target);
    SameDirectory(rule.origin, origin);
    forall x
      ensures IsIn(after.index, x) <==> IsIn(s.index, x) || x == rule
    {
      InAfterAdding(s, after, rule, x);
    }
    AddedContainers(s, after, rule);
    AddedTargets(s, after, rule);
    AddedNames(s, after, rule);
    AddedTables(s, after, rule, origin);
  }

  lemma AddedNames(s: BuilderState, after: BuilderState, rule: FilesystemRule)
    requires NamesAgree(s) && rule.name !in s.names
    requires after.byName == s.byName[rule.name := rule] && after.names == s.names + {rule.name}
    requires forall x :: IsIn(after.index, x) <==> IsIn(s.index, x) || x == rule
    ensures NamesAgree(after)
  {
    hide IsIn;
  }

  lemma AddedTables(s: BuilderState, after: BuilderState, rule: FilesystemRule, origin: wstring)
    requires Consistent(s) && Added(s, after, rule) && after.origins == Record(s.origins, origin)
    requires Key(rule.origin) == Key(origin) && Fold(rule.origin) == Fold(origin)
    requires Recorded(after.origins) && Recorded(after.targets)
    requires forall x :: IsIn(after.index, x) <==> IsIn(s.index, x) || x == rule
    ensures TablesAgree(after)
  {
    hide Usable, ContainersValid, TargetsDistinct, NamesAgree;
    forall f | f in after.origins
      ensures Key(after.origins[f]) in after.index
    {
      assert f in s.origins ==> after.origins[f] == s.origins[f];
    }
  }

  lemma AddedContainers(s: BuilderState, after: BuilderState, rule: FilesystemRule)
    requires ContainersValid(s.index) && Added(s, after, rule) && Usable(rule.origin) && Usable(rule.target)
    ensures ContainersValid(after.index)
  {
    var k := Key(rule.origin);
    forall l | l in after.index
      ensures ContainerValid(after.index[l], l)
    {
      if l == k {
        assert rule in multiset(after.index[k]);
        forall x | x in after.index[k]
          ensures Key(x.origin) == k && Usable(x.origin) && Usable(x.target)
        {
          assert x in multiset(after.index[k]);
          assert x != rule ==> x in multiset(ContainerAt(s.index, k)) && x in ContainerAt(s.index, k);
        }
      }
    }
  }

  lemma AddedTargets(s: BuilderState, after: BuilderState, rule: FilesystemRule)
    requires Consistent(s) && Added(s, after, rule) && Usable(rule.origin) && Usable(rule.target)
    requires Fold(rule.origin) !in s.targets && Fold(rule.target) !in s.origins && Fold(rule.target) !in s.targets
    requires forall x :: IsIn(after.index, x) <==> IsIn(s.index, x) || x == rule
    ensures TargetsDistinct(after.index)
  {
    forall a, b | IsIn(after.index, a) && IsIn(after.index, b)
      ensures Key(a.target) == Key(b.target) ==> a == b
      ensures Key(a.target) == Key(b.origin) ==> a == b
    {
      assert ContainersValid(s.index);
      if a != rule { assert IsIn(s.index, a) && a in s.index[Key(a.origin)]; }
      if b != rule { assert IsIn(s.index, b) && b in s.index[Key(b.origin)]; }
      SameDirectory(a.target, b.target);
      SameDirectory(a.target, b.origin);
    }
  }

  /** Recording directories of a rule that is then dropped keeps the tables consistent, because its origin
      directory is that of another rule already. */
  lemma NotingKeepsConsistency(s: BuilderState, name: wstring, origin: wstring, target: wstring)
    requires Consistent(s) && Usable(origin) && Usable(target) && Key(origin) in s.index
    ensures Consistent(Noted(s, name, origin, target))
  {
    hide IsIn, Usable, TargetsDistinct, ContainersValid;
    RecordKeepsRecorded(s.origins, origin);
    RecordKeepsRecorded(s.targets, target);
    var after := Noted(s, name, origin, target);
    forall f | f in after.origins
      ensures Key(after.origins[f]) in after.index
    {
      assert f in s.origins ==> after.origins[f] == s.origins[f];
    }
  }

  /** What an attempt to add a rule that meets no objection does. A rule that finds its container full
      leaves its directories and its name behind in the tables; so does a rule that is dropped because its
      container has an equivalent one, which is then returned in its place. */
  ghost predicate Outcome(
    before: BuilderState, after: BuilderState, rule: FilesystemRule, origin: wstring,
    r: Result<FilesystemRule, AddError>)
  {
    if r == Success(rule) then Added(before, after, rule) && after.origins == Record(before.origins, origin)
    else
      && after == Noted(before, rule.name, origin, rule.target)
      && match r
         case Failure(error) =>
           error == TooManyRules && |ContainerAt(before.index, Key(origin))| == MAXIMUM_RULE_COUNT
         case Success(other) =>
           && IsIn(before.index, other) && Equivalent(other, rule) && Key(other.origin) == Key(origin)
           && |ContainerAt(before.index, Key(origin))| < MAXIMUM_RULE_COUNT
  }

  /** What putting a rule into the container of its origin directory does. */
  ghost predicate Emplaced(before: RuleIndex, after: RuleIndex, rule: FilesystemRule, result: EmplaceResult) {
    var k := Key(rule.origin);
    match result
    case Full => after == before && |ContainerAt(before, k)| == MAXIMUM_RULE_COUNT
    case Existing(x) =>
      after == before && k in before && x in before[k] && Equivalent(x, rule) && |before[k]| < MAXIMUM_RULE_COUNT
    case Inserted =>
      && k in after && after == before[k := after[k]]
      && Ordered(after[k]) && |after[k]| <= MAXIMUM_RULE_COUNT
      && multiset(after[k]) == multiset(ContainerAt(before, k)) + multiset{rule}
  }

  /** Once a rule is recorded, its name and its directories are in use, and no others than before. */
  ghost predicate Records(before: BuilderState, after: BuilderState, name: wstring, origin: wstring, target: wstring)
    requires UsableDirectory(origin).Success? && UsableDirectory(target).Success?
  {
    && after.names == before.names + {name}
    && forall d ::
      && (InUse(after.origins, d) <==>
          InUse(before.origins, d) || EqualsCaseInsensitive(d, UsableDirectory(origin).value))
      && (InUse(after.targets, d) <==>
          InUse(before.targets, d) || EqualsCaseInsensitive(d, UsableDirectory(target).value))
  }

  /** A container takes another rule exactly if it is not full. */
  lemma FullAddsNothing(
    before: BuilderState, after: BuilderState, rule: FilesystemRule, origin: wstring,
    r: Result<FilesystemRule, AddError>)
    requires Outcome(before, after, rule, origin, r) && Key(rule.origin) == Key(origin)
    ensures r.Failure? <==> |ContainerAt(before.index, Key(origin))| == MAXIMUM_RULE_COUNT
  {
    hide Key, Ordered;
    if r == Success(rule) {
      var k := Key(origin);
      assert |multiset(after.index[k])| == |multiset(ContainerAt(before.index, k))| + 1;
    }
  }

  lemma OutcomeRecords(
    before: BuilderState, after: BuilderState, name: wstring, origin: wstring, target: wstring, rule: FilesystemRule,
    r: Result<FilesystemRule, AddError>)
    requires Consistent(before) && UsableDirectory(origin).Success? && UsableDirectory(target).Success?
    requires rule.name == name && rule.target == UsableDirectory(target).value
    requires Usable(UsableDirectory(origin).value) && Usable(rule.target)
    requires Outcome(before, after, rule, UsableDirectory(origin).value, r)
    requires Fold(rule.origin) == Fold(UsableDirectory(origin).value) && Usable(rule.origin)
    ensures Records(before, after, name, origin, target)
    ensures r.Failure? ==> r.error == TooManyRules
    ensures
      r.Failure? <==> |ContainerAt(before.index, Key(UsableDirectory(origin).value))| == MAXIMUM_RULE_COUNT
  {
    hide UsableDirectory, Usable, InUse, Record, EqualsCaseInsensitive, ContainersValid, TargetsDistinct, NamesAgree;
    SameDirectory(rule.origin, UsableDirectory(origin).value);
    FullAddsNothing(before, after, rule, UsableDirectory(origin).value, r);
    var originPath := UsableDirectory(origin).value;
    assert TablesAgree(before);
    assert after.origins == Record(before.origins, originPath) && after.targets == Record(before.targets, rule.target);
    forall d
      ensures InUse(after.origins, d) <==> InUse(before.origins, d) || EqualsCaseInsensitive(d, originPath)
      ensures InUse(after.targets, d) <==> InUse(before.targets, d) || EqualsCaseInsensitive(d, rule.target)
    {
      RecordMeaning(before.origins, originPath, d);
      RecordMeaning(before.targets, rule.target, d);
    }
  }

  function ResultOf(result: EmplaceResult, rule: FilesystemRule): Result<FilesystemRule, AddError> {
    match result
    case Full => Failure(TooManyRules)
    case Existing(x) => Success(x)
    case Inserted => Success(rule)
  }

  /** The tables once a rule was noted and an attempt was made to put it into its container. */
  function Concluded(
    before: BuilderState, rule: FilesystemRule, origin: wstring, index: RuleIndex, result: EmplaceResult): BuilderState
  {
    Noted(before, rule.name, origin, rule.target).(
      index := index, byName := if result.Inserted? then before.byName[rule.name := rule] else before.byName)
  }

  lemma EmplacedOutcome(
    before: BuilderState, index: RuleIndex, rule: FilesystemRule, origin: wstring, result: EmplaceResult)
    requires Consistent(before) && Unobjectionable(before, rule, origin)
    requires Emplaced(before.index, index, rule, result)
    ensures Outcome(before, Concluded(before, rule, origin, index, result), rule, origin, ResultOf(result, rule))
    ensures Consistent(Concluded(before, rule, origin, index, result))
  {
    hide ContainersValid, TablesAgree, TargetsDistinct, NamesAgree, Emplaced, Outcome, Usable;
    SameDirectory(rule.origin, origin);
    EmplacedResult(before, index, rule, origin, result);
    OutcomeKeepsConsistency(
      before, Concluded(before, rule, origin, index, result), rule, origin, ResultOf(result, rule));
  }

  lemma EmplacedResult(
    before: BuilderState, index: RuleIndex, rule: FilesystemRule, origin: wstring, result: EmplaceResult)
    requires ContainersValid(before.index) && NamesAgree(before) && rule.name !in before.names
    requires Emplaced(before.index, index, rule, result) && Key(rule.origin) == Key(origin)
    ensures Outcome(before, Concluded(before, rule, origin, index, result), rule, origin, ResultOf(result, rule))
  {
    if result.Existing? {
      assert ContainerValid(before.index[Key(origin)], Key(origin));
      assert IsIn(before.index, result.rule) && result.rule.name in before.names;
    }
  }

  /** Nothing stands against a rule. */
  ghost predicate Unobjectionable(s: BuilderState, rule: FilesystemRule, origin: wstring) {
    && Usable(origin) && Fold(rule.origin) == Fold(origin) && Usable(rule.origin) && Usable(rule.target)
    && rule.name !in s.names && Fold(origin) !in s.targets
    && Fold(rule.target) !in s.origins && Fold(rule.target) !in s.targets
  }

  lemma OutcomeKeepsConsistency(
    before: BuilderState, after: BuilderState, rule: FilesystemRule, origin: wstring,
    r: Result<FilesystemRule, AddError>)
    requires Consistent(before) && Unobjectionable(before, rule, origin) && Outcome(before, after, rule, origin, r)
    ensures Consistent(after)
  {
    if r == Success(rule) {
      AddingKeepsConsistency(before, after, rule, origin);
    } else {
      assert Key(origin) in before.index;
      NotingKeepsConsistency(before, rule.name, origin, rule.target);
    }
  }

  // ---------- The guarantees of a finished configuration ----------

  /** An origin directory that the program would have to present without there being anything above it. */
  ghost predicate LacksParent(index: RuleIndex, fs: Filesystem, k: Path)
    requires k != []
  {
    !(Parent(k) in fs && fs[Parent(k)] == Directory) && Parent(k) !in index
  }

  ghost predicate OriginUsable(fs: Filesystem, rule: FilesystemRule) {
    Exists(fs, rule.origin) ==> IsDirectory(fs, rule.origin)
  }

  /** Nothing that a rule uses lies above the target of a rule. */
  ghost predicate TargetClear(index: RuleIndex, rule: FilesystemRule) {
    forall other :: IsIn(index, other) ==>
      !(Key(other.origin) < Key(rule.target)) && !(Key(other.target) < Key(rule.target))
  }

  ghost predicate ConstraintsHold(index: RuleIndex, fs: Filesystem) {
    forall rule :: IsIn(index, rule) ==>
      && OriginUsable(fs, rule) && TargetClear(index, rule)
      && Key(rule.origin) != [] && !LacksParent(index, fs, Key(rule.origin))
  }

  /** What a violated constraint looks like. */
  datatype Violation =
    | OriginNotDirectory(rule: FilesystemRule)
    | ParentMissing(rule: FilesystemRule)
    | TargetHasAncestor(rule: FilesystemRule, above: FilesystemRule)

  ghost predicate Violated(index: RuleIndex, fs: Filesystem, v: Violation) {
    && IsIn(index, v.rule)
    && match v
       case OriginNotDirectory(rule) => !OriginUsable(fs, rule)
       case ParentMissing(rule) => Key(rule.origin) != [] && LacksParent(index, fs, Key(rule.origin))
       case TargetHasAncestor(rule, above) =>
         IsIn(index, above) && (Key(above.origin) < Key(rule.target) || Key(above.target) < Key(rule.target))
  }

  /** How the code recognises an origin directory that lacks a parent. */
  lemma LacksParentMeaning(s: BuilderState, fs: Filesystem, rule: FilesystemRule)
    requires Consistent(s) && IsIn(s.index, rule)
    ensures LastBackslash(rule.origin) >= 0 && Key(rule.origin) != []
    ensures
      var parent := ParentDirectory(rule.origin);
      LacksParent(s.index, fs, Key(rule.origin)) <==> !IsDirectory(fs, parent) && Fold(parent) !in s.origins
  {
    assert ContainerValid(s.index[Key(rule.origin)], Key(rule.origin));
    ParentOfUsable(rule.origin);
    var parent := ParentDirectory(rule.origin);
    NormalisedFsKey(parent);
    if Fold(parent) in s.origins {
      assert Key(s.origins[Fold(parent)]) == Key(parent);
    }
    if Key(parent) in s.index {
      var container := s.index[Key(parent)];
      assert ContainerValid(container, Key(parent)) && container[0] in container && IsIn(s.index, container[0]);
      KeyInjective(container[0].origin, parent);
    }
  }

  // ---------- All directories in one tree ----------

  predicate IsDirectoryOf(k: Path, rule: FilesystemRule) {
    k == Key(rule.origin) || k == Key(rule.target)
  }

  ghost predicate ListsAll(m: map<Path, FilesystemRule>, rules: set<FilesystemRule>) {
    forall rule :: rule in rules ==> Key(rule.origin) in m && Key(rule.target) in m
  }

  ghost predicate ListsNothingElse(m: map<Path, FilesystemRule>, rules: set<FilesystemRule>) {
    forall k :: k in m ==> m[k] in rules && IsDirectoryOf(k, m[k])
  }

  /** A table of the directories of some rules. */
  ghost predicate Lists(m: map<Path, FilesystemRule>, rules: set<FilesystemRule>) {
    ListsAll(m, rules) && ListsNothingElse(m, rules)
  }

  lemma ListsBoth(m: map<Path, FilesystemRule>, rules: set<FilesystemRule>, rule: FilesystemRule)
    requires Lists(m, rules) && rule in rules
    ensures Key(rule.origin) in m && Key(rule.target) in m
  {
  }

  lemma ListsOnly(m: map<Path, FilesystemRule>, rules: set<FilesystemRule>, k: Path)
    requires Lists(m, rules) && k in m
    ensures m[k] in rules && IsDirectoryOf(k, m[k])
  {
  }

  /** Looking for the closest ancestor of a target finds out whether anything lies above it. */
  lemma AncestorMeaning(index: RuleIndex, m: map<Path, FilesystemRule>, rules: set<FilesystemRule>,
    rule: FilesystemRule)
    requires Lists(m, rules) && forall x :: x in rules <==> IsIn(index, x)
    ensures
      match ClosestAncestorKey(m, Key(rule.target))
      case None => TargetClear(index, rule)
      case Some(k) =>
        && k in m && IsIn(index, m[k])
        && (Key(m[k].origin) < Key(rule.target) || Key(m[k].target) < Key(rule.target))
  {
    hide IsIn, Lists, Key, ClosestAncestorKey;
    ClosestAncestorIsLongest(m, Key(rule.target));
    match ClosestAncestorKey(m, Key(rule.target))
    case None =>
      forall other | IsIn(index, other)
        ensures !(Key(other.origin) < Key(rule.target)) && !(Key(other.target) < Key(rule.target))
      {
        ListsBoth(m, rules, other);
      }
    case Some(k) =>
      ListsOnly(m, rules, k);
  }

  lemma ValuesAreIn(s: BuilderState, rule: FilesystemRule)
    requires Consistent(s)
    ensures rule in s.byName.Values <==> IsIn(s.index, rule)
  {
  }

  /** Some rules' origin directories meet the constraints. */
  ghost predicate OriginsFine(index: RuleIndex, fs: Filesystem, rules: set<FilesystemRule>) {
    forall rule :: rule in rules ==>
      OriginUsable(fs, rule) && Key(rule.origin) != [] && !LacksParent(index, fs, Key(rule.origin))
  }

  lemma NothingListed(index: RuleIndex, fs: Filesystem)
    ensures Lists(map[], {}) && OriginsFine(index, fs, {})
  {
  }

  lemma OneMoreFine(s: BuilderState, fs: Filesystem, done: set<FilesystemRule>, rule: FilesystemRule)
    requires Consistent(s) && IsIn(s.index, rule) && OriginsFine(s.index, fs, done) && Key(rule.origin) != []
    ensures !OriginUsable(fs, rule) ==> Violated(s.index, fs, OriginNotDirectory(rule))
    ensures LacksParent(s.index, fs, Key(rule.origin)) ==> Violated(s.index, fs, ParentMissing(rule))
    ensures
      OriginUsable(fs, rule) && !LacksParent(s.index, fs, Key(rule.origin)) ==>
        OriginsFine(s.index, fs, done + {rule})
  {
    hide Consistent, Key, LacksParent, OriginUsable;
  }

  function Listed(m: map<Path, FilesystemRule>, k: Path, rule: FilesystemRule): map<Path, FilesystemRule> {
    if k in m then m else m[k := rule]
  }

  lemma OneMoreListed(m: map<Path, FilesystemRule>, done: set<FilesystemRule>, rule: FilesystemRule)
    requires Lists(m, done)
    ensures Lists(Listed(Listed(m, Key(rule.origin), rule), Key(rule.target), rule), done + {rule})
  {
    hide Key, ListsAll, ListsNothingElse, Listed;
    StillListed(m, done, rule);
    NothingElseListed(m, done, rule);
  }

  lemma StillListed(m: map<Path, FilesystemRule>, done: set<FilesystemRule>, rule: FilesystemRule)
    requires ListsAll(m, done)
    ensures ListsAll(Listed(Listed(m, Key(rule.origin), rule), Key(rule.target), rule), done + {rule})
  {
    hide Key;
  }

  lemma NothingElseListed(m: map<Path, FilesystemRule>, done: set<FilesystemRule>, rule: FilesystemRule)
    requires ListsNothingElse(m, done)
    ensures ListsNothingElse(Listed(Listed(m, Key(rule.origin), rule), Key(rule.target), rule), done + {rule})
  {
    hide Key;
  }

  lemma AncestorOfTarget(s: BuilderState, fs: Filesystem, m: map<Path, FilesystemRule>, rule: FilesystemRule)
    requires Consistent(s) && Lists(m, s.byName.Values) && rule in s.byName.Values
    ensures Key(rule.target) in m
    ensures
      match ClosestAncestorKey(m, Key(rule.target))
      case None => TargetClear(s.index, rule)
      case Some(k) => k in m && Violated(s.index, fs, TargetHasAncestor(rule, m[k]))
  {
    hide IsIn, Consistent, TargetClear, Lists, Key, ClosestAncestorKey;
    ListsBoth(m, s.byName.Values, rule);
    forall x
      ensures x in s.byName.Values <==> IsIn(s.index, x)
    {
      ValuesAreIn(s, x);
    }
    AncestorMeaning(s.index, m, s.byName.Values, rule);
  }

  lemma AllFine(s: BuilderState, fs: Filesystem)
    requires Consistent(s) && OriginsFine(s.index, fs, s.byName.Values)
    requires forall rule :: rule in s.byName.Values ==> TargetClear(s.index, rule)
    ensures ConstraintsHold(s.index, fs)
  {
    forall x
      ensures x in s.byName.Values <==> IsIn(s.index, x)
    {
      ValuesAreIn(s, x);
    }
  }

  lemma OrderedIsDistinct(container: RuleContainer, i: nat, j: nat)
    requires Ordered(container) && i < j < |container|
    ensures container[i] != container[j]
  {
    LessIrreflexive(Fold(container[i].name));
  }

  lemma PositionIsIn(index: RuleIndex, k: Path, i: nat)
    requires ContainersValid(index) && IsRule(index, k, i)
    ensures IsIn(index, index[k][i]) && Key(index[k][i].origin) == k && Usable(index[k][i].origin)
        && Usable(index[k][i].target)
  {
    assert index[k][i] in index[k];
  }

  /** What the constraints mean for the director. */
  lemma ConstraintsMakeAccepted(s: BuilderState, fs: Filesystem)
    requires Consistent(s) && ConstraintsHold(s.index, fs)
    ensures Accepted(s.index)
  {
    forall k, i: nat, l, j: nat | IsRule(s.index, k, i) && IsRule(s.index, l, j)
      ensures TargetApart(s.index, k, i, l, j)
    {
      PositionsApart(s, fs, k, i, l, j);
    }
    forall k | k in s.index
      ensures WellFormedContainer(s.index[k], k)
    {
      assert ContainerValid(s.index[k], k);
      assert s.index[k][0] in s.index[k];
    }
  }

  lemma PositionsApart(s: BuilderState, fs: Filesystem, k: Path, i: nat, l: Path, j: nat)
    requires Consistent(s) && ConstraintsHold(s.index, fs) && IsRule(s.index, k, i) && IsRule(s.index, l, j)
    ensures TargetApart(s.index, k, i, l, j)
  {
    var a, b := s.index[k][i], s.index[l][j];
    PositionIsIn(s.index, k, i);
    PositionIsIn(s.index, l, j);
    assert TargetClear(s.index, a);
    if a == b && i != j {
      OrderedIsDistinct(s.index[k], if i < j then i else j, if i < j then j else i);
    }
    if Key(b.target) <= Key(a.target) {
      assert Key(b.target) < Key(a.target) || Key(b.target) == Key(a.target);
    }
  }

  ghost predicate RealDirectory(fs: Filesystem, p: Path) {
    p in fs && fs[p] == Directory
  }

  lemma {:induction false} RealDirectoriesAbove(fs: Filesystem, p: Path, n: nat)
    requires RealDirectory(fs, p) && 0 < n <= |p|
    ensures RealDirectory(fs, p[..n])
    decreases |p|
  {
    if n < |p| {
      RealDirectoriesAbove(fs, Parent(p), n);
      assert Parent(p)[..n] == p[..n];
    } else {
      assert p[..n] == p;
    }
  }

  /** Every level above an origin directory can be opened and listed: it is a real directory or an
      origin directory itself. */
  lemma {:induction false} EveryLevelIsPresent(index: RuleIndex, fs: Filesystem, k: Path, n: nat)
    requires forall rule :: IsIn(index, rule) ==> Key(rule.origin) != [] && !LacksParent(index, fs, Key(rule.origin))
    requires ContainersValid(index) && k in index && 0 < n < |k|
    ensures RealDirectory(fs, k[..n]) || k[..n] in index
    decreases |k|
  {
    assert ContainerValid(index[k], k) && index[k][0] in index[k] && IsIn(index, index[k][0]);
    if n == |k| - 1 {
      assert k[..n] == Parent(k);
    } else if RealDirectory(fs, Parent(k)) {
      RealDirectoriesAbove(fs, Parent(k), n);
      assert Parent(k)[..n] == k[..n];
    } else {
      EveryLevelIsPresent(index, fs, Parent(k), n);
      assert Parent(k)[..n] == k[..n];
    }
  }

  // ---------- Why building ends ----------

  /** Levels above origin directories that are not origin directories yet. */
  ghost function MissingAncestors(index: RuleIndex): set<Path> {
    set k, n | k in index && 0 < n < |k| && k[..n] !in index :: k[..n]
  }

  /** Making the parent of an origin directory an origin directory leaves strictly fewer of them. */
  lemma FewerMissing(index: RuleIndex, after: RuleIndex, k: Path)
    requires k in index && |k| >= 2 && Parent(k) !in index && after.Keys == index.Keys + {Parent(k)}
    ensures MissingAncestors(after) < MissingAncestors(index)
  {
    var p := Parent(k);
    assert p == k[..|k| - 1];
    forall q | q in MissingAncestors(after)
      ensures q in MissingAncestors(index) && q != p
    {
      var l, n :| l in after && 0 < n < |l| && l[..n] !in after && q == l[..n];
      if l == p {
        assert q == k[..n];
      }
    }
    assert p in MissingAncestors(index);
  }

  const AUTO_GENERATED_RULE_NAME_PREFIX: wstring := Wide("AutoGenerated:AddParentOfOriginDirectory:")

  lemma OutcomeKeepsNames(
    before: BuilderState, after: BuilderState, rule: FilesystemRule, origin: wstring,
    r: Result<FilesystemRule, AddError>)
    requires Outcome(before, after, rule, origin, r)
    ensures before.byName.Keys <= after.byName.Keys
    ensures before.byName != map[] ==> after.byName != map[]
  {
    if n :| n in before.byName {
      assert n in after.byName;
    }
  }

  lemma ViolatorIsIn(s: BuilderState, fs: Filesystem, child: FilesystemRule)
    requires Violated(s.index, fs, ParentMissing(child))
    ensures IsIn(s.index, child)
  {
  }

  /** A rule that is not one of the configuration: it replaces the contents of a directory above the origin
      directory of a rule that is, so that this directory can be shown at all. */
  ghost predicate IsGenerated(index: RuleIndex, rule: FilesystemRule) {
    && rule.redirectMode == Simple && rule.filePatterns == []
    && exists other :: IsIn(index, other) && Key(rule.origin) < Key(other.origin)
  }

  /** All rules are still there, and whatever else there is has been generated for them. */
  ghost predicate Extended(index: RuleIndex, after: RuleIndex) {
    && (forall rule :: IsIn(index, rule) ==> IsIn(after, rule))
    && forall rule :: IsIn(after, rule) ==> IsIn(index, rule) || IsGenerated(index, rule)
  }

  lemma NothingExtended(index: RuleIndex)
    ensures Extended(index, index)
  {
  }

  lemma ExtendedFurther(index: RuleIndex, middle: RuleIndex, after: RuleIndex)
    requires Extended(index, middle) && Extended(middle, after)
    ensures Extended(index, after)
  {
    hide IsIn, Key;
    forall rule | IsIn(after, rule)
      ensures IsIn(index, rule) || IsGenerated(index, rule)
    {
      if !IsIn(middle, rule) {
        var other :| IsIn(middle, other) && Key(rule.origin) < Key(other.origin);
        if !IsIn(index, other) {
          var third :| IsIn(index, third) && Key(other.origin) < Key(third.origin);
          assert Key(rule.origin) < Key(third.origin);
        }
      }
    }
  }

  /** Adding the parent of an origin directory that lacks one keeps all other rules and, if it succeeds, makes
      progress. */
  lemma ParentNoted(
    before: BuilderState, after: BuilderState, fs: Filesystem, child: FilesystemRule, rule: FilesystemRule,
    r: Result<FilesystemRule, AddError>)
    requires Consistent(before) && Violated(before.index, fs, ParentMissing(child))
    requires LastBackslash(child.origin) >= 0 && UsableDirectory(ParentDirectory(child.origin)).Success?
    requires Outcome(before, after, rule, UsableDirectory(ParentDirectory(child.origin)).value, r)
    requires Unobjectionable(before, rule, UsableDirectory(ParentDirectory(child.origin)).value)
    requires rule.redirectMode == Simple && rule.filePatterns == []
    ensures r.Success? ==> MissingAncestors(after.index) < MissingAncestors(before.index)
    ensures Extended(before.index, after.index)
  {
    if r.Success? {
      ParentAdded(before, after, fs, child, rule, r);
    } else {
      NothingExtended(before.index);
    }
  }

  /** What adding the parent comes to, whatever the outcome. */
  lemma ParentOutcome(
    before: BuilderState, after: BuilderState, fs: Filesystem, child: FilesystemRule, rule: FilesystemRule,
    r: Result<FilesystemRule, AddError>)
    requires Consistent(before) && Violated(before.index, fs, ParentMissing(child))
    requires LastBackslash(child.origin) >= 0
    requires
      || (after == before && r.Failure?)
      || (&& UsableDirectory(ParentDirectory(child.origin)).Success?
          && Outcome(before, after, rule, UsableDirectory(ParentDirectory(child.origin)).value, r)
          && Unobjectionable(before, rule, UsableDirectory(ParentDirectory(child.origin)).value)
          && rule.redirectMode == Simple && Normalises([], rule.filePatterns))
    ensures r.Success? ==> MissingAncestors(after.index) < MissingAncestors(before.index)
    ensures Extended(before.index, after.index)
    ensures before.byName != map[] ==> after.byName != map[]
  {
    hide Violated, UsableDirectory, Outcome, Unobjectionable, MissingAncestors, Extended, Consistent;
    if after == before && r.Failure? {
      NothingExtended(before.index);
    } else {
      var parent := UsableDirectory(ParentDirectory(child.origin)).value;
      OutcomeKeepsNames(before, after, rule, parent, r);
      NoPatternsStay(rule.filePatterns);
      ParentNoted(before, after, fs, child, rule, r);
    }
  }

  lemma NoPatternsStay(filePatterns: seq<wstring>)
    requires Normalises([], filePatterns)
    ensures filePatterns == []
  {
  }

  lemma ParentAdded(
    before: BuilderState, after: BuilderState, fs: Filesystem, child: FilesystemRule, rule: FilesystemRule,
    r: Result<FilesystemRule, AddError>)
    requires Consistent(before) && Violated(before.index, fs, ParentMissing(child))
    requires LastBackslash(child.origin) >= 0 && UsableDirectory(ParentDirectory(child.origin)).Success? && r.Success?
    requires Outcome(before, after, rule, UsableDirectory(ParentDirectory(child.origin)).value, r)
    requires Unobjectionable(before, rule, UsableDirectory(ParentDirectory(child.origin)).value)
    requires rule.redirectMode == Simple && rule.filePatterns == []
    ensures MissingAncestors(after.index) < MissingAncestors(before.index)
    ensures Extended(before.index, after.index)
  {
    hide UsableDirectory, MissingAncestors, Key, Added, IsResolved;
    var k := Key(child.origin);
    assert ContainerValid(before.index[k], k);
    ParentOfUsable(child.origin);
    UsableStays(ParentDirectory(child.origin));
    SameDirectory(rule.origin, ParentDirectory(child.origin));
    assert Key(rule.origin) == Parent(k) && Parent(k) !in before.index;
    AddedAbove(before, after, child, rule);
  }

  lemma AddedAbove(before: BuilderState, after: BuilderState, child: FilesystemRule, rule: FilesystemRule)
    requires ContainersValid(before.index) && IsIn(before.index, child) && Added(before, after, rule)
    requires |Key(child.origin)| >= 2 && Key(rule.origin) == Parent(Key(child.origin))
    requires Key(rule.origin) !in before.index
    requires rule.redirectMode == Simple && rule.filePatterns == []
    ensures MissingAncestors(after.index) < MissingAncestors(before.index)
    ensures Extended(before.index, after.index)
  {
    hide Key, ContainersValid, MissingAncestors;
    FewerMissing(before.index, after.index, Key(child.origin));
    forall x
      ensures IsIn(after.index, x) <==> IsIn(before.index, x) || x == rule
    {
      InAfterAdding(before, after, rule, x);
    }
    assert Key(rule.origin) < Key(child.origin);
  }

  /** What a successful build guarantees. */
  lemma BuiltIsAccepted(s: BuilderState, fs: Filesystem)
    requires Consistent(s) && ConstraintsHold(s.index, fs)
    ensures Accepted(s.index)
    ensures
      forall k, n :: k in s.index && 0 < n < |k| ==> RealDirectory(fs, k[..n]) || k[..n] in s.index
  {
    ConstraintsMakeAccepted(s, fs);
    forall k, n | k in s.index && 0 < n < |k|
      ensures RealDirectory(fs, k[..n]) || k[..n] in s.index
    {
      EveryLevelIsPresent(s.index, fs, k, n);
    }
  }

  lemma ContainersAreOrdered(s: BuilderState)
    requires Consistent(s)
    ensures forall k :: k in s.index ==> Ordered(s.index[k])
  {
    hide Ordered, Key, Usable;
    forall k | k in s.index
      ensures Ordered(s.index[k])
    {
      assert ContainerValid(s.index[k], k);
    }
  }

  lemma SomeRuleIsIn(s: BuilderState)
    requires Consistent(s) && s.byName != map[]
    ensures s.index != map[]
  {
    var n :| n in s.byName;
    assert IsIn(s.index, s.byName[n]);
  }
}
