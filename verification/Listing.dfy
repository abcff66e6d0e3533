/** What a directory enumeration lists and what a file operation reaches: the same names, in the same
    order of preference. */
module Listing {
  import opened Wrappers
  import opened Text
  import opened Rules
  import opened RuleContainers
  import opened PrefixTrees
  import opened Filesystems
  import opened Instructions
  import opened Directors
  import opened Redirections
  import opened Agreement

  // ---------- The simplified filters include what the full filters include ----------

  /** The rule of precedence behind every filter: the first matching rule decides. */
  predicate DecidedBy(container: RuleContainer, i: nat, fileName: wstring) {
    i < |container| && FirstMatch(container, fileName) == i
  }

  /** An origin-side file shows unless a rule in Simple mode decides its name. */
  predicate ShownOnOriginSide(container: RuleContainer, fileName: wstring) {
    var i := FirstMatch(container, fileName);
    i == |container| || container[i].redirectMode == Overlay
  }

  lemma {:induction false} CountModeMeaning(rules: RuleContainer, mode: RedirectMode)
    ensures CountMode(rules, mode) == 0 <==> forall rule :: rule in rules ==> rule.redirectMode != mode
  {
    if rules != [] {
      var n := |rules| - 1;
      CountModeMeaning(rules[..n], mode);
      assert rules == rules[..n] + [rules[n]];
    }
  }

  /** Target side: the i-th enumeration includes exactly the names its rule decides, in the
      one-rule form as well as in the general one. */
  lemma TargetSideMeaning(container: RuleContainer, fileName: wstring)
    requires container != []
    ensures |TargetSide(container)| == |container|
    ensures forall i :: 0 <= i < |container| ==>
              && TargetSide(container)[i].Valid()
              && (TargetSide(container)[i].ShouldInclude(fileName) <==> DecidedBy(container, i, fileName))
  {
    if |container| == 1 {
      assert FirstMatch(container, fileName) == 0 <==> Matches(container[0], fileName);
    }
  }

  /** Origin side: whichever simplified form is chosen, it includes exactly the names that the full
      filter shows; in particular leaving the origin side out altogether hides nothing extra. */
  lemma OriginSideMeaning(container: RuleContainer, fileName: wstring)
    requires 0 < |container| <= MAXIMUM_RULE_COUNT
    ensures
      var side := OriginSide(container);
      && |side| <= 1
      && (forall d :: d in side ==> d.Valid() && d.directoryPathSource == AssociatedPath)
      && (ShownOnOriginSide(container, fileName) <==> exists d :: d in side && d.ShouldInclude(fileName))
  {
    CountModeMeaning(container, Overlay);
    CountModeMeaning(container, Simple);
    var side := OriginSide(container);
    var i := FirstMatch(container, fileName);
    if side == [] {
      var rule :| rule in container && rule.redirectMode == Simple && !HasFilePatterns(rule);
      assert Matches(rule, fileName);
      assert i < |container| && container[i] in container;
    } else {
      assert side == [side[0]];
      if i < |container| { assert container[i] in container; }
      assert ShownOnOriginSide(container, fileName) <==> side[0].ShouldInclude(fileName);
    }
  }

  // ---------- Listing and opening ----------

  /** A name is yielded by one enumeration when the directory has it and the filter includes it. */
  predicate Yields(
    fs: Filesystem, d: SingleDirectoryEnumeration, associatedPath: wstring, realOpenedPath: wstring, fileName: wstring)
  {
    && d.Valid()
    && FsKey(d.SelectDirectoryPath(associatedPath, realOpenedPath)) + [Fold(fileName)] in fs
    && d.ShouldInclude(fileName)
  }

  /** The entity behind the first enumeration that yields the name. */
  function FirstListing(
    fs: Filesystem, directories: seq<SingleDirectoryEnumeration>, associatedPath: wstring, realOpenedPath: wstring,
    fileName: wstring): Option<Path>
  {
    if directories == [] then None
    else if Yields(fs, directories[0], associatedPath, realOpenedPath, fileName)
    then Some(FsKey(directories[0].SelectDirectoryPath(associatedPath, realOpenedPath)) + [Fold(fileName)])
    else FirstListing(fs, directories[1..], associatedPath, realOpenedPath, fileName)
  }

  /** The entity behind the first of the file names that exists. */
  function FirstExisting(fs: Filesystem, files: seq<wstring>): Option<Path> {
    if files == [] then None
    else if Exists(fs, files[0]) then Some(FsKey(files[0]))
    else FirstExisting(fs, files[1..])
  }

  function FirstInFs(fs: Filesystem, paths: seq<Path>): Option<Path> {
    if paths == [] then None
    else if paths[0] in fs then Some(paths[0])
    else FirstInFs(fs, paths[1..])
  }

  /** The paths a file operation tries, on components. */
  function PathsToTry(rules: RuleIndex, path: Path): seq<Path> {
    match ChooseRule(rules, path)
    case None => [path]
    case Some(c) =>
      if !(c.origin <= path) then [path]
      else if ChosenRule(rules, c).redirectMode == Simple then [RedirectedPath(rules, path, c)]
      else [RedirectedPath(rules, path, c), path]
  }

  lemma LeadKey(s: wstring, prefix: wstring, path: Path, suffix: wstring)
    requires IsNamespacePrefix(prefix) && IsSuffix(suffix) && LeadsTo(s, prefix, path, suffix)
    ensures FsKey(s) == path
  {
    var body :| Normalised(body) && Key(body) == path && s == prefix + body + suffix;
    FsKeyOfWrapped(prefix, body, suffix);
  }

  lemma FirstInFsOfTwo(fs: Filesystem, a: Path, b: Path)
    ensures FirstInFs(fs, [a]) == if a in fs then Some(a) else None
    ensures FirstInFs(fs, [a, b]) == if a in fs then Some(a) else if b in fs then Some(b) else None
  {
    assert [a, b][1..] == [b] && [b][1..] == [] && [a][1..] == [];
  }

  lemma FirstOfTwo(fs: Filesystem, a: wstring, b: wstring)
    ensures FirstExisting(fs, [a]) == FirstInFs(fs, [FsKey(a)])
    ensures FirstExisting(fs, [a, b]) == FirstInFs(fs, [FsKey(a), FsKey(b)])
  {
    assert [a, b][1..] == [b] && [FsKey(a), FsKey(b)][1..] == [FsKey(b)];
    assert [b][1..] == [] && [FsKey(b)][1..] == [];
    assert [a][1..] == [] && [FsKey(a)][1..] == [];
  }

  lemma ChosenFilesToTry(
    rules: RuleIndex, fs: Filesystem, op: FileOperationInstruction, prefix: wstring, p: wstring, suffix: wstring,
    allowsCreate: bool, path: wstring)
    requires IsNamespacePrefix(prefix) && IsSuffix(suffix) && ActsAsChosen(rules, op, prefix, p, suffix, allowsCreate)
    requires FsKey(path) == Key(p)
    ensures FirstExisting(fs, FilesToTry(op, path)) == FirstInFs(fs, PathsToTry(rules, Key(p)))
  {
    hide FsKey, Key, ChooseRule, RedirectedPath, FirstInFs, FirstExisting, LeadsTo;
    match ChooseRule(rules, Key(p))
    case None =>
      FirstOfTwo(fs, path, path);
    case Some(c) =>
      var redirected := op.redirectedFilename.value;
      LeadKey(redirected, prefix, RedirectedPath(rules, Key(p), c), suffix);
      FirstOfTwo(fs, redirected, path);
  }

  // ---------- Case by case ----------

  /** Only one of the enumerations can yield the name. */
  lemma {:induction false} OnlyListing(
    fs: Filesystem, directories: seq<SingleDirectoryEnumeration>, rest: seq<SingleDirectoryEnumeration>,
    associatedPath: wstring, realOpenedPath: wstring, fileName: wstring, m: nat)
    requires forall i :: 0 <= i < |directories| && i != m ==>
               !Yields(fs, directories[i], associatedPath, realOpenedPath, fileName)
    ensures FirstListing(fs, directories + rest, associatedPath, realOpenedPath, fileName) ==
            if m < |directories| && Yields(fs, directories[m], associatedPath, realOpenedPath, fileName)
            then Some(FsKey(directories[m].SelectDirectoryPath(associatedPath, realOpenedPath)) + [Fold(fileName)])
            else FirstListing(fs, rest, associatedPath, realOpenedPath, fileName)
  {
    if directories == [] {
      assert directories + rest == rest;
    } else {
      assert (directories + rest)[1..] == directories[1..] + rest;
      OnlyListing(fs, directories[1..], rest, associatedPath, realOpenedPath, fileName,
        if m == 0 then |directories| else m - 1);
    }
  }

  /** Below a path that is not itself an origin the same container applies. */
  lemma SameContainerBelow(rules: RuleIndex, path: Path, c: wstring)
    requires Extend(path, c) !in rules
    ensures LongestPrefixKey(rules, Extend(path, c)) == LongestPrefixKey(rules, path)
  {
    AncestorOfExtend(rules, path, c);
    LongestOrAncestor(rules, Extend(path, c));
  }

  lemma OriginSideListing(
    fs: Filesystem, container: RuleContainer, associatedPath: wstring, realOpenedPath: wstring, fileName: wstring)
    requires 0 < |container| <= MAXIMUM_RULE_COUNT
    ensures
      var entity := FsKey(associatedPath) + [Fold(fileName)];
      FirstListing(fs, OriginSide(container), associatedPath, realOpenedPath, fileName) ==
      if ShownOnOriginSide(container, fileName) && entity in fs then Some(entity) else None
  {
    OriginSideMeaning(container, fileName);
    var side := OriginSide(container);
    if side != [] {
      assert side[0] in side && side[1..] == [];
    }
  }

  /** Where the i-th target-side enumeration looks. */
  lemma TargetSidePath(container: RuleContainer, origin: Path, i: nat, associatedPath: wstring, realOpenedPath: wstring)
    requires WellFormedContainer(container, origin) && i < |container|
    requires FsKey(realOpenedPath) == Key(container[0].target)
    requires TargetSide(container)[i].Valid()
    ensures FsKey(TargetSide(container)[i].SelectDirectoryPath(associatedPath, realOpenedPath))
        == Key(container[i].target)
  {
    var target, d := container[i].target, TargetSide(container)[i];
    assert container[i] in container;
    if |container| == 1 {
      assert d.SelectDirectoryPath(associatedPath, realOpenedPath) == realOpenedPath;
    } else {
      assert d == IncludeFirstMatchAt(FilePatternSourceTargetDirectory, container, i);
      assert d.SelectDirectoryPath(associatedPath, realOpenedPath) == target;
      FsKeyOfWrapped([], target, []);
      assert [] + target + [] == target;
    }
  }

  lemma PathsToTryInOrigin(rules: RuleIndex, origin: Path, fileName: wstring)
    requires WellFormed(rules) && origin in rules && Extend(origin, Fold(fileName)) !in rules
    ensures
      var container, entity := rules[origin], Extend(origin, Fold(fileName));
      var m := FirstMatch(container, fileName);
      PathsToTry(rules, entity) ==
      if m == |container| then [entity]
      else
        var redirected := Extend(Key(container[m].target), Fold(fileName));
        if container[m].redirectMode == Simple then [redirected] else [redirected, entity]
  {
    var container, name := rules[origin], Fold(fileName);
    FoldIdempotent(fileName);
    FirstMatchIgnoresCase(container, fileName, name);
    SameContainerBelow(rules, origin, name);
    assert Extend(origin, name)[|origin|..] == [name];
    assert ChooseRule(rules, Extend(origin, name)) ==
           if FirstMatch(container, name) < |container| then Some(Choice(origin, FirstMatch(container, name)))
               else None;
  }

  /** What a file operation reaches directly inside an origin directory. */
  function ReachedInOrigin(fs: Filesystem, container: RuleContainer, entity: Path, fileName: wstring): Option<Path> {
    var m := FirstMatch(container, fileName);
    if m < |container| && Extend(Key(container[m].target), Fold(fileName)) in fs
    then Some(Extend(Key(container[m].target), Fold(fileName)))
    else if ShownOnOriginSide(container, fileName) && entity in fs then Some(entity)
    else None
  }

  lemma OperationReaches(rules: RuleIndex, fs: Filesystem, origin: Path, fileName: wstring)
    requires WellFormed(rules) && origin in rules && Extend(origin, Fold(fileName)) !in rules
    ensures
      var entity := Extend(origin, Fold(fileName));
      FirstInFs(fs, PathsToTry(rules, entity)) == ReachedInOrigin(fs, rules[origin], entity, fileName)
  {
    PathsToTryInOrigin(rules, origin, fileName);
    var container, entity := rules[origin], Extend(origin, Fold(fileName));
    var m := FirstMatch(container, fileName);
    if m < |container| {
      FirstInFsOfTwo(fs, Extend(Key(container[m].target), Fold(fileName)), entity);
    } else {
      FirstInFsOfTwo(fs, entity, entity);
    }
  }

  lemma EnumerationReaches(
    fs: Filesystem, container: RuleContainer, origin: Path, associatedPath: wstring, realOpenedPath: wstring,
    fileName: wstring)
    requires WellFormedContainer(container, origin)
    requires FsKey(associatedPath) == origin && FsKey(realOpenedPath) == Key(container[0].target)
    ensures FirstListing(fs, TargetSide(container) + OriginSide(container), associatedPath, realOpenedPath, fileName)
         == ReachedInOrigin(fs, container, Extend(origin, Fold(fileName)), fileName)
  {
    var m := FirstMatch(container, fileName);
    TargetSideMeaning(container, fileName);
    OriginSideListing(fs, container, associatedPath, realOpenedPath, fileName);
    OnlyListing(fs, TargetSide(container), OriginSide(container), associatedPath, realOpenedPath, fileName, m);
    if m < |container| {
      TargetSidePath(container, origin, m, associatedPath, realOpenedPath);
    }
  }

  /** An origin directory, redirected: the first matching rule's target, then what it does not hide. */
  lemma OriginListing(
    rules: RuleIndex, fs: Filesystem, origin: Path, associatedPath: wstring, realOpenedPath: wstring, fileName: wstring)
    requires WellFormed(rules) && origin in rules && Extend(origin, Fold(fileName)) !in rules
    requires FsKey(associatedPath) == origin && FsKey(realOpenedPath) == Key(rules[origin][0].target)
    ensures
      FirstListing(
        fs, DirectoriesToEnumerate(OriginItself(rules[origin])), associatedPath, realOpenedPath, fileName)
         == FirstInFs(fs, PathsToTry(rules, Extend(origin, Fold(fileName))))
  {
    EnumerationReaches(fs, rules[origin], origin, associatedPath, realOpenedPath, fileName);
    OperationReaches(rules, fs, origin, fileName);
  }

  // ---------- Whole subtrees ----------

  /** As long as no deeper origin intervenes, everything below a path is treated as the path itself
      is: by the same rule if one was chosen by its first component below the origin, and then
      redirecting commutes with going down; by no rule if none was. */
  lemma SubtreeCoherence(rules: RuleIndex, path: Path, rest: Path)
    requires path !in rules
    requires forall k :: k in rules && k <= path + rest ==> k <= path
    ensures ChooseRule(rules, path + rest) == ChooseRule(rules, path)
    ensures
      match ChooseRule(rules, path)
      case None => true
      case Some(c) =>
        && c.origin < path
        && RedirectedPath(rules, path + rest, c) == RedirectedPath(rules, path, c) + rest
  {
    LongestPrefixSkips(rules, path, path + rest);
    LongestPrefixIsLongest(rules, path);
    match LongestPrefixKey(rules, path)
    case None =>
    case Some(k) =>
      assert k != path && path[..|path|] == path && k == path[..|k|];
      assert (path + rest)[|k|] == path[|k|];
      assert (path + rest)[|k|..] == path[|k|..] + rest;
  }

  lemma NothingBetween(rules: RuleIndex, path: Path, name: wstring)
    requires Extend(path, name) !in rules
    ensures forall k :: k in rules && k <= Extend(path, name) ==> k <= path
  {
    forall k | k in rules && k <= Extend(path, name)
      ensures k <= path
    {
      assert k == Extend(path, name)[..|k|] && Extend(path, name)[..|path| + 1] == Extend(path, name);
    }
  }

  lemma UnfilteredListing(fs: Filesystem, a: wstring, r: wstring, fileName: wstring)
    ensures
      var target, origin := IncludeAllFilenames(RealOpenedPath), IncludeAllFilenames(AssociatedPath);
      var atReal, atAssociated := Extend(FsKey(r), Fold(fileName)), Extend(FsKey(a), Fold(fileName));
      && FirstListing(fs, [target], a, r, fileName) == FirstInFs(fs, [atReal])
      && FirstListing(fs, [target, origin], a, r, fileName) == FirstInFs(fs, [atReal, atAssociated])
  {
    hide FsKey, Fold;
    var target, origin := IncludeAllFilenames(RealOpenedPath), IncludeAllFilenames(AssociatedPath);
    var atReal, atAssociated := Extend(FsKey(r), Fold(fileName)), Extend(FsKey(a), Fold(fileName));
    FirstInFsOfTwo(fs, atReal, atAssociated);
    assert [target, origin][1..] == [origin] && [origin][1..] == [] && [target][1..] == [];
  }

  /** A directory that is redirected by a rule whose origin lies above it. */
  lemma BelowOriginListing(
    rules: RuleIndex, fs: Filesystem, path: Path, associatedPath: wstring, realOpenedPath: wstring, fileName: wstring)
    requires path !in rules && Extend(path, Fold(fileName)) !in rules && ChooseRule(rules, path).Some?
    requires ChooseRule(rules, path).value.origin <= path && FsKey(associatedPath) == path
    requires FsKey(realOpenedPath) == RedirectedPath(rules, path, ChooseRule(rules, path).value)
    ensures
      FirstListing(
        fs, DirectoriesToEnumerate(BelowOriginOf(ChosenRule(rules, ChooseRule(rules, path).value))),
        associatedPath, realOpenedPath, fileName)
      == FirstInFs(fs, PathsToTry(rules, Extend(path, Fold(fileName))))
  {
    hide FsKey, Fold, ChooseRule, FirstInFs, FirstListing;
    NothingBetween(rules, path, Fold(fileName));
    SubtreeCoherence(rules, path, [Fold(fileName)]);
    UnfilteredListing(fs, associatedPath, realOpenedPath, fileName);
  }

  /** A directory that no rule redirects. */
  lemma UnredirectedListing(
    rules: RuleIndex, fs: Filesystem, path: Path, associatedPath: wstring, fileName: wstring)
    requires WellFormed(rules) && Extend(path, Fold(fileName)) !in rules && ChooseRule(rules, path) == None
    requires FsKey(associatedPath) == path
    ensures FirstListing(fs, DirectoriesToEnumerate(NotRedirected), associatedPath, associatedPath, fileName)
         == FirstInFs(fs, PathsToTry(rules, Extend(path, Fold(fileName))))
  {
    NothingBetween(rules, path, Fold(fileName));
    LongestPrefixIsLongest(rules, path);
    SubtreeCoherence(rules, path, [Fold(fileName)]);
    UnfilteredListing(fs, associatedPath, associatedPath, fileName);
  }

  /** The one accepted oddity: a rule whose target is its own origin leads nowhere else. */
  lemma OwnTarget(rules: RuleIndex, path: Path, name: wstring)
    requires Accepted(rules) && Extend(path, name) !in rules && ChooseRule(rules, path).Some?
    requires ChooseRule(rules, path).value.origin <= path
    requires RedirectedPath(rules, path, ChooseRule(rules, path).value) == path
    ensures forall q :: q in PathsToTry(rules, Extend(path, name)) ==> q == Extend(path, name)
  {
    var c := ChooseRule(rules, path).value;
    var rule := ChosenRule(rules, c);
    var entity := Extend(path, name);
    assert Key(rule.target) == c.origin by {
      var n := |c.origin|;
      assert |Key(rule.target)| == n;
      assert path[..n] == c.origin && RedirectedPath(rules, path, c)[..n] == Key(rule.target);
    }
    NothingBetween(rules, path, name);
    if path !in rules {
      SubtreeCoherence(rules, path, [name]);
    } else {
      SameContainerBelow(rules, path, name);
      var d := ChooseRule(rules, entity);
      if d.Some? {
        assert IsRule(rules, path, c.index) && IsRule(rules, path, d.value.index);
        assert TargetApart(rules, path, c.index, path, d.value.index);
        assert entity[|path|..] == [name];
      }
    }
  }

  /** A directory that rules redirect can still be open as itself, for instance because its target did not exist
      at the time. Enumerating such a handle agrees with opening about a name exactly if the rule for the name
      leads nowhere else, or neither has the file nor hides it. */
  lemma UnredirectedHandleAgreement(
    rules: RuleIndex, fs: Filesystem, path: Path, associatedPath: wstring, fileName: wstring)
    requires FsKey(associatedPath) == path
    ensures
      var entity := Extend(path, Fold(fileName));
      (FirstListing(fs, DirectoriesToEnumerate(NotRedirected), associatedPath, associatedPath, fileName)
       == FirstInFs(fs, PathsToTry(rules, entity))) <==>
      match ChooseRule(rules, entity)
      case None => true
      case Some(c) =>
        c.origin <= entity ==>
          var elsewhere := RedirectedPath(rules, entity, c);
          elsewhere == entity ||
          (elsewhere !in fs && (ChosenRule(rules, c).redirectMode == Overlay || entity !in fs))
  {
    hide ChooseRule, RedirectedPath, FirstInFs, FirstListing, FsKey, Fold;
    var entity := Extend(path, Fold(fileName));
    UnfilteredListing(fs, associatedPath, associatedPath, fileName);
    FirstInFsOfTwo(fs, entity, entity);
    if ChooseRule(rules, entity).Some? && ChooseRule(rules, entity).value.origin <= entity {
      FirstInFsOfTwo(fs, RedirectedPath(rules, entity, ChooseRule(rules, entity).value), entity);
    }
  }

  // ---------- The agreement ----------

  lemma ChosenListing(
    rules: RuleIndex, fs: Filesystem, path: Path, associatedPath: wstring, realOpenedPath: wstring, fileName: wstring)
    requires Accepted(rules) && Extend(path, Fold(fileName)) !in rules && ChooseRule(rules, path).Some?
    requires ChooseRule(rules, path).value.origin <= path && FsKey(associatedPath) == path
    requires FsKey(realOpenedPath) == RedirectedPath(rules, path, ChooseRule(rules, path).value)
    ensures
      FirstListing(
        fs, DirectoriesToEnumerate(CaseOfChoice(rules, path, associatedPath != realOpenedPath)),
        associatedPath, realOpenedPath, fileName)
      == FirstInFs(fs, PathsToTry(rules, Extend(path, Fold(fileName))))
  {
    var c := ChooseRule(rules, path).value;
    if associatedPath == realOpenedPath {
      OwnTarget(rules, path, Fold(fileName));
      OnlyOnePath(fs, PathsToTry(rules, Extend(path, Fold(fileName))), Extend(path, Fold(fileName)));
      UnfilteredListing(fs, associatedPath, associatedPath, fileName);
    } else if c.origin == path {
      assert c.index == 0 && RedirectedPath(rules, path, c) == Key(rules[path][0].target);
      OriginListing(rules, fs, path, associatedPath, realOpenedPath, fileName);
    } else {
      LongestPrefixIsLongest(rules, path);
      BelowOriginListing(rules, fs, path, associatedPath, realOpenedPath, fileName);
    }
  }

  lemma {:induction false} OnlyOnePath(fs: Filesystem, paths: seq<Path>, path: Path)
    requires paths != [] && forall q :: q in paths ==> q == path
    ensures FirstInFs(fs, paths) == FirstInFs(fs, [path])
  {
    FirstInFsOfTwo(fs, path, path);
    assert paths[0] in paths;
    if |paths| > 1 {
      assert forall q :: q in paths[1..] ==> q in paths;
      OnlyOnePath(fs, paths[1..], path);
    } else {
      assert paths == [path];
    }
  }

  lemma ListingByChoice(
    rules: RuleIndex, fs: Filesystem, prefix: wstring, p: wstring, realOpenedPath: wstring, fileName: wstring)
    requires Accepted(rules) && IsNamespacePrefix(prefix) && Normalised(p)
    requires Extend(Key(p), Fold(fileName)) !in rules
    requires OpenedAsChosen(rules, prefix, p, realOpenedPath)
    ensures
      FirstListing(
        fs, DirectoriesToEnumerate(CaseOfChoice(rules, Key(p), prefix + p != realOpenedPath)),
        prefix + p, realOpenedPath, fileName)
      == FirstInFs(fs, PathsToTry(rules, Extend(Key(p), Fold(fileName))))
  {
    FsKeyOfWrapped(prefix, p, []);
    assert prefix + p + [] == prefix + p;
    match ChooseRule(rules, Key(p))
    case None =>
      UnredirectedListing(rules, fs, Key(p), prefix + p, fileName);
    case Some(c) =>
      LeadKey(realOpenedPath, prefix, RedirectedPath(rules, Key(p), c), []);
      ChosenListing(rules, fs, Key(p), prefix + p, realOpenedPath, fileName);
  }

  /** What the enumeration of a handle yields for a name, on components. */
  lemma HandleListing(
    rules: RuleIndex, fsThen: Filesystem, fs: Filesystem, prefix: wstring, p: wstring, dirAllowsCreate: bool,
    realOpenedPath: wstring, fileName: wstring)
    requires Accepted(rules) && IsNamespacePrefix(prefix) && IsQueryPath(p)
    requires IsHandleFor(rules, fsThen, prefix, p, dirAllowsCreate, realOpenedPath)
    requires Extend(Key(p), Fold(fileName)) !in rules
    ensures
      FirstListing(
        fs, DirectoriesToEnumerate(ClassifyEnumeration(rules, prefix + p, realOpenedPath)),
        prefix + p, realOpenedPath, fileName)
      == FirstInFs(fs, PathsToTry(rules, Extend(Key(p), Fold(fileName))))
  {
    HandleOpenedAt(rules, fsThen, prefix, p, dirAllowsCreate, realOpenedPath);
    ClassifiedByChoice(rules, prefix, p, realOpenedPath);
    ListingByChoice(rules, fs, prefix, p, realOpenedPath, fileName);
  }

  lemma DriveLetterKept(p: wstring, rest: wstring)
    requires Normalised(p) && BeginsWithDriveLetter(p)
    ensures BeginsWithDriveLetter(p + rest)
  {
    NormalisedEnds(p);
    PrefixIsRecovered([], p);
    PrefixIsRecovered([], p + rest);
    assert [] + p == p && [] + (p + rest) == p + rest;
  }

  lemma InsideQueryPath(p: wstring, fileName: wstring)
    requires IsQueryPath(p) && IsFileName(fileName)
    ensures
      var inside := p + [BACKSLASH] + fileName;
      IsQueryPath(inside) && Key(inside) == Extend(Key(p), Fold(fileName))
  {
    FileNameKey(fileName);
    NormalisedConcat(p, fileName);
    KeyConcat(p, fileName);
    DriveLetterKept(p, [BACKSLASH] + fileName);
    assert p + [BACKSLASH] + fileName == p + ([BACKSLASH] + fileName);
  }

  lemma Regroup(a: wstring, b: wstring, c: wstring, d: wstring, e: wstring)
    ensures a + b + c + d + e == a + (b + c + d) + e
  {
  }

  /** What a file operation on a file directly inside a directory reaches, on components. */
  lemma FilesInside(
    rules: RuleIndex, fs: Filesystem, prefix: wstring, p: wstring, fileName: wstring, suffix: wstring,
    allowsCreate: bool, file: wstring)
    requires WellFormed(rules) && IsNamespacePrefix(prefix) && IsQueryPath(p) && IsFileName(fileName)
    requires IsSuffix(suffix) && file == prefix + p + [BACKSLASH] + fileName + suffix
    ensures FirstExisting(fs, FilesToTry(FileOperation(rules, fs, file, allowsCreate), file))
         == FirstInFs(fs, PathsToTry(rules, Extend(Key(p), Fold(fileName))))
  {
    var inside := p + [BACKSLASH] + fileName;
    Regroup(prefix, p, [BACKSLASH], fileName, suffix);
    InsideQueryPath(p, fileName);
    FsKeyOfWrapped(prefix, inside, suffix);
    FileOperationMeaning(rules, fs, prefix, inside, suffix, allowsCreate, file);
    ChosenFilesToTry(
      rules, fs, FileOperation(rules, fs, file, allowsCreate), prefix, inside, suffix, allowsCreate, file);
  }

  /** Enumeration and opening agree. Take any directory handle the director caused to be opened and any
      file name that is not itself the origin directory of a deeper rule. The first enumeration that
      yields the name and the first existing file among those an open of that name would try are the
      same entity; in particular the name is listed exactly when one of those files exists. */
  lemma ListingAgreesWithOpening(
    rules: RuleIndex, fsThen: Filesystem, fs: Filesystem, prefix: wstring, p: wstring, dirAllowsCreate: bool,
    realOpenedPath: wstring, fileName: wstring, suffix: wstring, allowsCreate: bool)
    requires Accepted(rules) && IsNamespacePrefix(prefix) && IsQueryPath(p) && IsFileName(fileName) && IsSuffix(suffix)
    requires IsHandleFor(rules, fsThen, prefix, p, dirAllowsCreate, realOpenedPath)
    requires Extend(Key(p), Fold(fileName)) !in rules
    ensures
      var directory := prefix + p;
      var file := directory + [BACKSLASH] + fileName + suffix;
      FirstListing(
        fs, DirectoriesToEnumerate(ClassifyEnumeration(rules, directory, realOpenedPath)),
        directory, realOpenedPath, fileName)
      == FirstExisting(fs, FilesToTry(FileOperation(rules, fs, file, allowsCreate), file))
  {
    HandleListing(rules, fsThen, fs, prefix, p, dirAllowsCreate, realOpenedPath, fileName);
    FilesInside(
      rules, fs, prefix, p, fileName, suffix, allowsCreate, prefix + p + [BACKSLASH] + fileName + suffix);
  }
}
