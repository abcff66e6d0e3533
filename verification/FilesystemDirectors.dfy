/** The director as an object over its tree of rules. */
module FilesystemDirectors {
  import opened Wrappers
  import opened Text
  import opened Rules
  import opened RuleContainers
  import opened PrefixTrees
  import opened Filesystems
  import opened Instructions
  import opened Directors
  import Redirections

  method IdentifyRuleThatPerformedRedirection(container: RuleContainer, redirectedPath: wstring)
    returns (r: Option<nat>)
    ensures r == IdentifyRule(container, redirectedPath)
  {
    assert container[0..] == container;
    for i := 0 to |container|
      invariant
        IdentifyRule(container, redirectedPath) ==
        match IdentifyRule(container[i..], redirectedPath)
        case None => None
        case Some(j) => Some(i + j)
    {
      assert container[i..][0] == container[i] && container[i..][1..] == container[i + 1..];
      if IsTargetOf(container[i], redirectedPath) {
        return Some(i);
      }
    }
    return None;
  }

  method SelectRuleForDirectoryNameInsertionSource(container: RuleContainer, fs: Filesystem) returns (r: FilesystemRule)
    requires container != []
    ensures r == RuleForNameInsertion(container, fs)
    ensures
      if exists rule :: rule in container && IsDirectory(fs, rule.target)
      then
        exists i: nat ::
          && i < |container| && r == container[i] && IsDirectory(fs, r.target)
          && forall j :: 0 <= j < i ==> !IsDirectory(fs, container[j].target)
      else r == container[0]
  {
    hide IsDirectory;
    for i := 0 to |container|
      invariant forall j :: 0 <= j < i ==> !IsDirectory(fs, container[j].target)
    {
      if IsDirectory(fs, container[i].target) {
        FirstWithDirectory(container, fs, i);
        return container[i];
      }
    }
    return container[0];
  }

  lemma {:induction false} FirstWithDirectory(container: RuleContainer, fs: Filesystem, i: nat)
    requires i < |container| && IsDirectory(fs, container[i].target)
    requires forall j :: 0 <= j < i ==> !IsDirectory(fs, container[j].target)
    ensures RuleForNameInsertion(container, fs) == container[i]
    decreases |container|
  {
    hide IsDirectory;
    assert container[i] in container;
    if i > 0 {
      FirstWithDirectory(container[1..], fs, i - 1);
    }
  }

  /** The first rule that redirects a path split into directory and file part. */
  method SelectFirstRedirect(
    container: RuleContainer, directoryPart: wstring, filePart: wstring, prefix: wstring, suffix: wstring)
    returns (r: Option<(nat, wstring)>)
    ensures r == FirstRedirect(container, directoryPart, filePart, prefix, suffix)
  {
    hide RedirectOriginToTarget;
    assert container[0..] == container;
    for i := 0 to |container|
      invariant
        FirstRedirect(container, directoryPart, filePart, prefix, suffix) ==
        match FirstRedirect(container[i..], directoryPart, filePart, prefix, suffix)
        case None => None
        case Some((j, path)) => Some((i + j, path))
    {
      assert container[i..][0] == container[i] && container[i..][1..] == container[i + 1..];
      var redirected := RedirectOriginToTarget(container[i], directoryPart, filePart, prefix, suffix);
      if redirected.Some? {
        return Some((i, redirected.value));
      }
    }
    return None;
  }

  /** The target-side enumerations for an origin directory, with the counters that decide later which
      simplifications apply. `original` is the rule that performed the redirection. */
  method EnumerateTargetSide(container: RuleContainer, original: nat)
    returns (r: seq<SingleDirectoryEnumeration>, numSimple: nat, numOverlay: nat, simpleCatchAll: bool)
    requires original < |container|
    ensures r == TargetSide(container)
    ensures numSimple == CountMode(container, Simple) && numOverlay == CountMode(container, Overlay)
    ensures simpleCatchAll == HasSimpleCatchAll(container)
  {
    numSimple, numOverlay, simpleCatchAll := 0, 0, false;
    if |container| == 1 {
      var rule := container[original];
      r := [if HasFilePatterns(rule) then IncludeOnlyMatching(RealOpenedPath, rule)
          else IncludeAllFilenames(RealOpenedPath)];
      match rule.redirectMode {
        case Simple =>
          numSimple := 1;
          simpleCatchAll := !HasFilePatterns(rule);
        case Overlay => numOverlay := 1;
      }
      assert container[..0] == [] && container == [rule];
      assert rule in container;
    } else {
      r := [];
      for i := 0 to |container|
        invariant |r| == i && forall j: nat :: j < i ==>
            r[j] == IncludeFirstMatchAt(FilePatternSourceTargetDirectory, container, j)
        invariant numSimple == CountMode(container[..i], Simple) && numOverlay == CountMode(container[..i], Overlay)
        invariant simpleCatchAll == HasSimpleCatchAll(container[..i])
      {
        var rule := container[i];
        assert container[..i + 1] == container[..i] + [rule] && container[..i + 1][..i] == container[..i];
        r := r + [IncludeFirstMatchAt(FilePatternSourceTargetDirectory, container, i)];
        match rule.redirectMode {
          case Simple =>
            numSimple := numSimple + 1;
            if !HasFilePatterns(rule) {
              simpleCatchAll := true;
            }
          case Overlay => numOverlay := numOverlay + 1;
        }
      }
      assert container[..|container|] == container;
      assert r == TargetSide(container);
    }
  }

  /** All enumerations for an origin directory. */
  method EnumerateOriginDirectory(container: RuleContainer, original: nat) returns (r: seq<SingleDirectoryEnumeration>)
    requires original < |container|
    ensures r == TargetSide(container) + OriginSide(container)
  {
    hide TargetSide, CountMode, HasSimpleCatchAll;
    var numSimple, numOverlay, simpleCatchAll;
    r, numSimple, numOverlay, simpleCatchAll := EnumerateTargetSide(container, original);
    var completelyReplaced := numOverlay == 0 && simpleCatchAll;
    if completelyReplaced {
      assert r == TargetSide(container) + [];
      return;
    }
    if numSimple > 0 {
      if |container| == 1 {
        r := r + [IncludeAllExceptMatching(AssociatedPath, container[original])];
      } else {
        r := r + [IncludeUnlessHidden(AssociatedPath, container)];
      }
    } else {
      r := r + [IncludeAllFilenames(AssociatedPath)];
    }
  }

  /** Sorts by name without regard to case. */
  method SortByName(list: seq<FilesystemRule>) returns (sorted: seq<FilesystemRule>)
    requires forall i, j :: 0 <= i < j < |list| ==>
        Fold(OriginDirectoryName(list[i])) != Fold(OriginDirectoryName(list[j]))
    ensures SortedByName(sorted) && multiset(sorted) == multiset(list)
  {
    hide OriginDirectoryName, LessCaseInsensitive, SortedByName, Fold;
    sorted := [];
    NothingToSort();
    for i := 0 to |list|
      invariant SortedByName(sorted) && multiset(sorted) == multiset(list[..i])
    {
      var at := 0;
      while at < |sorted| && LessCaseInsensitive(OriginDirectoryName(sorted[at]), OriginDirectoryName(list[i]))
        invariant at <= |sorted|
        invariant forall j :: 0 <= j < at ==>
            LessCaseInsensitive(OriginDirectoryName(sorted[j]), OriginDirectoryName(list[i]))
      {
        at := at + 1;
      }
      InsertSorted(sorted, at, list[i], list[..i]);
      assert list[..i + 1] == list[..i] + [list[i]];
      assert sorted == sorted[..at] + sorted[at..];
      sorted := sorted[..at] + [list[i]] + sorted[at..];
    }
    assert list[..|list|] == list;
  }

  lemma NothingToSort()
    ensures SortedByName([])
  {
  }

  lemma InsertSorted(sorted: seq<FilesystemRule>, at: nat, rule: FilesystemRule, others: seq<FilesystemRule>)
    requires at <= |sorted| && SortedByName(sorted) && multiset(sorted) == multiset(others)
    requires forall x :: x in others ==> Fold(OriginDirectoryName(x)) != Fold(OriginDirectoryName(rule))
    requires forall j :: 0 <= j < at ==> LessCaseInsensitive(OriginDirectoryName(sorted[j]), OriginDirectoryName(rule))
    requires at < |sorted| ==> !LessCaseInsensitive(OriginDirectoryName(sorted[at]), OriginDirectoryName(rule))
    ensures SortedByName(sorted[..at] + [rule] + sorted[at..])
  {
    hide OriginDirectoryName, LessCaseInsensitive, Fold;
    forall j | at <= j < |sorted|
      ensures LessCaseInsensitive(OriginDirectoryName(rule), OriginDirectoryName(sorted[j]))
    {
      AfterInsertion(sorted, at, j, rule, others);
    }
    var after := sorted[..at] + [rule] + sorted[at..];
    assert forall j :: 0 <= j < at ==> after[j] == sorted[j];
    assert after[at] == rule && forall j :: at < j < |after| ==> after[j] == sorted[j - 1];
  }

  lemma AfterInsertion(sorted: seq<FilesystemRule>, at: nat, j: nat, rule: FilesystemRule, others: seq<FilesystemRule>)
    requires at <= j < |sorted| && SortedByName(sorted) && multiset(sorted) == multiset(others)
    requires forall x :: x in others ==> Fold(OriginDirectoryName(x)) != Fold(OriginDirectoryName(rule))
    requires !LessCaseInsensitive(OriginDirectoryName(sorted[at]), OriginDirectoryName(rule))
    ensures LessCaseInsensitive(OriginDirectoryName(rule), OriginDirectoryName(sorted[j]))
  {
    var a, b, c := Fold(OriginDirectoryName(rule)), Fold(OriginDirectoryName(sorted[at])),
        Fold(OriginDirectoryName(sorted[j]));
    assert sorted[at] in multiset(sorted);
    LessTotal(a, b);
    if at < j { LessTransitive(a, b, c); }
  }

  // ---------- Names to insert ----------

  ghost predicate CollectedOne(rules: RuleIndex, fs: Filesystem, directory: Path, rule: FilesystemRule, c: wstring) {
    && Extend(directory, c) in rules && rules[Extend(directory, c)] != []
    && rule == RuleForNameInsertion(rules[Extend(directory, c)], fs)
    && Fold(OriginDirectoryName(rule)) == c
  }

  /** A list has one rule for each of some children that are origin directories. */
  ghost predicate Collected(
    rules: RuleIndex, fs: Filesystem, directory: Path, list: seq<FilesystemRule>, children: set<wstring>)
  {
    && (forall c :: c in children && Extend(directory, c) in rules ==>
          exists i :: 0 <= i < |list| && CollectedOne(rules, fs, directory, list[i], c))
    && (forall i :: 0 <= i < |list| ==>
          exists c :: c in children && CollectedOne(rules, fs, directory, list[i], c))
    && forall i, j :: 0 <= i < j < |list| ==> Fold(OriginDirectoryName(list[i])) != Fold(OriginDirectoryName(list[j]))
  }

  lemma CollectNothing(rules: RuleIndex, fs: Filesystem, directory: Path)
    ensures Collected(rules, fs, directory, [], {})
  {
  }

  lemma {:induction false} InsertionRuleIsIn(container: RuleContainer, fs: Filesystem)
    requires container != []
    ensures RuleForNameInsertion(container, fs) in container
    decreases |container|
  {
    hide IsDirectory;
    if RuleForNameInsertion(container, fs) != container[0] {
      InsertionRuleIsIn(container[1..], fs);
    }
  }

  lemma InsertedName(rules: RuleIndex, fs: Filesystem, directory: Path, c: wstring)
    requires WellFormed(rules) && Extend(directory, c) in rules
    ensures rules[Extend(directory, c)] != []
    ensures CollectedOne(rules, fs, directory, RuleForNameInsertion(rules[Extend(directory, c)], fs), c)
  {
    var k := Extend(directory, c);
    assert WellFormedContainer(rules[k], k);
    var rule := RuleForNameInsertion(rules[k], fs);
    InsertionRuleIsIn(rules[k], fs);
    assert WellFormedRule(rule, k);
    Redirections.SplitPath(rule.origin);
    FileNameKey(OriginDirectoryName(rule));
  }

  lemma CollectOne(
    rules: RuleIndex, fs: Filesystem, directory: Path, list: seq<FilesystemRule>, done: set<wstring>, c: wstring)
    requires WellFormed(rules) && Collected(rules, fs, directory, list, done) && c !in done
    ensures
      if Extend(directory, c) in rules then
        && rules[Extend(directory, c)] != []
        && Collected(
            rules, fs, directory, list + [RuleForNameInsertion(rules[Extend(directory, c)], fs)], done + {c})
      else Collected(rules, fs, directory, list, done + {c})
  {
    hide RuleForNameInsertion, OriginDirectoryName, WellFormed, Fold;
    if Extend(directory, c) in rules {
      InsertedName(rules, fs, directory, c);
      var rule := RuleForNameInsertion(rules[Extend(directory, c)], fs);
      var longer := list + [rule];
      assert longer[|list|] == rule && forall i :: 0 <= i < |list| ==> longer[i] == list[i];
    }
  }

  lemma NothingCollected(rules: RuleIndex, fs: Filesystem, directory: Path, children: set<wstring>)
    requires Collected(rules, fs, directory, [], children)
    ensures forall c :: c in children ==> Extend(directory, c) !in rules
  {
  }

  lemma CollectedDistinct(
    rules: RuleIndex, fs: Filesystem, directory: Path, list: seq<FilesystemRule>, children: set<wstring>)
    requires Collected(rules, fs, directory, list, children)
    ensures forall i, j :: 0 <= i < j < |list| ==>
        Fold(OriginDirectoryName(list[i])) != Fold(OriginDirectoryName(list[j]))
  {
  }

  lemma SameMembers<T>(a: seq<T>, b: seq<T>)
    requires multiset(a) == multiset(b)
    ensures forall x :: x in a <==> x in b
  {
    assert forall x :: x in a <==> x in multiset(a);
    assert forall x :: x in b <==> x in multiset(b);
  }

  lemma CollectedAll(
    rules: RuleIndex, fs: Filesystem, directory: Path, list: seq<FilesystemRule>, children: set<wstring>,
    sorted: seq<FilesystemRule>)
    requires Collected(rules, fs, directory, list, children) && list != []
    requires SortedByName(sorted) && multiset(sorted) == multiset(list)
    requires
      forall k :: k in OriginsInside(rules, directory) <==>
        k in rules && exists c :: c in children && k == Extend(directory, c)
    ensures InsertionsFor(rules, fs, directory, sorted) && OriginsInside(rules, directory) != {}
  {
    hide RuleForNameInsertion, OriginDirectoryName, OriginsInside, SortedByName, Fold;
    SameMembers(sorted, list);
    forall k | k in OriginsInside(rules, directory) && rules[k] != []
      ensures RuleForNameInsertion(rules[k], fs) in sorted
    {
      var c :| c in children && k == Extend(directory, c);
      var i :| 0 <= i < |list| && CollectedOne(rules, fs, directory, list[i], c);
    }
    forall rule | rule in sorted
      ensures
        exists k ::
          k in OriginsInside(rules, directory) && rules[k] != [] && rule == RuleForNameInsertion(rules[k], fs)
    {
      var i :| 0 <= i < |list| && list[i] == rule;
      var c :| c in children && CollectedOne(rules, fs, directory, list[i], c);
      assert Extend(directory, c) in OriginsInside(rules, directory);
    }
    var c :| c in children && CollectedOne(rules, fs, directory, list[0], c);
    assert Extend(directory, c) in OriginsInside(rules, directory);
  }

  lemma SelectedIsNotEmpty(rules: RuleIndex, path: wstring)
    requires WellFormed(rules)
    ensures SelectRules(rules, path).Some? ==> SelectRules(rules, path).value != []
  {
    LongestPrefixIsLongest(rules, Key(path));
    if SelectRules(rules, path).Some? {
      var k := LongestPrefixKey(rules, Key(path)).value;
      assert WellFormedContainer(rules[k], k);
    }
  }

  lemma DriveLetterHasKey(path: wstring)
    requires BeginsWithDriveLetter(path)
    ensures Key(path) != []
  {
    var i := |NamespacePrefix(path)| + 1;
    assert path[i] == COLON && Fold(path)[i] == FoldChar(COLON) != BACKSLASH;
    HasComponents(Fold(path), i);
  }

  lemma {:induction false} HasComponents(s: wstring, i: nat)
    requires i < |s| && s[i] != BACKSLASH
    ensures Components(s) != []
    decreases |s|
  {
    var rest := Split(s[1..]);
    if s[0] == BACKSLASH {
      assert ([[]] + rest)[1..] == rest;
      HasComponents(s[1..], i - 1);
    }
  }

  class FilesystemDirector {
    const rulesByOrigin: PrefixTree<RuleContainer>

    constructor (rulesByOrigin: PrefixTree<RuleContainer>)
      ensures this.rulesByOrigin == rulesByOrigin
    {
      this.rulesByOrigin := rulesByOrigin;
    }

    /** What a successful build leaves behind, as far as following its rules needs it. */
    ghost predicate Valid()
      reads this, rulesByOrigin, rulesByOrigin.nodes.Values
    {
      rulesByOrigin.Valid() && rulesByOrigin.Pruned() && WellFormed(rulesByOrigin.Contents())
    }

    ghost function Index(): RuleIndex
      reads this, rulesByOrigin, rulesByOrigin.nodes.Values
    {
      rulesByOrigin.Contents()
    }

    method SelectRulesForPath(absolutePath: wstring) returns (r: Option<RuleContainer>)
      requires Valid()
      ensures r == SelectRules(Index(), absolutePath)
    {
      LongestPrefixIsLongest(Index(), Key(absolutePath));
      var node := rulesByOrigin.LongestMatchingPrefix(absolutePath);
      r := if node == null then None else node.data;
    }

    method HasRuleWithOriginDirectory(directory: wstring) returns (r: bool)
      requires Valid()
      ensures r <==> Key(directory) in Index()
    {
      r := rulesByOrigin.Contains(directory);
    }

    method IsPrefixForAnyRule(path: wstring) returns (r: bool)
      requires Valid() && Key(path) != []
      ensures r <==> Directors.IsPrefixForAnyRule(Index(), path)
    {
      r := rulesByOrigin.HasPathForPrefix(path);
    }

    /** Which rule redirects a path, and where to. */
    method SelectRedirection(container: RuleContainer, trimmed: wstring, prefix: wstring, suffix: wstring)
      returns (redirect: Option<(nat, wstring)>)
      requires container != [] && LastBackslash(trimmed) >= 0
      ensures redirect == SelectRedirect(container, trimmed, prefix, suffix)
    {
      hide RedirectOriginToTarget, DirectoryCompare, FirstRedirect;
      if DirectoryCompare(trimmed, container[0].origin) == Equal {
        var redirected := RedirectOriginToTarget(container[0], trimmed, [], prefix, suffix);
        redirect := if redirected == None then None else Some((0, redirected.value));
      } else {
        var lastSeparator := LastBackslash(trimmed);
        redirect :=
          SelectFirstRedirect(container, trimmed[..lastSeparator], trimmed[lastSeparator + 1..], prefix, suffix);
      }
    }

    /** Which directory has to exist first, if any. */
    method SelectHierarchy(
      fs: Filesystem, prefix: wstring, trimmed: wstring, directoryPart: wstring, redirected: wstring,
      allowsCreate: bool)
      returns (operand: Option<wstring>)
      requires Valid()
      ensures operand == EnsureHierarchy(Index(), fs, prefix, trimmed, directoryPart, redirected, allowsCreate)
    {
      hide Key, IsDirectory, ParentOfRedirected, RemoveTrailing, WellFormed;
      operand := None;
      if allowsCreate {
        var isOrigin := HasRuleWithOriginDirectory(directoryPart);
        if isOrigin || IsDirectory(fs, prefix + directoryPart) {
          operand := Some(ParentOfRedirected(redirected));
        }
      } else if IsDirectory(fs, trimmed) {
        operand := Some(RemoveTrailing(redirected));
      }
    }

    method RedirectTrimmed(
      fs: Filesystem, container: RuleContainer, prefix: wstring, trimmed: wstring, suffix: wstring, allowsCreate: bool)
      returns (op: FileOperationInstruction)
      requires Valid() && SelectRules(Index(), trimmed) == Some(container) && container != []
      requires BeginsWithDriveLetter(trimmed) && LastBackslash(trimmed) >= 0
      ensures op == TrimmedFileOperation(Index(), fs, prefix, trimmed, suffix, allowsCreate)
    {
      hide SelectRedirect, EnsureHierarchy, SelectRules, DirectoryPartOf, BeginsWithDriveLetter, WellFormed;
      var redirect := SelectRedirection(container, trimmed, prefix, suffix);
      if redirect == None {
        return NoRedirectionOrInterception();
      }
      var rule, redirected := container[redirect.value.0], redirect.value.1;
      var ensureHierarchy :=
        SelectHierarchy(fs, prefix, trimmed, DirectoryPartOf(container, trimmed), redirected, allowsCreate);
      op := RedirectInstruction(rule.redirectMode, redirected, ensureHierarchy, allowsCreate);
    }

    /** How to execute a file operation. */
    method GetInstructionForFileOperation(fs: Filesystem, absolutePath: wstring, allowsCreate: bool)
      returns (op: FileOperationInstruction)
      requires Valid()
      ensures op == FileOperation(Index(), fs, absolutePath, allowsCreate)
    {
      hide SelectRedirect, EnsureHierarchy, SelectRules, Key, RemoveTrailing, BeginsWithDriveLetter, WellFormed;
      var prefix := NamespacePrefix(absolutePath);
      var suffix := if absolutePath != [] && absolutePath[|absolutePath| - 1] == BACKSLASH then [BACKSLASH] else [];
      var trimmed := RemoveTrailing(WithoutPrefix(absolutePath));
      if !BeginsWithDriveLetter(trimmed) || LastBackslash(trimmed) == -1 {
        return NoRedirectionOrInterception();
      }
      var selected := SelectRulesForPath(trimmed);
      if selected == None {
        DriveLetterHasKey(trimmed);
        var isPrefix := IsPrefixForAnyRule(trimmed);
        return if isPrefix then InterceptWithoutRedirection(UnredirectedName) else NoRedirectionOrInterception();
      }
      SelectedIsNotEmpty(Index(), trimmed);
      op := RedirectTrimmed(fs, selected.value, prefix, trimmed, suffix, allowsCreate);
    }

    /** The rules whose origin directories lie directly inside a directory, one for each, sorted. */
    method NamesToInsert(fs: Filesystem, directory: wstring) returns (names: Option<seq<FilesystemRule>>)
      requires Valid()
      ensures names == None <==> OriginsInside(Index(), Key(directory)) == {}
      ensures names.Some? ==> InsertionsFor(Index(), fs, Key(directory), names.value)
    {
      hide Key, InsertionsFor, Collected, WellFormed;
      var parent := rulesByOrigin.TraverseTo(directory);
      if parent == null {
        NoOriginsInside(Key(directory));
        return None;
      }
      var list := CollectChildren(fs, parent, Key(directory));
      if list == [] {
        NothingCollected(Index(), fs, Key(directory), parent.children.Keys);
        ChildrenAreOrigins(Key(directory));
        return None;
      }
      ChildrenAreOrigins(Key(directory));
      CollectedDistinct(Index(), fs, Key(directory), list, parent.children.Keys);
      var sorted := SortByName(list);
      CollectedAll(Index(), fs, Key(directory), list, parent.children.Keys, sorted);
      names := Some(sorted);
    }

    lemma NoOriginsInside(directory: Path)
      requires Valid() && directory !in rulesByOrigin.nodes
      ensures OriginsInside(Index(), directory) == {}
    {
      forall k | k in OriginsInside(Index(), directory)
        ensures false
      {
        rulesByOrigin.PrefixClosed(directory, k);
      }
    }

    lemma ChildrenAreOrigins(directory: Path)
      requires Valid() && directory in rulesByOrigin.nodes
      ensures
        forall k :: k in OriginsInside(Index(), directory) <==>
          k in Index() && exists c :: c in rulesByOrigin.nodes[directory].children.Keys && k == Extend(directory, c)
    {
      forall k
        ensures
          k in OriginsInside(Index(), directory) <==>
            k in Index() && exists c :: c in rulesByOrigin.nodes[directory].children.Keys && k == Extend(directory, c)
      {
        if k in OriginsInside(Index(), directory) {
          rulesByOrigin.ChildLink(directory, Last(k));
          assert k == Extend(directory, Last(k));
        }
      }
    }

    /** One rule for each child of a node that is an origin directory, in whatever order they are visited. */
    method CollectChildren(fs: Filesystem, parent: Node<RuleContainer>, ghost directory: Path)
      returns (list: seq<FilesystemRule>)
      requires Valid() && directory in rulesByOrigin.nodes && rulesByOrigin.nodes[directory] == parent
      ensures Collected(Index(), fs, directory, list, parent.children.Keys)
    {
      hide Collected, WellFormed;
      list := [];
      var remaining := parent.children.Keys;
      ghost var done: set<wstring> := {};
      CollectNothing(Index(), fs, directory);
      while remaining != {}
        invariant done + remaining == parent.children.Keys && done !! remaining
        invariant Collected(Index(), fs, directory, list, done)
        decreases |remaining|
      {
        var c :| c in remaining;
        remaining := remaining - {c};
        rulesByOrigin.ChildLink(directory, c);
        var child := parent.children[c];
        CollectOne(Index(), fs, directory, list, done, c);
        if child.data.Some? {
          var rule := SelectRuleForDirectoryNameInsertionSource(child.data.value, fs);
          list := list + [rule];
        }
        done := done + {c};
      }
    }

    /** The directories to enumerate; nothing in case of an internal error. */
    method SelectDirectories(associatedPath: wstring, realOpenedPath: wstring)
      returns (directories: Option<seq<SingleDirectoryEnumeration>>)
      requires Valid()
      ensures
        var found := ClassifyEnumeration(Index(), associatedPath, realOpenedPath);
        directories == if IsInternalError(found) then None else Some(DirectoriesToEnumerate(found))
    {
      hide WellFormed, SelectRules, IdentifyRule, DirectoryCompare, TargetSide, OriginSide;
      if associatedPath == realOpenedPath {
        return Some([IncludeAllFilenames(RealOpenedPath)]);
      }
      var unredirected, redirected := WithoutPrefix(associatedPath), WithoutPrefix(realOpenedPath);
      var container := SelectRulesForPath(unredirected);
      if container == None {
        return None;
      }
      var original := IdentifyRuleThatPerformedRedirection(container.value, redirected);
      if original == None {
        return None;
      }
      match DirectoryCompare(unredirected, container.value[0].origin)
      case Equal =>
        var all := EnumerateOriginDirectory(container.value, original.value);
        return Some(all);
      case CandidateIsChild => return Some(BelowOrigin(container.value[original.value]));
      case CandidateIsDescendant => return Some(BelowOrigin(container.value[original.value]));
      case _ => return None;
    }

    /** How to execute a directory enumeration: internal errors pass the query through as it is. */
    method GetInstructionForDirectoryEnumeration(fs: Filesystem, associated: wstring, realOpened: wstring)
      returns (r: DirectoryEnumerationInstruction)
      requires Valid()
      ensures
        var found := ClassifyEnumeration(Index(), RemoveTrailing(associated), RemoveTrailing(realOpened));
        var directory := Key(WithoutPrefix(RemoveTrailing(associated)));
        if IsInternalError(found) then r == PassThroughUnmodifiedQuery()
        else
          && r.directories == DirectoriesToEnumerate(found)
          && (r.namesToInsert == None <==> OriginsInside(Index(), directory) == {})
          && (r.namesToInsert.Some? ==> InsertionsFor(Index(), fs, directory, r.namesToInsert.value))
    {
      hide WellFormed, ClassifyEnumeration, DirectoriesToEnumerate, InsertionsFor, OriginsInside, Key, RemoveTrailing;
      var associatedPath, realOpenedPath := RemoveTrailing(associated), RemoveTrailing(realOpened);
      var directories := SelectDirectories(associatedPath, realOpenedPath);
      if directories == None {
        return PassThroughUnmodifiedQuery();
      }
      var names := NamesToInsert(fs, WithoutPrefix(associatedPath));
      r := DirectoryEnumerationInstruction(directories.value, names);
    }
  }
}
