/** What the director's string-level decisions mean on path components, and that its separately coded
    parts agree with each other. */
module Redirections {
  import opened Wrappers
  import opened Text
  import opened Rules
  import opened RuleContainers
  import opened PrefixTrees
  import opened Filesystems
  import opened Instructions
  import opened Directors

  // ---------- Trie view and string view ----------

  predicate IsWithin(path: wstring, directory: wstring) {
    DirectoryCompare(path, directory) in {Equal, CandidateIsChild, CandidateIsDescendant}
  }

  lemma WithinMeansPrefix(path: wstring, directory: wstring)
    requires Normalised(path) && Normalised(directory)
    ensures IsWithin(path, directory) <==> Key(directory) <= Key(path)
  {
    CompareAgrees(path, directory);
  }

  /** The container the trie selects is the one whose origin directory, compared as a string,
      contains the path and is the longest to do so; nothing is selected exactly when no origin
      directory contains it. */
  lemma SelectedByStringToo(rules: RuleIndex, path: wstring)
    requires WellFormed(rules) && Normalised(path)
    ensures
      match SelectRules(rules, path)
      case Some(container) =>
        && container != [] && Key(container[0].origin) in rules && container == rules[Key(container[0].origin)]
        && IsWithin(path, container[0].origin)
        && forall k, rule :: k in rules && rule in rules[k] && IsWithin(path, rule.origin) ==>
             Key(rule.origin) <= Key(container[0].origin)
      case None => forall k, rule :: k in rules && rule in rules[k] ==> !IsWithin(path, rule.origin)
  {
    LongestPrefixIsLongest(rules, Key(path));
    forall k, rule | k in rules && rule in rules[k]
      ensures IsWithin(path, rule.origin) <==> k <= Key(path)
    {
      WithinMeansPrefix(path, rule.origin);
    }
  }

  // ---------- Which rule, on components ----------

  datatype Choice = Choice(origin: Path, index: nat)

  /** The whole decision on components: the longest origin above the path, and the first rule there
      whose patterns match the component just below that origin. */
  function ChooseRule(rules: RuleIndex, path: Path): (r: Option<Choice>)
    ensures r.Some? ==> r.value.origin in rules && r.value.index < |rules[r.value.origin]|
  {
    match LongestPrefixKey(rules, path)
    case None => None
    case Some(k) =>
      if k !in rules || rules[k] == [] || !(k <= path) then None
      else if k == path then Some(Choice(k, 0))
      else
        var i := FirstMatch(rules[k], path[|k|]);
        if i < |rules[k]| then Some(Choice(k, i)) else None
  }

  /** More patterns count for more, and between equally many the name decides. */
  predicate TakesPrecedence(a: FilesystemRule, b: FilesystemRule) {
    || |a.filePatterns| > |b.filePatterns|
    || (|a.filePatterns| == |b.filePatterns| && LessCaseInsensitive(a.name, b.name))
  }

  /** A rule decides a path: its origin is the longest one above, and it takes precedence over all other rules there
      that match the component below. An origin directory itself goes by the first of its rules. */
  ghost predicate Decides(rules: RuleIndex, path: Path, k: Path, i: nat) {
    && IsRule(rules, k, i) && k <= path && (forall l :: l in rules && l <= path ==> |l| <= |k|)
    && if k == path then i == 0
       else
         && Matches(rules[k][i], path[|k|])
         && forall j: nat :: j < |rules[k]| && j != i && Matches(rules[k][j], path[|k|]) ==>
              TakesPrecedence(rules[k][i], rules[k][j])
  }

  /** The rule that is chosen is the one that decides. */
  lemma ChoiceMeaning(rules: RuleIndex, path: Path, k: Path, i: nat)
    requires forall l :: l in rules ==> rules[l] != [] && Ordered(rules[l])
    ensures ChooseRule(rules, path) == Some(Choice(k, i)) <==> Decides(rules, path, k, i)
  {
    hide Matches, Ordered, LessCaseInsensitive;
    hide LongestPrefixKey, FirstMatch;
    LongestPrefixIsLongest(rules, path);
    match LongestPrefixKey(rules, path)
    case None =>
    case Some(l) =>
      if IsRule(rules, k, i) && k <= path && (forall l :: l in rules && l <= path ==> |l| <= |k|) {
        assert k == path[..|k|] && l == path[..|l|];
      }
      if IsRule(rules, k, i) && k < path {
        FirstDecides(rules[k], path[|k|], i);
      }
  }

  lemma FirstDecides(container: RuleContainer, fileName: wstring, i: nat)
    requires Ordered(container) && i < |container|
    ensures
      FirstMatch(container, fileName) == i <==>
      && Matches(container[i], fileName)
      && forall j: nat :: j < |container| && j != i && Matches(container[j], fileName) ==>
           TakesPrecedence(container[i], container[j])
  {
    hide Matches, Ordered, LessCaseInsensitive;
    var first := FirstMatch(container, fileName);
    if first == i {
      forall j: nat | j < |container| && j != i && Matches(container[j], fileName)
        ensures TakesPrecedence(container[i], container[j])
      {
        OrderMeaning(container, i, j);
      }
    } else if Matches(container[i], fileName) {
      OrderMeaning(container, first, i);
      PrecedenceIsAsymmetric(container[first], container[i]);
    }
  }

  lemma PrecedenceIsAsymmetric(a: FilesystemRule, b: FilesystemRule)
    requires TakesPrecedence(a, b)
    ensures !TakesPrecedence(b, a)
  {
    if |a.filePatterns| == |b.filePatterns| {
      LessAsymmetric(Fold(a.name), Fold(b.name));
    }
  }

  lemma LessAsymmetric(a: wstring, b: wstring)
    requires Less(a, b)
    ensures !Less(b, a)
  {
    if Less(b, a) {
      LessTransitive(a, b, a);
      LessIrreflexive(a);
    }
  }

  function ChosenRule(rules: RuleIndex, c: Choice): FilesystemRule
    requires c.origin in rules && c.index < |rules[c.origin]|
  {
    rules[c.origin][c.index]
  }

  /** Where the chosen rule leads: the origin is replaced by the target, the rest is kept. */
  function RedirectedPath(rules: RuleIndex, path: Path, c: Choice): Path
    requires c.origin in rules && c.index < |rules[c.origin]| && c.origin <= path
  {
    Key(ChosenRule(rules, c).target) + path[|c.origin|..]
  }

  /** A string that leads to a path: the caller's prefix and suffix around a normalised path. */
  ghost predicate LeadsTo(s: wstring, prefix: wstring, path: Path, suffix: wstring) {
    exists body :: Normalised(body) && Key(body) == path && s == prefix + body + suffix
  }

  /** One rule: in scope exactly when the component below the origin matches its patterns. */
  lemma RuleRedirectMeaning(
    rule: FilesystemRule, origin: Path, directoryPart: wstring, filePart: wstring, prefix: wstring, suffix: wstring)
    requires WellFormedRule(rule, origin)
    requires Normalised(directoryPart) && (filePart == [] || IsFileName(filePart)) && origin <= Key(directoryPart)
    ensures
      var full := Key(FullPath(directoryPart, filePart));
      var r := RedirectOriginToTarget(rule, directoryPart, filePart, prefix, suffix);
      && origin <= full
      && (r.Some? <==> origin == full || Matches(rule, full[|origin|]))
      && (r.Some? ==> LeadsTo(r.value, prefix, Key(rule.target) + full[|origin|..], suffix))
  {
    FullPathKey(directoryPart, filePart);
    RedirectMeaning(directoryPart, filePart, rule.origin, rule.target, rule.filePatterns);
    RedirectWraps(directoryPart, filePart, rule.origin, rule.target, rule.filePatterns, prefix, suffix);
  }

  lemma {:induction false} FirstRedirectMeaning(
    container: RuleContainer, origin: Path, directoryPart: wstring, filePart: wstring, prefix: wstring, suffix: wstring)
    requires forall rule :: rule in container ==> WellFormedRule(rule, origin)
    requires Normalised(directoryPart) && IsFileName(filePart) && origin <= Key(directoryPart)
    ensures
      var full := Key(FullPath(directoryPart, filePart));
      origin < full &&
      var i := FirstMatch(container, full[|origin|]);
      match FirstRedirect(container, directoryPart, filePart, prefix, suffix)
      case None => i == |container|
      case Some((j, redirected)) =>
        && j == i && i < |container|
        && LeadsTo(redirected, prefix, Key(container[i].target) + full[|origin|..], suffix)
  {
    hide RedirectOriginToTarget, Key, FullPath, LeadsTo, WellFormedRule, Normalised;
    var full := Key(FullPath(directoryPart, filePart));
    FullPathKey(directoryPart, filePart);
    FileNameKey(filePart);
    if container != [] {
      var rule := container[0];
      assert rule in container;
      FirstRedirectMeaning(container[1..], origin, directoryPart, filePart, prefix, suffix);
      RuleRedirectMeaning(rule, origin, directoryPart, filePart, prefix, suffix);
    }
  }

  lemma ManyPiecesHaveBackslash(p: wstring)
    requires Normalised(p) && |Key(p)| >= 2
    ensures BACKSLASH in p
  {
    NormalisedKey(p);
    if BACKSLASH !in p {
      assert BACKSLASH !in Fold(p);
      SplitSingle(Fold(p));
    }
  }

  lemma SplitPath(p: wstring)
    requires Normalised(p) && |Key(p)| >= 2
    ensures
      var at := LastBackslash(p);
      && at >= 0 && Normalised(p[..at]) && IsFileName(p[at + 1..])
      && FullPath(p[..at], p[at + 1..]) == p
      && Key(p[..at]) == Parent(Key(p)) && Key(p[at + 1..]) == [Last(Key(p))]
  {
    var at := LastBackslash(p);
    assert p[0..] == p;
    ManyPiecesHaveBackslash(p);
    SplitAtBackslash(p, at);
    NormalisedConcat(p[..at], p[at + 1..]);
    SplitSingle(p[at + 1..]);
    FileNameKey(p[at + 1..]);
  }

  /** The director's choice on strings is the choice on components. */
  lemma SelectRedirectMeaning(rules: RuleIndex, p: wstring, prefix: wstring, suffix: wstring)
    requires WellFormed(rules) && Normalised(p) && SelectRules(rules, p).Some?
    ensures
      var container := SelectRules(rules, p).value;
      container != [] &&
      match SelectRedirect(container, p, prefix, suffix)
      case None => ChooseRule(rules, Key(p)) == None
      case Some((i, redirected)) =>
        ChooseRule(rules, Key(p)).Some? &&
        var c := ChooseRule(rules, Key(p)).value;
        && i == c.index && container == rules[c.origin] && c.origin <= Key(p)
        && LeadsTo(redirected, prefix, RedirectedPath(rules, Key(p), c), suffix)
  {
    LongestPrefixIsLongest(rules, Key(p));
    var k := LongestPrefixKey(rules, Key(p)).value;
    var container := rules[k];
    var rule := container[0];
    assert rule in container && WellFormedRule(rule, k);
    CompareAgrees(p, rule.origin);
    if Key(p) == k {
      RuleRedirectMeaning(rule, k, p, [], prefix, suffix);
    } else {
      SplitPath(p);
      var at := LastBackslash(p);
      assert k <= Parent(Key(p));
      FirstRedirectMeaning(container, k, p[..at], p[at + 1..], prefix, suffix);
    }
  }

  // ---------- The whole file-operation decision ----------

  predicate IsSuffix(s: wstring) {
    s in {[], [BACKSLASH]}
  }

  /** A trimmed path the director looks at: no stray backslashes, and a drive letter in front. */
  predicate IsQueryPath(p: wstring) {
    Normalised(p) && BeginsWithDriveLetter(p)
  }

  lemma QueryPathHasParent(p: wstring)
    requires IsQueryPath(p)
    ensures |Key(p)| >= 2 && LastBackslash(p) >= 0
  {
    NormalisedEnds(p);
    PrefixIsRecovered([], p);
    assert [] + p == p;
    SplitAtBackslash(p, 2);
    NormalisedConcat(p[..2], p[3..]);
    NormalisedKey(p[..2]);
    NormalisedKey(p[3..]);
    SplitPath(p);
  }

  lemma LastCharacter(prefix: wstring, p: wstring, suffix: wstring)
    requires Normalised(p) && IsSuffix(suffix)
    ensures
      var path := prefix + p + suffix;
      path != [] && (path[|path| - 1] == BACKSLASH <==> suffix == [BACKSLASH])
  {
    NormalisedEnds(p);
    var path := prefix + p + suffix;
    if suffix == [] {
      assert path[|path| - 1] == p[|p| - 1];
    } else {
      assert path[|path| - 1] == suffix[0];
    }
  }

  lemma FileOperationTrims(
    rules: RuleIndex, fs: Filesystem, prefix: wstring, p: wstring, suffix: wstring, allowsCreate: bool)
    requires IsNamespacePrefix(prefix) && Normalised(p) && IsSuffix(suffix)
    ensures FileOperation(rules, fs, prefix + p + suffix, allowsCreate)
         == TrimmedFileOperation(rules, fs, prefix, p, suffix, allowsCreate)
  {
    FsKeyOfWrapped(prefix, p, suffix);
    LastCharacter(prefix, p, suffix);
  }

  /** What an instruction says when a rule redirects: where to, which files are tried, which name the
      handle gets, and whether existing files are preferred. */
  ghost predicate RedirectsBy(
    op: FileOperationInstruction, rule: FilesystemRule, prefix: wstring, path: Path, suffix: wstring,
    allowsCreate: bool)
  {
    && op.redirectedFilename.Some?
    && LeadsTo(op.redirectedFilename.value, prefix, path, suffix)
    && op.filenameHandleAssociation == UnredirectedName
    && op.filenamesToTry == (if rule.redirectMode == Simple then RedirectedOnly else RedirectedFirst)
    && op.createDispositionPreference ==
         (if rule.redirectMode == Overlay && allowsCreate then PreferOpenExistingFile else NoPreference)
  }

  lemma TrimmedFileOperationMeaning(
    rules: RuleIndex, fs: Filesystem, prefix: wstring, p: wstring, suffix: wstring, allowsCreate: bool)
    requires WellFormed(rules) && IsQueryPath(p) && SelectRules(rules, p).Some?
    ensures
      var op := TrimmedFileOperation(rules, fs, prefix, p, suffix, allowsCreate);
      match ChooseRule(rules, Key(p))
      case None => op == NoRedirectionOrInterception()
      case Some(c) =>
        c.origin <= Key(p)
        && RedirectsBy(op, ChosenRule(rules, c), prefix, RedirectedPath(rules, Key(p), c), suffix, allowsCreate)
  {
    QueryPathHasParent(p);
    SelectRedirectMeaning(rules, p, prefix, suffix);
    var op := TrimmedFileOperation(rules, fs, prefix, p, suffix, allowsCreate);
    var container := SelectRules(rules, p).value;
    match SelectRedirect(container, p, prefix, suffix)
    case None =>
    case Some((i, redirected)) =>
      assert op.redirectedFilename == Some(redirected);
  }

  /** An instruction that does with a path what the choice on components says. */
  ghost predicate ActsAsChosen(
    rules: RuleIndex, op: FileOperationInstruction, prefix: wstring, p: wstring, suffix: wstring, allowsCreate: bool)
  {
    match ChooseRule(rules, Key(p))
    case None =>
      if SelectRules(rules, p) == None && IsPrefixForAnyRule(rules, p)
      then op == InterceptWithoutRedirection(UnredirectedName)
      else op == NoRedirectionOrInterception()
    case Some(c) =>
      c.origin <= Key(p)
      && RedirectsBy(op, ChosenRule(rules, c), prefix, RedirectedPath(rules, Key(p), c), suffix, allowsCreate)
  }

  /** A file operation redirects exactly the paths for which a rule is chosen, to exactly the place
      the choice says, in the way the mode of the chosen rule asks for. */
  lemma FileOperationMeaning(
    rules: RuleIndex, fs: Filesystem, prefix: wstring, p: wstring, suffix: wstring, allowsCreate: bool, path: wstring)
    requires WellFormed(rules) && IsNamespacePrefix(prefix) && IsQueryPath(p) && IsSuffix(suffix)
    requires path == prefix + p + suffix
    ensures ActsAsChosen(rules, FileOperation(rules, fs, path, allowsCreate), prefix, p, suffix, allowsCreate)
  {
    FileOperationTrims(rules, fs, prefix, p, suffix, allowsCreate);
    QueryPathHasParent(p);
    LongestPrefixIsLongest(rules, Key(p));
    if SelectRules(rules, p).Some? {
      TrimmedFileOperationMeaning(rules, fs, prefix, p, suffix, allowsCreate);
    }
  }

  // ---------- The directory that has to exist first ----------

  lemma {:induction false} LastBackslashAfter(a: wstring, b: wstring)
    requires BACKSLASH in b
    ensures LastBackslash(a + b) == |a| + LastBackslash(b)
  {
    var n := |b| - 1;
    assert (a + b)[|a + b| - 1] == b[n] && (a + b)[..|a + b| - 1] == a + b[..n];
    if b[n] != BACKSLASH {
      assert b == b[..n] + [b[n]];
      LastBackslashAfter(a, b[..n]);
    }
  }

  /** A request for a directory whose path on components is known, in the form the hierarchy is created from. */
  predicate AsksFor(operand: wstring, path: Path) {
    && FsKey(operand) == path
    && Normalised(RemoveTrailing(WithoutPrefix(operand))) && Key(RemoveTrailing(WithoutPrefix(operand))) == path
  }

  lemma AsksForBody(prefix: wstring, body: wstring)
    requires IsNamespacePrefix(prefix) && Normalised(body)
    ensures AsksFor(prefix + body, Key(body))
  {
    FsKeyOfWrapped(prefix, body, []);
    assert prefix + body + [] == prefix + body;
  }

  lemma TrimmedRedirected(prefix: wstring, body: wstring, suffix: wstring)
    requires Normalised(body) && IsSuffix(suffix)
    ensures RemoveTrailing(prefix + body + suffix) == prefix + body
  {
    hide RemoveTrailing;
    NormalisedEnds(body);
    var s := prefix + body;
    assert s != [] && s[|s| - 1] == body[|body| - 1];
    TrailingIsRemoved(s, suffix);
  }

  lemma ParentString(prefix: wstring, body: wstring, suffix: wstring)
    requires Normalised(body) && |Key(body)| >= 2 && IsSuffix(suffix)
    ensures LastBackslash(body) >= 0 && Normalised(body[..LastBackslash(body)])
    ensures ParentOfRedirected(prefix + body + suffix) == prefix + body[..LastBackslash(body)]
    ensures Key(body[..LastBackslash(body)]) == Parent(Key(body))
  {
    hide RemoveTrailing, Key, Split, LastBackslash;
    TrimmedRedirected(prefix, body, suffix);
    ManyPiecesHaveBackslash(body);
    LastBackslashAfter(prefix, body);
    SplitPath(body);
    CutAfter(prefix, body, LastBackslash(body));
    TrimmedRedirected(prefix, body[..LastBackslash(body)], []);
  }

  lemma CutAfter(a: wstring, b: wstring, at: nat)
    requires at <= |b|
    ensures (a + b)[..|a| + at] == a + b[..at] == a + b[..at] + []
  {
  }

  lemma ParentOfRedirectedMeaning(prefix: wstring, body: wstring, suffix: wstring)
    requires IsNamespacePrefix(prefix) && Normalised(body) && |Key(body)| >= 2 && IsSuffix(suffix)
    ensures AsksFor(ParentOfRedirected(prefix + body + suffix), Parent(Key(body)))
    ensures AsksFor(RemoveTrailing(prefix + body + suffix), Key(body))
  {
    hide RemoveTrailing, Key, Split, LastBackslash, AsksFor, ParentOfRedirected;
    TrimmedRedirected(prefix, body, suffix);
    ParentString(prefix, body, suffix);
    AsksForBody(prefix, body);
    AsksForBody(prefix, body[..LastBackslash(body)]);
  }

  /** When a directory has to exist before the operation is attempted: for an operation that can create, when the
      application can see the directory in which it would create; otherwise, when it asks for a directory
      that exists on the origin side. */
  ghost predicate NeedsHierarchy(rules: RuleIndex, fs: Filesystem, path: Path, allowsCreate: bool)
    requires path != []
  {
    if allowsCreate then path in rules || Parent(path) in rules || (Parent(path) in fs && fs[Parent(path)] == Directory)
    else path in fs && fs[path] == Directory
  }

  lemma IsDirectoryMeaning(fs: Filesystem, prefix: wstring, p: wstring)
    requires IsNamespacePrefix(prefix) && Normalised(p)
    ensures IsDirectory(fs, prefix + p) <==> Key(p) in fs && fs[Key(p)] == Directory
  {
    FsKeyOfWrapped(prefix, p, []);
    assert prefix + p + [] == prefix + p;
  }

  lemma DirectoryPartMeaning(rules: RuleIndex, p: wstring)
    requires WellFormed(rules) && IsQueryPath(p) && SelectRules(rules, p).Some?
    ensures
      var container := SelectRules(rules, p).value;
      container != [] && Key(p) != [] &&
      var d := DirectoryPartOf(container, p);
      && Normalised(d) && Key(d) == (if Key(p) in rules then Key(p) else Parent(Key(p)))
  {
    hide Key, Split, LastBackslash, BeginsWithDriveLetter;
    QueryPathHasParent(p);
    LongestPrefixIsLongest(rules, Key(p));
    var k := LongestPrefixKey(rules, Key(p)).value;
    var container := rules[k];
    assert WellFormedContainer(container, k) && container[0] in container && WellFormedRule(container[0], k);
    CompareAgrees(p, container[0].origin);
    SplitPath(p);
  }

  /** Which directory is made sure of, once it is known where the path is redirected. */
  lemma EnsureHierarchyMeaning(
    rules: RuleIndex, fs: Filesystem, prefix: wstring, p: wstring, body: wstring, suffix: wstring, allowsCreate: bool)
    requires WellFormed(rules) && IsNamespacePrefix(prefix) && IsQueryPath(p) && IsSuffix(suffix)
    requires SelectRules(rules, p).Some? && Normalised(body) && |Key(body)| >= 2
    ensures
      var container := SelectRules(rules, p).value;
      container != [] && Key(p) != [] &&
      var operand := EnsureHierarchy(
        rules, fs, prefix, p, DirectoryPartOf(container, p), prefix + body + suffix, allowsCreate);
      && (operand.Some? <==> NeedsHierarchy(rules, fs, Key(p), allowsCreate))
      && (operand.Some? ==> AsksFor(operand.value, if allowsCreate then Parent(Key(body)) else Key(body)))
  {
    hide Key, IsDirectory, ParentOfRedirected, RemoveTrailing, DirectoryPartOf, BeginsWithDriveLetter, AsksFor;
    hide SelectRules, WellFormed, LastBackslash, WithoutPrefix;
    DirectoryPartMeaning(rules, p);
    IsDirectoryMeaning(fs, prefix, DirectoryPartOf(SelectRules(rules, p).value, p));
    IsDirectoryMeaning(fs, [], p);
    assert [] + p == p;
    ParentOfRedirectedMeaning(prefix, body, suffix);
  }

  /** Which directory a file operation first makes sure of, and when. */
  lemma PreOperationMeaning(
    rules: RuleIndex, fs: Filesystem, prefix: wstring, p: wstring, suffix: wstring, allowsCreate: bool, path: wstring)
    requires WellFormed(rules) && IsNamespacePrefix(prefix) && IsQueryPath(p) && IsSuffix(suffix)
    requires path == prefix + p + suffix
    ensures
      var operand := FileOperation(rules, fs, path, allowsCreate).ensureHierarchy;
      match ChooseRule(rules, Key(p))
      case None => operand == None
      case Some(c) =>
        && c.origin <= Key(p) && Key(p) != []
        && (operand.Some? <==> NeedsHierarchy(rules, fs, Key(p), allowsCreate))
        && |RedirectedPath(rules, Key(p), c)| >= 2
        && (operand.Some? ==>
              AsksFor(
                operand.value,
                if allowsCreate then Parent(RedirectedPath(rules, Key(p), c)) else RedirectedPath(rules, Key(p), c)))
  {
    hide Key, EnsureHierarchy, SelectRedirect, DirectoryPartOf, BeginsWithDriveLetter, NeedsHierarchy;
    hide AsksFor, LastBackslash, FileOperation, RedirectedPath;
    FileOperationTrims(rules, fs, prefix, p, suffix, allowsCreate);
    QueryPathHasParent(p);
    if SelectRules(rules, p).Some? {
      SelectRedirectMeaning(rules, p, prefix, suffix);
      var container := SelectRules(rules, p).value;
      match SelectRedirect(container, p, prefix, suffix)
      case None =>
      case Some((i, redirected)) =>
        var c := ChooseRule(rules, Key(p)).value;
        var target := RedirectedPath(rules, Key(p), c);
        TargetIsDeep(rules, Key(p), c);
        var body :| Normalised(body) && Key(body) == target && redirected == prefix + body + suffix;
        EnsureHierarchyMeaning(rules, fs, prefix, p, body, suffix, allowsCreate);
    }
  }

  lemma TargetIsDeep(rules: RuleIndex, path: Path, c: Choice)
    requires WellFormed(rules) && c.origin in rules && c.index < |rules[c.origin]| && c.origin <= path
    ensures |RedirectedPath(rules, path, c)| >= 2
  {
    assert ChosenRule(rules, c) in rules[c.origin] && WellFormedRule(ChosenRule(rules, c), c.origin);
  }
}
