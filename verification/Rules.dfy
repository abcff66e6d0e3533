/** Filesystem rules: directory comparison, file-pattern matching and path redirection on raw
    strings, and what each of them means on path components. */
module Rules {
  import opened Wrappers
  import opened Text

  datatype RedirectMode = Simple | Overlay

  datatype FilesystemRule = FilesystemRule(
    name: wstring,
    redirectMode: RedirectMode,
    origin: wstring,
    target: wstring,
    filePatterns: seq<wstring>)

  datatype DirectoryCompareResult =
    | Equal
    | Unrelated
    | CandidateIsParent
    | CandidateIsChild
    | CandidateIsAncestor
    | CandidateIsDescendant

  // ---------- Directory comparison ----------

  function DirectoryCompare(candidate: wstring, comparison: wstring): DirectoryCompareResult {
    if |candidate| == |comparison| then
      if EqualsCaseInsensitive(candidate, comparison) then Equal else Unrelated
    else if |candidate| < |comparison| then
      if StartsWithCaseInsensitive(comparison, candidate) && comparison[|candidate|] == BACKSLASH then
        if LastBackslash(comparison[|candidate|..]) == 0 then CandidateIsParent else CandidateIsAncestor
      else Unrelated
    else
      if StartsWithCaseInsensitive(candidate, comparison) && candidate[|comparison|] == BACKSLASH then
        if LastBackslash(candidate[|comparison|..]) == 0 then CandidateIsChild else CandidateIsDescendant
      else Unrelated
  }

  /** The same question asked of components. */
  function ComparePaths(candidate: Path, comparison: Path): DirectoryCompareResult {
    if candidate == comparison then Equal
    else if candidate < comparison then
      if |comparison| == |candidate| + 1 then CandidateIsParent else CandidateIsAncestor
    else if comparison < candidate then
      if |candidate| == |comparison| + 1 then CandidateIsChild else CandidateIsDescendant
    else Unrelated
  }

  /** On normalised strings, "starts with, then a backslash" is "proper prefix of components". */
  lemma ProperPrefix(a: wstring, b: wstring)
    requires Normalised(a) && Normalised(b)
    ensures (|b| < |a| && StartsWithCaseInsensitive(a, b) && a[|b|] == BACKSLASH) <==> Key(b) < Key(a)
    ensures Key(b) < Key(a) ==> |b| < |a| && Normalised(a[|b| + 1..]) && Key(a) == Key(b) + Key(a[|b| + 1..])
  {
    NormalisedKey(a);
    NormalisedKey(b);
    if |b| < |a| && StartsWithCaseInsensitive(a, b) && a[|b|] == BACKSLASH {
      SplitAtBackslash(a, |b|);
      assert Fold(a[..|b|]) == Fold(a)[..|b|] == Fold(b);
      NormalisedConcat(a[..|b|], a[|b| + 1..]);
      NormalisedKey(a[|b| + 1..]);
    }
    if Key(b) < Key(a) {
      var rest := Key(a)[|Key(b)|..];
      assert Key(a) == Key(b) + rest;
      JoinConcat(Key(b), rest);
      assert Fold(a)[|b|] == BACKSLASH;
    }
  }

  lemma SplitAtBackslash(a: wstring, at: nat)
    requires at < |a| && a[at] == BACKSLASH
    ensures a == a[..at] + [BACKSLASH] + a[at + 1..]
    ensures Key(a) == Key(a[..at]) + Key(a[at + 1..])
  {
    assert a == a[..at] + [BACKSLASH] + a[at + 1..];
    KeyConcat(a[..at], a[at + 1..]);
  }

  /** A string starting with a backslash has no other one exactly when the rest is one piece. */
  lemma OnlyBackslash(rest: wstring)
    requires Normalised(rest)
    ensures LastBackslash([BACKSLASH] + rest) == 0 <==> |Key(rest)| == 1
  {
    NormalisedKey(rest);
    var s := [BACKSLASH] + rest;
    if LastBackslash(s) == 0 {
      assert s[1..] == rest;
      assert BACKSLASH !in Fold(rest);
      SplitSingle(Fold(rest));
    } else {
      var r := LastBackslash(s);
      assert s[0] in s && s[0..] == s;
      assert rest[r - 1] == BACKSLASH;
      SplitAtBackslash(rest, r - 1);
      NormalisedConcat(rest[..r - 1], rest[r..]);
      NormalisedKey(rest[..r - 1]);
      NormalisedKey(rest[r..]);
    }
  }

  /** The string comparison and the component comparison agree on normalised paths. */
  lemma CompareAgrees(a: wstring, b: wstring)
    requires Normalised(a) && Normalised(b)
    ensures DirectoryCompare(a, b) == ComparePaths(Key(a), Key(b))
  {
    KeyInjective(a, b);
    ProperPrefix(a, b);
    ProperPrefix(b, a);
    if Key(b) < Key(a) {
      OnlyBackslash(a[|b| + 1..]);
      assert a[|b|..] == [BACKSLASH] + a[|b| + 1..];
    } else if Key(a) < Key(b) {
      OnlyBackslash(b[|a| + 1..]);
      assert b[|a|..] == [BACKSLASH] + b[|a| + 1..];
    }
  }

  /** The last component of a rule's origin directory. */
  function OriginDirectoryName(rule: FilesystemRule): wstring {
    rule.origin[LastBackslash(rule.origin) + 1..]
  }

  /** It is spelled as in the origin directory, where it follows the last backslash. */
  lemma OriginNameIsSpelled(rule: FilesystemRule, directory: wstring, name: wstring)
    requires rule.origin == directory + [BACKSLASH] + name && BACKSLASH !in name
    ensures OriginDirectoryName(rule) == name
  {
    LastBackslashAt(directory, name);
    assert rule.origin[|directory| + 1..] == name;
  }

  // ---------- File patterns ----------

  /** The system's wildcard matcher. All that is known about it is that it ignores the case of
      the file name. */
  type WildcardMatcher = m: (wstring, wstring) -> bool |
    forall fileName: wstring, pattern: wstring :: m(fileName, pattern) == m(Fold(fileName), pattern)
    witness (fileName: wstring, pattern: wstring) => true

  const NameInExpression: WildcardMatcher

  predicate FileNameMatchesPattern(fileName: wstring, patternUpperCase: wstring) {
    patternUpperCase == [] || NameInExpression(fileName, patternUpperCase)
  }

  predicate FileNameMatchesAny(fileName: wstring, patterns: seq<wstring>) {
    patterns == [] || exists p :: p in patterns && FileNameMatchesPattern(fileName, p)
  }

  predicate Matches(rule: FilesystemRule, fileName: wstring) {
    FileNameMatchesAny(fileName, rule.filePatterns)
  }

  lemma MatchIgnoresCase(fileName: wstring, patterns: seq<wstring>)
    ensures FileNameMatchesAny(fileName, patterns) == FileNameMatchesAny(Fold(fileName), patterns)
  {
    forall p
      ensures FileNameMatchesPattern(fileName, p) == FileNameMatchesPattern(Fold(fileName), p)
    {
    }
  }

  /** A name matches some patterns together if it matches some of them or the others. */
  lemma PatternsTogether(fileName: wstring, a: seq<wstring>, b: seq<wstring>)
    requires a != [] && b != []
    ensures FileNameMatchesAny(fileName, a + b) <==> FileNameMatchesAny(fileName, a) || FileNameMatchesAny(fileName, b)
  {
    assert forall p :: p in a + b <==> p in a || p in b;
  }

  /** It matches one pattern if the system's matcher says so, and any name matches no patterns at all. */
  lemma OnePattern(fileName: wstring, pattern: wstring)
    ensures FileNameMatchesAny(fileName, [pattern]) <==> pattern == [] || NameInExpression(fileName, pattern)
    ensures FileNameMatchesAny(fileName, [])
  {
    assert pattern in [pattern];
  }

  predicate PatternMatchesEverything(pattern: wstring) {
    forall c :: c in pattern ==> c == ASTERISK
  }

  /** The patterns of a rule that is constructed from some: in upper case, or none at all, which stands for all
      names, if one of them matches everything. */
  predicate Normalises(filePatterns: seq<wstring>, r: seq<wstring>) {
    if exists p :: p in filePatterns && PatternMatchesEverything(p) then r == [] else r == FoldAll(filePatterns)
  }

  /** A pattern is universal if it is nothing but asterisks. */
  lemma UniversalPattern(pattern: wstring)
    ensures PatternMatchesEverything(pattern) <==> pattern == seq(|pattern|, (i: nat) => ASTERISK)
  {
    if PatternMatchesEverything(pattern) {
      assert forall i :: 0 <= i < |pattern| ==> pattern[i] in pattern;
    }
  }

  /** Patterns that a rule is made from let a name through: there are none, one of them is universal, or the system's
      matcher accepts one of them in upper case. */
  predicate PatternsCover(filePatterns: seq<wstring>, fileName: wstring) {
    || filePatterns == []
    || exists p :: p in filePatterns && (PatternMatchesEverything(p) || NameInExpression(fileName, Fold(p)))
  }

  /** The patterns of the rule let exactly these names through. */
  lemma NormalisedPatternsCover(filePatterns: seq<wstring>, r: seq<wstring>, fileName: wstring)
    requires Normalises(filePatterns, r)
    ensures FileNameMatchesAny(fileName, r) <==> PatternsCover(filePatterns, fileName)
  {
    if forall p :: p in filePatterns ==> !PatternMatchesEverything(p) {
      FoldedPatterns(filePatterns, fileName);
    }
  }

  lemma MatchMeaning(rule: FilesystemRule, filePatterns: seq<wstring>)
    requires Normalises(filePatterns, rule.filePatterns)
    ensures forall f :: Matches(rule, f) <==> PatternsCover(filePatterns, f)
  {
    hide PatternsCover, Normalises, FileNameMatchesAny;
    forall f
      ensures Matches(rule, f) <==> PatternsCover(filePatterns, f)
    {
      NormalisedPatternsCover(filePatterns, rule.filePatterns, f);
    }
  }

  lemma {:induction false} FoldedPatterns(filePatterns: seq<wstring>, fileName: wstring)
    requires forall p :: p in filePatterns ==> !PatternMatchesEverything(p)
    ensures FileNameMatchesAny(fileName, FoldAll(filePatterns)) <==> PatternsCover(filePatterns, fileName)
    decreases |filePatterns|
  {
    if filePatterns != [] {
      var first, rest := filePatterns[0], filePatterns[1..];
      assert filePatterns == [first] + rest && first in filePatterns;
      assert first != [] && Fold(first) != [];
      OnePattern(fileName, Fold(first));
      FoldAllCons(first, rest);
      if rest != [] {
        FoldedPatterns(rest, fileName);
        PatternsTogether(fileName, [Fold(first)], FoldAll(rest));
      }
    }
  }

  lemma FoldAllCons(first: wstring, rest: seq<wstring>)
    ensures FoldAll([first] + rest) == [Fold(first)] + FoldAll(rest)
  {
  }

  /** Pattern normalisation done when a rule is constructed: one universal pattern makes the whole
      list universal, which is represented by no patterns at all. */
  method NormalisePatterns(filePatterns: seq<wstring>) returns (r: seq<wstring>)
    ensures Normalises(filePatterns, r)
    ensures (exists p :: p in filePatterns && PatternMatchesEverything(p)) ==> r == []
    ensures (forall p :: p in filePatterns ==> !PatternMatchesEverything(p)) ==> r == FoldAll(filePatterns)
  {
    r := filePatterns;
    var i := 0;
    while i < |filePatterns|
      invariant 0 <= i <= |filePatterns| == |r|
      invariant forall j :: 0 <= j < i ==> !PatternMatchesEverything(filePatterns[j]) && r[j] == Fold(filePatterns[j])
      invariant forall j :: i <= j < |r| ==> r[j] == filePatterns[j]
    {
      if PatternMatchesEverything(r[i]) {
        assert filePatterns[i] in filePatterns;
        return [];
      }
      r := r[i := Fold(r[i])];
      i := i + 1;
    }
  }

  // ---------- Redirection ----------

  /** The file name on which the patterns are consulted: the file part directly inside the source
      directory, otherwise the component of the directory part just below it. */
  function DecidingName(directoryPart: wstring, filePart: wstring, from: wstring): (r: wstring)
    requires |from| <= |directoryPart|
  {
    if |directoryPart| == |from| then filePart
    else
      var below := directoryPart[1 + |from|..];
      below[..FirstBackslash(below)]
  }

  /** A directory part and a file part put back together. */
  function FullPath(directoryPart: wstring, filePart: wstring): wstring {
    if filePart == [] then directoryPart else directoryPart + [BACKSLASH] + filePart
  }

  function RedirectPath(
    directoryPart: wstring,
    filePart: wstring,
    from: wstring,
    to: wstring,
    patterns: seq<wstring>,
    namespacePrefix: wstring,
    extraSuffix: wstring): Option<wstring>
  {
    var inScope := match DirectoryCompare(directoryPart, from)
      case Equal => filePart == [] || FileNameMatchesAny(filePart, patterns)
      case CandidateIsChild => FileNameMatchesAny(DecidingName(directoryPart, filePart, from), patterns)
      case CandidateIsDescendant => FileNameMatchesAny(DecidingName(directoryPart, filePart, from), patterns)
      case _ => false;
    if inScope
    then Some(namespacePrefix + FullPath(to + directoryPart[|from|..], filePart) + extraSuffix)
    else None
  }

  function RedirectOriginToTarget(
    rule: FilesystemRule, directoryPart: wstring, filePart: wstring,
    namespacePrefix: wstring, extraSuffix: wstring): Option<wstring>
  {
    RedirectPath(directoryPart, filePart, rule.origin, rule.target, rule.filePatterns, namespacePrefix, extraSuffix)
  }

  function RedirectTargetToOrigin(
    rule: FilesystemRule, directoryPart: wstring, filePart: wstring,
    namespacePrefix: wstring, extraSuffix: wstring): Option<wstring>
  {
    RedirectPath(directoryPart, filePart, rule.target, rule.origin, rule.filePatterns, namespacePrefix, extraSuffix)
  }

  lemma FullPathKey(directoryPart: wstring, filePart: wstring)
    ensures Key(FullPath(directoryPart, filePart)) == Key(directoryPart) + Key(filePart)
  {
    if filePart != [] {
      KeyConcat(directoryPart, filePart);
    }
  }

  lemma FirstPieceKey(s: wstring)
    requires Normalised(s)
    ensures Fold(s[..FirstBackslash(s)]) == Key(s)[0]
  {
    hide Split, Key, Normalised;
    NormalisedKey(s);
    var at := FirstBackslash(s);
    if at == |s| {
      assert s[..at] == s && BACKSLASH !in Fold(s);
      SplitSingle(Fold(s));
    } else {
      SplitAtBackslash(s, at);
      NormalisedConcat(s[..at], s[at + 1..]);
      NormalisedKey(s[..at]);
      assert BACKSLASH !in Fold(s[..at]);
      SplitSingle(Fold(s[..at]));
    }
  }

  /** Component form of a rule's scope: the directory itself, and whatever lies below a child whose
      name matches the patterns. */
  predicate Covers(from: Path, full: Path, patterns: seq<wstring>) {
    from == full || (from < full && FileNameMatchesAny(full[|from|], patterns))
  }

  lemma RedirectEqual(directoryPart: wstring, filePart: wstring, from: wstring, to: wstring, patterns: seq<wstring>)
    requires Normalised(directoryPart) && Normalised(from) && Normalised(to)
    requires filePart == [] || IsFileName(filePart)
    requires Key(from) == Key(directoryPart)
    ensures
      var full := Key(FullPath(directoryPart, filePart));
      var r := RedirectPath(directoryPart, filePart, from, to, patterns, [], []);
      && (r.Some? <==> Covers(Key(from), full, patterns))
      && (r.Some? ==> r.value == FullPath(to, filePart) && Key(from) <= full && full[|Key(from)|..] == Key(filePart))
  {
    CompareAgrees(directoryPart, from);
    FullPathKey(directoryPart, filePart);
    KeyInjective(directoryPart, from);
    assert to + directoryPart[|from|..] == to;
    if filePart == [] {
      assert Fold(filePart) == [];
    } else {
      FileNameKey(filePart);
      MatchIgnoresCase(filePart, patterns);
    }
  }

  lemma RedirectBelow(directoryPart: wstring, filePart: wstring, from: wstring, to: wstring, patterns: seq<wstring>)
    requires Normalised(directoryPart) && Normalised(from) && Normalised(to)
    requires Key(from) < Key(directoryPart)
    ensures
      |from| < |directoryPart| &&
      var full := Key(FullPath(directoryPart, filePart));
      var below := directoryPart[|from| + 1..];
      var r := RedirectPath(directoryPart, filePart, from, to, patterns, [], []);
      && Normalised(below)
      && (r.Some? <==> Covers(Key(from), full, patterns))
      && (r.Some? ==>
            && r.value == FullPath(to + [BACKSLASH] + below, filePart)
            && full == Key(from) + (Key(below) + Key(filePart)))
  {
    ProperPrefix(directoryPart, from);
    var below := directoryPart[|from| + 1..];
    NormalisedKey(below);
    assert directoryPart[|from|..] == [BACKSLASH] + below;
    assert to + directoryPart[|from|..] == to + [BACKSLASH] + below;
    var full := Key(FullPath(directoryPart, filePart));
    FullPathKey(directoryPart, filePart);
    assert full == Key(from) + (Key(below) + Key(filePart));
    var name := DecidingName(directoryPart, filePart, from);
    assert Fold(name) == full[|Key(from)|]
        && FileNameMatchesAny(name, patterns) == FileNameMatchesAny(Fold(name), patterns) by {
      FirstPieceKey(below);
      MatchIgnoresCase(name, patterns);
    }
    assert DirectoryCompare(directoryPart, from) in {CandidateIsChild, CandidateIsDescendant} by {
      CompareAgrees(directoryPart, from);
    }
  }

  /** When a redirection happens, and where it leads, in terms of components: the source directory
      must be a prefix, the component just below it must match the patterns, and the prefix is
      replaced by the destination directory while everything below it is kept. */
  lemma RedirectMeaning(directoryPart: wstring, filePart: wstring, from: wstring, to: wstring, patterns: seq<wstring>)
    requires Normalised(directoryPart) && Normalised(from) && Normalised(to)
    requires filePart == [] || IsFileName(filePart)
    ensures
      var full := Key(FullPath(directoryPart, filePart));
      var r := RedirectPath(directoryPart, filePart, from, to, patterns, [], []);
      && (r.Some? <==> Key(from) <= Key(directoryPart) && Covers(Key(from), full, patterns))
      && (r.Some? ==> Key(from) <= full && Normalised(r.value) && Key(r.value) == Key(to) + full[|Key(from)|..])
  {
    hide Key, Split, Normalised, Covers, FileNameMatchesAny;
    CompareAgrees(directoryPart, from);
    if filePart != [] { FileNameKey(filePart); }
    if Key(directoryPart) == Key(from) {
      RedirectEqual(directoryPart, filePart, from, to, patterns);
      FullPathKey(to, filePart);
      NormalisedConcat(to, filePart);
    } else if Key(from) < Key(directoryPart) {
      RedirectBelow(directoryPart, filePart, from, to, patterns);
      var below := directoryPart[|from| + 1..];
      KeyConcat(to, below);
      NormalisedConcat(to, below);
      FullPathKey(to + [BACKSLASH] + below, filePart);
      NormalisedConcat(to + [BACKSLASH] + below, filePart);
    }
  }

  /** The scope of a rule in terms of the patterns it was made from: its origin directory, and whatever lies below a
      name directly inside that one of the patterns lets through. */
  lemma ScopeOfRule(rule: FilesystemRule, filePatterns: seq<wstring>, directoryPart: wstring, filePart: wstring)
    requires Normalises(filePatterns, rule.filePatterns)
    requires Normalised(directoryPart) && Normalised(rule.origin) && Normalised(rule.target)
    requires filePart == [] || IsFileName(filePart)
    ensures
      var full, origin := Key(FullPath(directoryPart, filePart)), Key(rule.origin);
      RedirectOriginToTarget(rule, directoryPart, filePart, [], []).Some? <==>
      origin <= Key(directoryPart) && (origin == full || (origin < full && PatternsCover(filePatterns, full[|origin|])))
  {
    hide Key, Split, Normalised, FileNameMatchesAny, PatternsCover, Normalises, RedirectPath;
    RedirectMeaning(directoryPart, filePart, rule.origin, rule.target, rule.filePatterns);
    var full, origin := Key(FullPath(directoryPart, filePart)), Key(rule.origin);
    if origin < full {
      NormalisedPatternsCover(filePatterns, rule.filePatterns, full[|origin|]);
    }
  }

  /** Prefix and suffix are only ever wrapped around the redirected path. */
  lemma RedirectWraps(
    directoryPart: wstring, filePart: wstring, from: wstring, to: wstring, patterns: seq<wstring>,
    namespacePrefix: wstring, extraSuffix: wstring)
    ensures
      var plain := RedirectPath(directoryPart, filePart, from, to, patterns, [], []);
      var wrapped := RedirectPath(directoryPart, filePart, from, to, patterns, namespacePrefix, extraSuffix);
      && (wrapped.Some? <==> plain.Some?)
      && (plain.Some? ==> wrapped.value == namespacePrefix + plain.value + extraSuffix)
  {
    if RedirectPath(directoryPart, filePart, from, to, patterns, [], []).Some? {
      var body := FullPath(to + directoryPart[|from|..], filePart);
      assert [] + body + [] == body;
    }
  }

  lemma CompareDependsOnTail(tail: wstring, from: wstring, prefix: wstring)
    requires Fold(prefix) == Fold(from)
    ensures DirectoryCompare(prefix + tail, from) ==
            if tail == [] then Equal
            else if tail[0] != BACKSLASH then Unrelated
            else if LastBackslash(tail) == 0 then CandidateIsChild else CandidateIsDescendant
    ensures (prefix + tail)[|from|..] == tail
  {
    FoldConcat(prefix, tail);
  }

  /** The scope test sees only what lies below the source directory. */
  lemma ScopeDependsOnTail(tail: wstring, filePart: wstring, from: wstring, to: wstring, patterns: seq<wstring>,
    prefix: wstring)
    requires Fold(prefix) == Fold(from)
    requires RedirectPath(prefix + tail, filePart, from, to, patterns, [], []).Some?
    ensures RedirectPath(prefix + tail, filePart, from, to, patterns, [], []) == Some(FullPath(to + tail, filePart))
    ensures RedirectPath(to + tail, filePart, to, from, patterns, [], []) == Some(FullPath(from + tail, filePart))
  {
    hide DirectoryCompare, FileNameMatchesAny, Fold;
    CompareDependsOnTail(tail, from, prefix);
    CompareDependsOnTail(tail, to, to);
    if tail != [] {
      assert (prefix + tail)[1 + |from|..] == tail[1..] == (to + tail)[1 + |to|..];
      assert DecidingName(prefix + tail, filePart, from) == DecidingName(to + tail, filePart, to);
    }
    assert [] + FullPath(from + tail, filePart) + [] == FullPath(from + tail, filePart);
    assert [] + FullPath(to + tail, filePart) + [] == FullPath(to + tail, filePart);
  }

  /** Redirecting to the target and back is possible for every path that was redirected, and
      changes at most the case of the origin-directory prefix. It gives back the original string
      exactly when that prefix was spelled as the rule spells it. */
  lemma RedirectRoundTrip(rule: FilesystemRule, directoryPart: wstring, filePart: wstring)
    requires RedirectOriginToTarget(rule, directoryPart, filePart, [], []).Some?
    ensures
      var tail := directoryPart[|rule.origin|..];
      var there := RedirectOriginToTarget(rule, directoryPart, filePart, [], []);
      var back := RedirectTargetToOrigin(rule, rule.target + tail, filePart, [], []);
      && there.value == FullPath(rule.target + tail, filePart)
      && back.Some?
      && Fold(back.value) == Fold(FullPath(directoryPart, filePart))
      && (back.value == FullPath(directoryPart, filePart) <==> directoryPart[..|rule.origin|] == rule.origin)
  {
    var n := |rule.origin|;
    var prefix, tail := directoryPart[..n], directoryPart[n..];
    assert directoryPart == prefix + tail;
    assert Fold(prefix) == Fold(rule.origin) by {
      assert Fold(prefix) == Fold(directoryPart)[..n];
    }
    ScopeDependsOnTail(tail, filePart, rule.origin, rule.target, rule.filePatterns, prefix);
    SamePathUpToPrefix(rule.origin, prefix, tail, filePart);
  }

  lemma SamePathUpToPrefix(a: wstring, b: wstring, tail: wstring, filePart: wstring)
    requires Fold(a) == Fold(b)
    ensures Fold(FullPath(a + tail, filePart)) == Fold(FullPath(b + tail, filePart))
    ensures FullPath(a + tail, filePart) == FullPath(b + tail, filePart) <==> b == a
  {
    var end := if filePart == [] then tail else tail + [BACKSLASH] + filePart;
    assert FullPath(a + tail, filePart) == a + end && FullPath(b + tail, filePart) == b + end;
    FoldConcat(a, end);
    FoldConcat(b, end);
    assert (a + end)[..|a|] == a && (b + end)[..|a|] == b;
  }
}
