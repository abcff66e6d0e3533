/** The director: which rules apply to a path, how to execute a file operation, and how to execute a
    directory enumeration. */
module Directors {
  import opened Wrappers
  import opened Text
  import opened Rules
  import opened RuleContainers
  import opened PrefixTrees
  import opened Filesystems
  import opened Instructions

  /** Rules by the path of their origin directory: what the director's tree contains. */
  type RuleIndex = map<Path, RuleContainer>

  ghost predicate WellFormedRule(rule: FilesystemRule, origin: Path) {
    && Normalised(rule.origin) && Normalised(rule.target)
    && Key(rule.origin) == origin
    && |origin| >= 2 && |Key(rule.target)| >= 2
  }

  ghost predicate WellFormedContainer(container: RuleContainer, origin: Path) {
    && 0 < |container| <= MAXIMUM_RULE_COUNT
    && forall rule :: rule in container ==> WellFormedRule(rule, origin)
  }

  ghost predicate WellFormed(rules: RuleIndex) {
    forall p :: p in rules ==> WellFormedContainer(rules[p], p)
  }

  ghost predicate IsRule(rules: RuleIndex, origin: Path, index: nat) {
    origin in rules && index < |rules[origin]|
  }

  /** What the builder guarantees about the target directory of rule `(k, i)` with respect to rule
      `(l, j)`: it is never below the other origin, and for two different rules it is neither the
      other origin nor at or below the other target. */
  ghost predicate TargetApart(rules: RuleIndex, k: Path, i: nat, l: Path, j: nat)
    requires IsRule(rules, k, i) && IsRule(rules, l, j)
  {
    var target := Key(rules[k][i].target);
    && !(l < target)
    && (k != l || i != j ==> l != target && !(Key(rules[l][j].target) <= target))
  }

  /** Rule sets a successful build produces, as far as the director relies on it. */
  ghost predicate Accepted(rules: RuleIndex) {
    && WellFormed(rules)
    && forall k, i: nat, l, j: nat :: IsRule(rules, k, i) && IsRule(rules, l, j) ==> TargetApart(rules, k, i, l, j)
  }

  lemma AcceptedRulesAreWellFormed(rules: RuleIndex)
    requires Accepted(rules)
    ensures WellFormed(rules)
  {
  }

  // ---------- Selecting rules ----------

  function SelectRules(rules: RuleIndex, absolutePath: wstring): (r: Option<RuleContainer>)
  {
    match LongestPrefixKey(rules, Key(absolutePath))
    case None => None
    case Some(key) => if key in rules then Some(rules[key]) else None
  }

  predicate IsTargetOf(rule: FilesystemRule, redirectedPath: wstring) {
    DirectoryCompare(redirectedPath, rule.target) in {Equal, CandidateIsChild, CandidateIsDescendant}
  }

  /** The first rule whose target directory contains the path. */
  function IdentifyRule(container: RuleContainer, redirectedPath: wstring): (r: Option<nat>)
    ensures r.Some? ==> r.value < |container|
  {
    if container == [] then None
    else if IsTargetOf(container[0], redirectedPath) then Some(0)
    else
      match IdentifyRule(container[1..], redirectedPath)
      case None => None
      case Some(i) => Some(i + 1)
  }

  /** The first rule that redirects the path, and where to. */
  function FirstRedirect(
    container: RuleContainer, directoryPart: wstring, filePart: wstring, prefix: wstring, suffix: wstring)
    : (r: Option<(nat, wstring)>)
    ensures r.Some? ==> r.value.0 < |container|
  {
    if container == [] then None
    else
      match RedirectOriginToTarget(container[0], directoryPart, filePart, prefix, suffix)
      case Some(redirected) => Some((0, redirected))
      case None =>
        match FirstRedirect(container[1..], directoryPart, filePart, prefix, suffix)
        case None => None
        case Some((i, redirected)) => Some((i + 1, redirected))
  }

  // ---------- File operations ----------

  ghost predicate IsPrefixForAnyRule(rules: RuleIndex, path: wstring) {
    exists k :: k in rules && Key(path) <= k
  }

  function ParentOfRedirected(redirected: wstring): wstring {
    var at := LastBackslash(RemoveTrailing(redirected));
    RemoveTrailing(if at == -1 then redirected else redirected[..at])
  }

  function EnsureHierarchy(
    rules: RuleIndex, fs: Filesystem, prefix: wstring, trimmed: wstring, directoryPart: wstring,
    redirected: wstring, allowsCreate: bool): Option<wstring>
  {
    if allowsCreate then
      if Key(directoryPart) in rules || IsDirectory(fs, prefix + directoryPart)
      then Some(ParentOfRedirected(redirected)) else None
    else if IsDirectory(fs, trimmed) then Some(RemoveTrailing(redirected)) else None
  }

  function RedirectInstruction(
    mode: RedirectMode, redirected: wstring, ensureHierarchy: Option<wstring>, allowsCreate: bool)
    : FileOperationInstruction
  {
    match mode
    case Simple => SimpleRedirectTo(redirected, UnredirectedName, ensureHierarchy)
    case Overlay =>
      OverlayRedirectTo(redirected, UnredirectedName,
                        if allowsCreate then PreferOpenExistingFile else NoPreference, ensureHierarchy)
  }

  /** The rule a file operation uses, and where it redirects the path: any rule when the path is an
      origin directory, otherwise the first one in whose scope it is. */
  function SelectRedirect(container: RuleContainer, trimmed: wstring, prefix: wstring, suffix: wstring)
    : (r: Option<(nat, wstring)>)
    requires container != []
    ensures r.Some? ==> r.value.0 < |container|
  {
    if DirectoryCompare(trimmed, container[0].origin) == Equal then
      match RedirectOriginToTarget(container[0], trimmed, [], prefix, suffix)
      case None => None
      case Some(redirected) => Some((0, redirected))
    else
      var at := LastBackslash(trimmed);
      if at == -1 then None else FirstRedirect(container, trimmed[..at], trimmed[at + 1..], prefix, suffix)
  }

  function DirectoryPartOf(container: RuleContainer, trimmed: wstring): wstring
    requires container != []
  {
    if DirectoryCompare(trimmed, container[0].origin) == Equal || LastBackslash(trimmed) == -1 then trimmed
    else trimmed[..LastBackslash(trimmed)]
  }

  ghost function FileOperation(rules: RuleIndex, fs: Filesystem, absolutePath: wstring, allowsCreate: bool)
    : FileOperationInstruction
  {
    var suffix := if absolutePath != [] && absolutePath[|absolutePath| - 1] == BACKSLASH then [BACKSLASH] else [];
    TrimmedFileOperation(
      rules, fs, NamespacePrefix(absolutePath), RemoveTrailing(WithoutPrefix(absolutePath)), suffix, allowsCreate)
  }

  ghost function TrimmedFileOperation(
    rules: RuleIndex, fs: Filesystem, prefix: wstring, trimmed: wstring, suffix: wstring, allowsCreate: bool)
    : FileOperationInstruction
  {
    if !BeginsWithDriveLetter(trimmed) || LastBackslash(trimmed) == -1 then NoRedirectionOrInterception()
    else
      match SelectRules(rules, trimmed)
      case None =>
        if IsPrefixForAnyRule(rules, trimmed) then InterceptWithoutRedirection(UnredirectedName)
        else NoRedirectionOrInterception()
      case Some(container) =>
        if container == [] then NoRedirectionOrInterception()
        else
          match SelectRedirect(container, trimmed, prefix, suffix)
          case None => NoRedirectionOrInterception()
          case Some((i, redirected)) =>
            RedirectInstruction(
              container[i].redirectMode, redirected,
              EnsureHierarchy(rules, fs, prefix, trimmed, DirectoryPartOf(container, trimmed), redirected,
                  allowsCreate),
              allowsCreate)
  }

  // ---------- Directory enumerations ----------

  function HasFilePatterns(rule: FilesystemRule): bool {
    rule.filePatterns != []
  }

  function CountMode(rules: RuleContainer, mode: RedirectMode): nat {
    if rules == [] then 0
    else CountMode(rules[..|rules| - 1], mode) + if rules[|rules| - 1].redirectMode == mode then 1 else 0
  }

  predicate HasSimpleCatchAll(rules: RuleContainer) {
    exists rule :: rule in rules && rule.redirectMode == Simple && !HasFilePatterns(rule)
  }

  /** Target-side enumerations for an origin directory. */
  function TargetSide(container: RuleContainer): seq<SingleDirectoryEnumeration> {
    if |container| == 1 then
      [if HasFilePatterns(container[0]) then IncludeOnlyMatching(RealOpenedPath, container[0])
       else IncludeAllFilenames(RealOpenedPath)]
    else seq(|container|, (i: nat) => IncludeFirstMatchAt(FilePatternSourceTargetDirectory, container, i))
  }

  /** Origin-side enumeration for an origin directory, in the simplest form that will do. */
  function OriginSide(container: RuleContainer): seq<SingleDirectoryEnumeration> {
    if CountMode(container, Overlay) == 0 && HasSimpleCatchAll(container) then []
    else if CountMode(container, Simple) > 0 then
      if |container| == 1 then [IncludeAllExceptMatching(AssociatedPath, container[0])]
      else [IncludeUnlessHidden(AssociatedPath, container)]
    else [IncludeAllFilenames(AssociatedPath)]
  }

  function BelowOrigin(rule: FilesystemRule): seq<SingleDirectoryEnumeration> {
    match rule.redirectMode
    case Simple => [IncludeAllFilenames(RealOpenedPath)]
    case Overlay => [IncludeAllFilenames(RealOpenedPath), IncludeAllFilenames(AssociatedPath)]
  }

  /** How a query is classified. The last three alternatives are the internal errors, all of which
      end in passing the query through. */
  datatype EnumerationCase =
    | NotRedirected
    | OriginItself(container: RuleContainer)
    | BelowOriginOf(rule: FilesystemRule)
    | NoRulesForPath
    | NoRuleIdentified
    | InconsistentHierarchy

  function ClassifyEnumeration(rules: RuleIndex, associatedPath: wstring, realOpenedPath: wstring): EnumerationCase {
    if associatedPath == realOpenedPath then NotRedirected
    else
      var unredirected, redirected := WithoutPrefix(associatedPath), WithoutPrefix(realOpenedPath);
      match SelectRules(rules, unredirected)
      case None => NoRulesForPath
      case Some(container) =>
        match IdentifyRule(container, redirected)
        case None => NoRuleIdentified
        case Some(i) =>
          match DirectoryCompare(unredirected, container[0].origin)
          case Equal => OriginItself(container)
          case CandidateIsChild => BelowOriginOf(container[i])
          case CandidateIsDescendant => BelowOriginOf(container[i])
          case _ => InconsistentHierarchy
  }

  predicate IsInternalError(c: EnumerationCase) {
    c in {NoRulesForPath, NoRuleIdentified, InconsistentHierarchy}
  }

  function DirectoriesToEnumerate(c: EnumerationCase): seq<SingleDirectoryEnumeration> {
    match c
    case OriginItself(container) => TargetSide(container) + OriginSide(container)
    case BelowOriginOf(rule) => BelowOrigin(rule)
    case _ => [IncludeAllFilenames(RealOpenedPath)]
  }

  // ---------- Names to insert ----------

  /** The first rule whose target is a real directory, otherwise the first one. */
  function RuleForNameInsertion(container: RuleContainer, fs: Filesystem): FilesystemRule
    requires container != []
  {
    if IsDirectory(fs, container[0].target) || forall rule :: rule in container ==> !IsDirectory(fs, rule.target)
    then container[0]
    else RuleForNameInsertion(container[1..], fs)
  }

  /** Origin directories directly inside a directory. */
  ghost function OriginsInside(rules: RuleIndex, directory: Path): set<Path> {
    set k | k in rules && k != [] && Parent(k) == directory
  }

  ghost predicate SortedByName(list: seq<FilesystemRule>) {
    forall i, j :: 0 <= i < j < |list| ==>
        LessCaseInsensitive(OriginDirectoryName(list[i]), OriginDirectoryName(list[j]))
  }

  /** One rule for each origin directory directly inside, sorted by name. */
  ghost predicate InsertionsFor(rules: RuleIndex, fs: Filesystem, directory: Path, list: seq<FilesystemRule>) {
    && SortedByName(list)
    && (forall k :: k in OriginsInside(rules, directory) && rules[k] != [] ==>
        RuleForNameInsertion(rules[k], fs) in list)
    && (forall rule :: rule in list ==>
          exists k :: k in OriginsInside(rules, directory) && rules[k] != []
              && rule == RuleForNameInsertion(rules[k], fs))
  }
}
