/** Instructions the director issues: how to execute one file operation, and how to execute one
    directory enumeration. */
module Instructions {
  import opened Wrappers
  import opened Text
  import opened Rules
  import opened RuleContainers

  // ---------- File operations ----------

  datatype AssociateNameWithHandle = NoName | WhicheverWasSuccessful | UnredirectedName | RedirectedName

  datatype CreateDispositionPreference = NoPreference | PreferCreateNewFile | PreferOpenExistingFile

  datatype TryFiles = UnredirectedOnly | UnredirectedFirst | RedirectedFirst | RedirectedOnly

  /** `ensureHierarchy` is the operand of the one extra pre-operation there is, when it is wanted. */
  datatype FileOperationInstruction = FileOperationInstruction(
    redirectedFilename: Option<wstring>,
    filenamesToTry: TryFiles,
    createDispositionPreference: CreateDispositionPreference,
    filenameHandleAssociation: AssociateNameWithHandle,
    ensureHierarchy: Option<wstring>)

  function NoRedirectionOrInterception(): FileOperationInstruction {
    FileOperationInstruction(None, UnredirectedOnly, NoPreference, NoName, None)
  }

  function InterceptWithoutRedirection(association: AssociateNameWithHandle): FileOperationInstruction {
    FileOperationInstruction(None, UnredirectedOnly, NoPreference, association, None)
  }

  function SimpleRedirectTo(redirected: wstring, association: AssociateNameWithHandle, ensureHierarchy: Option<wstring>)
    : FileOperationInstruction
  {
    FileOperationInstruction(Some(redirected), RedirectedOnly, NoPreference, association, ensureHierarchy)
  }

  function OverlayRedirectTo(
    redirected: wstring, association: AssociateNameWithHandle, preference: CreateDispositionPreference,
    ensureHierarchy: Option<wstring>)
    : FileOperationInstruction
  {
    FileOperationInstruction(Some(redirected), RedirectedFirst, preference, association, ensureHierarchy)
  }

  /** The file names an instruction has the executor try, in order. */
  function FilesToTry(op: FileOperationInstruction, unredirected: wstring): seq<wstring> {
    match op.redirectedFilename
    case None => [unredirected]
    case Some(redirected) =>
      match op.filenamesToTry
      case UnredirectedOnly => [unredirected]
      case UnredirectedFirst => [unredirected, redirected]
      case RedirectedFirst => [redirected, unredirected]
      case RedirectedOnly => [redirected]
  }

  // ---------- Directory enumerations ----------

  datatype DirectoryPathSource =
    | NoDirectory
    | AssociatedPath
    | RealOpenedPath
    | FilePatternSourceOriginDirectory
    | FilePatternSourceTargetDirectory

  datatype FilePatternMatchCondition =
    | SingleRuleOnly
    | MatchAny
    | MatchByRedirectModeInvertOverlay
    | MatchByPositionInvertAllPriorToSelected

  datatype FilePatternSource = NoSource | SingleRule(rule: FilesystemRule) | MultipleRules(rules: RuleContainer)

  /** The largest rule index; it stands for "look at all rules". */
  const ALL_RULES: nat := 255

  datatype SingleDirectoryEnumeration = SingleDirectoryEnumeration(
    directoryPathSource: DirectoryPathSource,
    filePatternSource: FilePatternSource,
    invertMatches: bool,
    condition: FilePatternMatchCondition,
    ruleIndex: nat)
  {
    /** The condition says which member of the pattern-source union is meant, and a directory path
        taken from a rule needs a rule to take it from. */
    predicate Valid() {
      && (condition == SingleRuleOnly <==> !filePatternSource.MultipleRules?)
      && (directoryPathSource in {FilePatternSourceOriginDirectory, FilePatternSourceTargetDirectory} ==>
            && filePatternSource != NoSource
            && (filePatternSource.MultipleRules? ==> ruleIndex < |filePatternSource.rules|))
    }

    function SelectDirectoryPath(associatedPath: wstring, realOpenedPath: wstring): wstring
      requires Valid()
    {
      match directoryPathSource
      case NoDirectory => []
      case AssociatedPath => associatedPath
      case RealOpenedPath => realOpenedPath
      case FilePatternSourceOriginDirectory =>
        if filePatternSource.SingleRule? then filePatternSource.rule.origin
        else filePatternSource.rules[ruleIndex].origin
      case FilePatternSourceTargetDirectory =>
        if filePatternSource.SingleRule? then filePatternSource.rule.target
        else filePatternSource.rules[ruleIndex].target
    }

    predicate ShouldInclude(fileName: wstring)
      requires Valid()
    {
      match filePatternSource
      case NoSource => true
      case SingleRule(rule) => Matches(rule, fileName) != invertMatches
      case MultipleRules(rules) =>
        var found := FirstMatchUpTo(rules, fileName, ruleIndex);
        match found
        case None => invertMatches
        case Some(i) =>
          match condition
          case MatchByRedirectModeInvertOverlay =>
            if rules[i].redirectMode == Overlay then invertMatches else !invertMatches
          case MatchByPositionInvertAllPriorToSelected =>
            if i == ruleIndex then !invertMatches else invertMatches
          case _ => !invertMatches
    }
  }

  function IncludeAllFilenames(source: DirectoryPathSource): SingleDirectoryEnumeration {
    SingleDirectoryEnumeration(source, NoSource, false, SingleRuleOnly, 0)
  }

  function IncludeOnlyMatching(source: DirectoryPathSource, rule: FilesystemRule): SingleDirectoryEnumeration {
    SingleDirectoryEnumeration(source, SingleRule(rule), false, SingleRuleOnly, 0)
  }

  function IncludeAllExceptMatching(source: DirectoryPathSource, rule: FilesystemRule): SingleDirectoryEnumeration {
    SingleDirectoryEnumeration(source, SingleRule(rule), true, SingleRuleOnly, 0)
  }

  function IncludeFirstMatchAt(source: DirectoryPathSource, rules: RuleContainer, index: nat)
    : SingleDirectoryEnumeration
  {
    SingleDirectoryEnumeration(source, MultipleRules(rules), false, MatchByPositionInvertAllPriorToSelected, index)
  }

  function IncludeUnlessHidden(source: DirectoryPathSource, rules: RuleContainer): SingleDirectoryEnumeration {
    SingleDirectoryEnumeration(source, MultipleRules(rules), true, MatchByRedirectModeInvertOverlay, ALL_RULES)
  }

  /** `namesToInsert` holds the rules whose origin-directory names are to be inserted. */
  datatype DirectoryEnumerationInstruction = DirectoryEnumerationInstruction(
    directories: seq<SingleDirectoryEnumeration>,
    namesToInsert: Option<seq<FilesystemRule>>)

  function PassThroughUnmodifiedQuery(): DirectoryEnumerationInstruction {
    DirectoryEnumerationInstruction([IncludeAllFilenames(RealOpenedPath)], None)
  }
}
