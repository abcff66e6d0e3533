/** Concrete configurations in which the program does not do what one may expect of it. Each shows that a condition
    in a general result is needed. */
module Scenarios {
  import opened Wrappers
  import opened Text
  import opened NtStatuses
  import opened FileInformation
  import opened Rules
  import opened PrefixTrees
  import opened Filesystems
  import opened Instructions
  import opened Directors
  import opened Redirections
  import opened Agreement
  import opened Listing
  import opened Streams
  import opened NameInsertionQueues
  import opened EnumerationQueues
  import opened OperationQueues
  import opened QueueCreation
  import opened Volumes
  import opened DirectoryHierarchies
  import opened EndToEnd
  import opened DirectoryViews
  import opened NewFiles
  import Enumerations
  import Executors

  // ---------- Places ----------

  function Inside(directory: wstring, name: wstring): wstring {
    directory + [BACKSLASH] + name
  }

  const DRIVE: wstring := Wide("C:")
  const NAME: wstring := Wide("file")

  /** The directory that the rule is about, and where its contents really are. */
  const ORIGIN: wstring := Inside(DRIVE, Wide("O"))
  const ABOVE_TARGET: wstring := Inside(DRIVE, Wide("TT"))
  const TARGET: wstring := Inside(ABOVE_TARGET, Wide("TTT"))

  lemma InsideKey(directory: wstring, name: wstring)
    requires Normalised(directory) && IsFileName(name)
    ensures Normalised(Inside(directory, name)) && Key(Inside(directory, name)) == Extend(Key(directory), Fold(name))
  {
    NormalisedConcat(directory, name);
    FileNameKey(name);
    KeyConcat(directory, name);
  }

  lemma DriveKey()
    ensures Normalised(DRIVE) && Key(DRIVE) == [Fold(DRIVE)]
    ensures IsFileName(NAME) && IsRealName(NAME) && |Fold(NAME)| == 4
  {
    assert DRIVE == [67, 58] && NAME == [102, 105, 108, 101];
    FileNameKey(DRIVE);
  }

  lemma OnDrive(name: wstring)
    requires IsFileName(name)
    ensures IsQueryPath(Inside(DRIVE, name)) && Key(Inside(DRIVE, name)) == [Fold(DRIVE), Fold(name)]
    ensures HasDriveLetterPrefix(Inside(DRIVE, name))
  {
    DriveKey();
    InsideKey(DRIVE, name);
    var p := Inside(DRIVE, name);
    assert p[0] == 67 && p[1] == 58 && p[2] == BACKSLASH;
    PrefixIsRecovered([], p);
    assert [] + p == p;
  }

  lemma DeeperQueryPath(directory: wstring, name: wstring)
    requires IsQueryPath(directory) && IsFileName(name) && HasDriveLetterPrefix(directory)
    ensures IsQueryPath(Inside(directory, name)) && HasDriveLetterPrefix(Inside(directory, name))
    ensures Key(Inside(directory, name)) == Extend(Key(directory), Fold(name))
  {
    InsideKey(directory, name);
    InsideQueryPath(directory, name);
  }

  const D: wstring := Fold(DRIVE)
  const O: wstring := Fold(Wide("O"))
  const TT: wstring := Fold(Wide("TT"))
  const TTT: wstring := Fold(Wide("TTT"))

  lemma Places()
    ensures IsQueryPath(ORIGIN) && Key(ORIGIN) == [D, O] && HasDriveLetterPrefix(ORIGIN)
    ensures IsQueryPath(ABOVE_TARGET) && Key(ABOVE_TARGET) == [D, TT] && HasDriveLetterPrefix(ABOVE_TARGET)
    ensures IsQueryPath(TARGET) && Key(TARGET) == [D, TT, TTT] && HasDriveLetterPrefix(TARGET)
    ensures |O| == 1 && |TT| == 2 && |TTT| == 3 && IsFileName(Wide("TTT"))
  {
    assert Wide("O") == [79] && Wide("TT") == [84, 84] && Wide("TTT") == [84, 84, 84];
    OnDrive(Wide("O"));
    OnDrive(Wide("TT"));
    DeeperQueryPath(ABOVE_TARGET, Wide("TTT"));
    assert Extend([D, TT], TTT) == [D, TT, TTT];
  }

  // ---------- One Overlay rule ----------

  const RULE: FilesystemRule := FilesystemRule(Wide("rule"), Overlay, ORIGIN, TARGET, [])

  ghost function Configuration(): RuleIndex {
    map[Key(ORIGIN) := [RULE]]
  }

  lemma ConfigurationIsAccepted()
    ensures Accepted(Configuration()) && WellFormed(Configuration())
  {
    hide Key, Normalised, BeginsWithDriveLetter, Accepted, Fold, Wide, Inside;
    Places();
    assert WellFormedRule(RULE, Key(ORIGIN));
    SingleRuleIsAccepted(RULE);
    assert [D, TT, TTT][1] == TT != O == [D, O][1];
    assert Accepted(Configuration());
    AcceptedRulesAreWellFormed(Configuration());
  }

  /** Everything at and below the origin directory is redirected by the rule. */
  lemma RuleIsChosen(path: Path)
    requires [D, O] <= path
    ensures ChooseRule(Configuration(), path) == Some(Choice([D, O], 0))
    ensures RedirectedPath(Configuration(), path, Choice([D, O], 0)) == [D, TT, TTT] + path[2..]
  {
    hide Key, Wide, Fold, Inside;
    Places();
    LongestPrefixIsLongest(Configuration(), path);
    assert Key(ORIGIN) in Configuration();
  }

  /** Both sides are tried, the target side first. */
  lemma BothSidesAreTried(path: Path)
    requires [D, O] <= path
    ensures PathsToTry(Configuration(), path) == [[D, TT, TTT] + path[2..], path]
  {
    RuleIsChosen(path);
  }

  lemma RuleIsOverlay()
    ensures [D, O] in Configuration() && Configuration()[[D, O]] == [RULE]
  {
    Places();
  }

  lemma CreatesThroughRule(fs: Filesystem, p: wstring)
    requires IsQueryPath(p) && [D, O] <= Key(p)
    ensures CreatesThrough(Configuration(), fs, [], p, [], Choice([D, O], 0),
        FileOperation(Configuration(), fs, p, true))
    ensures Executors.IsOverlay(FileOperation(Configuration(), fs, p, true))
  {
    hide Key, BeginsWithDriveLetter, Accepted, WellFormed, Fold, FileOperation, ChooseRule, RedirectedPath, FsKey;
    hide Normalised, Configuration, AsksFor, NeedsHierarchy;
    ConfigurationIsAccepted();
    RuleIsChosen(Key(p));
    assert [] + p + [] == p;
    RuleIsOverlay();
    OperandForTarget(
      Configuration(), fs, [], p, [], Choice([D, O], 0), FileOperation(Configuration(), fs, p, true));
  }

  // ---------- What is made sure of first ----------

  lemma SelectsTheRule(p: wstring)
    requires [D, O] <= Key(p)
    ensures SelectRules(Configuration(), p) == Some([RULE])
  {
    hide Key;
    Places();
    LongestPrefixIsLongest(Configuration(), Key(p));
    assert Key(ORIGIN) in Configuration();
  }

  lemma RedirectsOriginItself()
    ensures SelectRedirect([RULE], ORIGIN, [], []) == Some((0, TARGET))
    ensures DirectoryPartOf([RULE], ORIGIN) == ORIGIN
  {
    hide Key, Wide, Inside, DirectoryCompare, Normalised;
    Places();
    CompareAgrees(ORIGIN, ORIGIN);
    RedirectEqual(ORIGIN, [], ORIGIN, TARGET, []);
  }

  lemma RedirectsNameInOrigin()
    ensures
      var p := Inside(ORIGIN, NAME);
      && SelectRedirect([RULE], p, [], []) == Some((0, Inside(TARGET, NAME)))
      && DirectoryPartOf([RULE], p) == ORIGIN && LastBackslash(p) >= 0
  {
    hide Key, Wide, DirectoryCompare, Normalised;
    Places();
    DriveKey();
    var p := Inside(ORIGIN, NAME);
    LastBackslashAt(ORIGIN, NAME);
    assert p[..|ORIGIN|] == ORIGIN && p[|ORIGIN| + 1..] == NAME;
    InsideKey(ORIGIN, NAME);
    CompareAgrees(p, ORIGIN);
    CompareAgrees(ORIGIN, ORIGIN);
    RedirectEqual(ORIGIN, NAME, ORIGIN, TARGET, []);
    assert [RULE][0] == RULE;
  }

  lemma ParentOfInside(directory: wstring, name: wstring)
    requires Normalised(directory) && Key(directory) != [] && IsFileName(name)
    ensures ParentOfRedirected(Inside(directory, name)) == directory
  {
    hide Key, Normalised, RemoveTrailing, LastBackslash, ParentOfRedirected;
    var s := Inside(directory, name);
    InsideKey(directory, name);
    ParentString([], s, []);
    LastBackslashAt(directory, name);
    NothingAround(s);
    NothingAround(directory);
    assert s[..|directory|] == directory;
  }

  lemma NothingAround(s: wstring)
    ensures [] + s + [] == s && [] + s == s
  {
  }

  /** What an operation that can create asks for, at or directly inside the origin directory. */
  lemma OperandOf(fs: Filesystem, p: wstring, redirected: wstring)
    requires IsQueryPath(p) && [D, O] <= Key(p)
    requires SelectRedirect([RULE], p, [], []) == Some((0, redirected)) && DirectoryPartOf([RULE], p) == ORIGIN
    ensures FileOperation(Configuration(), fs, p, true).ensureHierarchy == Some(ParentOfRedirected(redirected))
    ensures FileOperation(Configuration(), fs, p, true).redirectedFilename == Some(redirected)
  {
    hide Key, Wide, SelectRedirect, DirectoryPartOf, SelectRules, ParentOfRedirected, BeginsWithDriveLetter, Inside;
    hide LastBackslash, Normalised, WithoutPrefix, RemoveTrailing, IsDirectory, FileOperation, Fold;
    FileOperationTrims(Configuration(), fs, [], p, [], true);
    NothingAround(p);
    QueryPathHasParent(p);
    SelectsTheRule(p);
    assert Key(ORIGIN) in Configuration();
  }

  lemma OperandForOrigin(fs: Filesystem)
    ensures FileOperation(Configuration(), fs, ORIGIN, true).ensureHierarchy == Some(ABOVE_TARGET)
    ensures FileOperation(Configuration(), fs, ORIGIN, true).redirectedFilename == Some(TARGET)
  {
    hide Key, Wide, SelectRedirect, DirectoryPartOf, BeginsWithDriveLetter, Normalised, FileOperation, Fold;
    Places();
    RedirectsOriginItself();
    OperandOf(fs, ORIGIN, TARGET);
    ParentOfInside(ABOVE_TARGET, Wide("TTT"));
  }

  lemma OperandForName(fs: Filesystem)
    ensures FileOperation(Configuration(), fs, Inside(ORIGIN, NAME), true).ensureHierarchy == Some(TARGET)
  {
    hide Key, Wide, SelectRedirect, DirectoryPartOf, BeginsWithDriveLetter, Normalised, FileOperation, Fold;
    Places();
    DriveKey();
    DeeperQueryPath(ORIGIN, NAME);
    RedirectsNameInOrigin();
    OperandOf(fs, Inside(ORIGIN, NAME), Inside(TARGET, NAME));
    ParentOfInside(TARGET, NAME);
  }

  const NO_REFUSALS: Refusals := (p: Path) => None

  /** Nothing stands in the way of creating a last level. */
  lemma LastLevelCreated(v: Volume, p: Path)
    requires |p| >= 2 && IsRealDirectory(v.files, Parent(p)) && (p in v.files ==> v.files[p] == Directory)
    ensures CreateHierarchy(v, NO_REFUSALS, p).0 == StatusSuccess
    ensures p in v.files ==> CreateHierarchy(v, NO_REFUSALS, p).1 == v
  {
    var n := DeepestDirectory(v.files, p);
    assert p[..|p|] == p && p[..|p| - 1] == Parent(p);
    assert n >= |p| - 1;
    if n == |p| - 1 {
      assert CreateLevels(NtCreate(v, NO_REFUSALS, p, FileOpenIf, true).1, NO_REFUSALS, p, |p|).0 == StatusSuccess;
    }
  }

  lemma TrimmedStays(directory: wstring)
    requires Normalised(directory)
    ensures Trimmed(directory) == directory
  {
    hide RemoveTrailing, NamespacePrefix, Key;
    FsKeyOfWrapped([], directory, []);
    NothingAround(directory);
  }

  lemma PreparedLastLevel(v: Volume, op: FileOperationInstruction, directory: wstring)
    requires op.ensureHierarchy == Some(directory) && IsQueryPath(directory) && HasDriveLetterPrefix(directory)
    requires |Key(directory)| >= 2 && IsRealDirectory(v.files, Parent(Key(directory)))
    requires Key(directory) in v.files ==> v.files[Key(directory)] == Directory
    ensures Executors.Prepared(v, NO_REFUSALS, op).0 == StatusSuccess
    ensures Key(directory) in v.files ==> Executors.Prepared(v, NO_REFUSALS, op).1 == v
  {
    hide Key, CreateHierarchy, HasDriveLetterPrefix, Trimmed;
    TrimmedStays(directory);
    LastLevelCreated(v, Key(directory));
  }

  // ---------- Volumes ----------

  const N: wstring := Fold(NAME)

  function With(fs: Filesystem, p: Path, kind: Kind): Filesystem
    requires HasParent(fs, p) && p !in fs
  {
    fs[p := kind]
  }

  lemma Different()
    ensures |O| == 1 && |TT| == 2 && |TTT| == 3
    ensures [D, O] != [D] && [D, TT] != [D] && [D, O] != [D, TT]
    ensures Parent([D, O]) == [D] && Parent([D, TT]) == [D] && Parent([D, TT, TTT]) == [D, TT]
    ensures Parent([D, O, N]) == [D, O] && [D, O, N] != [D, TT, TTT]
  {
    hide Key;
    Places();
    assert [D, O][1] != [D, TT][1] && [D, O, N][1] != [D, TT, TTT][1];
    assert [D, TT, TTT][..2] == [D, TT] && [D, O, N][..2] == [D, O];
  }

  function OnlyDrive(): Filesystem {
    map[[D] := Directory]
  }

  /** The origin directory is there, and a directory for the target. */
  function WithoutTarget(): Filesystem {
    Different();
    With(With(OnlyDrive(), [D, O], Directory), [D, TT], Directory)
  }

  lemma InWithoutTarget()
    ensures WithoutTarget() == map[[D] := Directory, [D, O] := Directory, [D, TT] := Directory]
  {
    Different();
  }

  /** So is the target directory. */
  function WithTarget(): Filesystem {
    Different();
    With(WithoutTarget(), [D, TT, TTT], Directory)
  }

  lemma InWithTarget()
    ensures
      WithTarget() ==
      map[[D] := Directory, [D, O] := Directory, [D, TT] := Directory, [D, TT, TTT] := Directory]
  {
    Different();
    InWithoutTarget();
  }

  lemma NameInOrigin()
    ensures
      var p := Inside(ORIGIN, NAME);
      && IsQueryPath(p) && Key(p) == FsKey(p) == [D, O, N]
      && ChooseRule(Configuration(), Key(p)) == Some(Choice([D, O], 0)) && [D, O] <= Key(p)
      && RedirectedPath(Configuration(), Key(p), Choice([D, O], 0)) == [D, TT, TTT, N]
      && Parent(Key(p)) == [D, O] && Parent([D, TT, TTT, N]) == [D, TT, TTT]
  {
    hide Key, Wide, FsKey, Fold, BeginsWithDriveLetter, RedirectedPath, HasDriveLetterPrefix;
    Places();
    DriveKey();
    DeeperQueryPath(ORIGIN, NAME);
    var p := Inside(ORIGIN, NAME);
    assert Extend([D, O], N) == [D, O, N];
    RuleIsChosen(Key(p));
    assert [D, O, N][2..] == [N] && [D, TT, TTT] + [N] == [D, TT, TTT, N];
    assert [D, TT, TTT, N][..3] == [D, TT, TTT] && [D, O, N][..2] == [D, O];
    NothingAround(p);
    FsKeyOfWrapped([], p, []);
  }

  // ---------- Create-only under Overlay ----------

  /** A file on the origin side only. */
  function FileOnOriginSide(): Volume {
    Different();
    InWithTarget();
    Volume(With(WithTarget(), [D, O, N], File), map[])
  }

  lemma OnOriginSideOnly()
    ensures
      var files := FileOnOriginSide().files;
      && [D, O, N] in files && [D, TT, TTT, N] !in files
      && DriveExists(files, [D, TT, TTT, N]) && IsRealDirectory(files, [D, TT]) && IsRealDirectory(files, [D, TT, TTT])
      && Parent([D, TT, TTT]) == [D, TT]
  {
    hide Fold, Wide;
    Different();
    InWithTarget();
    assert [D, TT, TTT, N][..1] == [D];
  }

  /** An application that asks for a new file, and nothing else, gets one although it sees a file of that name. */
  lemma CreateOnlySucceedsDespiteOrigin()
    ensures
      var p, v := Inside(ORIGIN, NAME), FileOnOriginSide();
      var op := FileOperation(Configuration(), v.files, p, true);
      var done := Executors.Execute(v, NO_REFUSALS, op, FileCreate, false, p);
      && Accepted(Configuration()) && Executors.IsOverlay(op) && Exists(v.files, p)
      && done.status == StatusSuccess && [D, TT, TTT, N] in done.volume.files
  {
    hide Key, FileOperation, Wide, FsKey, Fold, ChooseRule, Executors.Execute, Executors.Prepared, RedirectedPath;
    hide BeginsWithDriveLetter, Normalised, HasDriveLetterPrefix, Accepted;
    var p, v := Inside(ORIGIN, NAME), FileOnOriginSide();
    var op := FileOperation(Configuration(), v.files, p, true);
    Places();
    NameInOrigin();
    ConfigurationIsAccepted();
    RuleIsOverlay();
    CreatesThroughRule(v.files, p);
    OperandForName(v.files);
    OnOriginSideOnly();
    hide FileOnOriginSide;
    PreparedLastLevel(v, op, TARGET);
    NothingAround(p);
    NewFilesGoToTheTarget(
      Configuration(), v.files, v, NO_REFUSALS, [], p, [], Choice([D, O], 0), op, FileCreate, false);
  }

  // ---------- A directory that stays open as itself ----------

  /** The origin directory exists, the target directory does not. */
  function TargetMissing(): Volume {
    Volume(WithoutTarget(), map[])
  }

  /** Opening the origin directory, or creating it if it does not exist. */
  ghost function OpenedAsItself(): Executors.Execution {
    var v := TargetMissing();
    Executors.Execute(v, NO_REFUSALS, FileOperation(Configuration(), v.files, ORIGIN, true), FileOpenIf, true, ORIGIN)
  }

  /** Creating a file in it afterwards. */
  ghost function CreatedLater(): Executors.Execution {
    var v, p := OpenedAsItself().volume, Inside(ORIGIN, NAME);
    Executors.Execute(v, NO_REFUSALS, FileOperation(Configuration(), v.files, p, true), FileCreate, false, p)
  }

  lemma ExecutedAsChosen(
    v: Volume, op: FileOperationInstruction, disposition: CreateDisposition, directory: bool, p: wstring)
    requires op != NoRedirectionOrInterception() && Executors.Prepared(v, NO_REFUSALS, op) == (StatusSuccess, v)
    requires op.filenameHandleAssociation == UnredirectedName && p != [] && RemoveTrailing(p) == p
    requires Executors.IsOverlay(op) && disposition in {FileOpenIf, FileOverwriteIf, FileSupersede}
    requires !Exists(v.files, op.redirectedFilename.value) && Exists(v.files, p)
    requires NtCreate(v, NO_REFUSALS, FsKey(p), disposition, directory) == (StatusSuccess, v)
    ensures
      Executors.Execute(v, NO_REFUSALS, op, disposition, directory, p)
      == Executors.Execution(StatusSuccess, v, Some((p, p)))
  {
    hide NtCreate, FsKey, Executors.TryInstruction, Executors.Prepared, RemoveTrailing;
    Executors.OverlayOpenOrCreate(v, NO_REFUSALS, op, disposition, directory, p);
  }

  /** An open-or-create of an origin directory whose target does not exist leaves a handle that is on record as
      opened for itself, although a rule redirects the directory. */
  lemma OriginStaysOpenAsItself()
    ensures
      && OpenedAsItself() == Executors.Execution(StatusSuccess, TargetMissing(), Some((ORIGIN, ORIGIN)))
      && ChooseRule(Configuration(), Key(ORIGIN)).Some?
  {
    hide Key, FileOperation, Wide, FsKey, Fold, ChooseRule, Executors.Execute, Executors.Prepared, RedirectedPath;
    hide BeginsWithDriveLetter, Normalised, HasDriveLetterPrefix, RemoveTrailing;
    var v := TargetMissing();
    var op := FileOperation(Configuration(), v.files, ORIGIN, true);
    Places();
    Different();
    InWithoutTarget();
    OriginFacts();
    OperandForOrigin(v.files);
    PreparedLastLevel(v, op, ABOVE_TARGET);
    ExecutedAsChosen(v, op, FileOpenIf, true, ORIGIN);
  }

  lemma OriginFacts()
    ensures ChooseRule(Configuration(), Key(ORIGIN)).Some?
    ensures FsKey(ORIGIN) == [D, O] && FsKey(TARGET) == [D, TT, TTT] && ORIGIN != [] && RemoveTrailing(ORIGIN) == ORIGIN
    ensures
      forall fs: Filesystem ::
        var op := FileOperation(Configuration(), fs, ORIGIN, true);
        Executors.IsOverlay(op) && op.filenameHandleAssociation == UnredirectedName
  {
    hide Key, FileOperation, Wide, FsKey, Fold, ChooseRule, RedirectedPath, BeginsWithDriveLetter, RemoveTrailing;
    Places();
    RuleIsChosen(Key(ORIGIN));
    FsKeyOfWrapped([], ORIGIN, []);
    FsKeyOfWrapped([], TARGET, []);
    NothingAround(ORIGIN);
    NothingAround(TARGET);
    TrimmedRedirected([], ORIGIN, []);
    forall fs: Filesystem
      ensures
        var op := FileOperation(Configuration(), fs, ORIGIN, true);
        Executors.IsOverlay(op) && op.filenameHandleAssociation == UnredirectedName
    {
      CreatesThroughRule(fs, ORIGIN);
      RecordedName(
        Configuration(), fs, [], ORIGIN, [], Choice([D, O], 0), FileOperation(Configuration(), fs, ORIGIN, true));
    }
  }

  /** Whoever then creates a file in the directory creates it in the target directory, which is made for it. The
      handle that is still open does not list the file, although opening it succeeds. */
  lemma CreatedFileIsNotListed()
    ensures
      var p, files := Inside(ORIGIN, NAME), CreatedLater().volume.files;
      && CreatedLater().status == StatusSuccess
      && FirstListing(
          files, DirectoriesToEnumerate(ClassifyEnumeration(Configuration(), ORIGIN, ORIGIN)), ORIGIN, ORIGIN, NAME)
         == None
      && FirstExisting(files, FilesToTry(FileOperation(Configuration(), files, p, false), p)) == Some([D, TT, TTT, N])
  {
    hide Key, FileOperation, Wide, FsKey, Fold, ChooseRule, Executors.Execute, Executors.Prepared, RedirectedPath;
    hide BeginsWithDriveLetter, Normalised, HasDriveLetterPrefix, Accepted, IsLevelOf, ClassifyEnumeration;
    hide FirstListing, FirstExisting, FirstInFs;
    var p := Inside(ORIGIN, NAME);
    var v := OpenedAsItself().volume;
    var op := FileOperation(Configuration(), v.files, p, true);
    OriginStaysOpenAsItself();
    Places();
    Different();
    InWithoutTarget();
    NameInOrigin();
    ConfigurationIsAccepted();
    RuleIsOverlay();
    CreatesThroughRule(v.files, p);
    OperandForName(v.files);
    PreparedLastLevel(v, op, TARGET);
    assert [D, TT, TTT, N][..1] == [D];
    NothingAround(p);
    NewFilesGoToTheTarget(
      Configuration(), v.files, v, NO_REFUSALS, [], p, [], Choice([D, O], 0), op, FileCreate, false);
    var files := CreatedLater().volume.files;
    OriginSideIsUntouched(files);
    NotListed(files);
    OpenedOnTargetSide(files);
  }

  lemma OriginSideIsUntouched(files: Filesystem)
    requires
      forall q :: q in files && q !in WithoutTarget() ==>
        q == [D, TT, TTT, N] || IsLevelOf(Parent([D, TT, TTT, N]), q)
    ensures [D, O, N] !in files
  {
    hide Fold, Wide;
    InWithoutTarget();
    Different();
    assert [D, O, N][1] != [D, TT, TTT, N][1];
    forall n | 0 < n <= 3
      ensures [D, O, N] != Parent([D, TT, TTT, N])[..n]
    {
      if n == 3 {
        assert Parent([D, TT, TTT, N])[..n][1] == TT;
      }
    }
  }

  lemma NotListed(files: Filesystem)
    requires [D, O, N] !in files
    ensures
      FirstListing(
        files, DirectoriesToEnumerate(ClassifyEnumeration(Configuration(), ORIGIN, ORIGIN)), ORIGIN, ORIGIN, NAME)
      == None
  {
    hide Key, Wide, FsKey, Fold;
    OriginFacts();
    UnfilteredListing(files, ORIGIN, ORIGIN, NAME);
    assert Extend([D, O], N) == [D, O, N];
    FirstInFsOfTwo(files, [D, O, N], [D, O, N]);
  }

  lemma OpenedOnTargetSide(files: Filesystem)
    requires [D, TT, TTT, N] in files
    ensures
      var p := Inside(ORIGIN, NAME);
      FirstExisting(files, FilesToTry(FileOperation(Configuration(), files, p, false), p)) == Some([D, TT, TTT, N])
  {
    hide Key, FileOperation, Wide, FsKey, Fold, ChooseRule, RedirectedPath, BeginsWithDriveLetter, Accepted;
    hide FilesToTry, FirstExisting, Normalised;
    var p := Inside(ORIGIN, NAME);
    Places();
    DriveKey();
    ConfigurationIsAccepted();
    NothingAround(ORIGIN);
    assert [] + ORIGIN + [BACKSLASH] + NAME + [] == p;
    FilesInside(Configuration(), files, [], ORIGIN, NAME, [], false, p);
    assert Extend([D, O], N) == [D, O, N] && [D, O] <= [D, O, N];
    BothSidesAreTried([D, O, N]);
    assert [D, O, N][2..] == [N] && [D, TT, TTT] + [N] == [D, TT, TTT, N];
    FirstInFsOfTwo(files, [D, TT, TTT, N], [D, O, N]);
  }

  // ---------- A file on the origin side where the target side has a directory ----------

  const SUB: wstring := Wide("directory")
  const S: wstring := Fold(SUB)

  lemma SubInOrigin()
    ensures
      var p := Inside(ORIGIN, SUB);
      && IsFileName(SUB) && IsQueryPath(p) && Key(p) == FsKey(p) == [D, O, S] && HasDriveLetterPrefix(p)
      && ChooseRule(Configuration(), Key(p)) == Some(Choice([D, O], 0)) && [D, O] <= Key(p)
      && RedirectedPath(Configuration(), Key(p), Choice([D, O], 0)) == [D, TT, TTT, S]
  {
    hide Key, FsKey, Fold, BeginsWithDriveLetter, RedirectedPath, HasDriveLetterPrefix;
    assert SUB == [100, 105, 114, 101, 99, 116, 111, 114, 121];
    Places();
    DeeperQueryPath(ORIGIN, SUB);
    var p := Inside(ORIGIN, SUB);
    assert Extend([D, O], S) == [D, O, S];
    RuleIsChosen(Key(p));
    assert [D, O, S][2..] == [S] && [D, TT, TTT] + [S] == [D, TT, TTT, S];
    NothingAround(p);
    FsKeyOfWrapped([], p, []);
  }

  lemma SubIsNew()
    ensures
      && [D, O, S] !in WithTarget() && [D, TT, TTT, S] != [D, O, S]
      && Parent([D, O, S]) == [D, O] && Parent([D, TT, TTT, S]) == [D, TT, TTT]
      && Parent([D, TT, TTT, S, N]) == [D, TT, TTT, S]
      && [D] != [D, TT, TTT, S] && |[D, TT, TTT, S]| == 4
  {
    hide Fold, Wide;
    Different();
    InWithTarget();
    assert [D, O, S][1] != [D, TT, TTT][1];
    assert [D, TT, TTT, S][..3] == [D, TT, TTT] && [D, O, S][..2] == [D, O];
    assert [D, TT, TTT, S, N][..4] == [D, TT, TTT, S];
  }

  /** In the target directory, a directory with a file in it; in the origin directory, a file of the name of the
      directory. */
  function FileInTheOrigin(): Filesystem {
    SubIsNew();
    InWithTarget();
    With(
      With(With(WithTarget(), [D, O, S], File), [D, TT, TTT, S], Directory),
      [D, TT, TTT, S, N], File)
  }

  /** What an open at or below the origin directory leaves open: what is on the target side. */
  ghost function LeftOpen(fs: Filesystem, p: wstring): wstring {
    RemoveTrailing(FileOperation(Configuration(), fs, p, false).redirectedFilename.GetOr([]))
  }

  ghost function RealSub(): wstring {
    LeftOpen(FileInTheOrigin(), Inside(ORIGIN, SUB))
  }

  /** Opening the directory reaches the one on the target side, and opening the file in it succeeds; but one of the
      two paths that are enumerated for the directory is the file on the origin side, so that by `FailureInTheWay`
      the application is shown nothing but an error. */
  lemma FileHidesDirectory()
    ensures
      var p, fs := Inside(ORIGIN, SUB), FileInTheOrigin();
      var file := Inside(p, NAME);
      && IsHandleFor(Configuration(), fs, [], p, false, RealSub())
      && FirstFailure(
          fs, DirectoriesToEnumerate(ClassifyEnumeration(Configuration(), p, RealSub())), p, RealSub(), [])
          == Some(STATUS_NOT_A_DIRECTORY)
      && FirstExisting(fs, FilesToTry(FileOperation(Configuration(), fs, p, false), p)) == Some([D, TT, TTT, S])
      && FirstExisting(fs, FilesToTry(FileOperation(Configuration(), fs, file, false), file))
          == Some([D, TT, TTT, S, N])
  {
    hide Key, FileOperation, Wide, FsKey, Fold, ChooseRule, BeginsWithDriveLetter, RealSub, FileInTheOrigin;
    hide FilesToTry, FirstExisting, ClassifyEnumeration, FirstFailure, IsHandleFor, DirectoriesToEnumerate;
    InFileInTheOrigin();
    SubIsLeftOpen();
    SubEnumerates(FileInTheOrigin());
    OpensSub(FileInTheOrigin());
    OpensNameInSub(FileInTheOrigin());
  }

  /** However the system cuts its answers and whatever buffers the application uses. */
  lemma NothingShownOfSub(
    layout: Layout, instruction: DirectoryEnumerationInstruction, openings: seq<DirectoryOpening>,
    query: (nat, NameInsertion) -> QueryResult, streams: seq<Stream>, calls: seq<Enumerations.Call>)
    requires
      InstructedFor(
        Configuration(), FileInTheOrigin(), instruction, Inside(ORIGIN, SUB), RealSub(), Key(Inside(ORIGIN, SUB)))
    requires StreamsBehind(layout, instruction, openings, query, [], streams)
    requires
      SystemIsHonest(FileInTheOrigin(), layout, instruction, openings, query, Inside(ORIGIN, SUB), RealSub(), [])
    ensures DeliveredBy(streams, calls) == []
  {
    hide Key, FileOperation, Wide, FsKey, Fold, RealSub, FileInTheOrigin, ClassifyEnumeration, FirstFailure, Inside;
    hide DirectoriesToEnumerate, StreamsBehind, SystemIsHonest, DeliveredBy, Configuration, WellFormed;
    ConfigurationIsAccepted();
    FileHidesDirectory();
    FailureInTheWay(
      Configuration(), FileInTheOrigin(), layout, instruction, openings, query, Inside(ORIGIN, SUB), RealSub(),
      Key(Inside(ORIGIN, SUB)), [], streams, calls, Enumerations.Call(0, false));
  }

  lemma InFileInTheOrigin()
    ensures IsFile(FileInTheOrigin(), [D, O, S]) && !IsFile(FileInTheOrigin(), [D, TT, TTT, S])
    ensures [D, TT, TTT, S] in FileInTheOrigin() && [D, TT, TTT, S, N] in FileInTheOrigin()
  {
    hide Fold, Wide, WithTarget;
    SubIsNew();
    InWithTarget();
  }

  lemma OpensSub(fs: Filesystem)
    requires [D, TT, TTT, S] in fs
    ensures
      var p := Inside(ORIGIN, SUB);
      FirstExisting(fs, FilesToTry(FileOperation(Configuration(), fs, p, false), p)) == Some([D, TT, TTT, S])
  {
    hide Key, FileOperation, Wide, Fold, BeginsWithDriveLetter, FilesToTry, FirstExisting, PathsToTry, Inside;
    hide HasDriveLetterPrefix, FirstInFs;
    Places();
    SubInOrigin();
    OpensInside(fs, ORIGIN, SUB);
    assert Extend([D, O], S) == [D, O, S] && [D, O] <= [D, O, S];
    BothSidesAreTried([D, O, S]);
    assert [D, O, S][2..] == [S] && [D, TT, TTT] + [S] == [D, TT, TTT, S];
    FirstInFsOfTwo(fs, [D, TT, TTT, S], [D, O, S]);
  }

  lemma OpensNameInSub(fs: Filesystem)
    requires [D, TT, TTT, S, N] in fs
    ensures
      var file := Inside(Inside(ORIGIN, SUB), NAME);
      FirstExisting(fs, FilesToTry(FileOperation(Configuration(), fs, file, false), file)) == Some([D, TT, TTT, S, N])
  {
    hide Key, FileOperation, Wide, Fold, BeginsWithDriveLetter, FilesToTry, FirstExisting, PathsToTry, Inside;
    hide HasDriveLetterPrefix, FirstInFs;
    DriveKey();
    SubInOrigin();
    OpensInside(fs, Inside(ORIGIN, SUB), NAME);
    assert Extend([D, O, S], N) == [D, O, S, N] && [D, O] <= [D, O, S, N];
    BothSidesAreTried([D, O, S, N]);
    assert [D, O, S, N][2..] == [S, N] && [D, TT, TTT] + [S, N] == [D, TT, TTT, S, N];
    FirstInFsOfTwo(fs, [D, TT, TTT, S, N], [D, O, S, N]);
  }

  lemma OpensInside(fs: Filesystem, directory: wstring, name: wstring)
    requires IsQueryPath(directory) && IsFileName(name)
    ensures
      var file := Inside(directory, name);
      FirstExisting(fs, FilesToTry(FileOperation(Configuration(), fs, file, false), file))
      == FirstInFs(fs, PathsToTry(Configuration(), Extend(Key(directory), Fold(name))))
  {
    hide Key, FileOperation, Fold, FilesToTry, FirstExisting, PathsToTry, BeginsWithDriveLetter;
    ConfigurationIsAccepted();
    NothingAround(directory);
    assert [] + directory + [BACKSLASH] + name + [] == Inside(directory, name);
    FilesInside(Configuration(), fs, [], directory, name, [], false, Inside(directory, name));
  }

  lemma TargetSideIsLeftOpen(fs: Filesystem, p: wstring)
    requires IsQueryPath(p) && [D, O] <= Key(p)
    ensures IsHandleFor(Configuration(), fs, [], p, false, LeftOpen(fs, p))
    ensures FsKey(LeftOpen(fs, p)) == [D, TT, TTT] + Key(p)[2..]
  {
    hide Key, FileOperation, Wide, FsKey, Fold, ChooseRule, RedirectedPath, BeginsWithDriveLetter, Accepted;
    hide RemoveTrailing, LeadsTo, Normalised, WellFormed;
    ConfigurationIsAccepted();
    RuleIsChosen(Key(p));
    NothingAround(p);
    FileOperationMeaning(Configuration(), fs, [], p, [], false, p);
    assert LeavesOpen(Configuration(), fs, [], p, [], false, LeftOpen(fs, p));
    LeftOpenAt(Configuration(), fs, [], p, [], false, LeftOpen(fs, p));
    LeadKey(LeftOpen(fs, p), [], [D, TT, TTT] + Key(p)[2..], []);
  }

  lemma SubIsLeftOpen()
    ensures IsHandleFor(Configuration(), FileInTheOrigin(), [], Inside(ORIGIN, SUB), false, RealSub())
    ensures FsKey(RealSub()) == [D, TT, TTT, S]
  {
    hide Key, Wide, FsKey, Fold, BeginsWithDriveLetter, LeftOpen, IsHandleFor;
    SubInOrigin();
    TargetSideIsLeftOpen(FileInTheOrigin(), Inside(ORIGIN, SUB));
    assert [D, O, S][2..] == [S] && [D, TT, TTT] + [S] == [D, TT, TTT, S];
  }

  lemma SubEnumerates(fs: Filesystem)
    requires IsFile(fs, [D, O, S]) && !IsFile(fs, [D, TT, TTT, S])
    requires IsHandleFor(Configuration(), FileInTheOrigin(), [], Inside(ORIGIN, SUB), false, RealSub())
    requires FsKey(RealSub()) == [D, TT, TTT, S]
    ensures
      var p := Inside(ORIGIN, SUB);
      FirstFailure(fs, DirectoriesToEnumerate(ClassifyEnumeration(Configuration(), p, RealSub())), p, RealSub(), [])
      == Some(STATUS_NOT_A_DIRECTORY)
  {
    hide Key, FileOperation, Wide, FsKey, Fold, ChooseRule, RedirectedPath, BeginsWithDriveLetter, RealSub, IsHandleFor;
    hide ClassifyEnumeration, Accepted;
    var p := Inside(ORIGIN, SUB);
    ConfigurationIsAccepted();
    SubInOrigin();
    SubIsNew();
    RuleIsOverlay();
    NothingAround(p);
    HandleIsClassified(Configuration(), FileInTheOrigin(), [], p, false, RealSub());
    BothDirectoriesEnumerated(fs, p, RealSub());
  }

  lemma BothDirectoriesEnumerated(fs: Filesystem, associatedPath: wstring, realOpenedPath: wstring)
    requires ClassifyEnumeration(Configuration(), associatedPath, realOpenedPath) == BelowOriginOf(RULE)
    requires IsFile(fs, FsKey(associatedPath)) && |FsKey(associatedPath)| > 1
    requires !IsFile(fs, FsKey(realOpenedPath)) && |FsKey(realOpenedPath)| > 1
    ensures
      FirstFailure(
        fs, DirectoriesToEnumerate(ClassifyEnumeration(Configuration(), associatedPath, realOpenedPath)),
        associatedPath, realOpenedPath, [])
      == Some(STATUS_NOT_A_DIRECTORY)
  {
    hide FsKey, ClassifyEnumeration, Configuration, FailureOf;
    var all := DirectoriesToEnumerate(BelowOriginOf(RULE));
    assert all == [IncludeAllFilenames(RealOpenedPath), IncludeAllFilenames(AssociatedPath)];
    FailsOnlyAtFiles(fs, all[0], associatedPath, realOpenedPath);
    FailsOnlyAtFiles(fs, all[1], associatedPath, realOpenedPath);
    assert all[1..][0] == all[1];
  }

  // ---------- A pattern that nothing on one side matches ----------

  lemma NameIsNew()
    ensures HasParent(WithTarget(), [D, TT, TTT, N]) && [D, TT, TTT, N] !in WithTarget()
  {
    hide Fold, Wide, WithTarget;
    InWithTarget();
    assert [D, TT, TTT, N][..3] == [D, TT, TTT];
  }

  /** A file in the target directory, and an empty origin directory. */
  function FileOnTargetSide(): Filesystem {
    NameIsNew();
    With(WithTarget(), [D, TT, TTT, N], File)
  }

  lemma InFileOnTargetSide()
    ensures
      FileOnTargetSide() ==
      map[[D] := Directory, [D, O] := Directory, [D, TT] := Directory, [D, TT, TTT] := Directory,
          [D, TT, TTT, N] := File]
  {
    hide Fold, Wide, WithTarget;
    Different();
    InWithTarget();
  }

  lemma OriginIsEmpty(n: wstring)
    ensures [D, O] + [n] !in FileOnTargetSide()
    ensures Extend([D, TT, TTT], N) == [D, TT, TTT] + [N] == [D, TT, TTT, N]
  {
    hide Fold, Wide, FileOnTargetSide;
    Different();
    InFileOnTargetSide();
    var p := [D, O] + [n];
    assert |p| == 3 && p[1] == O && [D, TT, TTT][1] == TT;
  }

  /** The name of the file matches the pattern, and the names by which a directory lists itself and its parent do
      not. */
  predicate OnlyFileMatches(filePattern: wstring) {
    && MatchesQuery(filePattern, NAME)
    && !MatchesQuery(filePattern, [PERIOD]) && !MatchesQuery(filePattern, [PERIOD, PERIOD])
  }

  lemma OriginSideFails(filePattern: wstring, associatedPath: wstring, realOpenedPath: wstring)
    requires OnlyFileMatches(filePattern)
    requires FsKey(associatedPath) == [D, O] && FsKey(realOpenedPath) == [D, TT, TTT]
    ensures
      FirstFailure(
        FileOnTargetSide(), [IncludeAllFilenames(RealOpenedPath), IncludeAllFilenames(AssociatedPath)],
        associatedPath, realOpenedPath, filePattern)
      == Some(StatusNoSuchFile)
  {
    hide FsKey, Fold, Wide, MatchesQuery, FileOnTargetSide;
    DriveKey();
    InFileOnTargetSide();
    Different();
    var fs, all := FileOnTargetSide(), [IncludeAllFilenames(RealOpenedPath), IncludeAllFilenames(AssociatedPath)];
    OriginIsEmpty([]);
    DoesNotFail(fs, all[0], associatedPath, realOpenedPath, filePattern, NAME);
    forall n | HasEntry(fs, [D, O], n)
      ensures !MatchesQuery(filePattern, n)
    {
      OriginIsEmpty(Fold(n));
    }
    assert FailureOf(fs, all[1], associatedPath, realOpenedPath, filePattern) == Some(StatusNoSuchFile);
    assert all[1..][0] == all[1];
  }

  lemma BothSidesEnumerated()
    ensures
      DirectoriesToEnumerate(OriginItself([RULE]))
      == [IncludeAllFilenames(RealOpenedPath), IncludeAllFilenames(AssociatedPath)]
  {
    hide Wide, Inside;
    assert [RULE][..0] == [];
    assert CountMode([RULE], Overlay) == CountMode([], Overlay) + 1;
    assert CountMode([RULE], Simple) == CountMode([], Simple);
  }

  lemma OriginEnumerates(filePattern: wstring, realOpenedPath: wstring)
    requires OnlyFileMatches(filePattern)
    requires IsHandleFor(Configuration(), FileOnTargetSide(), [], ORIGIN, false, realOpenedPath)
    requires FsKey(realOpenedPath) == [D, TT, TTT]
    ensures
      FirstFailure(
        FileOnTargetSide(), DirectoriesToEnumerate(ClassifyEnumeration(Configuration(), ORIGIN, realOpenedPath)),
        ORIGIN, realOpenedPath, filePattern)
      == Some(StatusNoSuchFile)
  {
    hide Key, Wide, FsKey, Fold, ChooseRule, BeginsWithDriveLetter, IsHandleFor, ClassifyEnumeration, Accepted;
    hide MatchesQuery, FirstFailure, OnlyFileMatches, FileOnTargetSide, HasDriveLetterPrefix, Inside, Configuration;
    hide DirectoriesToEnumerate, WellFormed;
    Places();
    ConfigurationIsAccepted();
    RuleIsChosen([D, O]);
    RuleIsOverlay();
    OriginFacts();
    NothingAround(ORIGIN);
    HandleIsClassified(Configuration(), FileOnTargetSide(), [], ORIGIN, false, realOpenedPath);
    BothSidesEnumerated();
    OriginSideFails(filePattern, ORIGIN, realOpenedPath);
  }

  /** The file matches the pattern and can be opened, but since nothing in the origin directory matches, the
      application is told that there is no such file. */
  lemma PatternHidesFile(
    filePattern: wstring, layout: Layout, instruction: DirectoryEnumerationInstruction,
    openings: seq<DirectoryOpening>, query: (nat, NameInsertion) -> QueryResult, streams: seq<Stream>,
    calls: seq<Enumerations.Call>, next: Enumerations.Call)
    requires OnlyFileMatches(filePattern)
    requires
      InstructedFor(
        Configuration(), FileOnTargetSide(), instruction, ORIGIN, LeftOpen(FileOnTargetSide(), ORIGIN), Key(ORIGIN))
    requires StreamsBehind(layout, instruction, openings, query, filePattern, streams)
    requires
      SystemIsHonest(
        FileOnTargetSide(), layout, instruction, openings, query, ORIGIN, LeftOpen(FileOnTargetSide(), ORIGIN),
        filePattern)
    ensures
      var fs, file := FileOnTargetSide(), Inside(ORIGIN, NAME);
      var after := Enumerations.Run(Enumerations.Started(Combined(streams)), calls).1;
      && MatchesQuery(filePattern, NAME)
      && FirstExisting(fs, FilesToTry(FileOperation(Configuration(), fs, file, false), file)) == Some([D, TT, TTT, N])
      && DeliveredBy(streams, calls) == [] && Enumerations.Advance(after, next).status == StatusNoSuchFile
  {
    hide Key, FileOperation, Wide, FsKey, Fold, FileOnTargetSide, ClassifyEnumeration, FirstFailure, Inside, Accepted;
    hide DirectoriesToEnumerate, StreamsBehind, SystemIsHonest, DeliveredBy, Configuration, WellFormed, LeftOpen;
    hide FilesToTry, FirstExisting, Enumerations.Advance, Enumerations.Run, IsComplete, MatchesQuery;
    hide HasDriveLetterPrefix, BeginsWithDriveLetter, IsHandleFor;
    Places();
    ConfigurationIsAccepted();
    TargetSideIsLeftOpen(FileOnTargetSide(), ORIGIN);
    assert [D, O][2..] == [] && [D, TT, TTT] + [] == [D, TT, TTT];
    OriginEnumerates(filePattern, LeftOpen(FileOnTargetSide(), ORIGIN));
    InFileOnTargetSide();
    OpenedOnTargetSide(FileOnTargetSide());
    FailureInTheWay(
      Configuration(), FileOnTargetSide(), layout, instruction, openings, query, ORIGIN,
      LeftOpen(FileOnTargetSide(), ORIGIN), Key(ORIGIN), filePattern, streams, calls, next);
  }

  // ---------- A directory that is not listed in order ----------

  /** A name that begins with the other one, and therefore sorts behind it. */
  const LONGER: wstring := Wide("filename")
  const L: wstring := Fold(LONGER)

  lemma LongerIsHigher()
    ensures Less(N, L) && L != N && IsRealName(LONGER) && |L| == 8 && |N| == 4
  {
    assert LONGER == [102, 105, 108, 101, 110, 97, 109, 101] && NAME == [102, 105, 108, 101];
    LongerIsAbove(N, L);
  }

  lemma {:induction false} LongerIsAbove(a: wstring, b: wstring)
    requires a < b
    ensures Less(a, b)
    decreases |a|
  {
    if a != [] {
      assert b[..|a|] == a;
      assert a[1..] == b[1..][..|a| - 1];
      LongerIsAbove(a[1..], b[1..]);
    }
  }

  /** The smallest case: the target directory lists the longer name first, so that the front of the origin directory is
      lowest, and the entry of the origin directory survives. */
  lemma OriginEntrySurvives(x: FileInfo, y: FileInfo, z: FileInfo)
    ensures
      var target := Stream([Entry(LONGER, x), Entry(NAME, y)], StatusNoMoreFiles);
      var origin := Stream([Entry(NAME, z)], StatusNoMoreFiles);
      var m := Merge([target, origin]);
      && m.entries == [Entry(NAME, z), Entry(LONGER, x), Entry(NAME, y)] && m.sources == [1, 0, 0]
      && m.end == StatusNoMoreFiles && Dedupe(m.entries, {}) == [Entry(NAME, z), Entry(LONGER, x)]
  {
    hide Wide, Fold, Less, Total, Merge, FirstError, LowestFront;
    LongerIsHigher();
    LessOrder(N, L, L);
    var a, b, c := Entry(LONGER, x), Entry(NAME, y), Entry(NAME, z);
    MergeOfTwo([a, b], [c], 1);
    MergeOfTwo([a, b], [], 0);
    MergeOfTwo([b], [], 0);
    MergeOfTwo([], [], 0);
    assert [a, b][1..] == [b] && [b][1..] == [] && [c][1..] == [];
    assert [c] + ([a] + ([b] + [])) == [c, a, b] && [1] + ([0] + ([0] + [])) == [1, 0, 0];
    ThreeEntries(a, b, c);
  }

  lemma ThreeEntries(a: Entry, b: Entry, c: Entry)
    requires Fold(b.name) == Fold(c.name) != Fold(a.name)
    ensures Dedupe([c, a, b], {}) == [c, a]
  {
    hide Fold;
    assert [c, a, b][1..] == [a, b] && [a, b][1..] == [b] && [b][1..] == [];
    var one := {} + {Fold(c.name)};
    var two := one + {Fold(a.name)};
    assert Dedupe([b], two) == Dedupe([], two) == [];
    assert Dedupe([a, b], one) == [a] + Dedupe([b], two);
    assert Dedupe([c, a, b], {}) == [c] + Dedupe([a, b], one);
  }

  /** Two streams of which the given one has the lowest front. */
  lemma MergeOfTwo(a: seq<Entry>, b: seq<Entry>, i: nat)
    requires i <= 1 && (i == 0 ==> a != [] || b == []) && (i == 1 ==> b != [])
    requires a != [] && b != [] ==> (i == 1 <==> Before(b[0], a[0]))
    ensures
      var m := Merge([Stream(a, StatusNoMoreFiles), Stream(b, StatusNoMoreFiles)]);
      if a == [] && b == [] then m == Merged([], [], StatusNoMoreFiles)
      else
        var rest :=
          if i == 0 then Merge([Stream(a[1..], StatusNoMoreFiles), Stream(b, StatusNoMoreFiles)])
          else Merge([Stream(a, StatusNoMoreFiles), Stream(b[1..], StatusNoMoreFiles)]);
        m == Merged([if i == 0 then a[0] else b[0]] + rest.entries, [i] + rest.sources, rest.end)
  {
    hide Before, Total;
    var streams := [Stream(a, StatusNoMoreFiles), Stream(b, StatusNoMoreFiles)];
    assert streams[1..] == [streams[1]] && [streams[1]][1..] == [];
    assert FirstError(streams) == FirstError([streams[1]]) == FirstError([]) == None;
    assert LowestFront(streams, 0) == None;
    if a != [] || b != [] {
      assert LowestFront(streams, 1) == if a == [] then None else Some(0);
      assert LowestFront(streams, 2) == Some(i);
      assert streams[i := Tail(streams[i])] ==
          if i == 0 then [Stream(a[1..], StatusNoMoreFiles), streams[1]]
          else [streams[0], Stream(b[1..], StatusNoMoreFiles)];
    }
  }

  /** Both directories have a file of the same name, and the target directory another one. */
  function FilesOnBothSides(): Filesystem {
    FilesAreNew();
    With(With(With(WithTarget(), [D, O, N], File), [D, TT, TTT, N], File), [D, TT, TTT, L], File)
  }

  lemma FilesAreNew()
    ensures HasParent(WithTarget(), [D, O, N]) && [D, O, N] !in WithTarget()
    ensures [D, TT, TTT, N] !in WithTarget() && [D, TT, TTT, L] !in WithTarget() && [D, TT, TTT] in WithTarget()
    ensures WithTarget()[[D, TT, TTT]] == Directory
    ensures Parent([D, TT, TTT, N]) == Parent([D, TT, TTT, L]) == [D, TT, TTT] && [D, TT, TTT, N] != [D, TT, TTT, L]
  {
    hide Fold, Wide, WithTarget;
    Different();
    InWithTarget();
    LongerIsHigher();
    assert [D, TT, TTT, N][..3] == [D, TT, TTT] == [D, TT, TTT, L][..3];
    assert [D, TT, TTT, N][3] != [D, TT, TTT, L][3];
  }

  lemma InFilesOnBothSides()
    ensures
      FilesOnBothSides() == WithTarget()[[D, O, N] := File][[D, TT, TTT, N] := File][[D, TT, TTT, L] := File]
  {
    hide Fold, Wide, WithTarget;
    FilesAreNew();
  }

  lemma OnBothSides()
    ensures
      var fs := FilesOnBothSides();
      && [D, TT, TTT, N] in fs && [D, O, N] in fs && [D, TT, TTT, L] in fs
      && IsRealDirectory(fs, [D, O]) && IsRealDirectory(fs, [D, TT, TTT])
  {
    hide Fold, Wide, WithTarget, FilesOnBothSides;
    InFilesOnBothSides();
    Different();
    InWithTarget();
  }

  /** The origin directory has nothing but the one file. */
  lemma OnlyNameInOrigin(n: wstring)
    requires [D, O] + [n] in FilesOnBothSides()
    ensures n == N
  {
    hide Fold, Wide, WithTarget, FilesOnBothSides;
    InFilesOnBothSides();
    Different();
    InWithTarget();
    var q := [D, O] + [n];
    assert |q| == 3 && q[1] == O && q[2] == n && [D, TT, TTT][1] == TT && [D, O, N][2] == N;
  }

  lemma NothingFailsOnBothSides(filePattern: wstring, associatedPath: wstring, realOpenedPath: wstring)
    requires MatchesQuery(filePattern, NAME)
    requires FsKey(associatedPath) == [D, O] && FsKey(realOpenedPath) == [D, TT, TTT]
    ensures
      FirstFailure(
        FilesOnBothSides(), [IncludeAllFilenames(RealOpenedPath), IncludeAllFilenames(AssociatedPath)],
        associatedPath, realOpenedPath, filePattern)
      == None
  {
    hide FsKey, Fold, Wide, MatchesQuery, FilesOnBothSides, FailureOf;
    DriveKey();
    OnBothSides();
    var fs, all := FilesOnBothSides(), [IncludeAllFilenames(RealOpenedPath), IncludeAllFilenames(AssociatedPath)];
    assert [D, O] + [N] == [D, O, N] && [D, TT, TTT] + [N] == [D, TT, TTT, N];
    DoesNotFail(fs, all[0], associatedPath, realOpenedPath, filePattern, NAME);
    DoesNotFail(fs, all[1], associatedPath, realOpenedPath, filePattern, NAME);
    assert all[1..] == [all[1]] && [all[1]][1..] == [];
    assert FirstFailure(fs, [], associatedPath, realOpenedPath, filePattern) == None;
    assert FirstFailure(fs, [all[1]], associatedPath, realOpenedPath, filePattern) == None;
  }

  /** What is enumerated for the origin directory, and that no name is inserted into it. */
  lemma BothSidesOf(fs: Filesystem)
    ensures
      var left := LeftOpen(fs, ORIGIN);
      && IsHandleFor(Configuration(), fs, [], ORIGIN, false, left) && FsKey(left) == [D, TT, TTT]
      && FsKey(ORIGIN) == [D, O]
      && DirectoriesToEnumerate(ClassifyEnumeration(Configuration(), ORIGIN, left))
         == [IncludeAllFilenames(RealOpenedPath), IncludeAllFilenames(AssociatedPath)]
  {
    hide Key, Wide, FsKey, Fold, ChooseRule, BeginsWithDriveLetter, IsHandleFor, ClassifyEnumeration, Accepted;
    hide HasDriveLetterPrefix, Inside, Configuration, DirectoriesToEnumerate, WellFormed, LeftOpen;
    Places();
    ConfigurationIsAccepted();
    RuleIsChosen([D, O]);
    RuleIsOverlay();
    OriginFacts();
    NothingAround(ORIGIN);
    TargetSideIsLeftOpen(fs, ORIGIN);
    assert [D, O][2..] == [] && [D, TT, TTT] + [] == [D, TT, TTT];
    HandleIsClassified(Configuration(), fs, [], ORIGIN, false, LeftOpen(fs, ORIGIN));
    BothSidesEnumerated();
  }

  lemma NothingInsideOrigin(c: wstring)
    ensures Extend([D, O], c) !in Configuration()
  {
    hide Wide, Fold, Inside;
    Places();
    assert |Extend([D, O], c)| == 3;
  }

  /** The queue over the origin directory offers only the one name. */
  lemma OriginOffersName(
    filePattern: wstring, layout: Layout, d: SingleDirectoryEnumeration, opening: DirectoryOpening, s: Stream)
    requires OnlyFileMatches(filePattern) && StartsWith(layout, d, opening, filePattern, s)
    requires OpenedAsItIs(FilesOnBothSides(), layout, opening, ORIGIN, filePattern) && N in Names(s.entries)
    ensures Reach(s.entries, N) == N
  {
    hide Wide, Fold, FsKey, FilesOnBothSides, MatchesQuery, StartsWith, OpenedAsItIs;
    OriginFacts();
    assert s.entries != [] && s.entries[0] in s.entries;
    var e := s.entries[0];
    OfferedIsThere(FilesOnBothSides(), layout, d, opening, ORIGIN, filePattern, s, e);
    OnlyNameInOrigin(Fold(e.name));
  }

  /** The target directory is listed with the longer name first. */
  predicate ListsLongerFirst(streams: seq<Stream>) {
    streams != [] && streams[0].entries != [] && Fold(streams[0].entries[0].name) == L
  }

  /** The entry comes from the second queue, over the origin directory. */
  predicate IsFromOriginSide(streams: seq<Stream>, entry: Entry) {
    |streams| > 1 && entry in streams[1].entries
  }

  /** The whole way: the target directory is listed with the longer name first. The name is delivered, with the entry of
      the origin directory, although opening it reaches the file in the target directory. */
  lemma ListsOneOpensAnother(
    filePattern: wstring, layout: Layout, instruction: DirectoryEnumerationInstruction,
    openings: seq<DirectoryOpening>, query: (nat, NameInsertion) -> QueryResult, streams: seq<Stream>,
    calls: seq<Enumerations.Call>, entry: Entry)
    requires OnlyFileMatches(filePattern)
    requires
      InstructedFor(
        Configuration(), FilesOnBothSides(), instruction, ORIGIN, LeftOpen(FilesOnBothSides(), ORIGIN), Key(ORIGIN))
    requires StreamsBehind(layout, instruction, openings, query, filePattern, streams)
    requires
      SystemIsHonest(
        FilesOnBothSides(), layout, instruction, openings, query, ORIGIN, LeftOpen(FilesOnBothSides(), ORIGIN),
        filePattern)
    requires ListsLongerFirst(streams)
    requires entry in DeliveredBy(streams, calls) && Fold(entry.name) == N
    ensures
      var fs, file := FilesOnBothSides(), Inside(ORIGIN, NAME);
      && FirstExisting(fs, FilesToTry(FileOperation(Configuration(), fs, file, false), file)) == Some([D, TT, TTT, N])
      && instruction.directories == [IncludeAllFilenames(RealOpenedPath), IncludeAllFilenames(AssociatedPath)]
      && IsFromOriginSide(streams, entry)
  {
    hide Key, FileOperation, Wide, FsKey, Fold, FilesOnBothSides, ClassifyEnumeration, Inside, Accepted, Less;
    hide DirectoriesToEnumerate, StreamsBehind, SystemIsHonest, DeliveredBy, Configuration, WellFormed, LeftOpen;
    hide FilesToTry, FirstExisting, MatchesQuery, HasDriveLetterPrefix, BeginsWithDriveLetter, IsHandleFor, Merge;
    hide Names, Reach, OnlyFileMatches, AllSorted, IsQueryPath, Yields, InstructedFor;
    var fs, left := FilesOnBothSides(), LeftOpen(FilesOnBothSides(), ORIGIN);
    Places();
    DriveKey();
    ConfigurationIsAccepted();
    BothSidesOf(fs);
    InstructedDirectories(Configuration(), fs, instruction, ORIGIN, left, Key(ORIGIN));
    NothingAround(ORIGIN);
    NothingInsideOrigin(N);
    OnBothSides();
    assert [] + ORIGIN + [BACKSLASH] + NAME + [] == Inside(ORIGIN, NAME) by { InsideIs(ORIGIN, NAME); }
    var k, e := ShownEntryIsOpened(
      Configuration(), fs, fs, layout, instruction, openings, query, [], ORIGIN, false, left, filePattern, streams,
      calls, NAME, [], false, entry);
    assert instruction.directories[0] == IncludeAllFilenames(RealOpenedPath);
    OpenedOnTargetSide(fs);
    BothYield(left);
    assert e == 0;
    BothHaveName(filePattern, layout, instruction, openings, query, left, streams);
    OriginSideIsLower(filePattern, layout, instruction, openings, query, left, streams);
    assert Merge(streams).sources[k] == 1;
  }

  lemma InstructedDirectories(
    rules: RuleIndex, fs: Filesystem, instruction: DirectoryEnumerationInstruction, associatedPath: wstring,
    realOpenedPath: wstring, inside: Path)
    requires InstructedFor(rules, fs, instruction, associatedPath, realOpenedPath, inside)
    ensures
      instruction.directories == DirectoriesToEnumerate(ClassifyEnumeration(rules, associatedPath, realOpenedPath))
  {
    hide DirectoriesToEnumerate, ClassifyEnumeration, InsertionsFor, OriginsInside;
  }

  lemma BothHaveName(
    filePattern: wstring, layout: Layout, instruction: DirectoryEnumerationInstruction,
    openings: seq<DirectoryOpening>, query: (nat, NameInsertion) -> QueryResult, realOpenedPath: wstring,
    streams: seq<Stream>)
    requires OnlyFileMatches(filePattern) && FsKey(realOpenedPath) == [D, TT, TTT] && FsKey(ORIGIN) == [D, O]
    requires InstructedFor(Configuration(), FilesOnBothSides(), instruction, ORIGIN, realOpenedPath, Key(ORIGIN))
    requires StreamsBehind(layout, instruction, openings, query, filePattern, streams)
    requires
      SystemIsHonest(FilesOnBothSides(), layout, instruction, openings, query, ORIGIN, realOpenedPath, filePattern)
    requires instruction.directories == [IncludeAllFilenames(RealOpenedPath), IncludeAllFilenames(AssociatedPath)]
    requires Extend(Key(ORIGIN), N) !in Configuration()
    ensures |streams| > 1 && N in Names(streams[0].entries) && N in Names(streams[1].entries)
  {
    hide Key, Wide, Fold, FsKey, FilesOnBothSides, Names, StreamsBehind, SystemIsHonest, Configuration, Inside, Yields;
    hide StreamsOfHandle, InsertsLast, InstructedFor, WellFormed, MatchesQuery, ClassifyEnumeration;
    DriveKey();
    ConfigurationIsAccepted();
    BothYield(realOpenedPath);
    QueuesShowHandle(
      Configuration(), FilesOnBothSides(), layout, instruction, openings, query, ORIGIN, realOpenedPath, Key(ORIGIN),
      filePattern, streams);
    StreamsWithName(
      Configuration(), FilesOnBothSides(), instruction.directories, ORIGIN, realOpenedPath, Key(ORIGIN), filePattern,
      streams, NAME);
    StreamCount(
      Configuration(), FilesOnBothSides(), instruction.directories, ORIGIN, realOpenedPath, Key(ORIGIN), filePattern,
      streams);
  }

  lemma InsideIs(directory: wstring, name: wstring)
    ensures [] + directory + [BACKSLASH] + name + [] == Inside(directory, name)
  {
  }

  lemma BothYield(realOpenedPath: wstring)
    requires FsKey(realOpenedPath) == [D, TT, TTT] && FsKey(ORIGIN) == [D, O]
    ensures Yields(FilesOnBothSides(), IncludeAllFilenames(RealOpenedPath), ORIGIN, realOpenedPath, NAME)
    ensures Yields(FilesOnBothSides(), IncludeAllFilenames(AssociatedPath), ORIGIN, realOpenedPath, NAME)
  {
    hide Wide, Fold, FsKey, FilesOnBothSides, Inside;
    OnBothSides();
    assert [D, TT, TTT] + [N] == [D, TT, TTT, N] && [D, O] + [N] == [D, O, N];
  }

  lemma OriginSideIsLower(
    filePattern: wstring, layout: Layout, instruction: DirectoryEnumerationInstruction,
    openings: seq<DirectoryOpening>, query: (nat, NameInsertion) -> QueryResult, realOpenedPath: wstring,
    streams: seq<Stream>)
    requires OnlyFileMatches(filePattern)
    requires StreamsBehind(layout, instruction, openings, query, filePattern, streams)
    requires
      SystemIsHonest(FilesOnBothSides(), layout, instruction, openings, query, ORIGIN, realOpenedPath, filePattern)
    requires instruction.directories == [IncludeAllFilenames(RealOpenedPath), IncludeAllFilenames(AssociatedPath)]
    requires |streams| > 1 && N in Names(streams[0].entries) && N in Names(streams[1].entries)
    requires Fold(streams[0].entries[0].name) == L
    ensures Less(Reach(streams[1].entries, N), Reach(streams[0].entries, N))
  {
    hide Wide, Fold, Less, Names, Reach, OnlyFileMatches, FilesOnBothSides, OpenedAsItIs, StartsWith, InsertionStream;
    hide QueriesAsItIs, AllFit;
    assert openings[1] in openings && instruction.directories[1] == IncludeAllFilenames(AssociatedPath);
    assert StartsWith(layout, instruction.directories[1], openings[1], filePattern, streams[1]);
    OriginOffersName(filePattern, layout, instruction.directories[1], openings[1], streams[1]);
    ReachBounds(streams[0].entries, N);
    LongerIsHigher();
    LessOrder(N, L, Reach(streams[0].entries, N));
  }

  /** And it is delivered in every complete run. */
  lemma NameIsListed(
    filePattern: wstring, layout: Layout, instruction: DirectoryEnumerationInstruction,
    openings: seq<DirectoryOpening>, query: (nat, NameInsertion) -> QueryResult, streams: seq<Stream>,
    calls: seq<Enumerations.Call>)
    requires OnlyFileMatches(filePattern)
    requires
      InstructedFor(
        Configuration(), FilesOnBothSides(), instruction, ORIGIN, LeftOpen(FilesOnBothSides(), ORIGIN), Key(ORIGIN))
    requires StreamsBehind(layout, instruction, openings, query, filePattern, streams)
    requires
      SystemIsHonest(
        FilesOnBothSides(), layout, instruction, openings, query, ORIGIN, LeftOpen(FilesOnBothSides(), ORIGIN),
        filePattern)
    requires IsComplete(streams, calls)
    ensures N in Names(DeliveredBy(streams, calls))
  {
    hide Key, FileOperation, Wide, FsKey, Fold, FilesOnBothSides, ClassifyEnumeration, Inside, Accepted;
    hide DirectoriesToEnumerate, StreamsBehind, SystemIsHonest, DeliveredBy, Configuration, WellFormed, LeftOpen;
    hide FilesToTry, FirstExisting, MatchesQuery, HasDriveLetterPrefix, BeginsWithDriveLetter, IsHandleFor;
    hide Names, FirstFailure, IsComplete, IsQueryPath;
    var fs, left := FilesOnBothSides(), LeftOpen(FilesOnBothSides(), ORIGIN);
    Places();
    DriveKey();
    ConfigurationIsAccepted();
    BothSidesOf(fs);
    NothingAround(ORIGIN);
    forall c
      ensures !IsBlocked(Configuration(), fs, Key(ORIGIN), filePattern, c)
    {
      NothingInsideOrigin(c);
    }
    NothingInsideOrigin(N);
    OnBothSides();
    InsideIs(ORIGIN, NAME);
    NothingFailsOnBothSides(filePattern, ORIGIN, left);
    OpenedOnTargetSide(fs);
    ShownIfAndOnlyIfOpenable(
      Configuration(), fs, fs, layout, instruction, openings, query, [], ORIGIN, false, left, filePattern, streams,
      calls, NAME, [], false);
  }

  // ---------- A file where the target of a deeper rule should be in a directory ----------

  const BLOCKED_RULE: FilesystemRule := FilesystemRule(Wide("blocked"), Simple, Inside(ORIGIN, SUB), TARGET, [])

  ghost function BlockedConfiguration(): RuleIndex {
    map[Key(Inside(ORIGIN, SUB)) := [BLOCKED_RULE]]
  }

  /** A directory with a file in it, and a file where the directory of the target should be. */
  function FileAboveTarget(): Filesystem {
    Different();
    With(With(With(OnlyDrive(), [D, O], Directory), [D, O, N], File), [D, TT], File)
  }

  lemma InFileAboveTarget()
    ensures IsFile(FileAboveTarget(), [D, TT]) && [D, O, N] in FileAboveTarget() && !IsFile(FileAboveTarget(), [D, O])
    ensures [D, TT, TTT] !in FileAboveTarget()
  {
    hide Fold, Wide;
    Different();
  }

  lemma BlockedConfigurationIsAccepted()
    ensures Accepted(BlockedConfiguration()) && WellFormed(BlockedConfiguration())
    ensures [D, O, S] in BlockedConfiguration() && BlockedConfiguration().Keys == {[D, O, S]}
    ensures BlockedConfiguration()[[D, O, S]] == [BLOCKED_RULE]
  {
    hide Key, Normalised, BeginsWithDriveLetter, Accepted, Fold, Wide, Inside, HasDriveLetterPrefix;
    Places();
    SubInOrigin();
    SubIsNormalised();
    assert WellFormedRule(BLOCKED_RULE, Key(BLOCKED_RULE.origin));
    SingleRuleIsAccepted(BLOCKED_RULE);
    assert Key(BLOCKED_RULE.origin) == [D, O, S] && Key(BLOCKED_RULE.target) == [D, TT, TTT];
    AcceptedRulesAreWellFormed(BlockedConfiguration());
  }

  lemma SubIsNormalised()
    ensures Normalised(Inside(ORIGIN, SUB))
  {
    hide Key;
    Places();
    SubInOrigin();
    InsideKey(ORIGIN, SUB);
  }

  /** The origin directory of the rule is asked for, and nothing else is. */
  lemma SubIsBlocked()
    ensures !NoneIsBlocked(BlockedConfiguration(), FileAboveTarget(), [D, O], [])
    ensures forall a :: !IsInsertedFor(BlockedConfiguration(), FileAboveTarget(), [D, O], [], a)
  {
    hide Key, Fold, Wide, Inside, BlockedConfiguration, FileAboveTarget, WellFormed;
    BlockedConfigurationIsAccepted();
    InFileAboveTarget();
    Places();
    var rules, fs := BlockedConfiguration(), FileAboveTarget();
    assert Extend([D, O], S) == [D, O, S];
    assert InsertionTarget(rules, fs, [D, O, S]) == [D, TT, TTT];
    assert Parent([D, TT, TTT]) == [D, TT];
    EmptyMatches(S);
    assert IsBlocked(rules, fs, [D, O], [], S);
    forall a
      ensures !HasTarget(rules, fs, [D, O], [], a)
    {
    }
  }

  lemma EmptyMatches(fileName: wstring)
    ensures MatchesQuery([], fileName)
  {
  }

  /** Nothing at all is shown of the directory, although none of the directories that are enumerated for it fails and
      the file in it can be opened: the system is asked about the target of a rule for another name, and answers that
      the file above that target is not a directory. */
  lemma BlockedTargetHidesDirectory(
    layout: Layout, instruction: DirectoryEnumerationInstruction, openings: seq<DirectoryOpening>,
    query: (nat, NameInsertion) -> QueryResult, streams: seq<Stream>, calls: seq<Enumerations.Call>,
    next: Enumerations.Call)
    requires InstructedFor(BlockedConfiguration(), FileAboveTarget(), instruction, ORIGIN, ORIGIN, Key(ORIGIN))
    requires StreamsBehind(layout, instruction, openings, query, [], streams)
    requires SystemIsHonest(FileAboveTarget(), layout, instruction, openings, query, ORIGIN, ORIGIN, [])
    ensures
      var fs, file := FileAboveTarget(), Inside(ORIGIN, NAME);
      var after := Enumerations.Run(Enumerations.Started(Combined(streams)), calls).1;
      && Accepted(BlockedConfiguration()) && FirstFailure(fs, instruction.directories, ORIGIN, ORIGIN, []) == None
      && FirstExisting(fs, FilesToTry(FileOperation(BlockedConfiguration(), fs, file, false), file)) == Some([D, O, N])
      && DeliveredBy(streams, calls) == []
      && Enumerations.Advance(after, next).status == STATUS_NOT_A_DIRECTORY
  {
    hide Key, FileOperation, Wide, FsKey, Fold, FileAboveTarget, ClassifyEnumeration, FirstFailure, Inside, Accepted;
    hide DirectoriesToEnumerate, StreamsBehind, SystemIsHonest, DeliveredBy, BlockedConfiguration, WellFormed;
    hide FilesToTry, FirstExisting, NoneIsBlocked, IsInsertedFor, Enumerations.Advance, Enumerations.Run, IsComplete;
    hide HasDriveLetterPrefix, BeginsWithDriveLetter;
    Places();
    BlockedConfigurationIsAccepted();
    SubIsBlocked();
    OriginItselfIsEnumerated(BlockedConfiguration());
    OpensNameInOrigin();
    BlockedTargetInTheWay(
      BlockedConfiguration(), FileAboveTarget(), layout, instruction, openings, query, ORIGIN, ORIGIN, Key(ORIGIN), [],
      streams, calls, next);
  }

  lemma OriginItselfIsEnumerated(rules: RuleIndex)
    ensures
      FirstFailure(
        FileAboveTarget(), DirectoriesToEnumerate(ClassifyEnumeration(rules, ORIGIN, ORIGIN)), ORIGIN, ORIGIN, [])
      == None
  {
    hide Key, FsKey, Fold, Wide, Inside, FailureOf, FileAboveTarget;
    InFileAboveTarget();
    OriginFacts();
    FailsOnlyAtFiles(FileAboveTarget(), IncludeAllFilenames(RealOpenedPath), ORIGIN, ORIGIN);
  }

  lemma OpensNameInOrigin()
    ensures
      var fs, file := FileAboveTarget(), Inside(ORIGIN, NAME);
      FirstExisting(fs, FilesToTry(FileOperation(BlockedConfiguration(), fs, file, false), file)) == Some([D, O, N])
  {
    hide Key, FileOperation, Wide, Fold, FilesToTry, FirstExisting, BlockedConfiguration, FileAboveTarget, WellFormed;
    hide BeginsWithDriveLetter, HasDriveLetterPrefix;
    Places();
    DriveKey();
    BlockedConfigurationIsAccepted();
    InFileAboveTarget();
    NothingAround(ORIGIN);
    assert [] + ORIGIN + [BACKSLASH] + NAME + [] == Inside(ORIGIN, NAME);
    FilesInside(BlockedConfiguration(), FileAboveTarget(), [], ORIGIN, NAME, [], false, Inside(ORIGIN, NAME));
    assert Extend([D, O], N) == [D, O, N];
    NameIsNotRedirected();
  }

  lemma NameIsNotRedirected()
    ensures PathsToTry(BlockedConfiguration(), [D, O, N]) == [[D, O, N]]
  {
    hide Key, Fold, Wide, Inside, BlockedConfiguration, WellFormed;
    BlockedConfigurationIsAccepted();
    assert |N| == 4 && |S| == 9;
    assert [D, O, S][2] != [D, O, N][2];
    LongestPrefixIsLongest(BlockedConfiguration(), [D, O, N]);
    assert ChooseRule(BlockedConfiguration(), [D, O, N]) == None;
  }

  // ---------- An origin directory that is listed and cannot be opened ----------

  const HOME: wstring := Inside(DRIVE, Wide("HOME"))
  const DEEP: wstring := Inside(HOME, Wide("O"))
  const SECOND_TARGET: wstring := Inside(DRIVE, Wide("UUUUU"))
  const H: wstring := Fold(Wide("HOME"))
  const U: wstring := Fold(Wide("UUUUU"))

  const FIRST_RULE: FilesystemRule := FilesystemRule(Wide("a"), Simple, DEEP, TARGET, [])
  const SECOND_RULE: FilesystemRule := FilesystemRule(Wide("b"), Simple, DEEP, SECOND_TARGET, [])

  ghost function TwoRules(): RuleIndex {
    map[Key(DEEP) := [FIRST_RULE, SECOND_RULE]]
  }

  /** Only the second rule has a target directory. */
  function SecondTargetOnly(): Filesystem {
    HomeIsElsewhere();
    With(With(OnlyDrive(), [D, H], Directory), [D, U], Directory)
  }

  lemma HomeIsElsewhere()
    ensures [D, H] != [D] && [D, U] != [D] && [D, H] != [D, U] && Parent([D, H]) == [D] && Parent([D, U]) == [D]
  {
    hide Key;
    MorePlaces();
  }

  lemma MoreNames()
    ensures IsFileName(Wide("HOME")) && IsFileName(Wide("UUUUU")) && IsRealName(Wide("O"))
  {
    assert Wide("HOME") == [72, 79, 77, 69] && Wide("UUUUU") == [85, 85, 85, 85, 85] && Wide("O") == [79];
  }

  lemma MorePlaces()
    ensures IsQueryPath(HOME) && Key(HOME) == FsKey(HOME) == [D, H] && HasDriveLetterPrefix(HOME)
    ensures Normalised(DEEP) && Key(DEEP) == [D, H, O] && IsRealName(Wide("O"))
    ensures Normalised(SECOND_TARGET) && Key(SECOND_TARGET) == [D, U]
    ensures |H| == 4 && |U| == 5 && [D, H] != [D, U]
    ensures Parent([D, H]) == [D] && Parent([D, U]) == [D] && Parent([D, H, O]) == [D, H]
  {
    hide Key, FsKey, Fold, HasDriveLetterPrefix, BeginsWithDriveLetter, Wide, Normalised;
    MoreNames();
    OnDrive(Wide("HOME"));
    OnDrive(Wide("UUUUU"));
    InsideKey(HOME, Wide("O"));
    assert Extend([D, H], O) == [D, H, O];
    assert [D, H][1] != [D, U][1] && [D, H, O][..2] == [D, H];
    FsKeyOfWrapped([], HOME, []);
    NothingAround(HOME);
  }

  lemma TwoRulesAreAccepted()
    ensures Accepted(TwoRules()) && WellFormed(TwoRules())
  {
    hide Key, Fold, Wide, Inside, HasDriveLetterPrefix, BeginsWithDriveLetter, Normalised;
    Places();
    MorePlaces();
    var rules, k := TwoRules(), Key(DEEP);
    assert WellFormedRule(FIRST_RULE, k) && WellFormedRule(SECOND_RULE, k);
    assert WellFormedContainer(rules[k], k);
    assert [D, H, O][1] != [D, TT, TTT][1] && [D, U][1] != [D, TT, TTT][1] && [D, U][1] != [D, H, O][1];
    forall l, i: nat, m, j: nat | IsRule(rules, l, i) && IsRule(rules, m, j)
      ensures TargetApart(rules, l, i, m, j)
    {
      assert l == m == k && i <= 1 && j <= 1;
    }
  }

  lemma HomeIsNotRedirected(fs: Filesystem)
    requires [D, H] in fs && fs[[D, H]] == Directory
    ensures
      FirstFailure(fs, DirectoriesToEnumerate(ClassifyEnumeration(TwoRules(), HOME, HOME)), HOME, HOME, []) == None
  {
    hide Key, FsKey, Fold, Wide, Inside, FailureOf;
    MorePlaces();
    FailsOnlyAtFiles(fs, IncludeAllFilenames(RealOpenedPath), HOME, HOME);
  }

  /** The name of the origin directory is shown in the directory above, because the second rule's target exists; but
      opening it finds nothing, because only the first rule's target is tried. */
  lemma ShownButNotOpenable(
    layout: Layout, instruction: DirectoryEnumerationInstruction, openings: seq<DirectoryOpening>,
    query: (nat, NameInsertion) -> QueryResult, streams: seq<Stream>, calls: seq<Enumerations.Call>)
    requires InstructedFor(TwoRules(), SecondTargetOnly(), instruction, HOME, HOME, Key(HOME))
    requires StreamsBehind(layout, instruction, openings, query, [], streams)
    requires SystemIsHonest(SecondTargetOnly(), layout, instruction, openings, query, HOME, HOME, [])
    requires IsComplete(streams, calls)
    ensures Accepted(TwoRules()) && O in Names(DeliveredBy(streams, calls))
    ensures
      FirstExisting(
        SecondTargetOnly(), FilesToTry(FileOperation(TwoRules(), SecondTargetOnly(), DEEP, false), DEEP)) == None
  {
    hide Key, FileOperation, Wide, FsKey, Fold, ClassifyEnumeration, FirstFailure, Inside, FilesToTry, FirstExisting;
    hide DirectoriesToEnumerate, StreamsBehind, SystemIsHonest, DeliveredBy, WellFormed, IsComplete, Names;
    hide HasDriveLetterPrefix, BeginsWithDriveLetter, Accepted, YieldedBySome;
    var fs := SecondTargetOnly();
    Places();
    MorePlaces();
    TwoRulesAreAccepted();
    HomeIsNotRedirected(fs);
    NothingAround(HOME);
    DeepIsInside();
    SecondTargetIsThere();
    NothingIsBlocked();
    EmptyMatches(Wide("O"));
    DeeperOriginAgreement(
      TwoRules(), fs, layout, instruction, openings, query, [], HOME, HOME, [], streams, calls, Wide("O"), [], false);
  }

  lemma NothingIsBlocked()
    ensures NoneIsBlocked(TwoRules(), SecondTargetOnly(), Key(HOME), [])
  {
    hide Key, Fold, Wide, Inside, HasDriveLetterPrefix, BeginsWithDriveLetter, InsertionTarget;
    forall c
      ensures !IsBlocked(TwoRules(), SecondTargetOnly(), Key(HOME), [], c)
    {
      if IsAskedFor(TwoRules(), Key(HOME), [], c) {
        NoFileOnVolume(InsertionTarget(TwoRules(), SecondTargetOnly(), Extend(Key(HOME), c)));
      }
    }
  }

  lemma NoFileOnVolume(p: Path)
    ensures !IsInFile(SecondTargetOnly(), p)
  {
    HomeIsElsewhere();
  }

  lemma DeepIsInside()
    ensures [] + HOME + [BACKSLASH] + Wide("O") + [] == DEEP
    ensures Extend([D, H], O) == [D, H, O]
  {
    assert DEEP == HOME + [BACKSLASH] + Wide("O");
  }

  lemma SecondTargetIsThere()
    ensures [D, H, O] in TwoRules() && TwoRules()[[D, H, O]] == [FIRST_RULE, SECOND_RULE]
    ensures SomeTargetIsDirectory(TwoRules()[[D, H, O]], SecondTargetOnly())
    ensures !OriginCanBeOpened(TwoRules(), SecondTargetOnly(), [D, H, O])
    ensures [D, H] in SecondTargetOnly() && SecondTargetOnly()[[D, H]] == Directory
  {
    hide Key, Fold, Wide, Inside, HasDriveLetterPrefix, BeginsWithDriveLetter;
    Places();
    MorePlaces();
    assert SECOND_RULE in [FIRST_RULE, SECOND_RULE];
    assert Key(SECOND_RULE.target) == [D, U];
  }
}
