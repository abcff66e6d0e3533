/** The parts together: what an application is shown when it enumerates a directory is what it can open. */
module EndToEnd {
  import opened Wrappers
  import opened Text
  import opened NtStatuses
  import opened FileInformation
  import opened Rules
  import opened RuleContainers
  import opened PrefixTrees
  import opened Filesystems
  import opened Instructions
  import opened Directors
  import opened Redirections
  import opened Agreement
  import opened Listing
  import opened Streams
  import opened EnumerationQueues
  import Enumerations
  import opened Volumes
  import Executors

  // ---------- Handles that file operations leave behind ----------

  /** Whatever a file operation records about a handle, also when the path ends in a backslash: the handle is known
      by the path the application asked for, and was opened either for that path or for the one it is
      redirected to. */
  lemma RecordedHandle(
    rules: RuleIndex, fs: Filesystem, v: Volume, refuse: Refusals, prefix: wstring, p: wstring, suffix: wstring,
    allowsCreate: bool, disposition: CreateDisposition, directory: bool)
    requires WellFormed(rules) && IsNamespacePrefix(prefix) && IsQueryPath(p) && IsSuffix(suffix)
    ensures
      var op := FileOperation(rules, fs, prefix + p + suffix, allowsCreate);
      var recorded := Executors.Execute(v, refuse, op, disposition, directory, prefix + p + suffix).recorded;
      recorded.Some? ==>
        && recorded.value.0 == prefix + p
        && (recorded.value.1 == prefix + p || IsHandleFor(rules, fs, prefix, p, allowsCreate, recorded.value.1))
  {
    hide FileOperation, Executors.Execute, ActsAsChosen, RemoveTrailing, LeavesOpen;
    var path := prefix + p + suffix;
    var op := FileOperation(rules, fs, path, allowsCreate);
    FileOperationMeaning(rules, fs, prefix, p, suffix, allowsCreate, path);
    TrimmedRedirected(prefix, p, suffix);
    AssociatedIsUnredirected(rules, op, prefix, p, suffix, allowsCreate);
    RecordedPaths(v, refuse, op, disposition, directory, path);
    var recorded := Executors.Execute(v, refuse, op, disposition, directory, path).recorded;
    if recorded.Some? && recorded.value.1 != prefix + p {
      OpenedRedirected(rules, fs, prefix, p, suffix, allowsCreate, recorded.value.1);
    }
  }

  /** And what is recorded at all: a handle is on record exactly if the operation succeeds and a rule redirects the
      path, or none is about it but there is an origin directory at or below it. */
  lemma RecordedExactly(
    rules: RuleIndex, fs: Filesystem, v: Volume, refuse: Refusals, prefix: wstring, p: wstring, suffix: wstring,
    allowsCreate: bool, disposition: CreateDisposition, directory: bool)
    requires WellFormed(rules) && IsNamespacePrefix(prefix) && IsQueryPath(p) && IsSuffix(suffix)
    ensures
      var op := FileOperation(rules, fs, prefix + p + suffix, allowsCreate);
      var done := Executors.Execute(v, refuse, op, disposition, directory, prefix + p + suffix);
      done.recorded.Some? <==>
        && NtSuccess(done.status)
        && (ChooseRule(rules, Key(p)).Some?
            || ((forall k :: k in rules ==> !(k <= Key(p))) && exists k :: k in rules && Key(p) <= k))
  {
    hide FileOperation, Executors.TryInstruction, Executors.Prepared, NtCreate, RemoveTrailing, Key, FsKey;
    var path := prefix + p + suffix;
    var op := FileOperation(rules, fs, path, allowsCreate);
    FileOperationMeaning(rules, fs, prefix, p, suffix, allowsCreate, path);
    LongestPrefixIsLongest(rules, Key(p));
    Executors.SomethingIsTried(
      Executors.Prepared(v, refuse, op).1, refuse, op, disposition, directory, path);
    NormalisedEnds(p);
  }

  /** Paths that do not begin with a drive letter are never touched: the system is called once, with the path as it is
      and with what the application asked for, and nothing is recorded. */
  lemma OtherPathsAreNotTouched(
    rules: RuleIndex, fs: Filesystem, v: Volume, refuse: Refusals, path: wstring, allowsCreate: bool,
    disposition: CreateDisposition, directory: bool)
    requires !BeginsWithDriveLetter(RemoveTrailing(WithoutPrefix(path)))
    ensures
      var op := FileOperation(rules, fs, path, allowsCreate);
      var (status, after) := NtCreate(v, refuse, FsKey(path), disposition, directory);
      Executors.Execute(v, refuse, op, disposition, directory, path) == Executors.Execution(status, after, None)
  {
    hide NtCreate, FsKey, RemoveTrailing, BeginsWithDriveLetter, WithoutPrefix;
  }

  lemma ShareHasNoDriveLetter(prefix: wstring, rest: wstring)
    requires IsNamespacePrefix(prefix)
    ensures
      !BeginsWithDriveLetter(RemoveTrailing(WithoutPrefix(prefix + (Wide("UNC") + [BACKSLASH] + rest))))
  {
    hide RemoveTrailing, BeginsWithDriveLetter, WithoutPrefix, NamespacePrefix;
    var p := Wide("UNC") + [BACKSLASH] + rest;
    assert Wide("UNC") == [85, 78, 67] && |p| > 3 && p[0] == 85 && p[1] == 78;
    PrefixIsRecovered(prefix, p);
    NoColonNoDriveLetter(RemoveTrailing(p));
  }

  lemma NoColonNoDriveLetter(s: wstring)
    requires |s| > 1 ==> s[0] != BACKSLASH && s[1] != COLON
    ensures !BeginsWithDriveLetter(s)
  {
    if |s| > 1 {
      assert [] + s == s;
      PrefixIsRecovered([], s);
    }
  }

  /** A network share, for instance. */
  lemma SharesAreNotTouched(
    rules: RuleIndex, fs: Filesystem, v: Volume, refuse: Refusals, prefix: wstring, rest: wstring, allowsCreate: bool,
    disposition: CreateDisposition, directory: bool)
    requires IsNamespacePrefix(prefix)
    ensures
      var path := prefix + Wide("UNC") + [BACKSLASH] + rest;
      var op := FileOperation(rules, fs, path, allowsCreate);
      var (status, after) := NtCreate(v, refuse, FsKey(path), disposition, directory);
      Executors.Execute(v, refuse, op, disposition, directory, path) == Executors.Execution(status, after, None)
  {
    hide *;
    var p := Wide("UNC") + [BACKSLASH] + rest;
    assert prefix + Wide("UNC") + [BACKSLASH] + rest == prefix + p;
    ShareHasNoDriveLetter(prefix, rest);
    OtherPathsAreNotTouched(rules, fs, v, refuse, prefix + p, allowsCreate, disposition, directory);
  }

  lemma OpenedRedirected(
    rules: RuleIndex, fs: Filesystem, prefix: wstring, p: wstring, suffix: wstring, allowsCreate: bool,
    realOpenedPath: wstring)
    requires IsSuffix(suffix)
    requires
      var op := FileOperation(rules, fs, prefix + p + suffix, allowsCreate);
      op.redirectedFilename.Some? && realOpenedPath == RemoveTrailing(op.redirectedFilename.value)
    ensures IsHandleFor(rules, fs, prefix, p, allowsCreate, realOpenedPath)
  {
    hide FileOperation, RemoveTrailing;
    assert LeavesOpen(rules, fs, prefix, p, suffix, allowsCreate, realOpenedPath);
  }

  lemma RecordedPaths(
    v: Volume, refuse: Refusals, op: FileOperationInstruction, disposition: CreateDisposition, directory: bool,
    unredirected: wstring)
    requires op == NoRedirectionOrInterception() || op.filenameHandleAssociation == UnredirectedName
    ensures
      var recorded := Executors.Execute(v, refuse, op, disposition, directory, unredirected).recorded;
      recorded.Some? ==>
        && recorded.value.0 == RemoveTrailing(unredirected)
        && (recorded.value.1 == RemoveTrailing(unredirected) ||
            (op.redirectedFilename.Some? && recorded.value.1 == RemoveTrailing(op.redirectedFilename.value)))
  {
    hide Executors.TryInstruction, Executors.Prepared, NtCreate, RemoveTrailing;
    LastIsAFileToTry(Executors.Prepared(v, refuse, op).1, refuse, op, disposition, directory, unredirected);
  }

  lemma AssociatedIsUnredirected(
    rules: RuleIndex, op: FileOperationInstruction, prefix: wstring, p: wstring, suffix: wstring, allowsCreate: bool)
    requires ActsAsChosen(rules, op, prefix, p, suffix, allowsCreate)
    ensures op == NoRedirectionOrInterception() || op.filenameHandleAssociation == UnredirectedName
  {
  }

  lemma LastIsAFileToTry(
    v: Volume, refuse: Refusals, op: FileOperationInstruction, disposition: CreateDisposition, directory: bool,
    unredirected: wstring)
    ensures
      var last := Executors.TryInstruction(v, refuse, op, disposition, directory, unredirected).last;
      last.Some? ==> last.value == unredirected || (op.redirectedFilename.Some? && last == op.redirectedFilename)
  {
    hide Executors.TryInstruction, NtCreate, FilesToTry;
    Executors.InstructionIsDecidedByLastAttempt(v, refuse, op, disposition, directory, unredirected);
    var dispositions := Executors.SelectCreateDispositionsToTry(op.createDispositionPreference, disposition);
    var files := FilesToTry(op, unredirected);
    var r := Executors.TryInstruction(v, refuse, op, disposition, directory, unredirected);
    if r.last.Some? {
      var a :| a in Executors.Attempts(dispositions, files) && r.last == Some(a.path);
      AttemptsAreForFiles(dispositions, files, a);
      FilesAreTwo(op, unredirected, a.path);
    }
  }

  lemma FilesAreTwo(op: FileOperationInstruction, unredirected: wstring, file: wstring)
    requires file in FilesToTry(op, unredirected)
    ensures file == unredirected || op.redirectedFilename == Some(file)
  {
  }

  lemma {:induction false} AttemptsAreForFiles(
    dispositions: seq<Executors.DispositionToTry>, files: seq<wstring>, a: Executors.Attempt)
    requires a in Executors.Attempts(dispositions, files)
    ensures a.path in files
    decreases |dispositions|
  {
    if a in Executors.WithDisposition(dispositions[0], files) {
      AttemptsOfOne(dispositions[0], files, a);
    } else {
      AttemptsAreForFiles(dispositions[1..], files, a);
    }
  }

  lemma {:induction false} AttemptsOfOne(d: Executors.DispositionToTry, files: seq<wstring>, a: Executors.Attempt)
    requires a in Executors.WithDisposition(d, files)
    ensures a.path in files
    decreases |files|
  {
    if a.path != files[0] {
      AttemptsOfOne(d, files[1..], a);
    }
  }

  /** Enumerating a handle that a file operation left behind is never an internal error. */
  lemma RecordedHandleIsNoInternalError(
    rules: RuleIndex, fs: Filesystem, v: Volume, refuse: Refusals, prefix: wstring, p: wstring, suffix: wstring,
    allowsCreate: bool, disposition: CreateDisposition, directory: bool)
    requires Accepted(rules) && IsNamespacePrefix(prefix) && IsQueryPath(p) && IsSuffix(suffix)
    ensures
      var op := FileOperation(rules, fs, prefix + p + suffix, allowsCreate);
      var recorded := Executors.Execute(v, refuse, op, disposition, directory, prefix + p + suffix).recorded;
      recorded.Some? ==> !IsInternalError(ClassifyEnumeration(rules, recorded.value.0, recorded.value.1))
  {
    hide FileOperation, Executors.Execute, IsHandleFor;
    var op := FileOperation(rules, fs, prefix + p + suffix, allowsCreate);
    var recorded := Executors.Execute(v, refuse, op, disposition, directory, prefix + p + suffix).recorded;
    RecordedHandle(rules, fs, v, refuse, prefix, p, suffix, allowsCreate, disposition, directory);
    if recorded.Some? && recorded.value.1 != prefix + p {
      HandleIsClassified(rules, fs, prefix, p, allowsCreate, recorded.value.1);
    }
  }

  /** A name is listed exactly when opening it would reach something, and what is listed is what is reached, for
      opens of files and of directories alike. */
  lemma OpeningReachesWhatIsListed(
    rules: RuleIndex, fsThen: Filesystem, v: Volume, refuse: Refusals, prefix: wstring, p: wstring,
    dirAllowsCreate: bool, realOpenedPath: wstring, fileName: wstring, suffix: wstring, directory: bool)
    requires Accepted(rules) && IsNamespacePrefix(prefix) && IsQueryPath(p) && IsFileName(fileName) && IsSuffix(suffix)
    requires IsHandleFor(rules, fsThen, prefix, p, dirAllowsCreate, realOpenedPath)
    requires Extend(Key(p), Fold(fileName)) !in rules
    ensures
      var file := prefix + p + [BACKSLASH] + fileName + suffix;
      var op := FileOperation(rules, v.files, file, false);
      var opening := Executors.TryInstruction(v, refuse, op, FileOpen, directory, file);
      match FirstListing(
        v.files, DirectoriesToEnumerate(ClassifyEnumeration(rules, prefix + p, realOpenedPath)),
        prefix + p, realOpenedPath, fileName)
      case None => opening.status in NOT_FOUND_STATUSES
      case Some(listed) =>
        && opening.last.Some? && FsKey(opening.last.value) == listed
        && opening.status == NtCreate(v, refuse, listed, FileOpen, directory).0
  {
    hide FileOperation, ClassifyEnumeration, FirstListing, IsHandleFor, Executors.TryInstruction, NtCreate, Accepted;
    var file := prefix + p + [BACKSLASH] + fileName + suffix;
    var op := FileOperation(rules, v.files, file, false);
    ListingAgreesWithOpening(
      rules, fsThen, v.files, prefix, p, dirAllowsCreate, realOpenedPath, fileName, suffix, false);
    Executors.OpeningReaches(v, refuse, op, directory, file);
  }

  // ---------- Streams of directories ----------

  /** The two names under which a directory lists itself and its parent. */
  predicate IsDots(fileName: wstring) {
    fileName == [PERIOD] || fileName == [PERIOD, PERIOD]
  }

  predicate IsRealName(fileName: wstring) {
    IsFileName(fileName) && !IsDots(fileName)
  }

  /** The pattern of an enumeration lets a name through; an empty one lets all through. */
  predicate MatchesQuery(filePattern: wstring, fileName: wstring) {
    FileNameMatchesPattern(fileName, Fold(filePattern))
  }

  lemma MatchesQueryIgnoresCase(filePattern: wstring, a: wstring, b: wstring)
    requires Fold(a) == Fold(b)
    ensures MatchesQuery(filePattern, a) == MatchesQuery(filePattern, b)
  {
    assert FileNameMatchesPattern(a, Fold(filePattern)) == FileNameMatchesPattern(Fold(a), Fold(filePattern));
    assert FileNameMatchesPattern(b, Fold(filePattern)) == FileNameMatchesPattern(Fold(b), Fold(filePattern));
  }

  /** Which directories list themselves and their parents is left open, except that all do but roots of drives. */
  type SelfListing = f: Path -> bool | forall p :: |p| > 1 ==> f(p)
    witness (p: Path) => true

  const ListsItself: SelfListing

  predicate HasEntry(fs: Filesystem, directory: Path, fileName: wstring) {
    if IsDots(fileName) then ListsItself(directory) else directory + [Fold(fileName)] in fs
  }

  /** The system lists nothing of a directory for a pattern. */
  ghost predicate NothingMatches(fs: Filesystem, directory: Path, filePattern: wstring) {
    forall n :: HasEntry(fs, directory, n) ==> !MatchesQuery(filePattern, n)
  }

  predicate IsFile(fs: Filesystem, p: Path) {
    p != [] && p in fs && fs[p] == File
  }

  /** With what status an enumeration fails at once, if it does: its path is a file, or a directory of which nothing
      matches the pattern. It is no failure if there is nothing at the path. */
  ghost function FailureOf(
    fs: Filesystem, d: SingleDirectoryEnumeration, associatedPath: wstring, realOpenedPath: wstring,
    filePattern: wstring): Option<NtStatus>
    requires d.Valid()
  {
    var directory := FsKey(d.SelectDirectoryPath(associatedPath, realOpenedPath));
    if IsFile(fs, directory) then Some(STATUS_NOT_A_DIRECTORY)
    else if directory in fs && NothingMatches(fs, directory, filePattern) then Some(StatusNoSuchFile)
    else None
  }

  /** Without a pattern, and below the root of a drive, only a file makes an enumeration fail. */
  lemma FailsOnlyAtFiles(
    fs: Filesystem, d: SingleDirectoryEnumeration, associatedPath: wstring, realOpenedPath: wstring)
    requires d.Valid() && |FsKey(d.SelectDirectoryPath(associatedPath, realOpenedPath))| > 1
    ensures
      FailureOf(fs, d, associatedPath, realOpenedPath, [])
      == if IsFile(fs, FsKey(d.SelectDirectoryPath(associatedPath, realOpenedPath))) then Some(STATUS_NOT_A_DIRECTORY)
         else None
  {
    var directory := FsKey(d.SelectDirectoryPath(associatedPath, realOpenedPath));
    assert HasEntry(fs, directory, [PERIOD]) && MatchesQuery([], [PERIOD]);
  }

  /** An enumeration does not fail where some entry of the directory matches. */
  lemma DoesNotFail(
    fs: Filesystem, d: SingleDirectoryEnumeration, associatedPath: wstring, realOpenedPath: wstring,
    filePattern: wstring, n: wstring)
    requires d.Valid() && MatchesQuery(filePattern, n)
    requires
      var directory := FsKey(d.SelectDirectoryPath(associatedPath, realOpenedPath));
      !IsFile(fs, directory) && HasEntry(fs, directory, n)
    ensures FailureOf(fs, d, associatedPath, realOpenedPath, filePattern) == None
  {
  }

  /** The failure of the first enumeration that fails. */
  ghost function FirstFailure(
    fs: Filesystem, directories: seq<SingleDirectoryEnumeration>, associatedPath: wstring, realOpenedPath: wstring,
    filePattern: wstring): Option<NtStatus>
  {
    if directories == [] then None
    else if directories[0].Valid() && FailureOf(fs, directories[0], associatedPath, realOpenedPath, filePattern).Some?
    then FailureOf(fs, directories[0], associatedPath, realOpenedPath, filePattern)
    else FirstFailure(fs, directories[1..], associatedPath, realOpenedPath, filePattern)
  }

  /** A stream offers exactly the names that one enumeration yields and that match the pattern, in any order, and ends
      normally. */
  ghost predicate Enumerates(
    fs: Filesystem, s: Stream, d: SingleDirectoryEnumeration, associatedPath: wstring, realOpenedPath: wstring,
    filePattern: wstring)
  {
    && s.end == StatusNoMoreFiles
    && forall n :: IsRealName(n) ==>
        (Fold(n) in Names(s.entries) <==>
         Yields(fs, d, associatedPath, realOpenedPath, n) && MatchesQuery(filePattern, n))
  }

  /** What a stream has to do with the filesystem: nothing but an error if the enumeration fails, and otherwise what
      the enumeration yields. */
  ghost predicate Offers(
    fs: Filesystem, s: Stream, d: SingleDirectoryEnumeration, associatedPath: wstring, realOpenedPath: wstring,
    filePattern: wstring)
  {
    d.Valid() &&
    match FailureOf(fs, d, associatedPath, realOpenedPath, filePattern)
    case Some(error) => s == Stream([], error)
    case None => Enumerates(fs, s, d, associatedPath, realOpenedPath, filePattern)
  }

  lemma OfferedStream(
    fs: Filesystem, s: Stream, d: SingleDirectoryEnumeration, associatedPath: wstring, realOpenedPath: wstring,
    filePattern: wstring)
    requires Offers(fs, s, d, associatedPath, realOpenedPath, filePattern)
    ensures d.Valid()
    ensures
      match FailureOf(fs, d, associatedPath, realOpenedPath, filePattern)
      case Some(error) => s == Stream([], error) && error in {STATUS_NOT_A_DIRECTORY, StatusNoSuchFile}
      case None => s.end == StatusNoMoreFiles
  {
  }

  /** A scan of a directory as it is: complete, in whatever order, with those of its entries as names that match the
      pattern; and if there are none, the system says that there is no such file. */
  ghost predicate ScansDirectory(
    fs: Filesystem, layout: Layout, scan: Scan, directory: Path, filePattern: wstring)
    requires layout.Valid() && ValidScan(layout, scan)
  {
    BatchEntriesAreStructs(layout, scan);
    var entries := AsEntries(layout, BatchEntries(layout, scan.batches));
    && scan.end == (if entries == [] then StatusNoSuchFile else StatusNoMoreFiles)
    && forall n :: Fold(n) in Names(entries) <==> HasEntry(fs, directory, n) && MatchesQuery(filePattern, n)
  }

  lemma ShouldIncludeIgnoresCase(d: SingleDirectoryEnumeration, a: wstring, b: wstring)
    requires d.Valid() && Fold(a) == Fold(b)
    ensures d.ShouldInclude(a) == d.ShouldInclude(b)
  {
    match d.filePatternSource
    case NoSource =>
    case SingleRule(rule) =>
      MatchIgnoresCase(a, rule.filePatterns);
      MatchIgnoresCase(b, rule.filePatterns);
    case MultipleRules(rules) => FirstMatchIgnoresCase(rules, a, b);
  }

  lemma {:induction false} IncludedIsSorted(d: SingleDirectoryEnumeration, entries: seq<Entry>)
    requires d.Valid() && Sorted(entries)
    ensures Sorted(Included(d, entries))
    decreases |entries|
  {
    if entries != [] {
      var rest, kept := entries[1..], Included(d, entries[1..]);
      IncludedIsSorted(d, rest);
      forall k, l | 0 <= k < l < |Included(d, entries)|
        ensures !Before(Included(d, entries)[l], Included(d, entries)[k])
      {
        if d.ShouldInclude(entries[0].name) && k == 0 {
          IncludedMeaning(d, rest, kept[l - 1]);
        }
      }
    }
  }

  lemma IncludedNames(d: SingleDirectoryEnumeration, entries: seq<Entry>, n: wstring)
    requires d.Valid()
    ensures Fold(n) in Names(Included(d, entries)) <==> Fold(n) in Names(entries) && d.ShouldInclude(n)
  {
    if Fold(n) in Names(entries) && d.ShouldInclude(n) {
      var e :| e in entries && Fold(e.name) == Fold(n);
      ShouldIncludeIgnoresCase(d, e.name, n);
      IncludedMeaning(d, entries, e);
    }
    if Fold(n) in Names(Included(d, entries)) {
      var e :| e in Included(d, entries) && Fold(e.name) == Fold(n);
      ShouldIncludeIgnoresCase(d, e.name, n);
      IncludedMeaning(d, entries, e);
    }
  }

  /** A queue over a scan of a directory, however the scan is cut into batches, offers what the enumeration
      yields for the pattern, or fails if nothing in the directory matches it. */
  lemma FilteredScanOffers(
    fs: Filesystem, layout: Layout, scan: Scan, d: SingleDirectoryEnumeration, associatedPath: wstring,
    realOpenedPath: wstring, filePattern: wstring)
    requires d.Valid() && layout.Valid() && ValidScan(layout, scan)
    requires
      var path := d.SelectDirectoryPath(associatedPath, realOpenedPath);
      IsDirectory(fs, path) && ScansDirectory(fs, layout, scan, FsKey(path), filePattern)
    ensures Offers(fs, FilteredScan(d, layout, scan), d, associatedPath, realOpenedPath, filePattern)
  {
    hide MatchesQuery, HasEntry, FsKey, Fold, IsFileName;
    BatchEntriesAreStructs(layout, scan);
    var entries := AsEntries(layout, BatchEntries(layout, scan.batches));
    var directory := FsKey(d.SelectDirectoryPath(associatedPath, realOpenedPath));
    ScannedNothing(fs, directory, filePattern, entries);
    if entries != [] {
      forall n | IsRealName(n)
        ensures
          Fold(n) in Names(Included(d, entries)) <==>
          Yields(fs, d, associatedPath, realOpenedPath, n) && MatchesQuery(filePattern, n)
      {
        IncludedNames(d, entries, n);
        RealEntry(fs, directory, n);
      }
    }
  }

  lemma RealEntry(fs: Filesystem, directory: Path, fileName: wstring)
    requires IsRealName(fileName)
    ensures HasEntry(fs, directory, fileName) <==> directory + [Fold(fileName)] in fs
  {
  }

  lemma ScannedNothing(fs: Filesystem, directory: Path, filePattern: wstring, entries: seq<Entry>)
    requires
      forall n :: Fold(n) in Names(entries) <==> HasEntry(fs, directory, n) && MatchesQuery(filePattern, n)
    ensures entries == [] <==> NothingMatches(fs, directory, filePattern)
  {
    hide MatchesQuery, HasEntry;
    if entries != [] {
      assert entries[0] in entries && Fold(entries[0].name) in Names(entries);
    }
  }

  // ---------- The view of a directory ----------

  /** The streams behind the enumeration of a handle: one for each directory, and possibly one with names to
      insert, which are names of origin directories of deeper rules. That one fails if the system refuses a query. */
  ghost predicate StreamsOfHandle(
    rules: RuleIndex, fs: Filesystem, directories: seq<SingleDirectoryEnumeration>, associatedPath: wstring,
    realOpenedPath: wstring, inside: Path, filePattern: wstring, streams: seq<Stream>)
  {
    && |directories| <= |streams| <= |directories| + 1
    && (forall i :: 0 <= i < |directories| ==>
          Offers(fs, streams[i], directories[i], associatedPath, realOpenedPath, filePattern))
    && (|streams| > |directories| ==>
          forall e :: e in streams[|directories|].entries ==> Extend(inside, Fold(e.name)) in rules)
  }

  /** A stream comes to a folded name before it shows anything above another one. */
  predicate ComesUnder(s: Stream, c: wstring, a: wstring) {
    c in Names(s.entries) && !Less(a, Reach(s.entries, c))
  }

  /** The same for one of the names of another stream. */
  ghost predicate ComesBefore(s: Stream, c: wstring, other: Stream) {
    exists e :: e in other.entries && ComesUnder(s, c, Fold(e.name))
  }

  /** The stream of names to insert, if there is one and it fails, does not do so before a folded name. */
  ghost predicate NotCutOff(streams: seq<Stream>, directories: nat, c: wstring) {
    |streams| > directories && streams[directories].end != StatusNoMoreFiles ==>
      exists s :: s in streams && ComesBefore(s, c, streams[directories])
  }

  lemma {:induction false} FirstListingMeaning(
    fs: Filesystem, directories: seq<SingleDirectoryEnumeration>, associatedPath: wstring, realOpenedPath: wstring,
    n: wstring)
    ensures
      match FirstListing(fs, directories, associatedPath, realOpenedPath, n)
      case None => forall i :: 0 <= i < |directories| ==> !Yields(fs, directories[i], associatedPath, realOpenedPath, n)
      case Some(entity) =>
        exists i :: 0 <= i < |directories| && Yields(fs, directories[i], associatedPath, realOpenedPath, n)
          && entity == FsKey(directories[i].SelectDirectoryPath(associatedPath, realOpenedPath)) + [Fold(n)]
          && forall j :: 0 <= j < i ==> !Yields(fs, directories[j], associatedPath, realOpenedPath, n)
    decreases |directories|
  {
    hide FsKey, Fold, SingleDirectoryEnumeration.ShouldInclude, SingleDirectoryEnumeration.Valid;
    if directories != [] && !Yields(fs, directories[0], associatedPath, realOpenedPath, n) {
      var rest := directories[1..];
      FirstListingMeaning(fs, rest, associatedPath, realOpenedPath, n);
      match FirstListing(fs, rest, associatedPath, realOpenedPath, n)
      case None =>
        forall i | 0 <= i < |directories|
          ensures !Yields(fs, directories[i], associatedPath, realOpenedPath, n)
        {
          assert i > 0 ==> directories[i] == rest[i - 1];
        }
      case Some(entity) =>
        var i :| 0 <= i < |rest| && Yields(fs, rest[i], associatedPath, realOpenedPath, n)
          && entity == FsKey(rest[i].SelectDirectoryPath(associatedPath, realOpenedPath)) + [Fold(n)]
          && forall j :: 0 <= j < i ==> !Yields(fs, rest[j], associatedPath, realOpenedPath, n);
        assert directories[i + 1] == rest[i];
        forall j | 0 <= j < i + 1
          ensures !Yields(fs, directories[j], associatedPath, realOpenedPath, n)
        {
          assert j > 0 ==> directories[j] == rest[j - 1];
        }
    }
  }

  /** The streams that have a name. */
  lemma StreamsWithName(
    rules: RuleIndex, fs: Filesystem, directories: seq<SingleDirectoryEnumeration>, associatedPath: wstring,
    realOpenedPath: wstring, inside: Path, filePattern: wstring, streams: seq<Stream>, n: wstring)
    requires
      StreamsOfHandle(rules, fs, directories, associatedPath, realOpenedPath, inside, filePattern, streams)
    requires IsRealName(n) && Extend(inside, Fold(n)) !in rules
    ensures
      forall i :: 0 <= i < |streams| ==>
        (Fold(n) in Names(streams[i].entries) <==>
         && i < |directories| && Yields(fs, directories[i], associatedPath, realOpenedPath, n)
         && MatchesQuery(filePattern, n))
  {
    hide Offers, Names, Yields, Sorted, Fold, IsFileName, MatchesQuery;
    forall i | 0 <= i < |streams|
      ensures
        Fold(n) in Names(streams[i].entries) <==>
        && i < |directories| && Yields(fs, directories[i], associatedPath, realOpenedPath, n)
        && MatchesQuery(filePattern, n)
    {
      if i < |directories| {
        OfferedNames(fs, streams[i], directories[i], associatedPath, realOpenedPath, filePattern, n);
      } else {
        NotInserted(rules, inside, streams[i], n);
      }
    }
  }

  lemma NotInserted(rules: RuleIndex, inside: Path, s: Stream, n: wstring)
    requires forall e :: e in s.entries ==> Extend(inside, Fold(e.name)) in rules
    requires Extend(inside, Fold(n)) !in rules
    ensures Fold(n) !in Names(s.entries)
  {
  }

  /** A stream has exactly the names its enumeration yields for the pattern, also if it fails. */
  lemma OfferedNames(
    fs: Filesystem, s: Stream, d: SingleDirectoryEnumeration, associatedPath: wstring, realOpenedPath: wstring,
    filePattern: wstring, n: wstring)
    requires Offers(fs, s, d, associatedPath, realOpenedPath, filePattern) && IsRealName(n)
    ensures
      Fold(n) in Names(s.entries) <==>
      Yields(fs, d, associatedPath, realOpenedPath, n) && MatchesQuery(filePattern, n)
  {
    hide FsKey, Fold, MatchesQuery;
    if FailureOf(fs, d, associatedPath, realOpenedPath, filePattern).Some? {
      var directory := FsKey(d.SelectDirectoryPath(associatedPath, realOpenedPath));
      assert Parent(directory + [Fold(n)]) == directory;
      RealEntry(fs, directory, n);
    }
  }

  /** The first directory that fails is the first stream that does, and if none fails, all end normally. */
  lemma {:induction false} FailuresOfStreams(
    fs: Filesystem, directories: seq<SingleDirectoryEnumeration>, associatedPath: wstring, realOpenedPath: wstring,
    filePattern: wstring, streams: seq<Stream>)
    requires |directories| <= |streams|
    requires
      forall i :: 0 <= i < |directories| ==>
        Offers(fs, streams[i], directories[i], associatedPath, realOpenedPath, filePattern)
    ensures
      match FirstFailure(fs, directories, associatedPath, realOpenedPath, filePattern)
      case Some(error) => FirstError(streams) == Some(error) && error != StatusNoMoreFiles
      case None => forall i :: 0 <= i < |directories| ==> streams[i].end == StatusNoMoreFiles
    decreases |directories|
  {
    hide Offers, FailureOf;
    if directories != [] {
      OfferedStream(fs, streams[0], directories[0], associatedPath, realOpenedPath, filePattern);
      if FailureOf(fs, directories[0], associatedPath, realOpenedPath, filePattern) == None {
        FailuresOfStreams(fs, directories[1..], associatedPath, realOpenedPath, filePattern, streams[1..]);
        forall i | 0 <= i < |directories|
            && FirstFailure(fs, directories, associatedPath, realOpenedPath, filePattern) == None
          ensures streams[i].end == StatusNoMoreFiles
        {
          assert i > 0 ==> streams[i] == streams[1..][i - 1];
        }
      }
    }
  }

  /** If one of the directories fails, the merged stream is nothing but the first failure. */
  lemma FailureMakesMergeFail(
    rules: RuleIndex, fs: Filesystem, directories: seq<SingleDirectoryEnumeration>, associatedPath: wstring,
    realOpenedPath: wstring, inside: Path, filePattern: wstring, streams: seq<Stream>)
    requires
      StreamsOfHandle(rules, fs, directories, associatedPath, realOpenedPath, inside, filePattern, streams)
    requires FirstFailure(fs, directories, associatedPath, realOpenedPath, filePattern).Some?
    ensures
      var error := FirstFailure(fs, directories, associatedPath, realOpenedPath, filePattern).value;
      Merge(streams).entries == [] && Merge(streams).end == error && error != StatusNoMoreFiles
  {
    hide Offers, Sorted, Extend, Fold, FirstError, FirstFailure;
    FailuresOfStreams(fs, directories, associatedPath, realOpenedPath, filePattern, streams);
  }

  /** Then no run delivers anything, and every call says so. */
  lemma {:induction false} FailedStreamDeliversNothing(s: Stream, calls: seq<Enumerations.Call>,
    next: Enumerations.Call)
    requires s.entries == [] && s.end != StatusNoMoreFiles
    ensures
      var (delivered, after) := Enumerations.Run(Enumerations.Started(s), calls);
      delivered == [] && after.stream == s && Enumerations.Advance(after, next).status == s.end
  {
    Enumerations.RunDelivers(Enumerations.Started(s), calls);
    var after := Enumerations.Run(Enumerations.Started(s), calls).1;
    Enumerations.NothingDue(Enumerations.Started(s));
    Enumerations.NothingDue(after);
  }

  /** If no directory fails, a stream gets a name through exactly if the stream of names to insert does not fail
      before. */
  lemma InTimeMeaning(
    rules: RuleIndex, fs: Filesystem, directories: seq<SingleDirectoryEnumeration>, associatedPath: wstring,
    realOpenedPath: wstring, inside: Path, filePattern: wstring, streams: seq<Stream>, c: wstring, j: nat)
    requires
      StreamsOfHandle(rules, fs, directories, associatedPath, realOpenedPath, inside, filePattern, streams)
    requires FirstFailure(fs, directories, associatedPath, realOpenedPath, filePattern) == None
    requires j < |streams| && c in Names(streams[j].entries)
    ensures
      var n := |directories|;
      GetsThrough(streams, c, j) <==>
      |streams| <= n || streams[n].end == StatusNoMoreFiles || ComesBefore(streams[j], c, streams[n])
  {
    hide Offers, Extend, Fold, FirstFailure, Names, Reach, ComesBefore, AtMost;
    FailuresOfStreams(fs, directories, associatedPath, realOpenedPath, filePattern, streams);
    var n := |directories|;
    if |streams| > n {
      NotBehindMeaning(streams[j], c, j, streams[n], n);
      assert ComesInTime(streams, Reach(streams[j].entries, c), j) ==>
          NotBehind(Reach(streams[j].entries, c), j, streams[n], n);
    }
  }

  lemma NotBehindMeaning(s: Stream, c: wstring, from: nat, other: Stream, i: nat)
    requires c in Names(s.entries) && from <= i
    ensures
      NotBehind(Reach(s.entries, c), from, other, i) <==>
      other.end == StatusNoMoreFiles || ComesBefore(s, c, other)
  {
    hide Less, Fold, Names, Reach, Top;
    if other.entries != [] {
      TopIsThere(other.entries);
      var r, top := Reach(s.entries, c), Top(other.entries);
      LessOrder(r, top, top);
      forall e | e in other.entries
        ensures !Less(Fold(e.name), r) ==> !Less(top, r)
      {
        LessOrder(Fold(e.name), top, r);
      }
    }
  }

  /** The names in the merged stream, if no directory fails. */
  lemma NamesThrough(
    rules: RuleIndex, fs: Filesystem, directories: seq<SingleDirectoryEnumeration>, associatedPath: wstring,
    realOpenedPath: wstring, inside: Path, filePattern: wstring, streams: seq<Stream>, c: wstring)
    requires
      StreamsOfHandle(rules, fs, directories, associatedPath, realOpenedPath, inside, filePattern, streams)
    requires FirstFailure(fs, directories, associatedPath, realOpenedPath, filePattern) == None
    ensures
      c in Names(Merge(streams).entries) <==>
      NotCutOff(streams, |directories|, c) && exists i :: 0 <= i < |streams| && c in Names(streams[i].entries)
  {
    hide Merge, StreamsOfHandle, ComesBefore, FirstFailure, GetsThrough, Names;
    var n := |directories|;
    MergedNames(streams, c);
    forall j: nat
      ensures
        GetsThrough(streams, c, j) <==>
        && j < |streams| && c in Names(streams[j].entries)
        && (|streams| <= n || streams[n].end == StatusNoMoreFiles || ComesBefore(streams[j], c, streams[n]))
    {
      HasName(streams, c, j);
      if j < |streams| && c in Names(streams[j].entries) {
        InTimeMeaning(
          rules, fs, directories, associatedPath, realOpenedPath, inside, filePattern, streams, c, j);
      }
    }
    if s :| s in streams && |streams| > n && ComesBefore(s, c, streams[n]) {
      ComesToName(s, c, streams[n]);
      var j: nat :| j < |streams| && streams[j] == s;
    }
  }

  lemma HasName(streams: seq<Stream>, c: wstring, j: nat)
    ensures GetsThrough(streams, c, j) ==> j < |streams| && c in Names(streams[j].entries)
  {
    hide Names, ComesInTime, Reach;
  }

  lemma ComesToName(s: Stream, c: wstring, other: Stream)
    requires ComesBefore(s, c, other)
    ensures c in Names(s.entries)
  {
  }

  /** What a complete enumeration delivers, in any number of calls with any buffers: a name exactly if it matches the
      pattern, some directory yields it, none of the directories fails, and the names to insert do not cut it off;
      and each name once. */
  lemma CompleteRunDelivers(
    rules: RuleIndex, fs: Filesystem, directories: seq<SingleDirectoryEnumeration>, associatedPath: wstring,
    realOpenedPath: wstring, inside: Path, filePattern: wstring, streams: seq<Stream>, calls: seq<Enumerations.Call>,
    n: wstring)
    requires
      StreamsOfHandle(rules, fs, directories, associatedPath, realOpenedPath, inside, filePattern, streams)
    requires IsRealName(n) && Extend(inside, Fold(n)) !in rules
    requires
      Enumerations.Run(Enumerations.Started(Stream(Merge(streams).entries, Merge(streams).end)),
          calls).1.stream.entries == []
    ensures
      var delivered :=
        Enumerations.Run(Enumerations.Started(Stream(Merge(streams).entries, Merge(streams).end)), calls).0;
      && delivered == Dedupe(Merge(streams).entries, {})
      && (Fold(n) in Names(delivered) <==>
          && FirstFailure(fs, directories, associatedPath, realOpenedPath, filePattern) == None
          && NotCutOff(streams, |directories|, Fold(n))
          && MatchesQuery(filePattern, n)
          && FirstListing(fs, directories, associatedPath, realOpenedPath, n).Some?)
  {
    hide Merge, Enumerations.Run, Yields, StreamsOfHandle, Dedupe, FirstListing, FirstFailure, NotCutOff, MatchesQuery;
    Enumerations.CompleteRunDeliversAll(Stream(Merge(streams).entries, Merge(streams).end), calls);
    DedupeKeepsNames(Merge(streams).entries, {});
    if FirstFailure(fs, directories, associatedPath, realOpenedPath, filePattern) == None {
      hide Names;
      NamesThrough(
        rules, fs, directories, associatedPath, realOpenedPath, inside, filePattern, streams, Fold(n));
      StreamsWithName(
        rules, fs, directories, associatedPath, realOpenedPath, inside, filePattern, streams, n);
      FirstListingMeaning(fs, directories, associatedPath, realOpenedPath, n);
      StreamCount(rules, fs, directories, associatedPath, realOpenedPath, inside, filePattern, streams);
    } else {
      FailureMakesMergeFail(
        rules, fs, directories, associatedPath, realOpenedPath, inside, filePattern, streams);
    }
  }

  lemma StreamCount(
    rules: RuleIndex, fs: Filesystem, directories: seq<SingleDirectoryEnumeration>, associatedPath: wstring,
    realOpenedPath: wstring, inside: Path, filePattern: wstring, streams: seq<Stream>)
    requires
      StreamsOfHandle(rules, fs, directories, associatedPath, realOpenedPath, inside, filePattern, streams)
    ensures |directories| <= |streams| <= |directories| + 1
  {
  }

  /** Where the entry that is delivered for a name comes from: of all directories that yield the name, from the one
      whose listing comes to it lowest, and the first of these. The first directory of all that yields the name is the
      one whose entity opening would reach; it supplies the entry if and only if the listing of no later one comes to
      the name lower. */
  lemma DeliveredFromFirst(
    rules: RuleIndex, fs: Filesystem, directories: seq<SingleDirectoryEnumeration>, associatedPath: wstring,
    realOpenedPath: wstring, inside: Path, filePattern: wstring, streams: seq<Stream>, n: wstring, k: nat)
    returns (e: nat)
    requires
      StreamsOfHandle(rules, fs, directories, associatedPath, realOpenedPath, inside, filePattern, streams)
    requires IsRealName(n) && Extend(inside, Fold(n)) !in rules
    requires k < |Merge(streams).entries| && IsFirst(Merge(streams).entries, k)
    requires Fold(Merge(streams).entries[k].name) == Fold(n)
    ensures e < |directories| && directories[e].Valid()
    ensures
      FirstListing(fs, directories, associatedPath, realOpenedPath, n)
      == Some(FsKey(directories[e].SelectDirectoryPath(associatedPath, realOpenedPath)) + [Fold(n)])
    ensures forall j :: 0 <= j < e ==> !Yields(fs, directories[j], associatedPath, realOpenedPath, n)
    ensures
      var i := Merge(streams).sources[k];
      && |directories| <= |streams| && i < |directories|
      && Yields(fs, directories[i], associatedPath, realOpenedPath, n)
      && Fold(n) in Names(streams[i].entries) && Fold(n) in Names(streams[e].entries)
      && (i == e <==>
          forall j :: e < j < |directories| && Fold(n) in Names(streams[j].entries) ==>
            !Less(Reach(streams[j].entries, Fold(n)), Reach(streams[e].entries, Fold(n))))
      && forall j :: 0 <= j < |directories| && Fold(n) in Names(streams[j].entries) ==>
          AtMost(Reach(streams[i].entries, Fold(n)), i, Reach(streams[j].entries, Fold(n)), j)
  {
    hide Merge, Names, Yields, StreamsOfHandle, FirstListing, FsKey, IsFirst, MatchesQuery, Reach, AtMost, Less, Fold;
    var i := Merge(streams).sources[k];
    StreamCount(rules, fs, directories, associatedPath, realOpenedPath, inside, filePattern, streams);
    StreamsWithName(
      rules, fs, directories, associatedPath, realOpenedPath, inside, filePattern, streams, n);
    SourceHasName(streams, k);
    e := FirstYielding(fs, directories, associatedPath, realOpenedPath, n, i);
    EarliestStreamWins(streams, k, e);
    forall j: nat | j < |directories| && Fold(n) in Names(streams[j].entries)
      ensures AtMost(Reach(streams[i].entries, Fold(n)), i, Reach(streams[j].entries, Fold(n)), j)
    {
      FirstComesFrom(streams, k, j);
    }
  }

  /** The first directory that yields a name. */
  lemma FirstYielding(
    fs: Filesystem, directories: seq<SingleDirectoryEnumeration>, associatedPath: wstring, realOpenedPath: wstring,
    n: wstring, i: nat)
    returns (e: nat)
    requires i < |directories| && Yields(fs, directories[i], associatedPath, realOpenedPath, n)
    ensures e <= i && directories[e].Valid() && Yields(fs, directories[e], associatedPath, realOpenedPath, n)
    ensures forall j :: 0 <= j < e ==> !Yields(fs, directories[j], associatedPath, realOpenedPath, n)
    ensures
      FirstListing(fs, directories, associatedPath, realOpenedPath, n)
      == Some(FsKey(directories[e].SelectDirectoryPath(associatedPath, realOpenedPath)) + [Fold(n)])
  {
    hide FsKey, Fold, FirstListing, SingleDirectoryEnumeration.ShouldInclude, SingleDirectoryEnumeration.Valid;
    FirstListingMeaning(fs, directories, associatedPath, realOpenedPath, n);
    e :|
      0 <= e < |directories| && Yields(fs, directories[e], associatedPath, realOpenedPath, n)
      && FirstListing(fs, directories, associatedPath, realOpenedPath, n)
         == Some(FsKey(directories[e].SelectDirectoryPath(associatedPath, realOpenedPath)) + [Fold(n)])
      && forall j :: 0 <= j < e ==> !Yields(fs, directories[j], associatedPath, realOpenedPath, n);
  }

  lemma SourceHasName(streams: seq<Stream>, k: nat)
    requires k < |Merge(streams).entries|
    ensures Merge(streams).sources[k] < |streams|
    ensures Fold(Merge(streams).entries[k].name) in Names(streams[Merge(streams).sources[k]].entries)
  {
    MergeSources(streams, k);
  }

  /** The whole way: for a handle that was opened through the program, a complete enumeration, in any number of
      calls with any buffers, delivers a name exactly if it matches the pattern, opening a file of that name would
      find something, no directory enumerated for the handle fails, and the names to insert do not cut it off. */
  lemma ApplicationsSeeWhatTheyCanOpen(
    rules: RuleIndex, fsThen: Filesystem, fs: Filesystem, prefix: wstring, p: wstring, dirAllowsCreate: bool,
    realOpenedPath: wstring, filePattern: wstring, streams: seq<Stream>, calls: seq<Enumerations.Call>,
    fileName: wstring, suffix: wstring, allowsCreate: bool)
    requires Accepted(rules) && IsNamespacePrefix(prefix) && IsQueryPath(p) && IsRealName(fileName) && IsSuffix(suffix)
    requires IsHandleFor(rules, fsThen, prefix, p, dirAllowsCreate, realOpenedPath)
    requires Extend(Key(p), Fold(fileName)) !in rules
    requires
      StreamsOfHandle(
        rules, fs, DirectoriesToEnumerate(ClassifyEnumeration(rules, prefix + p, realOpenedPath)),
        prefix + p, realOpenedPath, Key(p), filePattern, streams)
    requires
      Enumerations.Run(Enumerations.Started(Stream(Merge(streams).entries, Merge(streams).end)),
          calls).1.stream.entries == []
    ensures
      var delivered :=
        Enumerations.Run(Enumerations.Started(Stream(Merge(streams).entries, Merge(streams).end)), calls).0;
      var directories := DirectoriesToEnumerate(ClassifyEnumeration(rules, prefix + p, realOpenedPath));
      var file := prefix + p + [BACKSLASH] + fileName + suffix;
      Fold(fileName) in Names(delivered) <==>
        && FirstFailure(fs, directories, prefix + p, realOpenedPath, filePattern) == None
        && NotCutOff(streams, |directories|, Fold(fileName))
        && MatchesQuery(filePattern, fileName)
        && FirstExisting(fs, FilesToTry(FileOperation(rules, fs, file, allowsCreate), file)).Some?
  {
    hide Merge, Enumerations.Run, Names, StreamsOfHandle, FirstListing, FirstExisting, FileOperation, FilesToTry;
    hide ClassifyEnumeration, DirectoriesToEnumerate, IsHandleFor, Accepted, Dedupe, FirstFailure, NotCutOff;
    var directories := DirectoriesToEnumerate(ClassifyEnumeration(rules, prefix + p, realOpenedPath));
    CompleteRunDelivers(
      rules, fs, directories, prefix + p, realOpenedPath, Key(p), filePattern, streams, calls, fileName);
    ListingAgreesWithOpening(
      rules, fsThen, fs, prefix, p, dirAllowsCreate, realOpenedPath, fileName, suffix, allowsCreate);
  }
}
