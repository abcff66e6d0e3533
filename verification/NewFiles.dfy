/** Creating files through the program: the directory that a redirected file needs is made first, so new files
    end up on the target side even where the target directory did not exist before. */
module NewFiles {
  import opened Wrappers
  import opened Text
  import opened NtStatuses
  import opened Rules
  import opened PrefixTrees
  import opened Filesystems
  import opened Instructions
  import opened Directors
  import opened Redirections
  import opened Agreement
  import opened Listing
  import opened Volumes
  import opened DirectoryHierarchies
  import Executors

  /** The drive that holds a path is there. */
  predicate DriveExists(files: Filesystem, p: Path) {
    p != [] && IsRealDirectory(files, p[..1])
  }

  /** A path is a level of a directory: the directory itself or one above it. */
  predicate IsLevelOf(directory: Path, q: Path) {
    exists n :: 0 < n <= |directory| && q == directory[..n]
  }

  /** A successful pre-operation leaves the requested directory behind, and changes nothing but missing levels
      of it. */
  lemma PreparedDirectoryExists(v: Volume, refuse: Refusals, op: FileOperationInstruction, directory: Path)
    requires op.ensureHierarchy.Some? && AsksFor(op.ensureHierarchy.value, directory)
    requires DriveExists(v.files, directory) && NtSuccess(Executors.Prepared(v, refuse, op).0)
    ensures IsRealDirectory(Executors.Prepared(v, refuse, op).1.files, directory)
    ensures
      forall q :: q in Executors.Prepared(v, refuse, op).1.files ==>
        q in v.files || IsLevelOf(directory, q)
  {
    hide CreateHierarchy, FsKey, Key, Creates, HasDriveLetterPrefix;
    var reached := CreateHierarchyMeaning(v, refuse, directory);
    assert Executors.Prepared(v, refuse, op) == CreateHierarchy(v, refuse, directory);
    assert directory[..|directory|] == directory;
    var after := CreateHierarchy(v, refuse, directory).1;
    forall q | q in after.files && q !in v.files
      ensures IsLevelOf(directory, q)
    {
      OnlyLevelsAreNew(v, after, directory, DeepestDirectory(v.files, directory), reached, q);
    }
  }

  lemma OnlyLevelsAreNew(v: Volume, after: Volume, p: Path, from: nat, reached: nat, q: Path)
    requires from <= reached <= |p| && Creates(v, after, p, from, reached) && q in after.files && q !in v.files
    ensures IsLevelOf(p, q)
  {
    WithLevelsMeaning(v.files, p, from, reached, Directory, q);
  }

  lemma FirstLevelKept(p: Path)
    requires |p| >= 2
    ensures Parent(p) != [] && Parent(p)[..1] == p[..1]
  {
  }

  lemma ParentMakesRoom(files: Filesystem, p: Path)
    requires |p| >= 2 && IsRealDirectory(files, Parent(p))
    ensures HasParent(files, p)
  {
  }

  lemma LevelsAreShorter(p: Path, n: nat)
    requires |p| >= 2 && n <= |Parent(p)|
    ensures p != Parent(p)[..n]
  {
  }

  /** What is known about the operation on a file or directory that a rule redirects and that may have to be created;
      the application may have put a backslash at the end of the path. */
  ghost predicate CreatesThrough(
    rules: RuleIndex, fs: Filesystem, prefix: wstring, p: wstring, suffix: wstring, c: Choice,
    op: FileOperationInstruction)
  {
    && WellFormed(rules) && IsNamespacePrefix(prefix) && IsQueryPath(p) && IsSuffix(suffix)
    && ChooseRule(rules, Key(p)) == Some(c) && c.origin <= Key(p)
    && op == FileOperation(rules, fs, prefix + p + suffix, true)
  }

  lemma OperandForTarget(
    rules: RuleIndex, fs: Filesystem, prefix: wstring, p: wstring, suffix: wstring, c: Choice,
    op: FileOperationInstruction)
    requires CreatesThrough(rules, fs, prefix, p, suffix, c, op)
    ensures
      var target := RedirectedPath(rules, Key(p), c);
      && |target| >= 2 && Key(p) != [] && op.redirectedFilename.Some? && FsKey(op.redirectedFilename.value) == target
      && FsKey(prefix + p + suffix) == Key(p)
      && (op.ensureHierarchy.Some? <==> NeedsHierarchy(rules, fs, Key(p), true))
      && (op.ensureHierarchy.Some? ==> AsksFor(op.ensureHierarchy.value, Parent(target)))
    ensures
      if ChosenRule(rules, c).redirectMode == Overlay then Executors.IsOverlay(op)
      else op.filenamesToTry == RedirectedOnly && op.createDispositionPreference == NoPreference
  {
    hide FileOperation, FsKey, Key, NeedsHierarchy, AsksFor, BeginsWithDriveLetter, LeadsTo, ChooseRule, WellFormed;
    hide Normalised, NamespacePrefix, RemoveTrailing;
    FsKeyOfWrapped(prefix, p, suffix);
    PreOperationMeaning(rules, fs, prefix, p, suffix, true, prefix + p + suffix);
    FileOperationMeaning(rules, fs, prefix, p, suffix, true, prefix + p + suffix);
    LeadKey(op.redirectedFilename.value, prefix, RedirectedPath(rules, Key(p), c), suffix);
  }

  /** A redirected path is never below the path it is redirected from. */
  lemma RedirectedIsNotBelow(rules: RuleIndex, path: Path, c: Choice)
    requires Accepted(rules) && IsRule(rules, c.origin, c.index) && c.origin <= path
    ensures path <= RedirectedPath(rules, path, c) ==> path == RedirectedPath(rules, path, c)
  {
    var o, target, redirected := c.origin, Key(ChosenRule(rules, c).target), RedirectedPath(rules, path, c);
    assert TargetApart(rules, o, c.index, o, c.index);
    if path <= redirected {
      PrefixesAreComparable(o, target, redirected);
      if target == o {
        assert redirected == path;
      }
    }
  }

  /** Making the directory for a redirected file never touches the place the application asked for. */
  lemma OriginSideIsNoLevel(rules: RuleIndex, path: Path, c: Choice, n: nat)
    requires Accepted(rules) && IsRule(rules, c.origin, c.index) && c.origin <= path
    requires |RedirectedPath(rules, path, c)| >= 2 && n <= |Parent(RedirectedPath(rules, path, c))|
    ensures path != Parent(RedirectedPath(rules, path, c))[..n]
  {
    RedirectedIsNotBelow(rules, path, c);
    var redirected := RedirectedPath(rules, path, c);
    assert Parent(redirected)[..n] == redirected[..n] && redirected[..n] <= redirected;
  }

  /** The volume once the directory for the file has been made sure of: neither the file itself nor what the
      application names is there if it was not there before. */
  lemma StillMissing(
    rules: RuleIndex, fs: Filesystem, v: Volume, refuse: Refusals, prefix: wstring, p: wstring, suffix: wstring,
    c: Choice, op: FileOperationInstruction)
    requires Accepted(rules) && CreatesThrough(rules, fs, prefix, p, suffix, c, op) && op.ensureHierarchy.Some?
    requires |RedirectedPath(rules, Key(p), c)| >= 2
    requires AsksFor(op.ensureHierarchy.value, Parent(RedirectedPath(rules, Key(p), c)))
    requires DriveExists(v.files, RedirectedPath(rules, Key(p), c))
    requires NtSuccess(Executors.Prepared(v, refuse, op).0)
    ensures HasParent(Executors.Prepared(v, refuse, op).1.files, RedirectedPath(rules, Key(p), c))
    ensures
      forall q :: q in {Key(p), RedirectedPath(rules, Key(p), c)} && q !in v.files ==>
        q !in Executors.Prepared(v, refuse, op).1.files
    ensures
      forall q :: q in Executors.Prepared(v, refuse, op).1.files && q !in v.files ==>
        IsLevelOf(Parent(RedirectedPath(rules, Key(p), c)), q)
  {
    hide FileOperation, Key, AsksFor, IsQueryPath, ChooseRule, Executors.Prepared, RedirectedPath;
    var target := RedirectedPath(rules, Key(p), c);
    FirstLevelKept(target);
    PreparedDirectoryExists(v, refuse, op, Parent(target));
    var after := Executors.Prepared(v, refuse, op).1.files;
    ParentMakesRoom(after, target);
    forall q | q in {Key(p), target} && q !in v.files
      ensures q !in after
    {
      if n: nat :| 0 < n <= |Parent(target)| && q == Parent(target)[..n] {
        LevelsAreShorter(target, n);
        OriginSideIsNoLevel(rules, Key(p), c, n);
      }
    }
  }

  /** Attempts that end with the file or directory being created at one place. */
  lemma CreatedThere(
    v: Volume, refuse: Refusals, op: FileOperationInstruction, disposition: CreateDisposition, directory: bool,
    unredirected: wstring)
    requires op.redirectedFilename.Some? && disposition in {FileCreate, FileOpenIf, FileOverwriteIf, FileSupersede}
    requires
      Executors.IsOverlay(op)
      || (op.filenamesToTry == RedirectedOnly && op.createDispositionPreference == NoPreference)
    requires HasParent(v.files, FsKey(op.redirectedFilename.value)) && !Exists(v.files, op.redirectedFilename.value)
    requires Executors.IsOverlay(op) && disposition != FileCreate ==> !Exists(v.files, unredirected)
    requires refuse(FsKey(op.redirectedFilename.value)) == None
    ensures
      var r := Executors.TryInstruction(v, refuse, op, disposition, directory, unredirected);
      && r.status == StatusSuccess && r.last == op.redirectedFilename
      && r.volume.files == v.files[FsKey(op.redirectedFilename.value) := if directory then Directory else File]
  {
    hide FsKey, HasParent;
    var target := op.redirectedFilename.value;
    if Executors.IsOverlay(op) {
      hide Executors.TryInstruction;
      if disposition == FileCreate {
        Executors.OverlayCreate(v, refuse, op, directory, unredirected);
      } else {
        Executors.OverlayOpenOrCreate(v, refuse, op, disposition, directory, unredirected);
      }
    } else {
      var files := FilesToTry(op, unredirected);
      var dispositions := Executors.SelectCreateDispositionsToTry(op.createDispositionPreference, disposition);
      assert dispositions == [Executors.Always(disposition)] && files[0] == target;
      var attempts := Executors.Attempts(dispositions, files);
      assert attempts[0] == Executors.Attempt(Executors.Unconditional, disposition, target);
      Executors.FirstStops(Executors.Start(v), refuse, attempts, directory);
    }
  }

  lemma RecordedName(
    rules: RuleIndex, fs: Filesystem, prefix: wstring, p: wstring, suffix: wstring, c: Choice,
    op: FileOperationInstruction)
    requires CreatesThrough(rules, fs, prefix, p, suffix, c, op)
    ensures op != NoRedirectionOrInterception() && op.filenameHandleAssociation == UnredirectedName
    ensures RemoveTrailing(prefix + p + suffix) == prefix + p && prefix + p + suffix != []
  {
    hide FileOperation, Key, BeginsWithDriveLetter, LeadsTo, ChooseRule, WellFormed, NamespacePrefix, RemoveTrailing;
    FileOperationMeaning(rules, fs, prefix, p, suffix, true, prefix + p + suffix);
    NormalisedEnds(p);
    TrimmedRedirected(prefix, p, suffix);
  }

  /** What a disposition that opens existing files would open instead, under Overlay. */
  ghost predicate OpensOriginSide(rules: RuleIndex, v: Volume, c: Choice, p: Path, disposition: CreateDisposition)
    requires c.origin in rules && c.index < |rules[c.origin]|
  {
    ChosenRule(rules, c).redirectMode == Overlay && disposition != FileCreate && p in v.files
  }

  /** Creating what does not exist on the target side, and is not opened on the origin side instead: if the
      application can see the directory in which it creates, then the file or directory is created in the target
      directory of the rule, which is made first if need be, and the handle is recorded under the path the
      application used. */
  lemma NewFilesGoToTheTarget(
    rules: RuleIndex, fs: Filesystem, v: Volume, refuse: Refusals, prefix: wstring, p: wstring, suffix: wstring,
    c: Choice, op: FileOperationInstruction, disposition: CreateDisposition, directory: bool)
    requires Accepted(rules) && CreatesThrough(rules, fs, prefix, p, suffix, c, op)
    requires NeedsHierarchy(rules, fs, Key(p), true)
    requires disposition in {FileCreate, FileOpenIf, FileOverwriteIf, FileSupersede}
    requires DriveExists(v.files, RedirectedPath(rules, Key(p), c)) && refuse(RedirectedPath(rules, Key(p), c)) == None
    requires RedirectedPath(rules, Key(p), c) !in v.files && !OpensOriginSide(rules, v, c, Key(p), disposition)
    ensures
      var target := RedirectedPath(rules, Key(p), c);
      var done := Executors.Execute(v, refuse, op, disposition, directory, prefix + p + suffix);
      NtSuccess(Executors.Prepared(v, refuse, op).0) ==>
        && done.status == StatusSuccess
        && target in done.volume.files && done.volume.files[target] == (if directory then Directory else File)
        && (forall q :: q in done.volume.files && q !in v.files ==> q == target || IsLevelOf(Parent(target), q))
        && op.redirectedFilename.Some?
        && done.recorded == Some((prefix + p, RemoveTrailing(op.redirectedFilename.value)))
  {
    hide FileOperation, FsKey, Key, NeedsHierarchy, AsksFor, BeginsWithDriveLetter, ChooseRule, WellFormed, Accepted;
    hide Normalised, NamespacePrefix, RemoveTrailing, RedirectedPath, Executors.Prepared, Executors.TryInstruction;
    hide FilesToTry, HasParent, IsLevelOf;
    OperandForTarget(rules, fs, prefix, p, suffix, c, op);
    RecordedName(rules, fs, prefix, p, suffix, c, op);
    if NtSuccess(Executors.Prepared(v, refuse, op).0) {
      StillMissing(rules, fs, v, refuse, prefix, p, suffix, c, op);
      CreatedThere(
        Executors.Prepared(v, refuse, op).1, refuse, op, disposition, directory, prefix + p + suffix);
    }
  }

  /** The one pre-operation that always fails: where the directory to make sure of is a drive alone, because the
      target lies directly in its root, the request is not recognised as a path. An operation that can create
      is then refused on the origin directory itself. */
  lemma DriveAloneIsRefused(v: Volume, refuse: Refusals, op: FileOperationInstruction, directory: Path)
    requires op.ensureHierarchy.Some? && AsksFor(op.ensureHierarchy.value, directory) && |directory| == 1
    ensures Executors.Prepared(v, refuse, op) == (StatusObjectPathInvalid, v)
  {
    hide FsKey, Split;
    var trimmed := Trimmed(op.ensureHierarchy.value);
    if HasDriveLetterPrefix(trimmed) {
      SplitAtBackslash(trimmed, 2);
      NormalisedConcat(trimmed[..2], trimmed[3..]);
      NormalisedKey(trimmed[..2]);
      NormalisedKey(trimmed[3..]);
    }
  }
}
