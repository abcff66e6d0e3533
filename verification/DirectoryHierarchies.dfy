/** Creating all missing levels of a directory hierarchy. */
module DirectoryHierarchies {
  import opened Text
  import opened NtStatuses
  import opened PrefixTrees
  import opened Filesystems
  import opened Volumes

  // ---------- On components ----------

  predicate IsRealDirectory(files: Filesystem, p: Path) {
    p in files && files[p] == Directory
  }

  /** The number of leading components known, or for a drive alone taken, to be a directory. */
  function DeepestDirectory(files: Filesystem, p: Path): (n: nat)
    requires p != []
    ensures 1 <= n <= |p|
    ensures n > 1 ==> IsRealDirectory(files, p[..n])
    ensures forall i :: n < i <= |p| ==> !IsRealDirectory(files, p[..i])
    decreases |p|
  {
    if |p| == 1 then 1
    else if IsRealDirectory(files, p) then assert p[..|p|] == p; |p|
    else
      var n := DeepestDirectory(files, Parent(p));
      assert forall i :: 0 <= i < |p| ==> Parent(p)[..i] == p[..i];
      assert p[..|p|] == p;
      n
  }

  /** Creating one level after the other, from the first `n` components on, until one fails. */
  function CreateLevels(v: Volume, refuse: Refusals, p: Path, n: nat): (NtStatus, Volume)
    requires n <= |p|
    decreases |p| - n
  {
    if n == |p| then (StatusSuccess, v)
    else
      var (status, after) := NtCreate(v, refuse, p[..n + 1], FileOpenIf, true);
      if NtSuccess(status) then CreateLevels(after, refuse, p, n + 1) else (status, after)
  }

  function CreateHierarchy(v: Volume, refuse: Refusals, p: Path): (NtStatus, Volume)
    requires p != []
  {
    CreateLevels(v, refuse, p, DeepestDirectory(v.files, p))
  }

  /** A map with an entry for every level of a path from one number of components to another. */
  function WithLevels<T>(m: map<Path, T>, p: Path, from: nat, upTo: nat, value: T): map<Path, T>
    requires from <= upTo <= |p|
  {
    if from == upTo then m else WithLevels(m, p, from, upTo - 1, value)[p[..upTo] := value]
  }

  predicate IsLevel(p: Path, from: nat, upTo: nat, q: Path)
    requires from <= upTo <= |p|
  {
    exists i :: from < i <= upTo && q == p[..i]
  }

  lemma {:induction false} WithLevelsMeaning<T>(m: map<Path, T>, p: Path, from: nat, upTo: nat, value: T, q: Path)
    requires from <= upTo <= |p|
    ensures
      var after := WithLevels(m, p, from, upTo, value);
      && (q in after <==> q in m || IsLevel(p, from, upTo, q))
      && (q in after ==> after[q] == if IsLevel(p, from, upTo, q) then value else m[q])
    decreases upTo - from
  {
    if from < upTo {
      WithLevelsMeaning(m, p, from, upTo - 1, value, q);
      assert IsLevel(p, from, upTo, q) <==> q == p[..upTo] || IsLevel(p, from, upTo - 1, q) by {
        assert from < upTo <= upTo;
      }
    }
  }

  /** Exactly the levels from one number of components to another have been created, as directories; none
      of them was there before, and nothing else has changed. */
  ghost predicate Creates(v: Volume, after: Volume, p: Path, from: nat, upTo: nat)
    requires from <= upTo <= |p|
  {
    && after.files == WithLevels(v.files, p, from, upTo, Directory)
    && after.contents == WithLevels(v.contents, p, from, upTo, [])
    && forall i :: from < i <= upTo ==> p[..i] !in v.files
  }

  /** From the deepest real directory on, every level is missing, or something other than a directory
      is in the way. */
  lemma {:induction false} CreateLevelsMeaning(
    v: Volume, refuse: Refusals, p: Path, from: nat, current: Volume, n: nat) returns (reached: nat)
    requires 1 <= from <= n <= |p| && Creates(v, current, p, from, n)
    requires forall i :: from < i <= |p| ==> !IsRealDirectory(v.files, p[..i])
    ensures n <= reached <= |p| && Creates(v, CreateLevels(current, refuse, p, n).1, p, from, reached)
    ensures NtSuccess(CreateLevels(current, refuse, p, n).0) <==> reached == |p|
    decreases |p| - n
  {
    hide Creates, NtCreate;
    if n == |p| {
      reached := n;
    } else {
      CreateNext(v, refuse, p, from, current, n);
      var (status, after) := NtCreate(current, refuse, p[..n + 1], FileOpenIf, true);
      if NtSuccess(status) {
        reached := CreateLevelsMeaning(v, refuse, p, from, after, n + 1);
      } else {
        reached := n;
      }
    }
  }

  lemma CreateNext(v: Volume, refuse: Refusals, p: Path, from: nat, current: Volume, n: nat)
    requires from <= n < |p| && Creates(v, current, p, from, n) && !IsRealDirectory(v.files, p[..n + 1])
    ensures
      var (status, after) := NtCreate(current, refuse, p[..n + 1], FileOpenIf, true);
      if NtSuccess(status) then Creates(v, after, p, from, n + 1) else after == current
  {
    hide WithLevels, IsLevel, NtCreate;
    NextIsNoLevel(p, from, n);
    WithLevelsMeaning(v.files, p, from, n, Directory, p[..n + 1]);
    CreateOneMeaning(current, refuse, p[..n + 1]);
    WithLevelsStep(v.files, p, from, n, Directory);
    WithLevelsStep(v.contents, p, from, n, []);
  }

  lemma CreateOneMeaning(v: Volume, refuse: Refusals, q: Path)
    requires !IsRealDirectory(v.files, q)
    ensures
      var (status, after) := NtCreate(v, refuse, q, FileOpenIf, true);
      if NtSuccess(status) then q !in v.files && after == Volume(v.files[q := Directory], v.contents[q := []])
      else after == v
  {
  }

  lemma NextIsNoLevel(p: Path, from: nat, n: nat)
    requires from <= n < |p|
    ensures !IsLevel(p, from, n, p[..n + 1])
  {
    assert forall i :: from < i <= n ==> |p[..i]| == i;
  }

  lemma WithLevelsStep<T>(m: map<Path, T>, p: Path, from: nat, n: nat, value: T)
    requires from <= n < |p|
    ensures WithLevels(m, p, from, n + 1, value) == WithLevels(m, p, from, n, value)[p[..n + 1] := value]
  {
  }

  lemma {:induction false} LevelsAbove(files: Filesystem, p: Path, n: nat, i: nat)
    requires 0 < i <= n <= |p| && (n > 1 ==> IsRealDirectory(files, p[..n]))
    requires n == 1 ==> IsRealDirectory(files, p[..1])
    ensures IsRealDirectory(files, p[..i])
    decreases n - i
  {
    if i < n {
      LevelsAbove(files, p, n, i + 1);
      assert Parent(p[..i + 1]) == p[..i];
    }
  }

  /** Whatever happens, exactly the missing levels from the top down to some level have been created, all as
      directories, and nothing else has changed. It succeeds if and only if that is down to the directory asked
      for, and then all levels are directories, given that the drive is one. */
  lemma CreateHierarchyMeaning(v: Volume, refuse: Refusals, p: Path) returns (reached: nat)
    requires p != []
    ensures DeepestDirectory(v.files, p) <= reached <= |p|
    ensures Creates(v, CreateHierarchy(v, refuse, p).1, p, DeepestDirectory(v.files, p), reached)
    ensures NtSuccess(CreateHierarchy(v, refuse, p).0) <==> reached == |p|
    ensures
      reached == |p| && IsRealDirectory(v.files, p[..1]) ==>
        forall i :: 0 < i <= |p| ==> IsRealDirectory(CreateHierarchy(v, refuse, p).1.files, p[..i])
  {
    var from := DeepestDirectory(v.files, p);
    reached := CreateLevelsMeaning(v, refuse, p, from, v, from);
    if reached == |p| && IsRealDirectory(v.files, p[..1]) {
      forall i | 0 < i <= |p|
        ensures IsRealDirectory(CreateHierarchy(v, refuse, p).1.files, p[..i])
      {
        WithLevelsMeaning(v.files, p, from, |p|, Directory, p[..i]);
        if i <= from {
          LevelsAbove(v.files, p, from, i);
        }
      }
    }
  }

  // ---------- On strings ----------

  predicate HasDriveLetterPrefix(s: wstring) {
    |s| >= 3 && IsAlpha(s[0]) && s[1] == COLON && s[2] == BACKSLASH
  }

  function Trimmed(path: wstring): wstring {
    RemoveTrailing(WithoutPrefix(path))
  }

  /** The first `n` components of a normalised path, as the string starts. */
  function Leading(p: wstring, n: nat): wstring
    requires n <= |Split(p)|
  {
    Join(Split(p)[..n])
  }

  lemma LeadingKey(p: wstring, n: nat)
    requires Normalised(p) && 0 < n <= |Split(p)|
    ensures |Split(p)| == |Key(p)| && Normalised(Leading(p, n)) && Key(Leading(p, n)) == Key(p)[..n]
  {
    var pieces := Split(p);
    SplitPiecesHaveNoBackslash(p);
    assert forall c :: c in pieces[..n] ==> c in pieces;
    SplitJoin(pieces[..n]);
    NormalisedKey(p);
    SplitFold(p);
    NormalisedKey(Leading(p, n));
    SplitFold(Leading(p, n));
    assert FoldAll(pieces[..n]) == FoldAll(pieces)[..n];
  }

  lemma LeadingAll(p: wstring)
    ensures Leading(p, |Split(p)|) == p
  {
    JoinSplit(p);
    assert Split(p)[..|Split(p)|] == Split(p);
  }

  lemma LeadingStep(p: wstring, n: nat)
    requires 0 < n < |Split(p)|
    ensures Leading(p, n + 1) == Leading(p, n) + [BACKSLASH] + Split(p)[n]
    ensures LastBackslash(Leading(p, n + 1)) == |Leading(p, n)|
  {
    var pieces := Split(p);
    JoinConcat(pieces[..n], [pieces[n]]);
    assert pieces[..n + 1] == pieces[..n] + [pieces[n]];
    SplitPiecesHaveNoBackslash(p);
    assert pieces[n] in pieces;
    LastBackslashAt(Leading(p, n), pieces[n]);
  }

  lemma {:induction false} LeadingIsPrefix(p: wstring, n: nat)
    requires 0 < n <= |Split(p)|
    ensures Leading(p, n) <= p
    ensures n < |Split(p)| ==> |Leading(p, n)| < |p| && p[|Leading(p, n)|] == BACKSLASH
    ensures n < |Split(p)| ==> p[|Leading(p, n)| + 1..] == Join(Split(p)[n..])
  {
    LeadingAll(p);
    if n < |Split(p)| {
      var pieces := Split(p);
      var leading, rest := Join(pieces[..n]), Join(pieces[n..]);
      assert pieces[..n] + pieces[n..] == pieces;
      JoinConcat(pieces[..n], pieces[n..]);
      JoinSplit(p);
      assert p == leading + [BACKSLASH] + rest;
    }
  }

  /** With a drive-letter prefix, the first component has two characters. */
  lemma DriveIsTwoLong(p: wstring, n: nat)
    requires Normalised(p) && HasDriveLetterPrefix(p) && 0 < n <= |Split(p)|
    ensures |Split(p)| >= 2 && |Split(p)[0]| == 2
    ensures |Leading(p, n)| > 3 <==> n > 1
  {
    NormalisedEnds(p);
    var drive, rest := p[..2], p[3..];
    assert p == drive + [BACKSLASH] + rest;
    SplitConcat(drive, rest);
    SplitSingle(drive);
    if n > 1 {
      LeadingStep(p, n - 1);
      LeadingIsPrefix(p, 1);
      LeadingLonger(p, 1, n - 1);
      assert Split(p)[n - 1] in Split(p);
    }
    assert Split(p)[..1] == [drive];
  }

  lemma {:induction false} LeadingLonger(p: wstring, m: nat, n: nat)
    requires 0 < m <= n <= |Split(p)|
    ensures |Leading(p, m)| <= |Leading(p, n)|
    decreases n - m
  {
    if m < n {
      LeadingStep(p, m);
      LeadingLonger(p, m + 1, n);
    }
  }

  lemma TrimmedFollowsPrefix(path: wstring)
    ensures NamespacePrefix(path) + Trimmed(path) <= path
    ensures IsNamespacePrefix(NamespacePrefix(path)) && IsNamespacePrefix([])
  {
    hide RemoveTrailing;
    assert path == NamespacePrefix(path) + WithoutPrefix(path);
  }

  /** What is a directory, in terms of the strings the loops work on. */
  lemma LeadingIsDirectory(files: Filesystem, path: wstring, n: nat)
    requires Normalised(Trimmed(path)) && 0 < n <= |Split(Trimmed(path))|
    ensures |NamespacePrefix(path)| + |Leading(Trimmed(path), n)| <= |path| && n <= |Key(Trimmed(path))|
    ensures FsKey(path[..|NamespacePrefix(path)| + |Leading(Trimmed(path), n)|]) == Key(Trimmed(path))[..n]
    ensures FsKey(Leading(Trimmed(path), n)) == Key(Trimmed(path))[..n]
  {
    hide *;
    LeadingIsPrefix(Trimmed(path), n);
    LeadingKey(Trimmed(path), n);
    BeginningOfPath(path, Leading(Trimmed(path), n));
  }

  lemma BeginningOfPath(path: wstring, leading: wstring)
    requires leading <= Trimmed(path) && Normalised(leading)
    ensures |NamespacePrefix(path)| + |leading| <= |path|
    ensures FsKey(path[..|NamespacePrefix(path)| + |leading|]) == Key(leading) == FsKey(leading)
  {
    hide Key, FsKey, NamespacePrefix, Trimmed, Normalised, IsNamespacePrefix;
    var prefix := NamespacePrefix(path);
    TrimmedFollowsPrefix(path);
    assert path[..|prefix| + |leading|] == prefix + leading;
    FsKeyOfWrapped(prefix, leading, []);
    assert prefix + leading + [] == prefix + leading;
    FsKeyOfWrapped([], leading, []);
    assert [] + leading + [] == leading;
  }

  /** Where the search for an existing directory stands: at the first `n` components, none of the longer
      ones being a directory. */
  ghost predicate Searching(files: Filesystem, p: wstring, current: wstring, n: nat) {
    && 0 < n <= |Split(p)| == |Key(p)| && current == Leading(p, n)
    && forall i :: n < i <= |Key(p)| ==> !IsRealDirectory(files, Key(p)[..i])
  }

  lemma SearchEnds(files: Filesystem, p: wstring, current: wstring, n: nat)
    requires Searching(files, p, current, n) && n <= |Key(p)| && (n == 1 || IsRealDirectory(files, Key(p)[..n]))
    ensures Key(p) != [] && |Key(p)| == |Split(p)| && DeepestDirectory(files, Key(p)) == n
    ensures current == Leading(p, n)
  {
    var deepest := DeepestDirectory(files, Key(p));
    assert deepest == 1 || IsRealDirectory(files, Key(p)[..deepest]);
    assert n == 1 || IsRealDirectory(files, Key(p)[..n]);
  }

  /** What a request to create a directory hierarchy does, as a function. */
  function HierarchyResult(v: Volume, refuse: Refusals, path: wstring): (NtStatus, Volume) {
    if HasDriveLetterPrefix(Trimmed(path)) && Key(Trimmed(path)) != []
    then CreateHierarchy(v, refuse, Key(Trimmed(path)))
    else (StatusObjectPathInvalid, v)
  }

  /** Creates the missing levels of a directory: a loop up the hierarchy to the first level that is a
      directory, then a loop down that creates one level after the other. */
  method CreateDirectoryHierarchy(system: System, absoluteDirectoryPath: wstring) returns (status: NtStatus)
    requires HasDriveLetterPrefix(Trimmed(absoluteDirectoryPath)) ==> Normalised(Trimmed(absoluteDirectoryPath))
    modifies system
    ensures (status, system.volume) == HierarchyResult(old(system.volume), system.refuse, absoluteDirectoryPath)
  {
    hide Trimmed, Leading, DeepestDirectory, NtCreate, Key, FsKey, HasDriveLetterPrefix;
    var trimmed := Trimmed(absoluteDirectoryPath);
    if !HasDriveLetterPrefix(trimmed) {
      return StatusObjectPathInvalid;
    }
    var current := FindExistingDirectory(system, absoluteDirectoryPath, trimmed);
    status := CreateBelow(system, absoluteDirectoryPath, trimmed, current);
  }

  /** The loop up. */
  method FindExistingDirectory(system: System, path: wstring, p: wstring) returns (current: wstring)
    requires p == Trimmed(path) && Normalised(p) && HasDriveLetterPrefix(p)
    ensures Key(p) != [] && |Key(p)| == |Split(p)|
    ensures current == Leading(p, DeepestDirectory(system.volume.files, Key(p)))
  {
    hide Trimmed, Searching, Key, FsKey, HasDriveLetterPrefix, Split;
    var prefix := NamespacePrefix(path);
    ghost var n := |Split(p)|;
    SearchStarts(system.volume.files, p);
    current := p;
    while true
      invariant n > 1 && Searching(system.volume.files, p, current, n)
      decreases n
    {
      SearchLooksAt(system.volume.files, path, p, current, n);
      if IsDirectory(system.volume.files, path[..|prefix| + |current|]) {
        break;
      }
      SearchStep(system.volume.files, p, current, n);
      current := current[..LastBackslash(current)];
      n := n - 1;
      if |current| <= 3 {
        break;
      }
    }
    SearchEnds(system.volume.files, p, current, n);
  }

  lemma SearchStarts(files: Filesystem, p: wstring)
    requires Normalised(p) && HasDriveLetterPrefix(p)
    ensures |Split(p)| > 1 && Searching(files, p, p, |Split(p)|)
  {
    LeadingAll(p);
    LeadingKey(p, |Split(p)|);
    DriveIsTwoLong(p, |Split(p)|);
  }

  lemma SearchLooksAt(files: Filesystem, path: wstring, p: wstring, current: wstring, n: nat)
    requires p == Trimmed(path) && Normalised(p) && Searching(files, p, current, n)
    ensures n <= |Key(p)| && |NamespacePrefix(path)| + |current| <= |path|
    ensures IsDirectory(files, path[..|NamespacePrefix(path)| + |current|]) <==> IsRealDirectory(files, Key(p)[..n])
  {
    hide Trimmed, Split, Key, Leading, NamespacePrefix, FsKey, Normalised;
    LeadingIsDirectory(files, path, n);
  }

  lemma SearchStep(files: Filesystem, p: wstring, current: wstring, n: nat)
    requires Normalised(p) && HasDriveLetterPrefix(p) && Searching(files, p, current, n) && n > 1
    requires !IsRealDirectory(files, Key(p)[..n])
    ensures LastBackslash(current) >= 0 && Searching(files, p, current[..LastBackslash(current)], n - 1)
    ensures LastBackslash(current) > 3 <==> n - 1 > 1
  {
    hide Leading, Split, Key, LastBackslash, HasDriveLetterPrefix, IsRealDirectory;
    LeadingStep(p, n - 1);
    DriveIsTwoLong(p, n - 1);
    WithoutLast(Leading(p, n - 1), Split(p)[n - 1]);
  }

  lemma WithoutLast(a: wstring, b: wstring)
    ensures (a + [BACKSLASH] + b)[..|a|] == a
  {
  }

  /** The loop down. */
  method CreateBelow(system: System, path: wstring, p: wstring, existing: wstring) returns (status: NtStatus)
    requires p == Trimmed(path) && Normalised(p) && Key(p) != [] && |Key(p)| == |Split(p)|
    requires existing == Leading(p, DeepestDirectory(system.volume.files, Key(p)))
    modifies system
    ensures (status, system.volume) == CreateHierarchy(old(system.volume), system.refuse, Key(p))
  {
    hide Trimmed, Leading, DeepestDirectory, NtCreate, Key, FsKey, Split, CreateLevels;
    ghost var n := DeepestDirectory(system.volume.files, Key(p));
    ghost var goal := CreateHierarchy(system.volume, system.refuse, Key(p));
    NothingToCreate(system.volume, system.refuse, Key(p));
    LeadingIsPrefix(p, n);
    if |existing| == |p| {
      assert n == |Key(p)|;
      return StatusSuccess;
    }
    RemainingLevels(p, n);
    status := CreateRemaining(system, path, p, existing, n);
  }

  method CreateRemaining(system: System, path: wstring, p: wstring, existing: wstring, ghost n: nat)
    returns (status: NtStatus)
    requires p == Trimmed(path) && Normalised(p) && 0 < n < |Key(p)| == |Split(p)| && existing == Leading(p, n)
    requires |existing| < |p| && Split(p[|existing| + 1..]) == Split(p)[n..]
    modifies system
    ensures (status, system.volume) == CreateLevels(old(system.volume), system.refuse, Key(p), n)
  {
    hide Trimmed, Leading, NtCreate, Key, FsKey, Split, CreateLevels;
    ghost var goal := CreateLevels(system.volume, system.refuse, Key(p), n);
    var current := existing;
    var remaining := Split(p[1 + |existing|..]);
    for i := 0 to |remaining|
      invariant n + i <= |Split(p)| && current == Leading(p, n + i)
      invariant CreateLevels(system.volume, system.refuse, Key(p), n + i) == goal
    {
      assert remaining[i] == Split(p)[n + i];
      NextLevel(p, n + i);
      current := p[..1 + |current| + |remaining[i]|];
      status := CreateLevel(system, path, p, current, n + i);
      if !NtSuccess(status) {
        return;
      }
    }
    NothingToCreate(system.volume, system.refuse, Key(p));
    status := StatusSuccess;
  }

  lemma NothingToCreate(v: Volume, refuse: Refusals, p: Path)
    ensures CreateLevels(v, refuse, p, |p|) == (StatusSuccess, v)
  {
  }

  method CreateLevel(system: System, path: wstring, p: wstring, current: wstring, ghost n: nat)
    returns (status: NtStatus)
    requires p == Trimmed(path) && Normalised(p) && n < |Key(p)| == |Split(p)| && current == Leading(p, n + 1)
    modifies system
    ensures
      CreateLevels(old(system.volume), system.refuse, Key(p), n) ==
      if NtSuccess(status) then CreateLevels(system.volume, system.refuse, Key(p), n + 1) else (status, system.volume)
  {
    hide Trimmed, Leading, NtCreate, Key, FsKey, Split;
    LeadingIsDirectory(system.volume.files, path, n + 1);
    CreateLevelsUnfold(system.volume, system.refuse, Key(p), n);
    status := system.EnsureDirectoryExists(current);
  }

  lemma NextLevel(p: wstring, n: nat)
    requires 0 < n < |Split(p)|
    ensures 1 + |Leading(p, n)| + |Split(p)[n]| <= |p|
    ensures p[..1 + |Leading(p, n)| + |Split(p)[n]|] == Leading(p, n + 1)
  {
    LeadingStep(p, n);
    LeadingIsPrefix(p, n + 1);
  }

  lemma CreateLevelsUnfold(v: Volume, refuse: Refusals, p: Path, n: nat)
    requires n < |p|
    ensures
      var r := NtCreate(v, refuse, p[..n + 1], FileOpenIf, true);
      CreateLevels(v, refuse, p, n) == if NtSuccess(r.0) then CreateLevels(r.1, refuse, p, n + 1) else r
  {
  }

  lemma RemainingLevels(p: wstring, n: nat)
    requires 0 < n <= |Split(p)| && |Leading(p, n)| != |p|
    ensures n < |Split(p)| && |Leading(p, n)| < |p| && Split(p[|Leading(p, n)| + 1..]) == Split(p)[n..]
  {
    LeadingAll(p);
    LeadingIsPrefix(p, n);
    SplitPiecesHaveNoBackslash(p);
    assert forall c :: c in Split(p)[n..] ==> c in Split(p);
    SplitJoin(Split(p)[n..]);
  }
}
