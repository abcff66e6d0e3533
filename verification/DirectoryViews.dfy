/** From the director's instruction through the queues to what an application is shown: the streams behind an
    enumeration, for a filesystem that is scanned and queried as it is. */
module DirectoryViews {
  import opened Wrappers
  import opened Text
  import opened NtStatuses
  import opened FileInformation
  import opened Rules
  import opened RuleContainers
  import opened PrefixTrees
  import opened Filesystems
  import opened Instructions
  import opened Directors
  import opened Redirections
  import opened Agreement
  import opened Listing
  import opened Volumes
  import opened Streams
  import opened EnumerationQueues
  import opened NameInsertionQueues
  import opened OperationQueues
  import opened QueueCreation
  import opened EndToEnd
  import Enumerations
  import FilesystemDirectors

  // ---------- Directories ----------

  /** Opening a directory and scanning it for a pattern shows the filesystem as it is: what is opened is a real
      directory, what cannot be opened is a file or not there. No path to be enumerated is empty. */
  ghost predicate OpenedAsItIs(
    fs: Filesystem, layout: Layout, opening: DirectoryOpening, path: wstring, filePattern: wstring)
    reads DirectoryOf(opening)
  {
    && layout.Valid() && OpeningValid(layout, opening) && FsKey(path) != []
    && match opening
       case Opened(d) =>
         IsDirectory(fs, path)
         && ScansDirectory(fs, layout, d.behaviour(d.scans, filePattern), FsKey(path), filePattern)
       case NotOpened(status) =>
         if IsFile(fs, FsKey(path)) then status == STATUS_NOT_A_DIRECTORY
         else status in NOT_THERE_STATUSES && FsKey(path) !in fs
  }

  lemma NothingInside(fs: Filesystem, directory: Path, c: wstring)
    requires directory != [] && directory !in fs
    ensures directory + [c] !in fs
  {
    assert Parent(directory + [c]) == directory;
  }

  /** A queue over one directory offers what the enumeration yields for the pattern, whether or not the directory
      exists, and nothing but an error if it is a file or nothing in it matches. */
  lemma DirectoryOffers(
    fs: Filesystem, layout: Layout, d: SingleDirectoryEnumeration, opening: DirectoryOpening, associatedPath: wstring,
    realOpenedPath: wstring, filePattern: wstring, s: Stream)
    requires StartsWith(layout, d, opening, filePattern, s)
    requires OpenedAsItIs(fs, layout, opening, d.SelectDirectoryPath(associatedPath, realOpenedPath), filePattern)
    ensures Offers(fs, s, d, associatedPath, realOpenedPath, filePattern)
  {
    match opening
    case Opened(dir) =>
      FilteredScanOffers(
        fs, layout, dir.behaviour(dir.scans, filePattern), d, associatedPath, realOpenedPath, filePattern);
    case NotOpened(status) =>
      if !IsFile(fs, FsKey(d.SelectDirectoryPath(associatedPath, realOpenedPath))) {
        forall n | IsRealName(n)
          ensures !Yields(fs, d, associatedPath, realOpenedPath, n)
        {
          NothingInside(fs, FsKey(d.SelectDirectoryPath(associatedPath, realOpenedPath)), Fold(n));
        }
      }
  }

  /** What a queue over a directory offers is there and matches the pattern. */
  lemma OfferedIsThere(
    fs: Filesystem, layout: Layout, d: SingleDirectoryEnumeration, opening: DirectoryOpening, path: wstring,
    filePattern: wstring, s: Stream, e: Entry)
    requires StartsWith(layout, d, opening, filePattern, s) && OpenedAsItIs(fs, layout, opening, path, filePattern)
    requires e in s.entries
    ensures HasEntry(fs, FsKey(path), e.name) && MatchesQuery(filePattern, e.name)
  {
    hide FsKey, Fold, HasEntry, MatchesQuery;
    var scan := opening.directory.behaviour(opening.directory.scans, filePattern);
    BatchEntriesAreStructs(layout, scan);
    var entries := AsEntries(layout, BatchEntries(layout, scan.batches));
    IncludedMeaning(d, entries, e);
    assert Fold(e.name) in Names(entries);
  }

  // ---------- Names to insert ----------

  /** The answer about a single directory, at any time: it is found if it exists; otherwise the system says that it is
      not there, unless the directory that it should be in is a file. */
  ghost predicate AnsweredAsItIs(fs: Filesystem, insertion: NameInsertion, answer: QueryResult) {
    match answer
    case Found(_) => FsKey(FullPath(insertion.sourceDirectoryPart, insertion.sourceFilePart)) in fs
    case NotFound(status) =>
      && FsKey(FullPath(insertion.sourceDirectoryPart, insertion.sourceFilePart)) !in fs
      && if IsFile(fs, FsKey(insertion.sourceDirectoryPart)) then status == STATUS_NOT_A_DIRECTORY
         else status in NOT_THERE_STATUSES
  }

  ghost predicate QueriesAsItIs(fs: Filesystem, query: (nat, NameInsertion) -> QueryResult) {
    && ValidQuery(query) && Steady(query)
    && forall insertion :: AnsweredAsItIs(fs, insertion, query(0, insertion))
  }

  /** A name that is not cut off where the buffer for single entries ends. */
  predicate NameFits(layout: Layout, name: wstring) {
    layout.Valid() && layout.offsetOfFileName + 2 * |name| <= BUFFER_SIZE
  }

  lemma InsertedNameFits(layout: Layout, bytes: seq<byte>, name: wstring)
    requires NameFits(layout, name) && |bytes| == BUFFER_SIZE
    ensures InsertedEntry(layout, bytes, name).name == name
  {
    NameIsWritten(layout, bytes, name);
    assert name[..WritableChars(layout, BUFFER_SIZE, name)] == name;
  }

  ghost predicate AllFit(layout: Layout, insertions: seq<NameInsertion>) {
    forall insertion :: insertion in insertions ==> NameFits(layout, insertion.fileName)
  }

  ghost predicate SortedInsertions(insertions: seq<NameInsertion>) {
    forall i, j :: 0 <= i < j < |insertions| ==> LessCaseInsensitive(insertions[i].fileName, insertions[j].fileName)
  }

  lemma {:induction false} InsertedNames(
    layout: Layout, query: (nat, NameInsertion) -> QueryResult, filePattern: wstring, insertions: seq<NameInsertion>,
    n: wstring)
    requires layout.Valid() && ValidQuery(query) && AllFit(layout, insertions)
    ensures forall insertion :: query(0, insertion).Found? ==> |query(0, insertion).bytes| == BUFFER_SIZE
    ensures
      n in Names(InsertedEntries(layout, query, filePattern, insertions)) <==>
        exists i :: 0 <= i < |insertions| && IsInserted(query, filePattern, insertions[i])
            && Fold(insertions[i].fileName) == n
    decreases |insertions|
  {
    hide InsertedEntry, NameFits, Fold, IsInserted;
    FoundIsFull(query);
    if insertions != [] {
      var first, rest := insertions[0], insertions[1..];
      assert first in insertions && forall x :: x in rest ==> x in insertions;
      InsertedNames(layout, query, filePattern, rest, n);
      var later := InsertedEntries(layout, query, filePattern, rest);
      if IsInserted(query, filePattern, first) {
        InsertedIsFound(query, filePattern, first);
        var head := InsertedEntry(layout, query(0, first).bytes, first.fileName);
        InsertedNameFits(layout, query(0, first).bytes, first.fileName);
        NamesConcat([head], later);
        assert head in [head];
      }
      if i :| 0 <= i < |rest| && IsInserted(query, filePattern, rest[i]) && Fold(rest[i].fileName) == n {
        assert insertions[i + 1] == rest[i];
      }
      if i :|
          0 <= i < |insertions| && IsInserted(query, filePattern, insertions[i]) && Fold(insertions[i].fileName) == n {
        assert i > 0 ==> rest[i - 1] == insertions[i];
      }
    }
  }

  lemma InsertedIsFound(query: (nat, NameInsertion) -> QueryResult, filePattern: wstring, insertion: NameInsertion)
    requires IsInserted(query, filePattern, insertion)
    ensures query(0, insertion).Found?
  {
  }

  lemma {:induction false} InsertedAreSorted(
    layout: Layout, query: (nat, NameInsertion) -> QueryResult, filePattern: wstring, insertions: seq<NameInsertion>)
    requires layout.Valid() && ValidQuery(query) && AllFit(layout, insertions) && SortedInsertions(insertions)
    ensures forall insertion :: query(0, insertion).Found? ==> |query(0, insertion).bytes| == BUFFER_SIZE
    ensures Sorted(InsertedEntries(layout, query, filePattern, insertions))
    decreases |insertions|
  {
    hide InsertedEntry, NameFits, Fold, Less, IsInserted;
    FoundIsFull(query);
    if insertions != [] {
      var first, rest := insertions[0], insertions[1..];
      assert first in insertions && forall x :: x in rest ==> x in insertions;
      assert forall i :: 0 <= i < |rest| ==> rest[i] == insertions[i + 1];
      InsertedAreSorted(layout, query, filePattern, rest);
      if IsInserted(query, filePattern, first) {
        InsertedIsFound(query, filePattern, first);
        InsertedNameFits(layout, query(0, first).bytes, first.fileName);
        FirstStaysFirst(layout, query, filePattern, first, rest);
      }
    }
  }

  lemma FirstStaysFirst(
    layout: Layout, query: (nat, NameInsertion) -> QueryResult, filePattern: wstring, first: NameInsertion,
    rest: seq<NameInsertion>)
    requires layout.Valid() && ValidQuery(query) && AllFit(layout, rest)
    requires forall i :: 0 <= i < |rest| ==> LessCaseInsensitive(first.fileName, rest[i].fileName)
    ensures forall insertion :: query(0, insertion).Found? ==> |query(0, insertion).bytes| == BUFFER_SIZE
    ensures
      forall e :: e in InsertedEntries(layout, query, filePattern, rest) ==>
          !LessCaseInsensitive(e.name, first.fileName)
  {
    hide InsertedEntry, NameFits, Fold, Less, InsertedEntries, IsInserted;
    FoundIsFull(query);
    forall e | e in InsertedEntries(layout, query, filePattern, rest)
      ensures !LessCaseInsensitive(e.name, first.fileName)
    {
      InsertedNames(layout, query, filePattern, rest, Fold(e.name));
      var i :| 0 <= i < |rest| && IsInserted(query, filePattern, rest[i]) && Fold(rest[i].fileName) == Fold(e.name);
      var a, b := Fold(first.fileName), Fold(e.name);
      if Less(b, a) {
        LessTransitive(a, b, a);
        LessIrreflexive(a);
      }
    }
  }

  // ---------- Names of deeper origin directories ----------

  /** The rule whose name is inserted for the origin directory of that name. */
  ghost predicate InsertsFor(rules: RuleIndex, fs: Filesystem, directory: Path, rule: FilesystemRule, c: wstring) {
    FilesystemDirectors.CollectedOne(rules, fs, directory, rule, c)
  }

  lemma InsertionIsForOrigin(rules: RuleIndex, fs: Filesystem, directory: Path, list: seq<FilesystemRule>,
    rule: FilesystemRule)
    returns (c: wstring)
    requires WellFormed(rules) && InsertionsFor(rules, fs, directory, list) && rule in list
    ensures InsertsFor(rules, fs, directory, rule, c)
  {
    hide RuleForNameInsertion, OriginDirectoryName, SortedByName;
    var k :| k in OriginsInside(rules, directory) && rules[k] != [] && rule == RuleForNameInsertion(rules[k], fs);
    c := Last(k);
    assert Extend(directory, c) == k;
    FilesystemDirectors.InsertedName(rules, fs, directory, c);
  }

  lemma OriginHasInsertion(rules: RuleIndex, fs: Filesystem, directory: Path, list: seq<FilesystemRule>, c: wstring)
    requires WellFormed(rules) && InsertionsFor(rules, fs, directory, list) && Extend(directory, c) in rules
    ensures
      rules[Extend(directory, c)] != [] &&
      var rule := RuleForNameInsertion(rules[Extend(directory, c)], fs);
      rule in list && Fold(OriginDirectoryName(rule)) == c
  {
    hide RuleForNameInsertion, OriginDirectoryName, SortedByName;
    var k := Extend(directory, c);
    assert Parent(k) == directory && k in OriginsInside(rules, directory);
    FilesystemDirectors.InsertedName(rules, fs, directory, c);
  }

  /** What is queried for a name to insert is the target directory of its rule, in the directory above. */
  lemma InsertionQueriesTarget(rules: RuleIndex, fs: Filesystem, directory: Path, rule: FilesystemRule, c: wstring)
    requires WellFormed(rules) && InsertsFor(rules, fs, directory, rule, c)
    ensures |Key(rule.target)| > 1
    ensures
      var insertion := NameInsertionOf(rule);
      && insertion.fileName == OriginDirectoryName(rule)
      && FsKey(FullPath(insertion.sourceDirectoryPart, insertion.sourceFilePart)) == Key(rule.target)
      && FsKey(insertion.sourceDirectoryPart) == Parent(Key(rule.target))
  {
    hide Key, Normalised, RuleForNameInsertion, LastBackslash, FsKey, Fold, OriginDirectoryName, FullPath;
    var k := Extend(directory, c);
    FilesystemDirectors.InsertionRuleIsIn(rules[k], fs);
    assert WellFormedContainer(rules[k], k) && WellFormedRule(rule, k);
    TargetParts(rule.target);
  }

  lemma TargetParts(target: wstring)
    requires Normalised(target) && |Key(target)| >= 2
    ensures
      var at := LastBackslash(target);
      && at >= 0 && FsKey(FullPath(target[..at], target[at + 1..])) == Key(target)
      && FsKey(target[..at]) == Parent(Key(target))
  {
    hide Key, Normalised, LastBackslash, FsKey, FullPath;
    SplitPath(target);
    var above := target[..LastBackslash(target)];
    FsKeyOfWrapped([], target, []);
    FsKeyOfWrapped([], above, []);
    assert [] + target + [] == target && [] + above + [] == above;
  }

  /** Where the entity behind an origin directory is: the target of the rule chosen for the insertion. */
  ghost function InsertionTarget(rules: RuleIndex, fs: Filesystem, origin: Path): Path
    requires origin in rules && rules[origin] != []
  {
    Key(RuleForNameInsertion(rules[origin], fs).target)
  }

  /** The system is asked about the origin directory of a (folded) name. */
  predicate IsAskedFor(rules: RuleIndex, directory: Path, filePattern: wstring, c: wstring) {
    Extend(directory, c) in rules && rules[Extend(directory, c)] != [] && MatchesQuery(filePattern, c)
  }

  /** The origin directory's target exists. */
  ghost predicate HasTarget(rules: RuleIndex, fs: Filesystem, directory: Path, filePattern: wstring, c: wstring) {
    IsAskedFor(rules, directory, filePattern, c) && InsertionTarget(rules, fs, Extend(directory, c)) in fs
  }

  /** What the origin directory's target should be in is a file. */
  ghost predicate IsBlocked(rules: RuleIndex, fs: Filesystem, directory: Path, filePattern: wstring, c: wstring) {
    && IsAskedFor(rules, directory, filePattern, c)
    && IsInFile(fs, InsertionTarget(rules, fs, Extend(directory, c)))
  }

  predicate IsInFile(fs: Filesystem, p: Path) {
    p != [] && IsFile(fs, Parent(p))
  }

  ghost predicate NoneIsBlocked(rules: RuleIndex, fs: Filesystem, directory: Path, filePattern: wstring) {
    forall c :: !IsBlocked(rules, fs, directory, filePattern, c)
  }

  /** A name is inserted: it is that of an origin directory whose target exists, and no name before it is blocked. */
  ghost predicate IsInsertedFor(rules: RuleIndex, fs: Filesystem, directory: Path, filePattern: wstring, c: wstring) {
    && HasTarget(rules, fs, directory, filePattern, c)
    && forall b :: IsBlocked(rules, fs, directory, filePattern, b) ==> Less(c, b)
  }

  /** The enumeration gets as far as a (folded) name: no target of a deeper rule has a file in its way, or some queue
      comes to the name before it shows anything above a name that is inserted before the first such target. */
  ghost predicate IsReached(
    rules: RuleIndex, fs: Filesystem, directory: Path, filePattern: wstring, streams: seq<Stream>, c: wstring)
  {
    || NoneIsBlocked(rules, fs, directory, filePattern)
    || exists s, a :: s in streams && IsInsertedFor(rules, fs, directory, filePattern, a) && ComesUnder(s, c, a)
  }

  /** The same for queues that are sorted, where the rules and the filesystem decide it: a name that is inserted before
      the first such target sorts at or behind the name. */
  ghost predicate SortsInTime(rules: RuleIndex, fs: Filesystem, directory: Path, filePattern: wstring, c: wstring) {
    || NoneIsBlocked(rules, fs, directory, filePattern)
    || exists a :: IsInsertedFor(rules, fs, directory, filePattern, a) && !Less(a, c)
  }

  /** A stream of names to insert offers exactly the names that are inserted, and fails if one is blocked. */
  ghost predicate Inserts(rules: RuleIndex, fs: Filesystem, directory: Path, filePattern: wstring, s: Stream) {
    && Sorted(s.entries)
    && s.end == (if NoneIsBlocked(rules, fs, directory, filePattern) then StatusNoMoreFiles else STATUS_NOT_A_DIRECTORY)
    && forall c :: c in Names(s.entries) <==> IsInsertedFor(rules, fs, directory, filePattern, c)
  }

  lemma InsertionStreamInserts(
    rules: RuleIndex, fs: Filesystem, directory: Path, layout: Layout, query: (nat, NameInsertion) -> QueryResult,
    filePattern: wstring, list: seq<FilesystemRule>)
    requires layout.Valid() && WellFormed(rules) && InsertionsFor(rules, fs, directory, list)
    requires QueriesAsItIs(fs, query) && AllFit(layout, NameInsertionsOf(list))
    ensures
      Inserts(
        rules, fs, directory, filePattern,
        InsertionStream(layout, query, Fold(filePattern), NameInsertionsOf(list), 0))
  {
    hide WellFormed, InsertionsFor, InsertedEntries, Sorted, Steady, AnsweredAsItIs, NameInsertionOf, Fold,
        FirstRefused;
    hide AllFit, IsRefused, IsInserted, NoneIsBlocked, IsInsertedFor;
    var insertions, pattern := NameInsertionsOf(list), Fold(filePattern);
    var first := FirstRefused(query, pattern, insertions);
    InsertionStreamMeaning(layout, query, pattern, insertions, 0);
    InsertionsAreSorted(rules, fs, directory, list);
    SomeOfThem(layout, insertions, first);
    InsertedAreSorted(layout, query, pattern, insertions[..first]);
    forall c
      ensures
        c in Names(InsertedEntries(layout, query, pattern, insertions[..first])) <==>
        IsInsertedFor(rules, fs, directory, filePattern, c)
    {
      InsertedNames(layout, query, pattern, insertions[..first], c);
      InsertedExactly(rules, fs, directory, query, filePattern, list, c);
    }
    EndsInRefusal(rules, fs, directory, query, filePattern, list);
  }

  lemma SomeOfThem(layout: Layout, insertions: seq<NameInsertion>, n: nat)
    requires AllFit(layout, insertions) && SortedInsertions(insertions) && n <= |insertions|
    ensures AllFit(layout, insertions[..n]) && SortedInsertions(insertions[..n])
  {
    hide NameFits, LessCaseInsensitive;
    assert forall x :: x in insertions[..n] ==> x in insertions;
  }

  lemma InsertionsAreSorted(rules: RuleIndex, fs: Filesystem, directory: Path, list: seq<FilesystemRule>)
    requires InsertionsFor(rules, fs, directory, list)
    ensures SortedInsertions(NameInsertionsOf(list))
  {
    hide OriginDirectoryName, LessCaseInsensitive;
  }

  /** What becomes of one name on the list. */
  lemma ListedName(
    rules: RuleIndex, fs: Filesystem, directory: Path, query: (nat, NameInsertion) -> QueryResult,
    filePattern: wstring, list: seq<FilesystemRule>, i: nat)
    returns (c: wstring)
    requires WellFormed(rules) && InsertionsFor(rules, fs, directory, list) && QueriesAsItIs(fs, query) && i < |list|
    ensures c == Fold(NameInsertionOf(list[i]).fileName)
    ensures
      IsInserted(query, Fold(filePattern), NameInsertionOf(list[i])) <==>
          HasTarget(rules, fs, directory, filePattern, c)
    ensures
      IsRefused(query, Fold(filePattern), NameInsertionOf(list[i])) <==> IsBlocked(rules, fs, directory, filePattern, c)
    ensures
      IsRefused(query, Fold(filePattern), NameInsertionOf(list[i])) ==>
        query(0, NameInsertionOf(list[i])) == NotFound(STATUS_NOT_A_DIRECTORY)
  {
    hide RuleForNameInsertion, OriginDirectoryName, WellFormed, InsertionsFor, FsKey, Fold, Key, NameInsertionOf,
        Steady;
    hide FullPath;
    c := InsertionIsForOrigin(rules, fs, directory, list, list[i]);
    InsertionQueriesTarget(rules, fs, directory, list[i], c);
    var insertion, target := NameInsertionOf(list[i]), Key(list[i].target);
    FoldIsFolded(c, insertion.fileName);
    MatchesQueryIgnoresCase(filePattern, c, insertion.fileName);
    assert AnsweredAsItIs(fs, insertion, query(0, insertion));
    FileHasNothingInside(fs, target);
  }

  lemma FoldIsFolded(c: wstring, s: wstring)
    requires Fold(s) == c
    ensures Fold(c) == c
  {
    FoldIdempotent(s);
  }

  lemma FileHasNothingInside(fs: Filesystem, p: Path)
    ensures IsInFile(fs, p) ==> p !in fs
  {
  }

  /** Where an origin directory is on the list. */
  lemma PositionOf(rules: RuleIndex, fs: Filesystem, directory: Path, list: seq<FilesystemRule>, c: wstring)
    returns (i: nat)
    requires WellFormed(rules) && InsertionsFor(rules, fs, directory, list) && Extend(directory, c) in rules
    ensures i < |list| && Fold(NameInsertionOf(list[i]).fileName) == c
  {
    hide WellFormed, InsertionsFor, RuleForNameInsertion, OriginDirectoryName, LastBackslash;
    OriginHasInsertion(rules, fs, directory, list, c);
    i :| i < |list| && list[i] == RuleForNameInsertion(rules[Extend(directory, c)], fs);
  }

  /** Names that come before the first refused one are those of origin directories with a target and with no blocked
      one before them. */
  lemma InsertedExactly(
    rules: RuleIndex, fs: Filesystem, directory: Path, query: (nat, NameInsertion) -> QueryResult,
    filePattern: wstring, list: seq<FilesystemRule>, c: wstring)
    requires WellFormed(rules) && InsertionsFor(rules, fs, directory, list) && QueriesAsItIs(fs, query)
    ensures
      var insertions, pattern := NameInsertionsOf(list), Fold(filePattern);
      var before := insertions[..FirstRefused(query, pattern, insertions)];
      (exists i :: 0 <= i < |before| && IsInserted(query, pattern, before[i]) && Fold(before[i].fileName) == c) <==>
      IsInsertedFor(rules, fs, directory, filePattern, c)
  {
    hide WellFormed, InsertionsFor, Fold, NameInsertionOf, QueriesAsItIs, IsInserted, IsBlocked, HasTarget, IsRefused;
    var insertions, pattern := NameInsertionsOf(list), Fold(filePattern);
    var before := insertions[..FirstRefused(query, pattern, insertions)];
    if i :| 0 <= i < |before| && IsInserted(query, pattern, before[i]) && Fold(before[i].fileName) == c {
      var _ := ListedName(rules, fs, directory, query, filePattern, list, i);
      forall b | IsBlocked(rules, fs, directory, filePattern, b)
        ensures Less(c, b)
      {
        BlockedIsBehind(rules, fs, directory, query, filePattern, list, i, b);
      }
    }
    if IsInsertedFor(rules, fs, directory, filePattern, c) {
      TargetIsAskedFor(rules, fs, directory, filePattern, c);
      var i := PositionOf(rules, fs, directory, list, c);
      var _ := ListedName(rules, fs, directory, query, filePattern, list, i);
      NotBehindRefused(rules, fs, directory, query, filePattern, list, i);
      assert before[i] == insertions[i];
    }
  }

  lemma TargetIsAskedFor(rules: RuleIndex, fs: Filesystem, directory: Path, filePattern: wstring, c: wstring)
    ensures HasTarget(rules, fs, directory, filePattern, c) ==> Extend(directory, c) in rules
    ensures IsBlocked(rules, fs, directory, filePattern, c) ==> Extend(directory, c) in rules
  {
  }

  lemma BlockedIsBehind(
    rules: RuleIndex, fs: Filesystem, directory: Path, query: (nat, NameInsertion) -> QueryResult,
    filePattern: wstring, list: seq<FilesystemRule>, i: nat, b: wstring)
    requires WellFormed(rules) && InsertionsFor(rules, fs, directory, list) && QueriesAsItIs(fs, query)
    requires i < FirstRefused(query, Fold(filePattern), NameInsertionsOf(list))
    requires IsBlocked(rules, fs, directory, filePattern, b)
    ensures Less(Fold(NameInsertionOf(list[i]).fileName), b)
  {
    hide WellFormed, InsertionsFor, Fold, NameInsertionOf, QueriesAsItIs, IsInserted, IsBlocked, HasTarget, IsRefused;
    var insertions := NameInsertionsOf(list);
    TargetIsAskedFor(rules, fs, directory, filePattern, b);
    var j := PositionOf(rules, fs, directory, list, b);
    var _ := ListedName(rules, fs, directory, query, filePattern, list, j);
    assert IsRefused(query, Fold(filePattern), insertions[j]);
    InsertionsAreSorted(rules, fs, directory, list);
    assert LessCaseInsensitive(insertions[i].fileName, insertions[j].fileName);
  }

  lemma NotBehindRefused(
    rules: RuleIndex, fs: Filesystem, directory: Path, query: (nat, NameInsertion) -> QueryResult,
    filePattern: wstring, list: seq<FilesystemRule>, i: nat)
    requires WellFormed(rules) && InsertionsFor(rules, fs, directory, list) && QueriesAsItIs(fs, query) && i < |list|
    requires IsInserted(query, Fold(filePattern), NameInsertionOf(list[i]))
    requires IsInsertedFor(rules, fs, directory, filePattern, Fold(NameInsertionOf(list[i]).fileName))
    ensures i < FirstRefused(query, Fold(filePattern), NameInsertionsOf(list))
  {
    hide WellFormed, InsertionsFor, Fold, NameInsertionOf, QueriesAsItIs, IsBlocked, HasTarget, Less;
    var insertions := NameInsertionsOf(list);
    var first := FirstRefused(query, Fold(filePattern), insertions);
    if first <= i {
      assert IsRefused(query, Fold(filePattern), insertions[first]);
      var b := ListedName(rules, fs, directory, query, filePattern, list, first);
      InsertionsAreSorted(rules, fs, directory, list);
      var c := Fold(insertions[i].fileName);
      assert first < i && LessCaseInsensitive(insertions[first].fileName, insertions[i].fileName);
      LessTransitive(c, b, c);
      LessIrreflexive(c);
    }
  }

  lemma EndsInRefusal(
    rules: RuleIndex, fs: Filesystem, directory: Path, query: (nat, NameInsertion) -> QueryResult,
    filePattern: wstring, list: seq<FilesystemRule>)
    requires WellFormed(rules) && InsertionsFor(rules, fs, directory, list) && QueriesAsItIs(fs, query)
    ensures
      var insertions := NameInsertionsOf(list);
      var first := FirstRefused(query, Fold(filePattern), insertions);
      if NoneIsBlocked(rules, fs, directory, filePattern) then first == |insertions|
      else first < |insertions| && query(0, insertions[first]) == NotFound(STATUS_NOT_A_DIRECTORY)
  {
    hide WellFormed, InsertionsFor, Fold, NameInsertionOf, QueriesAsItIs, IsBlocked, HasTarget, IsRefused, IsInserted;
    var insertions := NameInsertionsOf(list);
    var first := FirstRefused(query, Fold(filePattern), insertions);
    if first < |insertions| {
      var c := ListedName(rules, fs, directory, query, filePattern, list, first);
      assert IsRefused(query, Fold(filePattern), insertions[first]);
      assert IsBlocked(rules, fs, directory, filePattern, c);
    }
    if b :| IsBlocked(rules, fs, directory, filePattern, b) {
      BlockedIsRefused(rules, fs, directory, query, filePattern, list, b);
    }
  }

  lemma BlockedIsRefused(
    rules: RuleIndex, fs: Filesystem, directory: Path, query: (nat, NameInsertion) -> QueryResult,
    filePattern: wstring, list: seq<FilesystemRule>, b: wstring)
    requires WellFormed(rules) && InsertionsFor(rules, fs, directory, list) && QueriesAsItIs(fs, query)
    requires IsBlocked(rules, fs, directory, filePattern, b)
    ensures FirstRefused(query, Fold(filePattern), NameInsertionsOf(list)) < |list|
  {
    hide WellFormed, InsertionsFor, Fold, NameInsertionOf, QueriesAsItIs, IsBlocked, HasTarget, IsRefused, IsInserted;
    var insertions := NameInsertionsOf(list);
    TargetIsAskedFor(rules, fs, directory, filePattern, b);
    var j := PositionOf(rules, fs, directory, list, b);
    var _ := ListedName(rules, fs, directory, query, filePattern, list, j);
    assert IsRefused(query, Fold(filePattern), insertions[j]);
  }

  // ---------- The streams behind an instruction ----------

  /** An instruction of the director for a handle that is not an internal error. */
  ghost predicate InstructedFor(
    rules: RuleIndex, fs: Filesystem, instruction: DirectoryEnumerationInstruction, associatedPath: wstring,
    realOpenedPath: wstring, inside: Path)
  {
    && instruction.directories == DirectoriesToEnumerate(ClassifyEnumeration(rules, associatedPath, realOpenedPath))
    && (instruction.namesToInsert == None <==> OriginsInside(rules, inside) == {})
    && (instruction.namesToInsert.Some? ==> InsertionsFor(rules, fs, inside, instruction.namesToInsert.value))
  }

  /** The system shows the filesystem as it is in everything the queues ask of it. */
  ghost predicate SystemIsHonest(
    fs: Filesystem, layout: Layout, instruction: DirectoryEnumerationInstruction, openings: seq<DirectoryOpening>,
    query: (nat, NameInsertion) -> QueryResult, associatedPath: wstring, realOpenedPath: wstring,
    filePattern: wstring)
    reads AllDirectories(openings)
  {
    && QueriesAsItIs(fs, query) && |openings| == |instruction.directories|
    && (forall i {:trigger openings[i]} :: 0 <= i < |openings| ==>
          && instruction.directories[i].Valid()
          && OpenedAsItIs(
              fs, layout, openings[i], instruction.directories[i].SelectDirectoryPath(associatedPath, realOpenedPath),
              filePattern))
    && (instruction.namesToInsert.Some? ==> AllFit(layout, NameInsertionsOf(instruction.namesToInsert.value)))
  }

  /** The stream of names to insert, if there is one, has the names of deeper origin directories. */
  ghost predicate InsertsLast(
    rules: RuleIndex, fs: Filesystem, inside: Path, filePattern: wstring, streams: seq<Stream>, directories: nat)
  {
    if |streams| > directories then Inserts(rules, fs, inside, filePattern, streams[directories])
    else OriginsInside(rules, inside) == {}
  }

  /** The streams that the queues for an instruction start with are those of the handle, and the names that are
      inserted are those of deeper origin directories. */
  lemma QueuesShowHandle(
    rules: RuleIndex, fs: Filesystem, layout: Layout, instruction: DirectoryEnumerationInstruction,
    openings: seq<DirectoryOpening>, query: (nat, NameInsertion) -> QueryResult, associatedPath: wstring,
    realOpenedPath: wstring, inside: Path, filePattern: wstring, streams: seq<Stream>)
    requires WellFormed(rules) && InstructedFor(rules, fs, instruction, associatedPath, realOpenedPath, inside)
    requires StreamsBehind(layout, instruction, openings, query, filePattern, streams)
    requires SystemIsHonest(fs, layout, instruction, openings, query, associatedPath, realOpenedPath, filePattern)
    ensures
      StreamsOfHandle(
        rules, fs, instruction.directories, associatedPath, realOpenedPath, inside, filePattern, streams)
    ensures InsertsLast(rules, fs, inside, filePattern, streams, |instruction.directories|)
  {
    hide DirectoriesToEnumerate, ClassifyEnumeration, InsertionStream, QueriesAsItIs, OpenedAsItIs, StartsWith;
    hide Offers, WellFormed, AllFit, InsertionsFor, OriginsInside, SingleDirectoryEnumeration.SelectDirectoryPath;
    hide Inserts;
    forall i | 0 <= i < |instruction.directories|
      ensures Offers(fs, streams[i], instruction.directories[i], associatedPath, realOpenedPath, filePattern)
    {
      assert StartsWith(layout, instruction.directories[i], openings[i], filePattern, streams[i]);
      DirectoryOffers(
        fs, layout, instruction.directories[i], openings[i], associatedPath, realOpenedPath, filePattern, streams[i]);
    }
    if instruction.namesToInsert.Some? {
      InsertionStreamInserts(rules, fs, inside, layout, query, filePattern, instruction.namesToInsert.value);
      InsertedAreOrigins(rules, fs, inside, filePattern, streams[|openings|]);
    }
  }

  lemma InsertedAreOrigins(rules: RuleIndex, fs: Filesystem, directory: Path, filePattern: wstring, s: Stream)
    requires Inserts(rules, fs, directory, filePattern, s)
    ensures forall e :: e in s.entries ==> Extend(directory, Fold(e.name)) in rules
  {
    hide MatchesQuery, InsertionTarget, Sorted, Fold;
    forall e | e in s.entries
      ensures Extend(directory, Fold(e.name)) in rules
    {
      assert Fold(e.name) in Names(s.entries);
    }
  }

  /** How far the enumeration gets is decided by the rules, the filesystem and the order in which directories are
      listed. */
  lemma ReachedMeaning(
    rules: RuleIndex, fs: Filesystem, inside: Path, filePattern: wstring, streams: seq<Stream>, directories: nat,
    c: wstring)
    requires InsertsLast(rules, fs, inside, filePattern, streams, directories)
    ensures NotCutOff(streams, directories, c) <==> IsReached(rules, fs, inside, filePattern, streams, c)
  {
    hide IsInsertedFor, Sorted, InsertionTarget, MatchesQuery, Fold, ComesUnder;
    if |streams| > directories {
      hide NoneIsBlocked;
      var last := streams[directories];
      if s, a :| s in streams && IsInsertedFor(rules, fs, inside, filePattern, a) && ComesUnder(s, c, a) {
        var e :| e in last.entries && Fold(e.name) == a;
        assert ComesBefore(s, c, last);
      }
      if s :| s in streams && ComesBefore(s, c, last) {
        var e :| e in last.entries && ComesUnder(s, c, Fold(e.name));
        assert Fold(e.name) in Names(last.entries);
      }
    } else {
      forall b
        ensures !IsBlocked(rules, fs, inside, filePattern, b)
      {
        assert Extend(inside, b) in rules ==> Extend(inside, b) in OriginsInside(rules, inside);
      }
    }
  }

  /** For a name that some queue has, if all are sorted. */
  lemma ReachedWhenSorted(
    rules: RuleIndex, fs: Filesystem, inside: Path, filePattern: wstring, streams: seq<Stream>, c: wstring)
    requires AllSorted(streams) && exists s :: s in streams && c in Names(s.entries)
    ensures
      IsReached(rules, fs, inside, filePattern, streams, c) <==> SortsInTime(rules, fs, inside, filePattern, c)
  {
    hide IsInsertedFor, NoneIsBlocked, Names, Less, Sorted, Reach;
    forall s, a | s in streams && c in Names(s.entries)
      ensures ComesUnder(s, c, a) <==> !Less(a, c)
    {
      SortedReach(s.entries, c);
    }
  }

  // ---------- What an application is shown ----------

  /** Everything delivered by a run of calls on the queue behind some streams, also by a call that reports an error
      together with it (see `Enumerations.Reported`). Where the enumeration is left to the system, there is no such
      queue, and the system delivers its scan of the directory, which is then the only stream. */
  ghost function DeliveredBy(streams: seq<Stream>, calls: seq<Enumerations.Call>): seq<Entry> {
    Enumerations.Run(Enumerations.Started(Combined(streams)), calls).0
  }

  /** The run has reached the end of the queue. */
  ghost predicate IsComplete(streams: seq<Stream>, calls: seq<Enumerations.Call>) {
    Enumerations.Run(Enumerations.Started(Combined(streams)), calls).1.stream.entries == []
  }

  lemma DeliveredNames(streams: seq<Stream>, calls: seq<Enumerations.Call>)
    requires IsComplete(streams, calls)
    ensures Names(DeliveredBy(streams, calls)) == Names(Merge(streams).entries)
  {
    hide Merge, Enumerations.Run;
    Enumerations.CompleteRunDeliversAll(Combined(streams), calls);
    DedupeKeepsNames(Merge(streams).entries, {});
  }

  /** From the director's instruction to the application: take a directory handle opened through the program, the
      queues made for its instruction and any file pattern, and any number of calls with any buffers until the end. A
      name that is not that of a deeper origin directory is delivered if and only if it matches the pattern, opening
      a file of that name would find something, none of the directories enumerated for the handle fails, and the
      enumeration gets as far as the name. */
  lemma ShownIfAndOnlyIfOpenable(
    rules: RuleIndex, fsThen: Filesystem, fs: Filesystem, layout: Layout, instruction: DirectoryEnumerationInstruction,
    openings: seq<DirectoryOpening>, query: (nat, NameInsertion) -> QueryResult, prefix: wstring, p: wstring,
    dirAllowsCreate: bool, realOpenedPath: wstring, filePattern: wstring, streams: seq<Stream>,
    calls: seq<Enumerations.Call>, fileName: wstring, suffix: wstring, allowsCreate: bool)
    requires Accepted(rules) && IsNamespacePrefix(prefix) && IsQueryPath(p) && IsRealName(fileName) && IsSuffix(suffix)
    requires IsHandleFor(rules, fsThen, prefix, p, dirAllowsCreate, realOpenedPath)
    requires InstructedFor(rules, fs, instruction, prefix + p, realOpenedPath, Key(p))
    requires StreamsBehind(layout, instruction, openings, query, filePattern, streams)
    requires SystemIsHonest(fs, layout, instruction, openings, query, prefix + p, realOpenedPath, filePattern)
    requires IsComplete(streams, calls) && Extend(Key(p), Fold(fileName)) !in rules
    ensures
      var file := prefix + p + [BACKSLASH] + fileName + suffix;
      Fold(fileName) in Names(DeliveredBy(streams, calls)) <==>
        && FirstFailure(fs, instruction.directories, prefix + p, realOpenedPath, filePattern) == None
        && IsReached(rules, fs, Key(p), filePattern, streams, Fold(fileName))
        && MatchesQuery(filePattern, fileName)
        && FirstExisting(fs, FilesToTry(FileOperation(rules, fs, file, allowsCreate), file)).Some?
  {
    hide Merge, Enumerations.Run, Names, StreamsOfHandle, FirstExisting, FileOperation, FilesToTry, Key, Fold;
    hide ClassifyEnumeration, DirectoriesToEnumerate, IsHandleFor, StreamsBehind, SystemIsHonest, WellFormed;
    hide FirstFailure, IsReached, NotCutOff, InsertsLast;
    QueuesShowHandle(
      rules, fs, layout, instruction, openings, query, prefix + p, realOpenedPath, Key(p), filePattern, streams);
    ApplicationsSeeWhatTheyCanOpen(
      rules, fsThen, fs, prefix, p, dirAllowsCreate, realOpenedPath, filePattern, streams, calls, fileName, suffix,
      allowsCreate);
    ReachedMeaning(rules, fs, Key(p), filePattern, streams, |instruction.directories|, Fold(fileName));
  }

  /** The scan of a directory lists it in order of the names without regard to case. */
  ghost predicate ListsInOrder(layout: Layout, opening: DirectoryOpening, filePattern: wstring)
    requires layout.Valid() && OpeningValid(layout, opening)
    reads DirectoryOf(opening)
  {
    match opening
    case Opened(d) =>
      var scan := d.behaviour(d.scans, filePattern);
      BatchEntriesAreStructs(layout, scan);
      Sorted(AsEntries(layout, BatchEntries(layout, scan.batches)))
    case NotOpened(_) => true
  }

  /** If the system lists all directories in order, all streams are sorted. */
  lemma StreamsAreSorted(
    rules: RuleIndex, fs: Filesystem, layout: Layout, instruction: DirectoryEnumerationInstruction,
    openings: seq<DirectoryOpening>, query: (nat, NameInsertion) -> QueryResult, inside: Path, filePattern: wstring,
    streams: seq<Stream>)
    requires StreamsBehind(layout, instruction, openings, query, filePattern, streams)
    requires InsertsLast(rules, fs, inside, filePattern, streams, |openings|)
    requires forall o :: o in openings ==> OpeningValid(layout, o) && ListsInOrder(layout, o, filePattern)
    ensures AllSorted(streams)
  {
    hide ListsInOrder, Sorted, StartsWith, NoneIsBlocked, IsInsertedFor, OpeningValid, InsertionStream;
    forall s | s in streams
      ensures Sorted(s.entries)
    {
      var i :| 0 <= i < |streams| && streams[i] == s;
      if i < |openings| {
        assert openings[i] in openings;
        assert StartsWith(layout, instruction.directories[i], openings[i], filePattern, streams[i]);
        SortedStart(layout, instruction.directories[i], openings[i], filePattern, s);
      }
    }
  }

  lemma SortedStart(
    layout: Layout, d: SingleDirectoryEnumeration, opening: DirectoryOpening, filePattern: wstring, s: Stream)
    requires StartsWith(layout, d, opening, filePattern, s) && ListsInOrder(layout, opening, filePattern)
    ensures Sorted(s.entries)
  {
    if opening.Opened? {
      var scan := opening.directory.behaviour(opening.directory.scans, filePattern);
      BatchEntriesAreStructs(layout, scan);
      IncludedIsSorted(d, AsEntries(layout, BatchEntries(layout, scan.batches)));
    }
  }

  /** The same where the system lists all directories in order: whether a name is delivered is decided by the rules and
      the filesystem alone. */
  lemma ShownWhenSorted(
    rules: RuleIndex, fsThen: Filesystem, fs: Filesystem, layout: Layout, instruction: DirectoryEnumerationInstruction,
    openings: seq<DirectoryOpening>, query: (nat, NameInsertion) -> QueryResult, prefix: wstring, p: wstring,
    dirAllowsCreate: bool, realOpenedPath: wstring, filePattern: wstring, streams: seq<Stream>,
    calls: seq<Enumerations.Call>, fileName: wstring, suffix: wstring, allowsCreate: bool)
    requires Accepted(rules) && IsNamespacePrefix(prefix) && IsQueryPath(p) && IsRealName(fileName) && IsSuffix(suffix)
    requires IsHandleFor(rules, fsThen, prefix, p, dirAllowsCreate, realOpenedPath)
    requires InstructedFor(rules, fs, instruction, prefix + p, realOpenedPath, Key(p))
    requires StreamsBehind(layout, instruction, openings, query, filePattern, streams)
    requires SystemIsHonest(fs, layout, instruction, openings, query, prefix + p, realOpenedPath, filePattern)
    requires forall o :: o in openings ==> OpeningValid(layout, o) && ListsInOrder(layout, o, filePattern)
    requires IsComplete(streams, calls) && Extend(Key(p), Fold(fileName)) !in rules
    ensures
      var file := prefix + p + [BACKSLASH] + fileName + suffix;
      Fold(fileName) in Names(DeliveredBy(streams, calls)) <==>
        && FirstFailure(fs, instruction.directories, prefix + p, realOpenedPath, filePattern) == None
        && SortsInTime(rules, fs, Key(p), filePattern, Fold(fileName))
        && MatchesQuery(filePattern, fileName)
        && FirstExisting(fs, FilesToTry(FileOperation(rules, fs, file, allowsCreate), file)).Some?
  {
    hide Merge, Enumerations.Run, Names, StreamsOfHandle, FirstExisting, FileOperation, FilesToTry, Key, Fold;
    hide ClassifyEnumeration, DirectoriesToEnumerate, IsHandleFor, StreamsBehind, SystemIsHonest, WellFormed;
    hide FirstFailure, IsReached, InsertsLast, SortsInTime, MatchesQuery, DeliveredBy, IsComplete, AllSorted, Yields;
    hide ListsInOrder, OpeningValid, InstructedFor, Accepted, FirstListing, IsQueryPath;
    AcceptedRulesAreWellFormed(rules);
    QueuesShowHandle(
      rules, fs, layout, instruction, openings, query, prefix + p, realOpenedPath, Key(p), filePattern, streams);
    ShownIfAndOnlyIfOpenable(
      rules, fsThen, fs, layout, instruction, openings, query, prefix, p, dirAllowsCreate, realOpenedPath, filePattern,
      streams, calls, fileName, suffix, allowsCreate);
    EachHasStream(layout, instruction, openings, query, filePattern, streams);
    StreamsAreSorted(rules, fs, layout, instruction, openings, query, Key(p), filePattern, streams);
    OpenableIsOffered(
      rules, fsThen, fs, instruction, prefix, p, dirAllowsCreate, realOpenedPath, filePattern, streams, fileName,
      suffix, allowsCreate);
    if exists s :: s in streams && Fold(fileName) in Names(s.entries) {
      ReachedWhenSorted(rules, fs, Key(p), filePattern, streams, Fold(fileName));
    }
  }

  lemma EachHasStream(
    layout: Layout, instruction: DirectoryEnumerationInstruction, openings: seq<DirectoryOpening>,
    query: (nat, NameInsertion) -> QueryResult, filePattern: wstring, streams: seq<Stream>)
    requires StreamsBehind(layout, instruction, openings, query, filePattern, streams)
    ensures |openings| == |instruction.directories| && layout.Valid()
  {
    hide InsertionStream, StartsWith;
  }

  /** A name that matches the pattern and can be opened is in some stream. */
  lemma OpenableIsOffered(
    rules: RuleIndex, fsThen: Filesystem, fs: Filesystem, instruction: DirectoryEnumerationInstruction,
    prefix: wstring, p: wstring, dirAllowsCreate: bool, realOpenedPath: wstring, filePattern: wstring,
    streams: seq<Stream>, fileName: wstring, suffix: wstring, allowsCreate: bool)
    requires Accepted(rules) && IsNamespacePrefix(prefix) && IsQueryPath(p) && IsRealName(fileName) && IsSuffix(suffix)
    requires IsHandleFor(rules, fsThen, prefix, p, dirAllowsCreate, realOpenedPath)
    requires InstructedFor(rules, fs, instruction, prefix + p, realOpenedPath, Key(p))
    requires
      StreamsOfHandle(
        rules, fs, instruction.directories, prefix + p, realOpenedPath, Key(p), filePattern, streams)
    requires Extend(Key(p), Fold(fileName)) !in rules
    ensures
      var file := prefix + p + [BACKSLASH] + fileName + suffix;
      && MatchesQuery(filePattern, fileName)
      && FirstExisting(fs, FilesToTry(FileOperation(rules, fs, file, allowsCreate), file)).Some? ==>
        exists s :: s in streams && Fold(fileName) in Names(s.entries)
  {
    hide Names, StreamsOfHandle, FirstExisting, FileOperation, FilesToTry, Key, Fold, Yields, FirstListing, Accepted;
    hide ClassifyEnumeration, DirectoriesToEnumerate, IsHandleFor, WellFormed, MatchesQuery, IsQueryPath, FsKey;
    ListingAgreesWithOpening(
      rules, fsThen, fs, prefix, p, dirAllowsCreate, realOpenedPath, fileName, suffix, allowsCreate);
    FirstListingMeaning(fs, instruction.directories, prefix + p, realOpenedPath, fileName);
    StreamsWithName(
      rules, fs, instruction.directories, prefix + p, realOpenedPath, Key(p), filePattern, streams, fileName);
    StreamCount(rules, fs, instruction.directories, prefix + p, realOpenedPath, Key(p), filePattern, streams);
    if MatchesQuery(filePattern, fileName) {
      if i :|
          0 <= i < |instruction.directories|
          && Yields(fs, instruction.directories[i], prefix + p, realOpenedPath, fileName) {
        assert streams[i] in streams;
      }
    }
  }

  /** Take any entry that is delivered, in any run, for a name that is not that of a deeper origin directory. Opening a
      file of that name finds something, in the first directory that yields the name. The entry is from that directory
      if and only if the listing of no later one comes to the name lower; in particular if all are sorted. */
  lemma ShownEntryIsOpened(
    rules: RuleIndex, fsThen: Filesystem, fs: Filesystem, layout: Layout, instruction: DirectoryEnumerationInstruction,
    openings: seq<DirectoryOpening>, query: (nat, NameInsertion) -> QueryResult, prefix: wstring, p: wstring,
    dirAllowsCreate: bool, realOpenedPath: wstring, filePattern: wstring, streams: seq<Stream>,
    calls: seq<Enumerations.Call>, fileName: wstring, suffix: wstring, allowsCreate: bool, entry: Entry)
    returns (k: nat, e: nat)
    requires Accepted(rules) && IsNamespacePrefix(prefix) && IsQueryPath(p) && IsRealName(fileName) && IsSuffix(suffix)
    requires IsHandleFor(rules, fsThen, prefix, p, dirAllowsCreate, realOpenedPath)
    requires InstructedFor(rules, fs, instruction, prefix + p, realOpenedPath, Key(p))
    requires StreamsBehind(layout, instruction, openings, query, filePattern, streams)
    requires SystemIsHonest(fs, layout, instruction, openings, query, prefix + p, realOpenedPath, filePattern)
    requires entry in DeliveredBy(streams, calls) && Fold(entry.name) == Fold(fileName)
    requires Extend(Key(p), Fold(fileName)) !in rules
    ensures k < |Merge(streams).entries| && Merge(streams).entries[k] == entry && Merge(streams).sources[k] < |streams|
    ensures entry in streams[Merge(streams).sources[k]].entries
    ensures e < |instruction.directories| <= |streams| && instruction.directories[e].Valid()
    ensures
      var file := prefix + p + [BACKSLASH] + fileName + suffix;
      FirstExisting(fs, FilesToTry(FileOperation(rules, fs, file, allowsCreate), file))
      == Some(FsKey(instruction.directories[e].SelectDirectoryPath(prefix + p, realOpenedPath)) + [Fold(fileName)])
    ensures
      forall j :: 0 <= j < e ==> !Yields(fs, instruction.directories[j], prefix + p, realOpenedPath, fileName)
    ensures
      var i := Merge(streams).sources[k];
      i < |instruction.directories| && Yields(fs, instruction.directories[i], prefix + p, realOpenedPath, fileName)
    ensures
      && Fold(fileName) in Names(streams[e].entries)
      && (Merge(streams).sources[k] == e <==>
          forall j :: e < j < |instruction.directories| && Fold(fileName) in Names(streams[j].entries) ==>
            !Less(Reach(streams[j].entries, Fold(fileName)), Reach(streams[e].entries, Fold(fileName))))
    ensures AllSorted(streams) ==> Merge(streams).sources[k] == e
  {
    hide Merge, Names, StreamsOfHandle, FirstExisting, FileOperation, FilesToTry, Key, Fold, FsKey, Reach, Less, Yields;
    hide ClassifyEnumeration, DirectoriesToEnumerate, IsHandleFor, StreamsBehind, SystemIsHonest, WellFormed, AllSorted;
    hide InsertsLast, FirstListing, Accepted, IsQueryPath, SingleDirectoryEnumeration.SelectDirectoryPath, IsFirst;
    AcceptedRulesAreWellFormed(rules);
    QueuesShowHandle(
      rules, fs, layout, instruction, openings, query, prefix + p, realOpenedPath, Key(p), filePattern, streams);
    StreamCount(rules, fs, instruction.directories, prefix + p, realOpenedPath, Key(p), filePattern, streams);
    k := DeliveredIsFirst(streams, calls, entry);
    MergeSources(streams, k);
    e := DeliveredFromFirst(
      rules, fs, instruction.directories, prefix + p, realOpenedPath, Key(p), filePattern, streams, fileName, k);
    ListingAgreesWithOpening(
      rules, fsThen, fs, prefix, p, dirAllowsCreate, realOpenedPath, fileName, suffix, allowsCreate);
    if AllSorted(streams) {
      SortedFromFirst(streams, k, e, |instruction.directories|);
    }
  }

  lemma SortedFromFirst(streams: seq<Stream>, k: nat, e: nat, n: nat)
    requires AllSorted(streams) && k < |Merge(streams).entries| && e < n <= |streams|
    requires Fold(Merge(streams).entries[k].name) in Names(streams[e].entries)
    ensures
      var c := Fold(Merge(streams).entries[k].name);
      forall j :: e < j < n && c in Names(streams[j].entries) ==>
        !Less(Reach(streams[j].entries, c), Reach(streams[e].entries, c))
  {
    hide Merge, Names, Reach, Less, Sorted, Fold;
    var c := Fold(Merge(streams).entries[k].name);
    SortedReach(streams[e].entries, c);
    LessOrder(c, c, c);
    forall j | e < j < n && c in Names(streams[j].entries)
      ensures !Less(Reach(streams[j].entries, c), Reach(streams[e].entries, c))
    {
      SortedReach(streams[j].entries, c);
    }
  }

  /** What is delivered is the first merged entry of its name. */
  lemma DeliveredIsFirst(streams: seq<Stream>, calls: seq<Enumerations.Call>, entry: Entry) returns (k: nat)
    requires entry in DeliveredBy(streams, calls)
    ensures k < |Merge(streams).entries| && Merge(streams).entries[k] == entry && IsFirst(Merge(streams).entries, k)
  {
    hide Merge, Enumerations.Run, IsFirst, Dedupe;
    Enumerations.RunDeliversPrefix(Combined(streams), calls);
    DedupeMeaning(Merge(streams).entries, {}, entry);
    k :| k < |Merge(streams).entries| && Merge(streams).entries[k] == entry && IsFirst(Merge(streams).entries, k);
  }

  /** What the rule chosen for a path leads to exists. */
  predicate LeadsSomewhere(rules: RuleIndex, fs: Filesystem, path: Path, c: Choice)
    requires c.origin in rules && c.index < |rules[c.origin]|
  {
    c.origin <= path && RedirectedPath(rules, path, c) in fs
  }

  /** Opening a path finds something: at the path itself if no rule is chosen for it, and otherwise where the rule leads
      or, in Overlay mode, at the path itself. */
  predicate CanBeOpened(rules: RuleIndex, fs: Filesystem, path: Path) {
    match ChooseRule(rules, path)
    case None => path in fs
    case Some(c) =>
      LeadsSomewhere(rules, fs, path, c) || (path in fs && ChosenRule(rules, c).redirectMode == Overlay)
  }

  lemma OpeningMeaning(rules: RuleIndex, fs: Filesystem, path: Path)
    ensures FirstInFs(fs, PathsToTry(rules, path)).Some? <==> CanBeOpened(rules, fs, path)
  {
    hide FirstInFs, RedirectedPath;
    FirstInFsOfTwo(fs, path, path);
    if ChooseRule(rules, path).Some? {
      var c := ChooseRule(rules, path).value;
      assert c.origin <= path;
      FirstInFsOfTwo(fs, RedirectedPath(rules, path, c), path);
    }
  }

  /** A directory handle that is on record as opened for itself, although rules may redirect the directory: when a name
      is delivered, when it can be opened, and exactly when the two agree. Where nothing else keeps the name from being
      shown, they differ if what the rule for the name leads to exists while nothing is in the directory, or does not
      exist while the rule hides what is there. */
  lemma ShownForUnredirectedHandle(
    rules: RuleIndex, fs: Filesystem, layout: Layout, instruction: DirectoryEnumerationInstruction,
    openings: seq<DirectoryOpening>, query: (nat, NameInsertion) -> QueryResult, prefix: wstring, p: wstring,
    filePattern: wstring, streams: seq<Stream>, calls: seq<Enumerations.Call>, fileName: wstring, suffix: wstring,
    allowsCreate: bool)
    requires WellFormed(rules) && IsNamespacePrefix(prefix) && IsQueryPath(p) && IsRealName(fileName)
        && IsSuffix(suffix)
    requires InstructedFor(rules, fs, instruction, prefix + p, prefix + p, Key(p))
    requires StreamsBehind(layout, instruction, openings, query, filePattern, streams)
    requires SystemIsHonest(fs, layout, instruction, openings, query, prefix + p, prefix + p, filePattern)
    requires IsComplete(streams, calls) && Extend(Key(p), Fold(fileName)) !in rules
    ensures
      var entity, file := Extend(Key(p), Fold(fileName)), prefix + p + [BACKSLASH] + fileName + suffix;
      var shown := Fold(fileName) in Names(DeliveredBy(streams, calls));
      var openable := FirstExisting(fs, FilesToTry(FileOperation(rules, fs, file, allowsCreate), file)).Some?;
      var canBeShown :=
        && FirstFailure(fs, instruction.directories, prefix + p, prefix + p, filePattern) == None
        && IsReached(rules, fs, Key(p), filePattern, streams, Fold(fileName))
        && MatchesQuery(filePattern, fileName);
      && (shown <==> canBeShown && entity in fs)
      && (openable <==> CanBeOpened(rules, fs, entity))
      && ((shown <==> openable) <==>
            if !canBeShown then !CanBeOpened(rules, fs, entity)
            else
              match ChooseRule(rules, entity)
              case None => true
              case Some(c) =>
                var elsewhere := LeadsSomewhere(rules, fs, entity, c);
                if entity in fs then elsewhere || ChosenRule(rules, c).redirectMode == Overlay else !elsewhere)
  {
    hide Merge, Enumerations.Run, Names, StreamsOfHandle, FirstExisting, FileOperation, FilesToTry, Key, Fold;
    hide StreamsBehind, SystemIsHonest, WellFormed, FirstFailure, IsReached, NotCutOff, InsertsLast, IsQueryPath;
    hide MatchesQuery, FirstListing, ChooseRule, PathsToTry, FirstInFs, LeadsSomewhere;
    var entity, file := Extend(Key(p), Fold(fileName)), prefix + p + [BACKSLASH] + fileName + suffix;
    QueuesShowHandle(
      rules, fs, layout, instruction, openings, query, prefix + p, prefix + p, Key(p), filePattern, streams);
    CompleteRunDelivers(
      rules, fs, instruction.directories, prefix + p, prefix + p, Key(p), filePattern, streams, calls, fileName);
    ReachedMeaning(rules, fs, Key(p), filePattern, streams, |instruction.directories|, Fold(fileName));
    ListingForItself(fs, prefix, p, fileName);
    FilesInside(rules, fs, prefix, p, fileName, suffix, allowsCreate, file);
    OpeningMeaning(rules, fs, entity);
  }

  lemma ListingForItself(fs: Filesystem, prefix: wstring, p: wstring, fileName: wstring)
    requires IsNamespacePrefix(prefix) && IsQueryPath(p)
    ensures
      FirstListing(fs, DirectoriesToEnumerate(NotRedirected), prefix + p, prefix + p, fileName).Some?
      <==> Extend(Key(p), Fold(fileName)) in fs
  {
    hide Key, Fold, FsKey, FirstListing, FirstInFs, Normalised;
    assert prefix + p + [] == prefix + p;
    FsKeyOfWrapped(prefix, p, []);
    UnfilteredListing(fs, prefix + p, prefix + p, fileName);
    var entity := Extend(Key(p), Fold(fileName));
    FirstInFsOfTwo(fs, entity, entity);
  }

  /** If one of the enumerated directories fails, because its path is a file or because nothing in it matches the
      pattern, nothing at all is delivered, however many calls are made, and every call reports the first failure. */
  lemma FailureInTheWay(
    rules: RuleIndex, fs: Filesystem, layout: Layout, instruction: DirectoryEnumerationInstruction,
    openings: seq<DirectoryOpening>, query: (nat, NameInsertion) -> QueryResult, associatedPath: wstring,
    realOpenedPath: wstring, inside: Path, filePattern: wstring, streams: seq<Stream>, calls: seq<Enumerations.Call>,
    next: Enumerations.Call)
    requires WellFormed(rules) && InstructedFor(rules, fs, instruction, associatedPath, realOpenedPath, inside)
    requires StreamsBehind(layout, instruction, openings, query, filePattern, streams)
    requires SystemIsHonest(fs, layout, instruction, openings, query, associatedPath, realOpenedPath, filePattern)
    requires FirstFailure(fs, instruction.directories, associatedPath, realOpenedPath, filePattern).Some?
    ensures IsComplete(streams, calls) && DeliveredBy(streams, calls) == []
    ensures
      var after := Enumerations.Run(Enumerations.Started(Combined(streams)), calls).1;
      Some(Enumerations.Advance(after, next).status)
      == FirstFailure(fs, instruction.directories, associatedPath, realOpenedPath, filePattern)
  {
    hide Merge, Enumerations.Run, Enumerations.Advance, StreamsOfHandle, FirstFailure, DirectoriesToEnumerate;
    hide ClassifyEnumeration, StreamsBehind, SystemIsHonest, WellFormed, InsertsLast;
    QueuesShowHandle(
      rules, fs, layout, instruction, openings, query, associatedPath, realOpenedPath, inside, filePattern, streams);
    FailureMakesMergeFail(
      rules, fs, instruction.directories, associatedPath, realOpenedPath, inside, filePattern, streams);
    FailedStreamDeliversNothing(Combined(streams), calls, next);
  }

  /** If the target of a deeper rule has a file in its way, the enumeration does not end normally: every call that
      reaches the end of the queue, and every later one, reports that something is not a directory. If no name is
      inserted before that, nothing at all is delivered and every call reports it. */
  lemma BlockedTargetInTheWay(
    rules: RuleIndex, fs: Filesystem, layout: Layout, instruction: DirectoryEnumerationInstruction,
    openings: seq<DirectoryOpening>, query: (nat, NameInsertion) -> QueryResult, associatedPath: wstring,
    realOpenedPath: wstring, inside: Path, filePattern: wstring, streams: seq<Stream>, calls: seq<Enumerations.Call>,
    next: Enumerations.Call)
    requires WellFormed(rules) && InstructedFor(rules, fs, instruction, associatedPath, realOpenedPath, inside)
    requires StreamsBehind(layout, instruction, openings, query, filePattern, streams)
    requires SystemIsHonest(fs, layout, instruction, openings, query, associatedPath, realOpenedPath, filePattern)
    requires FirstFailure(fs, instruction.directories, associatedPath, realOpenedPath, filePattern) == None
    requires !NoneIsBlocked(rules, fs, inside, filePattern)
    ensures
      var r := Enumerations.Advance(Enumerations.Run(Enumerations.Started(Combined(streams)), calls).1, next);
      && (r.after.stream.entries == [] ==> r.status == STATUS_NOT_A_DIRECTORY)
      && ((forall a :: !IsInsertedFor(rules, fs, inside, filePattern, a)) ==>
            IsComplete(streams, calls) && DeliveredBy(streams, calls) == [] && r.status == STATUS_NOT_A_DIRECTORY)
  {
    hide Merge, Enumerations.Run, Enumerations.Advance, StreamsOfHandle, FirstFailure, DirectoriesToEnumerate;
    hide ClassifyEnumeration, StreamsBehind, SystemIsHonest, WellFormed, InsertsLast, NoneIsBlocked, IsInsertedFor;
    QueuesShowHandle(
      rules, fs, layout, instruction, openings, query, associatedPath, realOpenedPath, inside, filePattern, streams);
    BlockedEnd(
      rules, fs, instruction.directories, associatedPath, realOpenedPath, inside, filePattern, streams);
    Enumerations.RunDelivers(Enumerations.Started(Combined(streams)), calls);
    EndStatus(Enumerations.Run(Enumerations.Started(Combined(streams)), calls).1, next);
    if forall a :: !IsInsertedFor(rules, fs, inside, filePattern, a) {
      FailedStreamDeliversNothing(Combined(streams), calls, next);
    }
  }

  lemma EndStatus(p: Enumerations.Progress, call: Enumerations.Call)
    requires p.Valid() && p.stream.end != StatusNoMoreFiles
    ensures
      var r := Enumerations.Advance(p, call);
      r.after.stream.entries == [] ==> r.status == p.stream.end
  {
    hide Enumerations.Fill;
    if p.stream.entries != [] && call.capacity >= |p.stream.entries[0].info| {
      Enumerations.FillDelivers(
        p.(first := false), call.capacity, if call.singleEntry then 1 else Enumerations.UNLIMITED);
    }
  }

  lemma BlockedEnd(
    rules: RuleIndex, fs: Filesystem, directories: seq<SingleDirectoryEnumeration>, associatedPath: wstring,
    realOpenedPath: wstring, inside: Path, filePattern: wstring, streams: seq<Stream>)
    requires
      StreamsOfHandle(rules, fs, directories, associatedPath, realOpenedPath, inside, filePattern, streams)
    requires InsertsLast(rules, fs, inside, filePattern, streams, |directories|)
    requires FirstFailure(fs, directories, associatedPath, realOpenedPath, filePattern) == None
    requires !NoneIsBlocked(rules, fs, inside, filePattern)
    ensures Merge(streams).end == STATUS_NOT_A_DIRECTORY
    ensures (forall a :: !IsInsertedFor(rules, fs, inside, filePattern, a)) ==> Merge(streams).entries == []
  {
    hide Merge, Offers, Sorted, Extend, Fold, FirstFailure, IsInsertedFor, NoneIsBlocked;
    var n := |directories|;
    SomeNameIsInserted(rules, fs, inside, filePattern, streams, n);
    FailuresOfStreams(fs, directories, associatedPath, realOpenedPath, filePattern, streams);
    assert streams[n] in streams && streams[n].end == STATUS_NOT_A_DIRECTORY;
    MergeEndsLikeItsStreams(streams);
    MergeEndsAsOne(streams);
    forall s | s in streams
      ensures s.end in {StatusNoMoreFiles, STATUS_NOT_A_DIRECTORY}
    {
      var i :| 0 <= i < |streams| && streams[i] == s;
    }
    if forall a :: !IsInsertedFor(rules, fs, inside, filePattern, a) {
      EntriesHaveNames(streams[n].entries);
      FailingStreamFails(streams, n);
    }
  }

  /** A stream that fails at once makes the merged stream fail at once. */
  lemma FailingStreamFails(streams: seq<Stream>, i: nat)
    requires i < |streams| && streams[i].entries == [] && streams[i].end != StatusNoMoreFiles
    ensures Merge(streams).entries == []
  {
    hide FirstError;
    assert streams[i] in streams;
    FirstErrorMeaning(streams);
  }

  lemma EntriesHaveNames(entries: seq<Entry>)
    ensures entries != [] ==> Names(entries) != {}
  {
    if entries != [] {
      assert Fold(entries[0].name) in Names(entries);
    }
  }

  lemma SomeNameIsInserted(
    rules: RuleIndex, fs: Filesystem, inside: Path, filePattern: wstring, streams: seq<Stream>, directories: nat)
    requires InsertsLast(rules, fs, inside, filePattern, streams, directories)
    requires !NoneIsBlocked(rules, fs, inside, filePattern)
    ensures |streams| > directories
  {
    var b :| IsBlocked(rules, fs, inside, filePattern, b);
    assert Extend(inside, b) in OriginsInside(rules, inside);
  }

  /** The name of a deeper origin directory is delivered if and only if it matches the pattern, the target directory
      chosen for it exists or one of the enumerated directories has an entry of that name that it may show, none of
      the directories fails, and the enumeration gets as far as the name. */
  lemma DeeperOriginIsShown(
    rules: RuleIndex, fs: Filesystem, layout: Layout, instruction: DirectoryEnumerationInstruction,
    openings: seq<DirectoryOpening>, query: (nat, NameInsertion) -> QueryResult, associatedPath: wstring,
    realOpenedPath: wstring, inside: Path, filePattern: wstring, streams: seq<Stream>, calls: seq<Enumerations.Call>,
    fileName: wstring)
    requires WellFormed(rules) && InstructedFor(rules, fs, instruction, associatedPath, realOpenedPath, inside)
    requires StreamsBehind(layout, instruction, openings, query, filePattern, streams)
    requires SystemIsHonest(fs, layout, instruction, openings, query, associatedPath, realOpenedPath, filePattern)
    requires IsComplete(streams, calls) && IsRealName(fileName) && Extend(inside, Fold(fileName)) in rules
    ensures
      rules[Extend(inside, Fold(fileName))] != [] &&
      (Fold(fileName) in Names(DeliveredBy(streams, calls)) <==>
        && FirstFailure(fs, instruction.directories, associatedPath, realOpenedPath, filePattern) == None
        && IsReached(rules, fs, inside, filePattern, streams, Fold(fileName))
        && MatchesQuery(filePattern, fileName)
        && (InsertionTarget(rules, fs, Extend(inside, Fold(fileName))) in fs
            || YieldedBySome(fs, instruction.directories, associatedPath, realOpenedPath, fileName)))
  {
    hide Merge, Enumerations.Run, Key, Fold, IsComplete, InsertionTarget, InsertsLast, FirstFailure, YieldedBySome;
    hide ClassifyEnumeration, DirectoriesToEnumerate, StreamsBehind, SystemIsHonest, StreamsOfHandle, DeliveredBy;
    hide IsReached, MatchesQuery, NotCutOff, InstructedFor, WellFormed, IsInsertedFor;
    var n, c := |instruction.directories|, Fold(fileName);
    OriginIsInside(rules, inside, c);
    DeliveredNames(streams, calls);
    if FirstFailure(fs, instruction.directories, associatedPath, realOpenedPath, filePattern) == None {
      hide Names;
      QueuesShowHandle(
        rules, fs, layout, instruction, openings, query, associatedPath, realOpenedPath, inside, filePattern, streams);
      NamesThrough(
        rules, fs, instruction.directories, associatedPath, realOpenedPath, inside, filePattern, streams, c);
      ReachedMeaning(rules, fs, inside, filePattern, streams, n, c);
      SomeStream(
        rules, fs, instruction.directories, associatedPath, realOpenedPath, inside, filePattern, streams, fileName);
      if IsReached(rules, fs, inside, filePattern, streams, c) {
        InsertedIfReached(rules, fs, inside, filePattern, streams, fileName);
      }
    } else {
      FailureInTheWay(
        rules, fs, layout, instruction, openings, query, associatedPath, realOpenedPath, inside, filePattern, streams,
        calls, Enumerations.Call(0, false));
    }
  }

  lemma OriginIsInside(rules: RuleIndex, inside: Path, c: wstring)
    requires WellFormed(rules) && Extend(inside, c) in rules
    ensures rules[Extend(inside, c)] != [] && OriginsInside(rules, inside) != {}
  {
    var k := Extend(inside, c);
    assert WellFormedContainer(rules[k], k) && Parent(k) == inside;
    assert k in OriginsInside(rules, inside);
  }

  lemma NotAboveName(s: Stream, c: wstring, a: wstring)
    requires ComesUnder(s, c, a)
    ensures !Less(a, c)
  {
    hide Less, Names, Reach;
    ReachBounds(s.entries, c);
    LessOrder(a, Reach(s.entries, c), c);
  }

  /** A name with a target is inserted if the enumeration gets that far. */
  lemma InsertedIfReached(
    rules: RuleIndex, fs: Filesystem, inside: Path, filePattern: wstring, streams: seq<Stream>, fileName: wstring)
    requires Extend(inside, Fold(fileName)) in rules && rules[Extend(inside, Fold(fileName))] != []
    requires IsReached(rules, fs, inside, filePattern, streams, Fold(fileName))
    ensures
      IsInsertedFor(rules, fs, inside, filePattern, Fold(fileName)) <==>
      MatchesQuery(filePattern, fileName) && InsertionTarget(rules, fs, Extend(inside, Fold(fileName))) in fs
  {
    hide IsBlocked, InsertionTarget, MatchesQuery, Fold, Extend, Less;
    var c := Fold(fileName);
    FoldIdempotent(fileName);
    MatchesQueryIgnoresCase(filePattern, c, fileName);
    if s, a :| s in streams && IsInsertedFor(rules, fs, inside, filePattern, a) && ComesUnder(s, c, a) {
      NotAboveName(s, c, a);
      LessTotal(a, c);
      forall b | IsBlocked(rules, fs, inside, filePattern, b)
        ensures Less(c, b)
      {
        if a != c {
          LessTransitive(c, a, b);
        }
      }
    }
  }

  /** One of some enumerations yields a name. */
  predicate YieldedBySome(
    fs: Filesystem, directories: seq<SingleDirectoryEnumeration>, associatedPath: wstring, realOpenedPath: wstring,
    fileName: wstring)
  {
    exists d :: d in directories && Yields(fs, d, associatedPath, realOpenedPath, fileName)
  }

  /** A name is in some stream if it is inserted, or it matches the pattern and some directory yields it. */
  lemma SomeStream(
    rules: RuleIndex, fs: Filesystem, directories: seq<SingleDirectoryEnumeration>, associatedPath: wstring,
    realOpenedPath: wstring, inside: Path, filePattern: wstring, streams: seq<Stream>, fileName: wstring)
    requires
      StreamsOfHandle(rules, fs, directories, associatedPath, realOpenedPath, inside, filePattern, streams)
    requires InsertsLast(rules, fs, inside, filePattern, streams, |directories|)
    requires OriginsInside(rules, inside) != {} && IsRealName(fileName)
    ensures
      (exists i :: 0 <= i < |streams| && Fold(fileName) in Names(streams[i].entries)) <==>
      (IsInsertedFor(rules, fs, inside, filePattern, Fold(fileName))
       || (MatchesQuery(filePattern, fileName)
           && YieldedBySome(fs, directories, associatedPath, realOpenedPath, fileName)))
  {
    hide StreamsOfHandle, Names, Yields, Fold, MatchesQuery, IsInsertedFor, OriginsInside, NoneIsBlocked;
    DirectoryStreams(
      rules, fs, directories, associatedPath, realOpenedPath, inside, filePattern, streams, fileName);
    assert |streams| == |directories| + 1;
    if i :| 0 <= i < |directories| && Fold(fileName) in Names(streams[i].entries) {
      assert directories[i] in directories;
    }
    if d :| d in directories && Yields(fs, d, associatedPath, realOpenedPath, fileName) {
      var i :| 0 <= i < |directories| && directories[i] == d;
      assert MatchesQuery(filePattern, fileName) ==> Fold(fileName) in Names(streams[i].entries);
    }
  }

  lemma DirectoryStreams(
    rules: RuleIndex, fs: Filesystem, directories: seq<SingleDirectoryEnumeration>, associatedPath: wstring,
    realOpenedPath: wstring, inside: Path, filePattern: wstring, streams: seq<Stream>, fileName: wstring)
    requires
      StreamsOfHandle(rules, fs, directories, associatedPath, realOpenedPath, inside, filePattern, streams)
    requires IsRealName(fileName)
    ensures |directories| <= |streams| <= |directories| + 1
    ensures
      forall i :: 0 <= i < |directories| ==>
        (Fold(fileName) in Names(streams[i].entries) <==>
            && Yields(fs, directories[i], associatedPath, realOpenedPath, fileName)
            && MatchesQuery(filePattern, fileName))
  {
    hide Offers, MatchesQuery, Yields;
    forall i | 0 <= i < |directories|
      ensures Fold(fileName) in Names(streams[i].entries) <==>
          && Yields(fs, directories[i], associatedPath, realOpenedPath, fileName)
          && MatchesQuery(filePattern, fileName)
    {
      OfferedNames(fs, streams[i], directories[i], associatedPath, realOpenedPath, filePattern, fileName);
    }
  }

  // ---------- Listing and opening deeper origin directories ----------

  /** Some rule's target is a real directory. */
  predicate SomeTargetIsDirectory(container: RuleContainer, fs: Filesystem) {
    exists rule :: rule in container && Key(rule.target) in fs && fs[Key(rule.target)] == Directory
  }

  lemma {:induction false} FirstDirectoryIsInserted(container: RuleContainer, fs: Filesystem)
    requires container != []
    ensures
      if exists rule :: rule in container && IsDirectory(fs, rule.target)
      then IsDirectory(fs, RuleForNameInsertion(container, fs).target)
      else RuleForNameInsertion(container, fs) == container[0]
    decreases |container|
  {
    hide IsDirectory;
    assert container[0] in container;
    if !IsDirectory(fs, container[0].target) && exists rule :: rule in container && IsDirectory(fs, rule.target) {
      var rule :| rule in container && IsDirectory(fs, rule.target);
      assert rule in container[1..];
      FirstDirectoryIsInserted(container[1..], fs);
    }
  }

  lemma TargetIsDirectory(rule: FilesystemRule, fs: Filesystem, origin: Path)
    requires WellFormedRule(rule, origin)
    ensures IsDirectory(fs, rule.target) <==> Key(rule.target) in fs && fs[Key(rule.target)] == Directory
  {
    IsDirectoryMeaning(fs, [], rule.target);
    assert [] + rule.target == rule.target;
  }

  /** The inserted name stands for a real target directory if any rule has one, otherwise for the first rule's. */
  lemma InsertionRuleMeaning(rules: RuleIndex, fs: Filesystem, k: Path)
    requires WellFormed(rules) && k in rules
    ensures
      rules[k] != [] &&
      (InsertionTarget(rules, fs, k) in fs <==>
        Key(rules[k][0].target) in fs || SomeTargetIsDirectory(rules[k], fs))
  {
    hide Key, IsDirectory, RuleForNameInsertion, WellFormedRule;
    var container := rules[k];
    assert WellFormedContainer(container, k);
    forall rule | rule in container
      ensures IsDirectory(fs, rule.target) <==> Key(rule.target) in fs && fs[Key(rule.target)] == Directory
    {
      TargetIsDirectory(rule, fs, k);
    }
    FirstDirectoryIsInserted(container, fs);
    FilesystemDirectors.InsertionRuleIsIn(container, fs);
  }

  /** Opening an origin directory itself finds something if and only if the first rule's target exists, or that rule
      is in Overlay mode and there is something at the origin. */
  predicate OriginCanBeOpened(rules: RuleIndex, fs: Filesystem, k: Path)
    requires k in rules && rules[k] != []
  {
    Key(rules[k][0].target) in fs || (rules[k][0].redirectMode == Overlay && k in fs)
  }

  lemma OpeningAnOrigin(rules: RuleIndex, fs: Filesystem, k: Path)
    requires k in rules && rules[k] != []
    ensures FirstInFs(fs, PathsToTry(rules, k)).Some? <==> OriginCanBeOpened(rules, fs, k)
  {
    hide Key;
    assert ChooseRule(rules, k) == Some(Choice(k, 0));
    var target := Key(rules[k][0].target);
    assert k[|k|..] == [] && target + [] == target;
    FirstInFsOfTwo(fs, target, k);
  }

  /** Deeper origin directories: when such a name is delivered, when it can be opened, and exactly when the two
      agree. Where nothing else keeps the name from being shown, they differ if the first rule's target does not exist
      while another rule's does, or something of that name is listed by one of the directories although opening goes
      elsewhere, or the origin directory can only be opened on the origin side, which is not listed. */
  lemma DeeperOriginAgreement(
    rules: RuleIndex, fs: Filesystem, layout: Layout, instruction: DirectoryEnumerationInstruction,
    openings: seq<DirectoryOpening>, query: (nat, NameInsertion) -> QueryResult, prefix: wstring, p: wstring,
    realOpenedPath: wstring, filePattern: wstring, streams: seq<Stream>, calls: seq<Enumerations.Call>,
    fileName: wstring, suffix: wstring, allowsCreate: bool)
    requires WellFormed(rules) && IsNamespacePrefix(prefix) && IsQueryPath(p) && IsRealName(fileName)
        && IsSuffix(suffix)
    requires InstructedFor(rules, fs, instruction, prefix + p, realOpenedPath, Key(p))
    requires StreamsBehind(layout, instruction, openings, query, filePattern, streams)
    requires SystemIsHonest(fs, layout, instruction, openings, query, prefix + p, realOpenedPath, filePattern)
    requires IsComplete(streams, calls) && Extend(Key(p), Fold(fileName)) in rules
    ensures
      var k, file := Extend(Key(p), Fold(fileName)), prefix + p + [BACKSLASH] + fileName + suffix;
      var shown := Fold(fileName) in Names(DeliveredBy(streams, calls));
      var openable := FirstExisting(fs, FilesToTry(FileOperation(rules, fs, file, allowsCreate), file)).Some?;
      var canBeShown :=
        && FirstFailure(fs, instruction.directories, prefix + p, realOpenedPath, filePattern) == None
        && IsReached(rules, fs, Key(p), filePattern, streams, Fold(fileName))
        && MatchesQuery(filePattern, fileName);
      rules[k] != [] &&
      var firstTarget := Key(rules[k][0].target) in fs;
      var listedElsewhere :=
        || SomeTargetIsDirectory(rules[k], fs)
        || YieldedBySome(fs, instruction.directories, prefix + p, realOpenedPath, fileName);
      && (shown <==> canBeShown && (firstTarget || listedElsewhere))
      && (openable <==> OriginCanBeOpened(rules, fs, k))
      && ((shown <==> openable) <==>
            if canBeShown then firstTarget || (listedElsewhere <==> rules[k][0].redirectMode == Overlay && k in fs)
            else !OriginCanBeOpened(rules, fs, k))
  {
    hide Merge, Enumerations.Run, Key, Fold, IsComplete, FirstFailure, YieldedBySome, Names, DeliveredBy, IsQueryPath;
    hide ClassifyEnumeration, DirectoriesToEnumerate, StreamsBehind, SystemIsHonest, FileOperation, FilesToTry;
    hide FirstExisting, PathsToTry, FirstInFs, InsertionTarget, SomeTargetIsDirectory, WellFormed, IsReached;
    hide MatchesQuery;
    var k, file := Extend(Key(p), Fold(fileName)), prefix + p + [BACKSLASH] + fileName + suffix;
    DeeperOriginIsShown(
      rules, fs, layout, instruction, openings, query, prefix + p, realOpenedPath, Key(p), filePattern, streams, calls,
      fileName);
    InsertionRuleMeaning(rules, fs, k);
    FilesInside(rules, fs, prefix, p, fileName, suffix, allowsCreate, file);
    OpeningAnOrigin(rules, fs, k);
  }
}
