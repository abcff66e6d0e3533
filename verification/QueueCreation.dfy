/** Making the queue that executes a directory-enumeration instruction. */
module QueueCreation {
  import opened Wrappers
  import opened Text
  import opened NtStatuses
  import opened FileInformation
  import opened Rules
  import opened Instructions
  import opened Streams
  import opened EnumerationQueues
  import opened NameInsertionQueues
  import opened MergedQueues
  import opened OperationQueues

  /** A name to insert: that of the origin directory, with the target directory to supply the rest. */
  function NameInsertionOf(rule: FilesystemRule): NameInsertion {
    var at := LastBackslash(rule.target);
    NameInsertion(OriginDirectoryName(rule), if at < 0 then [] else rule.target[..at], rule.target[at + 1..])
  }

  function NameInsertionsOf(rules: seq<FilesystemRule>): seq<NameInsertion> {
    seq(|rules|, i requires 0 <= i < |rules| => NameInsertionOf(rules[i]))
  }

  ghost function DirectoryOf(opening: DirectoryOpening): set<object> {
    if opening.Opened? then {opening.directory} else {}
  }

  ghost predicate OpeningValid(layout: Layout, opening: DirectoryOpening)
    reads DirectoryOf(opening)
  {
    match opening
    case Opened(d) => d.Valid() && d.layout == layout
    case NotOpened(status) => !NtSuccess(status)
  }

  /** What a queue over a directory starts with. It is not an error for the directory not to exist. */
  ghost function InitialStream(
    layout: Layout, d: SingleDirectoryEnumeration, opening: DirectoryOpening, filePattern: wstring): Stream
    requires layout.Valid() && d.Valid() && OpeningValid(layout, opening)
    reads DirectoryOf(opening)
  {
    match opening
    case Opened(dir) => FilteredScan(d, layout, dir.behaviour(dir.scans, filePattern))
    case NotOpened(error) => Stream([], if error in NOT_THERE_STATUSES then StatusNoMoreFiles else error)
  }

  ghost predicate StartsWith(
    layout: Layout, d: SingleDirectoryEnumeration, opening: DirectoryOpening, filePattern: wstring, s: Stream)
    reads DirectoryOf(opening)
  {
    layout.Valid() && d.Valid() && OpeningValid(layout, opening) && s == InitialStream(layout, d, opening, filePattern)
  }

  ghost predicate OpenedApart(openings: seq<DirectoryOpening>) {
    forall i, j :: 0 <= i < j < |openings| ==> DirectoryOf(openings[i]) !! DirectoryOf(openings[j])
  }

  ghost function AllDirectories(openings: seq<DirectoryOpening>): set<object> {
    set i, o | 0 <= i < |openings| && o in DirectoryOf(openings[i]) :: o
  }

  method CreateEnumerationQueue(
    layout: Layout, d: SingleDirectoryEnumeration, opening: DirectoryOpening, filePattern: wstring, ghost s: Stream)
    returns (leaf: LeafQueue)
    requires StartsWith(layout, d, opening, filePattern, s)
    modifies DirectoryOf(opening)
    ensures Tracks(layout, leaf, s) && DirectoryOf(opening) <= leaf.Repr() && fresh(leaf.Repr() - DirectoryOf(opening))
  {
    var q := new EnumerationQueue(d, layout, opening, filePattern);
    leaf := Directory(q);
  }

  method CreateInsertionQueue(
    layout: Layout, rules: seq<FilesystemRule>, query: (nat, NameInsertion) -> QueryResult, filePattern: wstring)
    returns (leaf: LeafQueue)
    requires layout.Valid() && ValidQuery(query)
    ensures Tracks(layout, leaf, InsertionStream(layout, query, Fold(filePattern), NameInsertionsOf(rules), 0))
    ensures fresh(leaf.Repr())
  {
    var q := new NameInsertionQueue(NameInsertionsOf(rules), layout, query, filePattern);
    leaf := Names(q);
  }

  lemma EachReprIsAllocated(queues: seq<LeafQueue>)
    ensures forall i, o :: 0 <= i < |queues| && o in queues[i].Repr() ==> allocated(o)
  {
    forall i | 0 <= i < |queues|
      ensures forall o :: o in queues[i].Repr() ==> allocated(o)
    {
      queues[i].ReprIsAllocated();
    }
  }

  method AddEnumerationQueue(
    layout: Layout, queues: seq<LeafQueue>, d: SingleDirectoryEnumeration, opening: DirectoryOpening,
    filePattern: wstring, ghost streams: seq<Stream>, ghost s: Stream)
    returns (all: seq<LeafQueue>)
    requires StartsWith(layout, d, opening, filePattern, s) && Apart(queues) && |streams| == |queues|
    requires
      forall i {:trigger Tracks(layout, queues[i], streams[i])} ::
        0 <= i < |queues| ==> Tracks(layout, queues[i], streams[i])
    requires forall i {:trigger queues[i]} :: 0 <= i < |queues| ==> queues[i].Repr() !! DirectoryOf(opening)
    modifies DirectoryOf(opening)
    ensures |all| == |queues| + 1 && all[..|queues|] == queues && Apart(all)
    ensures DirectoryOf(opening) <= all[|queues|].Repr() && fresh(all[|queues|].Repr() - DirectoryOf(opening))
    ensures
      forall i {:trigger Tracks(layout, all[i], (streams + [s])[i])} ::
        0 <= i < |all| ==> Tracks(layout, all[i], (streams + [s])[i])
  {
    hide Tracks, StartsWith;
    EachReprIsAllocated(queues);
    var leaf := CreateEnumerationQueue(layout, d, opening, filePattern, s);
    all := queues + [leaf];
    forall i {:trigger Tracks(layout, all[i], (streams + [s])[i])} | 0 <= i < |all|
      ensures Tracks(layout, all[i], (streams + [s])[i])
    {
      if i < |queues| {
        assert old(Tracks(layout, queues[i], streams[i]));
        assert Tracks(layout, queues[i], streams[i]);
      }
    }
  }

  /** One queue for each directory of an instruction. `openings` says how opening each of them went. */
  method CreateEnumerationQueues(
    layout: Layout, directories: seq<SingleDirectoryEnumeration>, openings: seq<DirectoryOpening>, filePattern: wstring,
    ghost streams: seq<Stream>)
    returns (queues: seq<LeafQueue>)
    requires |directories| == |openings| == |streams| && OpenedApart(openings)
    requires
      forall i {:trigger StartsWith(layout, directories[i], openings[i], filePattern, streams[i])} ::
        0 <= i < |openings| ==> StartsWith(layout, directories[i], openings[i], filePattern, streams[i])
    modifies AllDirectories(openings)
    ensures |queues| == |streams| && Apart(queues) && fresh(AllRepr(queues) - AllDirectories(openings))
    ensures
      forall i {:trigger Tracks(layout, queues[i], streams[i])} ::
        0 <= i < |streams| ==> Tracks(layout, queues[i], streams[i])
  {
    hide Tracks, StartsWith;
    queues := [];
    for i := 0 to |directories|
      invariant |queues| == i
      invariant
        forall j {:trigger queues[j]} :: 0 <= j < i ==>
          DirectoryOf(openings[j]) <= queues[j].Repr() && fresh(queues[j].Repr() - DirectoryOf(openings[j]))
      invariant Apart(queues)
      invariant
        forall j {:trigger Tracks(layout, queues[j], streams[..i][j])} ::
          0 <= j < i ==> Tracks(layout, queues[j], streams[..i][j])
      invariant
        forall j {:trigger StartsWith(layout, directories[j], openings[j], filePattern, streams[j])} ::
          i <= j < |openings| ==> StartsWith(layout, directories[j], openings[j], filePattern, streams[j])
    {
      assert StartsWith(layout, directories[i], openings[i], filePattern, streams[i]);
      queues := AddEnumerationQueue(
        layout, queues, directories[i], openings[i], filePattern, streams[..i], streams[i]);
      assert streams[..i + 1] == streams[..i] + [streams[i]];
    }
    assert streams[..|directories|] == streams;
  }

  /** The streams behind an instruction: one for each directory, and one for the names to insert if any. */
  ghost predicate StreamsBehind(
    layout: Layout, instruction: DirectoryEnumerationInstruction, openings: seq<DirectoryOpening>,
    query: (nat, NameInsertion) -> QueryResult, filePattern: wstring, streams: seq<Stream>)
    reads AllDirectories(openings)
  {
    && layout.Valid() && ValidQuery(query)
    && |openings| == |instruction.directories| <= |streams|
    && (forall i {:trigger StartsWith(layout, instruction.directories[i], openings[i], filePattern, streams[i])} ::
          0 <= i < |openings| ==> StartsWith(layout, instruction.directories[i], openings[i], filePattern, streams[i]))
    && match instruction.namesToInsert
       case None => |streams| == |openings|
       case Some(rules) =>
         && |streams| == |openings| + 1
         && streams[|openings|] == InsertionStream(layout, query, Fold(filePattern), NameInsertionsOf(rules), 0)
  }

  method AddInsertionQueue(
    layout: Layout, queues: seq<LeafQueue>, rules: seq<FilesystemRule>, query: (nat, NameInsertion) -> QueryResult,
    filePattern: wstring, ghost streams: seq<Stream>)
    returns (all: seq<LeafQueue>, ghost more: seq<Stream>)
    requires layout.Valid() && ValidQuery(query) && Apart(queues) && |streams| == |queues|
    requires
      forall i {:trigger Tracks(layout, queues[i], streams[i])} ::
        0 <= i < |queues| ==> Tracks(layout, queues[i], streams[i])
    ensures Apart(all) && |all| == |queues| + 1 && fresh(AllRepr(all) - AllRepr(queues))
    ensures more == streams + [InsertionStream(layout, query, Fold(filePattern), NameInsertionsOf(rules), 0)]
    ensures
      forall i {:trigger Tracks(layout, all[i], more[i])} :: 0 <= i < |all| ==> Tracks(layout, all[i], more[i])
  {
    hide Tracks, InsertionStream;
    EachReprIsAllocated(queues);
    var leaf := CreateInsertionQueue(layout, rules, query, filePattern);
    all := queues + [leaf];
    more := streams + [InsertionStream(layout, query, Fold(filePattern), NameInsertionsOf(rules), 0)];
    forall i {:trigger Tracks(layout, all[i], more[i])} | 0 <= i < |all|
      ensures Tracks(layout, all[i], more[i])
    {
      if i < |queues| {
        assert old(Tracks(layout, queues[i], streams[i]));
        assert Tracks(layout, queues[i], streams[i]);
      }
    }
  }

  method CombineQueues(layout: Layout, queues: seq<LeafQueue>, ghost streams: seq<Stream>)
    returns (queue: Option<OperationQueue>)
    requires Apart(queues) && |streams| == |queues|
    requires
      forall i {:trigger Tracks(layout, queues[i], streams[i])} ::
        0 <= i < |queues| ==> Tracks(layout, queues[i], streams[i])
    ensures queue == None <==> streams == []
    ensures queue.Some? ==> queue.value.Holds(layout, Combined(streams))
    ensures queue.Some? ==> fresh(queue.value.Repr() - AllRepr(queues))
  {
    hide Tracks, Merge;
    if |queues| == 0 {
      return None;
    }
    if |queues| == 1 {
      assert Tracks(layout, queues[0], streams[0]);
      CombinedSingle(streams[0]);
      assert streams == [streams[0]];
      return Some(Single(queues[0]));
    }
    var merged := new MergedFileInformationQueue(layout, queues, streams);
    queue := Some(Several(merged));
  }

  /** One queue for each directory of an instruction, each delivering its own stream. */
  method CreateDirectoryQueues(
    layout: Layout, instruction: DirectoryEnumerationInstruction, openings: seq<DirectoryOpening>,
    ghost query: (nat, NameInsertion) -> QueryResult, filePattern: wstring, ghost streams: seq<Stream>)
    returns (queues: seq<LeafQueue>)
    requires OpenedApart(openings) && StreamsBehind(layout, instruction, openings, query, filePattern, streams)
    modifies AllDirectories(openings)
    ensures |queues| == |openings| <= |streams| && Apart(queues)
    ensures fresh(AllRepr(queues) - AllDirectories(openings))
    ensures
      forall i {:trigger Tracks(layout, queues[i], streams[i])} ::
        0 <= i < |queues| ==> Tracks(layout, queues[i], streams[i])
  {
    hide Tracks, StartsWith, InsertionStream, InitialStream;
    var n := |openings|;
    forall i | 0 <= i < n
      ensures StartsWith(layout, instruction.directories[i], openings[i], filePattern, streams[..n][i])
    {
      assert StartsWith(layout, instruction.directories[i], openings[i], filePattern, streams[i]);
    }
    queues := CreateEnumerationQueues(layout, instruction.directories, openings, filePattern, streams[..n]);
    forall i | 0 <= i < n
      ensures Tracks(layout, queues[i], streams[i])
    {
      assert Tracks(layout, queues[i], streams[..n][i]);
    }
  }

  /** Adds the queue of names to insert, if there are any, and combines all queues into one. */
  method CompleteQueue(
    layout: Layout, queues: seq<LeafQueue>, namesToInsert: Option<seq<FilesystemRule>>,
    query: (nat, NameInsertion) -> QueryResult, filePattern: wstring, ghost streams: seq<Stream>)
    returns (queue: Option<OperationQueue>)
    requires layout.Valid() && ValidQuery(query) && Apart(queues) && |queues| <= |streams|
    requires
      forall i {:trigger Tracks(layout, queues[i], streams[i])} ::
        0 <= i < |queues| ==> Tracks(layout, queues[i], streams[i])
    requires
      streams[|queues|..] ==
        match namesToInsert
        case None => []
        case Some(rules) => [InsertionStream(layout, query, Fold(filePattern), NameInsertionsOf(rules), 0)]
    ensures queue == None <==> streams == []
    ensures queue.Some? ==> queue.value.Holds(layout, Combined(streams))
    ensures queue.Some? ==> fresh(queue.value.Repr() - AllRepr(queues))
  {
    hide Tracks, Merge, InsertionStream;
    assert streams == streams[..|queues|] + streams[|queues|..];
    match namesToInsert
    case None =>
      assert streams == streams[..|queues|];
      queue := CombineQueues(layout, queues, streams);
    case Some(rules) =>
      var all, more := AddInsertionQueue(layout, queues, rules, query, filePattern, streams[..|queues|]);
      queue := CombineQueues(layout, all, more);
  }

  /** Makes the queue for an instruction; nothing if the enumeration can be left to the system as it is. */
  method CreateDirectoryOperationQueue(
    layout: Layout, instruction: DirectoryEnumerationInstruction, openings: seq<DirectoryOpening>,
    query: (nat, NameInsertion) -> QueryResult, filePattern: wstring, ghost streams: seq<Stream>)
    returns (queue: Option<OperationQueue>)
    requires OpenedApart(openings) && StreamsBehind(layout, instruction, openings, query, filePattern, streams)
    modifies AllDirectories(openings)
    ensures queue == None <==> instruction == PassThroughUnmodifiedQuery() || streams == []
    ensures queue.Some? ==> queue.value.Holds(layout, Combined(streams))
    ensures queue.Some? ==> fresh(queue.value.Repr() - AllDirectories(openings))
  {
    hide Tracks, StartsWith, InsertionStream, InitialStream, Merge;
    if instruction == PassThroughUnmodifiedQuery() {
      return None;
    }
    var queues := CreateDirectoryQueues(layout, instruction, openings, query, filePattern, streams);
    queue := CompleteQueue(layout, queues, instruction.namesToInsert, query, filePattern, streams);
  }
}
