/** The queue behind a directory enumeration: a single queue, or several merged into one. */
module OperationQueues {
  import opened Wrappers
  import opened Text
  import opened NtStatuses
  import opened FileInformation
  import opened Streams
  import opened MergedQueues

  /** Several streams combined into one. */
  ghost function Combined(sources: seq<Stream>): Stream {
    Stream(Merge(sources).entries, Merge(sources).end)
  }

  /** Combining a single stream gives that stream. */
  lemma {:induction false} CombinedSingle(s: Stream)
    ensures Combined([s]) == s
    decreases |s.entries|
  {
    assert FirstError([s][1..]) == None && LowestFront([s], 0) == None;
    if s.entries != [] {
      assert [s][0 := Tail(s)] == [Tail(s)];
      CombinedSingle(Tail(s));
      assert s.entries == [s.entries[0]] + Tail(s).entries;
    }
  }

  datatype OperationQueue = Single(leaf: LeafQueue) | Several(merged: MergedFileInformationQueue)
  {
    ghost function Repr(): set<object> {
      match this
      case Single(leaf) => leaf.Repr()
      case Several(merged) => merged.Repr()
    }

    lemma ReprIsAllocated()
      ensures forall o :: o in Repr() ==> allocated(o)
    {
      match this
      case Single(leaf) => leaf.ReprIsAllocated();
      case Several(merged) => AllReprIsAllocated(merged.queues);
    }

    /** The queue has exactly a stream left to deliver, and its structures have a given layout. */
    ghost predicate Holds(layout: Layout, s: Stream)
      reads Repr()
    {
      match this
      case Single(leaf) => Tracks(layout, leaf, s)
      case Several(merged) => merged.Valid() && merged.layout == layout && merged.Remaining() == s
    }

    /** A restart would take the streams of the underlying queues to be these. */
    ghost predicate CanRestart(layout: Layout, filePattern: wstring, sources: seq<Stream>)
      reads Repr()
    {
      match this
      case Single(leaf) => |sources| == 1 && Restarts(layout, leaf, filePattern, sources[0])
      case Several(merged) =>
        && merged.Separate() && merged.layout == layout && |sources| == |merged.queues|
        && forall i {:trigger Restarts(layout, merged.queues[i], filePattern, sources[i])} ::
            0 <= i < |sources| ==> Restarts(layout, merged.queues[i], filePattern, sources[i])
    }

    method EnumerationStatus(ghost layout: Layout, ghost s: Stream) returns (status: NtStatus)
      requires Holds(layout, s)
      ensures Holds(layout, s)
      ensures status == if s.entries == [] then s.end else StatusMoreEntries
      ensures s.entries == [] ==> !NtSuccess(s.end)
    {
      ReprIsAllocated();
      match this
      case Single(leaf) =>
        TrackedFront(layout, leaf, s);
        status := leaf.EnumerationStatus();
      case Several(merged) =>
        merged.EndsInFailure();
        status := merged.EnumerationStatus();
    }

    lemma FrontIsStruct(layout: Layout, s: Stream)
      requires Holds(layout, s) && s.entries != []
      ensures IsStruct(layout, s.entries[0].info) && FileName(layout, s.entries[0].info) == s.entries[0].name
    {
      match this
      case Single(leaf) => leaf.FrontIsNext();
      case Several(merged) => merged.FrontIsNext();
    }

    method FileNameOfFront(ghost layout: Layout, ghost s: Stream) returns (name: wstring)
      requires Holds(layout, s) && s.entries != []
      ensures Holds(layout, s)
      ensures name == s.entries[0].name
    {
      match this
      case Single(leaf) =>
        leaf.FrontIsNext();
        name := leaf.FileNameOfFront();
      case Several(merged) =>
        merged.FrontIsNext();
        name := merged.FileNameOfFront();
    }

    method SizeOfFront(ghost layout: Layout, ghost s: Stream) returns (size: nat)
      requires Holds(layout, s) && s.entries != []
      ensures Holds(layout, s)
      ensures size == |s.entries[0].info|
    {
      match this
      case Single(leaf) =>
        leaf.FrontIsNext();
        size := leaf.SizeOfFront();
      case Several(merged) =>
        merged.FrontIsNext();
        size := merged.SizeOfFront();
    }

    method CopyFront(dest: array<byte>, at: nat, capacity: nat, ghost layout: Layout, ghost s: Stream)
      returns (copied: nat)
      requires Holds(layout, s) && s.entries != []
      requires dest !in Repr() && at + capacity <= dest.Length
      modifies dest
      ensures Holds(layout, s)
      ensures copied == Min(|s.entries[0].info|, capacity)
      ensures dest[..] == Overwrite(old(dest[..]), at, s.entries[0].info[..copied])
    {
      hide Overwrite;
      ReprIsAllocated();
      match this
      case Single(leaf) =>
        leaf.FrontIsNext();
        copied := leaf.CopyFront(dest, at, capacity);
      case Several(merged) =>
        copied := merged.CopyFront(dest, at, capacity);
    }

    method PopFront(ghost layout: Layout, ghost s: Stream)
      requires Holds(layout, s) && s.entries != []
      modifies Repr()
      ensures Holds(layout, Tail(s))
    {
      match this
      case Single(leaf) =>
        leaf.FrontIsNext();
        leaf.PopFront();
      case Several(merged) =>
        merged.PopFront();
    }

    method Restart(filePattern: wstring, ghost layout: Layout, ghost sources: seq<Stream>)
      requires CanRestart(layout, filePattern, sources)
      modifies Repr()
      ensures Holds(layout, Combined(sources))
    {
      match this
      case Single(leaf) =>
        leaf.Restart(filePattern);
        assert sources == [sources[0]];
        CombinedSingle(sources[0]);
      case Several(merged) =>
        merged.Restart(filePattern, sources);
    }
  }
}
