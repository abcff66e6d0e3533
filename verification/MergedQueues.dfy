/** The two kinds of queue behind one interface, and the queue that merges several of them. */
module MergedQueues {
  import opened Wrappers
  import opened Text
  import opened NtStatuses
  import opened FileInformation
  import opened Streams
  import opened EnumerationQueues
  import opened NameInsertionQueues

  // ---------- One underlying queue ----------

  datatype LeafQueue = Directory(directory: EnumerationQueue) | Names(names: NameInsertionQueue)
  {
    ghost function Repr(): set<object> {
      match this
      case Directory(q) => q.Repr()
      case Names(q) => q.Repr()
    }

    lemma ReprIsAllocated()
      ensures forall o :: o in Repr() ==> allocated(o)
    {
      match this
      case Directory(q) =>
      case Names(q) =>
    }

    function FileLayout(): Layout {
      match this
      case Directory(q) => q.layout
      case Names(q) => q.layout
    }

    ghost predicate Shape()
      reads Repr()
    {
      match this
      case Directory(q) => q.Shape()
      case Names(q) => q.Shape()
    }

    ghost predicate Valid()
      reads Repr()
    {
      match this
      case Directory(q) => q.Ready()
      case Names(q) => q.Valid()
    }

    ghost function Remaining(): (r: Stream)
      requires Valid()
      reads Repr()
      ensures !NtSuccess(r.end)
    {
      match this
      case Directory(q) => q.Remaining()
      case Names(q) => q.Remaining()
    }

    ghost function Restarted(filePattern: wstring): (r: Stream)
      requires Shape()
      reads Repr()
      ensures !NtSuccess(r.end)
    {
      match this
      case Directory(q) => q.Restarted(filePattern)
      case Names(q) => q.Restarted(filePattern)
    }

    function EnumerationStatus(): NtStatus
      reads Repr()
    {
      match this
      case Directory(q) => q.status
      case Names(q) => q.status
    }

    function FileNameOfFront(): wstring
      requires Valid() && EnumerationStatus() == StatusMoreEntries
      reads Repr()
    {
      match this
      case Directory(q) => q.FileNameOfFront()
      case Names(q) => q.FileNameOfFront()
    }

    function SizeOfFront(): nat
      requires Valid() && EnumerationStatus() == StatusMoreEntries
      reads Repr()
    {
      match this
      case Directory(q) => q.SizeOfFront()
      case Names(q) => q.SizeOfFront()
    }

    ghost function Front(): FileInfo
      requires Valid() && EnumerationStatus() == StatusMoreEntries
      reads Repr()
    {
      match this
      case Directory(q) => q.Front()
      case Names(q) => q.Front()
    }

    /** Status and front agree with what is still to be delivered. */
    lemma FrontIsNext()
      requires Valid()
      ensures Shape()
      ensures EnumerationStatus() == if Remaining().entries == [] then Remaining().end else StatusMoreEntries
      ensures
        EnumerationStatus() == StatusMoreEntries ==>
          && Remaining().entries[0] == Entry(FileNameOfFront(), Front())
          && IsStruct(FileLayout(), Front()) && SizeOfFront() == |Front()|
          && FileName(FileLayout(), Front()) == FileNameOfFront()
    {
      match this
      case Directory(q) => q.FrontIsNext();
      case Names(q) =>
    }

    method PopFront()
      requires Valid() && EnumerationStatus() == StatusMoreEntries
      modifies Repr()
      ensures Valid() && old(Remaining().entries) != [] && Remaining() == old(Tail(Remaining()))
    {
      match this
      case Directory(q) => q.PopFront();
      case Names(q) => q.PopFront();
    }

    method Restart(filePattern: wstring)
      requires Shape()
      modifies Repr()
      ensures Valid() && Remaining() == old(Restarted(filePattern))
    {
      match this
      case Directory(q) => q.Restart(filePattern);
      case Names(q) => q.Restart(filePattern);
    }

    method CopyFront(dest: array<byte>, at: nat, capacity: nat) returns (copied: nat)
      requires Valid() && EnumerationStatus() == StatusMoreEntries
      requires dest !in Repr() && at + capacity <= dest.Length
      modifies dest
      ensures Valid() && Remaining() == old(Remaining())
      ensures copied == Min(SizeOfFront(), capacity) && copied <= |Front()|
      ensures dest[..] == Overwrite(old(dest[..]), at, Front()[..copied])
    {
      hide Overwrite, EnumerationQueue.Remaining, NameInsertionQueue.Remaining, IsStruct, FileName;
      FrontIsNext();
      match this
      case Directory(q) => copied := q.CopyFront(dest, at, capacity);
      case Names(q) => copied := q.CopyFront(dest, at, capacity);
    }
  }

  // ---------- Several queues ----------

  ghost predicate Apart(queues: seq<LeafQueue>) {
    forall i, j :: 0 <= i < j < |queues| ==> queues[i].Repr() !! queues[j].Repr()
  }

  ghost function AllRepr(queues: seq<LeafQueue>): set<object> {
    set i, o | 0 <= i < |queues| && o in queues[i].Repr() :: o
  }

  lemma AllReprIsAllocated(queues: seq<LeafQueue>)
    ensures forall o :: o in AllRepr(queues) ==> allocated(o)
  {
    forall o | o in AllRepr(queues)
      ensures allocated(o)
    {
      var i :| 0 <= i < |queues| && o in queues[i].Repr();
      queues[i].ReprIsAllocated();
    }
  }

  ghost predicate Shaped(layout: Layout, q: LeafQueue)
    reads q.Repr()
  {
    q.Shape() && q.FileLayout() == layout
  }

  /** A queue has exactly a stream left to deliver. */
  ghost predicate Tracks(layout: Layout, q: LeafQueue, s: Stream)
    reads q.Repr()
  {
    q.Valid() && q.FileLayout() == layout && q.Remaining() == s
  }

  /** A restart would give exactly a stream. */
  ghost predicate Restarts(layout: Layout, q: LeafQueue, filePattern: wstring, s: Stream)
    reads q.Repr()
  {
    Shaped(layout, q) && q.Restarted(filePattern) == s
  }

  lemma TrackedFront(layout: Layout, q: LeafQueue, s: Stream)
    requires Tracks(layout, q, s)
    ensures q.Valid() && q.FileLayout() == layout && q.Remaining() == s
    ensures q.EnumerationStatus() == if s.entries == [] then s.end else StatusMoreEntries
    ensures
      s.entries != [] ==>
        && s.entries[0] == Entry(q.FileNameOfFront(), q.Front())
        && IsStruct(layout, q.Front()) && q.SizeOfFront() == |q.Front()|
    ensures !NtSuccess(s.end)
  {
    q.FrontIsNext();
  }

  class MergedFileInformationQueue {
    const layout: Layout
    const queues: seq<LeafQueue>
    var frontSource: Option<nat>
    /** What each of the queues still has to deliver. */
    ghost var streams: seq<Stream>

    ghost function Repr(): set<object> {
      {this} + AllRepr(queues)
    }

    ghost predicate Separate() {
      this !in AllRepr(queues) && Apart(queues)
    }

    ghost predicate Shape()
      reads Repr()
    {
      Separate() && forall i {:trigger Shaped(layout, queues[i])} :: 0 <= i < |queues| ==> Shaped(layout, queues[i])
    }

    ghost predicate Tracking()
      reads Repr()
    {
      && Separate() && |streams| == |queues|
      && forall i {:trigger Tracks(layout, queues[i], streams[i])} ::
          0 <= i < |queues| ==> Tracks(layout, queues[i], streams[i])
    }

    ghost predicate Valid()
      reads Repr()
    {
      Tracking() && frontSource == LowestFront(streams, |queues|)
    }

    /** What is still to be delivered. */
    ghost function Remaining(): (r: Stream)
      requires Valid()
      reads Repr()
    {
      Stream(Merge(streams).entries, Merge(streams).end)
    }

    method SortsBefore(i: nat, j: nat) returns (before: bool)
      requires i < |queues| == |streams| && j < |queues|
      requires Tracks(layout, queues[i], streams[i]) && Tracks(layout, queues[j], streams[j])
      requires streams[i].entries != [] && streams[j].entries != []
      ensures before == Before(streams[i].entries[0], streams[j].entries[0])
    {
      TrackedFront(layout, queues[i], streams[i]);
      TrackedFront(layout, queues[j], streams[j]);
      before := LessCaseInsensitive(queues[i].FileNameOfFront(), queues[j].FileNameOfFront());
    }

    method StatusOf(i: nat) returns (status: NtStatus)
      requires i < |queues| == |streams| && Tracks(layout, queues[i], streams[i])
      ensures status == if streams[i].entries == [] then streams[i].end else StatusMoreEntries
      ensures !NtSuccess(streams[i].end)
    {
      TrackedFront(layout, queues[i], streams[i]);
      status := queues[i].EnumerationStatus();
    }

    /** Chooses the queue whose front sorts lowest; the earliest one on ties. */
    method SelectFrontElementSourceQueue()
      requires Tracking()
      modifies `frontSource
      ensures Valid()
    {
      hide Tracks, Before;
      var candidate: Option<nat> := None;
      for i := 0 to |queues|
        invariant candidate == LowestFront(streams, i)
        modifies {}
      {
        assert Tracks(layout, queues[i], streams[i]);
        var status := StatusOf(i);
        if status == StatusMoreEntries {
          if candidate == None {
            candidate := Some(i);
          } else {
            assert Tracks(layout, queues[candidate.value], streams[candidate.value]);
            var before := SortsBefore(i, candidate.value);
            if before {
              candidate := Some(i);
            }
          }
        }
      }
      frontSource := candidate;
    }

    /** An error of any queue comes before everything else. */
    method EnumerationStatus() returns (status: NtStatus)
      requires Valid()
      ensures status == if Remaining().entries == [] then Remaining().end else StatusMoreEntries
    {
      hide Tracks, Before, LowestFront;
      assert streams[0..] == streams;
      for i := 0 to |queues|
        invariant FirstError(streams) == FirstError(streams[i..])
      {
        assert Tracks(layout, queues[i], streams[i]);
        assert streams[i..][1..] == streams[i + 1..];
        var underlying := StatusOf(i);
        if underlying != StatusMoreEntries && underlying != StatusNoMoreFiles && !NtSuccess(underlying) {
          return underlying;
        }
      }
      status := if frontSource == None then StatusNoMoreFiles else StatusMoreEntries;
    }

    lemma EndsInFailure()
      requires Valid()
      ensures Remaining().entries == [] ==> !NtSuccess(Remaining().end)
    {
      forall i | 0 <= i < |streams|
        ensures !NtSuccess(streams[i].end)
      {
        TrackedFront(layout, queues[i], streams[i]);
      }
      FirstErrorMeaning(streams);
    }

    ghost predicate HasFront()
      requires Valid()
      reads Repr()
    {
      Remaining().entries != []
    }

    /** The queue that supplies the front. */
    lemma SourceOfFront()
      requires Valid() && HasFront()
      ensures
        && FirstError(streams) == None && frontSource.Some? && frontSource.value < |queues| == |streams|
        && Tracks(layout, queues[frontSource.value], streams[frontSource.value])
        && streams[frontSource.value].entries != []
        && Remaining().entries[0] == streams[frontSource.value].entries[0]
        && queues[frontSource.value].EnumerationStatus() == StatusMoreEntries
    {
      TrackedFront(layout, queues[frontSource.value], streams[frontSource.value]);
    }

    function FileNameOfFront(): wstring
      requires Valid() && HasFront()
      reads Repr()
    {
      SourceOfFront();
      queues[frontSource.value].FileNameOfFront()
    }

    function SizeOfFront(): nat
      requires Valid() && HasFront()
      reads Repr()
    {
      SourceOfFront();
      queues[frontSource.value].SizeOfFront()
    }

    method PopSource(i: nat)
      requires i < |queues| == |streams| && Separate()
      requires Tracks(layout, queues[i], streams[i]) && streams[i].entries != []
      modifies queues[i].Repr()
      ensures Tracks(layout, queues[i], Tail(streams[i]))
    {
      TrackedFront(layout, queues[i], streams[i]);
      queues[i].PopFront();
    }

    method PopFront()
      requires Valid() && HasFront()
      modifies Repr()
      ensures Valid() && Remaining() == old(Tail(Remaining()))
    {
      hide Tracks;
      SourceOfFront();
      var source := frontSource.value;
      TotalDecreases(streams, source);
      PopSource(source);
      streams := streams[source := Tail(streams[source])];
      SelectFrontElementSourceQueue();
    }

    ghost function Front(): FileInfo
      requires Valid() && HasFront()
      reads Repr()
    {
      Remaining().entries[0].info
    }

    lemma FrontIsNext()
      requires Valid() && HasFront()
      ensures Remaining().entries[0] == Entry(FileNameOfFront(), Front())
      ensures IsStruct(layout, Front()) && SizeOfFront() == |Front()| && FileName(layout, Front()) == FileNameOfFront()
    {
      SourceOfFront();
      TrackedFront(layout, queues[frontSource.value], streams[frontSource.value]);
      queues[frontSource.value].FrontIsNext();
    }

    method CopyFront(dest: array<byte>, at: nat, capacity: nat) returns (copied: nat)
      requires Valid() && HasFront()
      requires dest !in Repr() && at + capacity <= dest.Length
      modifies dest
      ensures Valid() && Remaining() == old(Remaining())
      ensures copied == Min(|Front()|, capacity)
      ensures dest[..] == Overwrite(old(dest[..]), at, Front()[..copied])
    {
      hide Tracks, Overwrite, MergedFileInformationQueue.Valid, MergedFileInformationQueue.Remaining, Merge, FirstError;
      hide LeafQueue.Valid, LeafQueue.Remaining, LeafQueue.EnumerationStatus, LeafQueue.Front, LeafQueue.SizeOfFront;
      hide LowestFront, MergedFileInformationQueue.Tracking;
      AllReprIsAllocated(queues);
      SourceOfFront();
      TrackedFront(layout, queues[frontSource.value], streams[frontSource.value]);
      copied := queues[frontSource.value].CopyFront(dest, at, capacity);
    }

    method RestartSource(i: nat, filePattern: wstring, ghost s: Stream)
      requires i < |queues| && Separate() && Restarts(layout, queues[i], filePattern, s)
      modifies queues[i].Repr()
      ensures Tracks(layout, queues[i], s)
    {
      queues[i].Restart(filePattern);
    }

    /** Restarts one queue. Those before it have been restarted, those after it have not. */
    method RestartNext(i: nat, filePattern: wstring, ghost restarted: seq<Stream>)
      requires Separate() && i < |queues| == |restarted|
      requires
        forall j {:trigger Tracks(layout, queues[j], restarted[j])} ::
          0 <= j < i ==> Tracks(layout, queues[j], restarted[j])
      requires
        forall j {:trigger Restarts(layout, queues[j], filePattern, restarted[j])} ::
          i <= j < |queues| ==> Restarts(layout, queues[j], filePattern, restarted[j])
      modifies queues[i].Repr()
      ensures
        forall j {:trigger Tracks(layout, queues[j], restarted[j])} ::
          0 <= j <= i ==> Tracks(layout, queues[j], restarted[j])
      ensures
        forall j {:trigger Restarts(layout, queues[j], filePattern, restarted[j])} ::
          i < j < |queues| ==> Restarts(layout, queues[j], filePattern, restarted[j])
    {
      hide Tracks, Restarts;
      assert Restarts(layout, queues[i], filePattern, restarted[i]);
      RestartSource(i, filePattern, restarted[i]);
    }

    method Restart(filePattern: wstring, ghost restarted: seq<Stream>)
      requires Separate() && |restarted| == |queues|
      requires
        forall i {:trigger Restarts(layout, queues[i], filePattern, restarted[i])} ::
          0 <= i < |queues| ==> Restarts(layout, queues[i], filePattern, restarted[i])
      modifies Repr()
      ensures Valid() && streams == restarted
    {
      hide Tracks, Restarts;
      for i := 0 to |queues|
        invariant
          forall j {:trigger Tracks(layout, queues[j], restarted[j])} ::
            0 <= j < i ==> Tracks(layout, queues[j], restarted[j])
        invariant
          forall j {:trigger Restarts(layout, queues[j], filePattern, restarted[j])} ::
            i <= j < |queues| ==> Restarts(layout, queues[j], filePattern, restarted[j])
      {
        RestartNext(i, filePattern, restarted);
      }
      streams := restarted;
      SelectFrontElementSourceQueue();
    }

    constructor (layout: Layout, queues: seq<LeafQueue>, ghost streams: seq<Stream>)
      requires Apart(queues) && |streams| == |queues|
      requires
        forall i {:trigger Tracks(layout, queues[i], streams[i])} ::
          0 <= i < |queues| ==> Tracks(layout, queues[i], streams[i])
      ensures Valid() && fresh(Repr() - AllRepr(queues))
      ensures this.layout == layout && this.queues == queues && this.streams == streams
    {
      hide Tracks;
      this.layout, this.queues, this.streams := layout, queues, streams;
      frontSource := None;
      new;
      forall i | 0 <= i < |queues|
        ensures this !in queues[i].Repr()
      {
        match queues[i]
        case Directory(q) =>
        case Names(q) =>
      }
      SelectFrontElementSourceQueue();
    }
  }
}
