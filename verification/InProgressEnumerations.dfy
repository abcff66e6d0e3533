/** The state kept for a directory handle while it is being enumerated, and the code that advances it. */
module InProgressEnumerations {
  import opened Text
  import opened NtStatuses
  import opened FileInformation
  import opened Streams
  import opened OperationQueues
  import opened Enumerations

  const SIZE_OF_WCHAR: nat := 2

  /** The bytes of a buffer that holds these entries one after the other, the last one marked as the
      last, with everything behind them as it was. */
  ghost predicate HoldsEntries(layout: Layout, bytes: seq<byte>, before: seq<byte>, delivered: seq<Entry>) {
    && AreStructs(layout, Infos(delivered))
    && |PackedAndClosed(layout, Infos(delivered))| <= |before|
    && bytes == Overwrite(before, 0, PackedAndClosed(layout, Infos(delivered)))
  }

  /** The same with every entry pointing behind its own end. */
  ghost predicate HoldsOpenEntries(layout: Layout, bytes: seq<byte>, before: seq<byte>, delivered: seq<Entry>) {
    && AreStructs(layout, Infos(delivered))
    && |Packed(layout, Infos(delivered))| <= |before|
    && bytes == Overwrite(before, 0, Packed(layout, Infos(delivered)))
  }

  lemma InfosAppend(delivered: seq<Entry>, e: Entry)
    ensures Infos(delivered + [e]) == Infos(delivered) + [e.info]
  {
  }

  lemma PackedAppend(layout: Layout, infos: seq<FileInfo>, info: FileInfo)
    requires AreStructs(layout, infos) && IsStruct(layout, info)
    ensures AreStructs(layout, infos + [info])
    ensures Packed(layout, infos + [info]) == Packed(layout, infos) + WithNextEntryOffset(layout, info, |info|)
    ensures PackedAndClosed(layout, infos + [info]) == Packed(layout, infos) + Content(layout, info)
    ensures TotalSize(infos + [info]) == TotalSize(infos) + |info|
  {
    assert (infos + [info])[..|infos|] == infos;
  }

  lemma HeldSize(layout: Layout, bytes: seq<byte>, before: seq<byte>, delivered: seq<Entry>)
    requires HoldsOpenEntries(layout, bytes, before, delivered)
    ensures AreStructs(layout, Infos(delivered)) && TotalSize(Infos(delivered)) <= |before| == |bytes|
  {
    PackedSize(layout, Infos(delivered));
  }

  /** The bytes after one more structure has been copied behind the others and updated. */
  lemma OneMoreEntry(layout: Layout, bytes: seq<byte>, before: seq<byte>, delivered: seq<Entry>, e: Entry)
    requires HoldsOpenEntries(layout, bytes, before, delivered) && IsStruct(layout, e.info)
    requires TotalSize(Infos(delivered)) + |e.info| <= |before|
    ensures
      var at := TotalSize(Infos(delivered));
      var copied := Overwrite(bytes, at, e.info);
      && EntryAt(layout, copied, at) && SizeAt(layout, copied, at) == |e.info|
      && HoldsOpenEntries(
          layout, WriteU32(copied, at + layout.offsetOfNextEntryOffset, |e.info|), before, delivered + [e])
  {
    hide Packed, PackedAndClosed, TotalSize, Overwrite, EncodeU32, ReadU32, EntryAt, SizeAt, NextAt;
    var infos := Infos(delivered);
    var packed := Packed(layout, infos);
    PackedSize(layout, infos);
    OverwriteNext(before, packed, e.info);
    OverwrittenAt(before, packed, e.info);
    StoredEntry(layout, Overwrite(bytes, |packed|, e.info), |packed|, e.info);
    WriteInside(before, packed, e.info, layout.offsetOfNextEntryOffset, |e.info|);
    InfosAppend(delivered, e);
    PackedAppend(layout, infos, e.info);
  }

  /** The bytes after the last structure has been marked as the last. */
  lemma CloseEntries(layout: Layout, bytes: seq<byte>, before: seq<byte>, delivered: seq<Entry>, e: Entry)
    requires HoldsOpenEntries(layout, bytes, before, delivered + [e])
    requires AreStructs(layout, Infos(delivered)) && IsStruct(layout, e.info)
    ensures
      var at := TotalSize(Infos(delivered));
      && at + layout.structureBaseSize <= |bytes|
      && HoldsEntries(layout, WriteU32(bytes, at + layout.offsetOfNextEntryOffset, 0), before, delivered + [e])
  {
    hide Packed, PackedAndClosed, TotalSize, Overwrite, EncodeU32, ReadU32;
    var infos, open := Infos(delivered), WithNextEntryOffset(layout, e.info, |e.info|);
    var packed := Packed(layout, infos);
    PackedSize(layout, infos);
    InfosAppend(delivered, e);
    PackedAppend(layout, infos, e.info);
    WriteInside(before, packed, open, layout.offsetOfNextEntryOffset, 0);
    WriteTwice(e.info, layout.offsetOfNextEntryOffset, |e.info|, 0);
  }

  /** Every entry is a complete structure with the name it is listed under. */
  ghost predicate Named(layout: Layout, delivered: seq<Entry>) {
    forall e :: e in delivered ==> IsStruct(layout, e.info) && FileName(layout, e.info) == e.name
  }

  lemma NamedAppend(layout: Layout, delivered: seq<Entry>, e: Entry)
    requires Named(layout, delivered) && IsStruct(layout, e.info) && FileName(layout, e.info) == e.name
    ensures Named(layout, delivered + [e])
  {
  }

  lemma WalkedNames(layout: Layout, delivered: seq<Entry>, walked: seq<FileInfo>)
    requires Named(layout, delivered) && AreStructs(layout, walked) && AreStructs(layout, Infos(delivered))
    requires Contents(layout, walked) == Contents(layout, Infos(delivered))
    ensures |walked| == |delivered|
    ensures forall i :: 0 <= i < |walked| ==> walked[i] in walked && FileName(layout, walked[i]) == delivered[i].name
  {
    assert |walked| == |Contents(layout, walked)| == |delivered|;
    forall i | 0 <= i < |walked|
      ensures FileName(layout, walked[i]) == delivered[i].name
    {
      assert delivered[i] in delivered && walked[i] in walked && Infos(delivered)[i] in Infos(delivered);
      assert Content(layout, walked[i]) == Contents(layout, walked)[i] == Contents(layout, Infos(delivered))[i];
      NextEntryOffsetIsSeparate(layout, walked[i], 0);
      NextEntryOffsetIsSeparate(layout, delivered[i].info, 0);
    }
  }

  /** An application that walks the buffer by next-entry offsets, until one is zero, meets exactly the
      delivered entries: same names, and the same bytes apart from the next-entry offsets. */
  lemma ApplicationReadsDelivered(layout: Layout, bytes: seq<byte>, before: seq<byte>, delivered: seq<Entry>)
    requires HoldsEntries(layout, bytes, before, delivered) && Named(layout, delivered)
    requires delivered != [] && |before| < U32_LIMIT
    ensures Chain(layout, bytes, 0) && AreStructs(layout, Entries(layout, bytes, 0))
    ensures
      var walked := Entries(layout, bytes, 0);
      && Contents(layout, walked) == Contents(layout, Infos(delivered))
      && |walked| == |delivered|
      && forall i :: 0 <= i < |walked| ==> walked[i] in walked && FileName(layout, walked[i]) == delivered[i].name
  {
    hide PackedAndClosed, Chain, Entries, Contents, FileName, IsStruct;
    var packed := PackedAndClosed(layout, Infos(delivered));
    var rest := before[|packed|..];
    assert bytes == packed + rest;
    UnpackPacked(layout, Infos(delivered), rest);
    WalkedNames(layout, delivered, Entries(layout, bytes, 0));
  }

  /** Where the last of some entries starts. */
  ghost predicate IsLast(layout: Layout, delivered: seq<Entry>, last: nat) {
    && delivered != [] && AreStructs(layout, Infos(delivered))
    && last == TotalSize(Infos(delivered[..|delivered| - 1]))
  }

  lemma LastOf(layout: Layout, bytes: seq<byte>, before: seq<byte>, delivered: seq<Entry>, e: Entry)
    requires HoldsOpenEntries(layout, bytes, before, delivered + [e])
    ensures IsLast(layout, delivered + [e], TotalSize(Infos(delivered)))
  {
    assert (delivered + [e])[..|delivered|] == delivered;
  }

  lemma CloseLast(layout: Layout, bytes: seq<byte>, before: seq<byte>, delivered: seq<Entry>, last: nat)
    requires HoldsOpenEntries(layout, bytes, before, delivered) && IsLast(layout, delivered, last)
    ensures last + layout.structureBaseSize <= |bytes|
    ensures HoldsEntries(layout, WriteU32(bytes, last + layout.offsetOfNextEntryOffset, 0), before, delivered)
  {
    hide Packed, PackedAndClosed, TotalSize, Overwrite, WriteU32, IsStruct;
    var init, e := delivered[..|delivered| - 1], delivered[|delivered| - 1];
    assert delivered == init + [e];
    InfosAppend(init, e);
    assert forall info :: info in Infos(init) ==> info in Infos(delivered);
    assert e.info in Infos(delivered);
    CloseEntries(layout, bytes, before, init, e);
  }

  /** Filling a buffer from `start` comes down to having delivered some entries and filling on. */
  ghost predicate ResumesFill(
    start: Progress, capacity: nat, limit: nat, delivered: seq<Entry>, p: Progress, room: int, left: int)
  {
    && 0 <= room && 0 <= left
    && Fill(start, capacity, limit) == (delivered + Fill(p, room, left).0, Fill(p, room, left).1)
  }

  lemma FillStep(start: Progress, capacity: nat, limit: nat, delivered: seq<Entry>, p: Progress, room: nat, left: nat)
    requires ResumesFill(start, capacity, limit, delivered, p, room, left)
    requires p.stream.entries != [] && 0 < left && |p.stream.entries[0].info| <= room
    ensures
      var front := p.stream.entries[0];
      ResumesFill(start, capacity, limit, delivered + [front], AfterFront(p), room - |front.info|, left - 1)
  {
    var front := p.stream.entries[0];
    var rest := Fill(AfterFront(p), room - |front.info|, left - 1);
    assert delivered + ([front] + rest.0) == (delivered + [front]) + rest.0;
  }

  lemma FillStarts(start: Progress, capacity: nat, limit: nat)
    ensures ResumesFill(start, capacity, limit, [], start, capacity, limit)
  {
    assert [] + Fill(start, capacity, limit).0 == Fill(start, capacity, limit).0;
  }

  lemma FillStops(start: Progress, capacity: nat, limit: nat, delivered: seq<Entry>, p: Progress, room: nat, left: nat)
    requires ResumesFill(start, capacity, limit, delivered, p, room, left)
    requires p.stream.entries == [] || left == 0 || room < |p.stream.entries[0].info|
    ensures Fill(start, capacity, limit) == (delivered, p)
  {
    assert delivered + [] == delivered;
  }

  /** What a buffer looks like after an entry did not fit: its first bytes, then its name length and a
      next-entry offset that tell how much room it needs. */
  ghost predicate ReportsOverflow(layout: Layout, bytes: seq<byte>, before: seq<byte>, capacity: nat, front: Entry) {
    && layout.Valid() && layout.structureBaseSize <= capacity < |front.info| && capacity <= |before|
    && var length := SIZE_OF_WCHAR * |front.name|;
    && layout.SizeForFileNameLength(length) < U32_LIMIT
    && bytes ==
       WithNextEntryOffset(
         layout,
         WriteU32(
           WithNextEntryOffset(layout, Overwrite(before, 0, front.info[..capacity]), 0),
           layout.offsetOfFileNameLength, length),
         layout.SizeForFileNameLength(length))
  }

  class InProgressEnumeration {
    const queue: OperationQueue
    const layout: Layout
    var enumeratedFilenames: set<wstring>
    var isFirstInvocation: bool
    /** What the queue still has to deliver. */
    ghost var stream: Stream

    ghost function Repr(): set<object> {
      {this} + queue.Repr()
    }

    lemma ReprIsAllocated()
      ensures forall o :: o in Repr() ==> allocated(o)
    {
      queue.ReprIsAllocated();
    }

    ghost predicate Tracking()
      reads Repr()
    {
      layout.Valid() && this !in queue.Repr() && queue.Holds(layout, stream)
    }

    ghost function State(): Progress
      reads this
    {
      Progress(stream, enumeratedFilenames, isFirstInvocation)
    }

    ghost predicate Valid()
      reads Repr()
    {
      Tracking() && State().Valid()
    }

    constructor (queue: OperationQueue, layout: Layout, ghost stream: Stream)
      requires layout.Valid() && queue.Holds(layout, stream)
      ensures Valid() && fresh(Repr() - queue.Repr())
      ensures this.queue == queue && this.layout == layout && State() == Started(stream)
    {
      hide OperationQueue.Holds;
      this.queue, this.layout, this.stream := queue, layout, stream;
      enumeratedFilenames, isFirstInvocation := {}, true;
    }

    method PopFront()
      requires Tracking() && stream.entries != []
      modifies `stream, queue.Repr()
      ensures Tracking() && stream == Tail(old(stream))
    {
      hide OperationQueue.Holds;
      queue.PopFront(layout, stream);
      stream := Tail(stream);
    }

    /** Drops entries that were delivered before. */
    method SkipDuplicates() returns (status: NtStatus)
      requires Tracking()
      modifies `stream, queue.Repr()
      ensures Tracking() && stream == old(Skip(stream, enumeratedFilenames))
      ensures status == if stream.entries == [] then stream.end else StatusMoreEntries
      ensures stream.entries == [] ==> !NtSuccess(stream.end)
    {
      hide OperationQueue.Holds;
      status := queue.EnumerationStatus(layout, stream);
      while NtSuccess(status)
        invariant Tracking() && Skip(stream, enumeratedFilenames) == old(Skip(stream, enumeratedFilenames))
        invariant status == if stream.entries == [] then stream.end else StatusMoreEntries
        invariant stream.entries == [] ==> !NtSuccess(stream.end)
        decreases |stream.entries|
      {
        var name := queue.FileNameOfFront(layout, stream);
        if Fold(name) !in enumeratedFilenames {
          break;
        }
        PopFront();
        status := queue.EnumerationStatus(layout, stream);
      }
    }

    method SizeOfFront() returns (size: nat)
      requires Valid() && stream.entries != []
      ensures Valid() && size == |stream.entries[0].info|
    {
      hide OperationQueue.Holds;
      size := queue.SizeOfFront(layout, stream);
    }

    method FileNameOfFront() returns (name: wstring)
      requires Valid() && stream.entries != []
      ensures Valid() && name == stream.entries[0].name
    {
      hide OperationQueue.Holds;
      name := queue.FileNameOfFront(layout, stream);
    }

    method CopyFront(output: array<byte>, at: nat, room: nat) returns (copied: nat)
      requires Valid() && stream.entries != [] && output !in Repr() && at + room <= output.Length
      modifies output
      ensures Valid() && copied == Min(|stream.entries[0].info|, room)
      ensures output[..] == Overwrite(old(output[..]), at, stream.entries[0].info[..copied])
    {
      hide OperationQueue.Holds, Overwrite;
      copied := queue.CopyFront(output, at, room, layout, stream);
    }

    /** Copies the front behind the entries already in the buffer. */
    method AppendFront(output: array<byte>, at: nat, room: nat, ghost before: seq<byte>, ghost delivered: seq<Entry>)
      returns (copied: nat)
      requires Valid() && stream.entries != [] && output !in Repr() && output.Length < U32_LIMIT
      requires HoldsOpenEntries(layout, output[..], before, delivered) && at == TotalSize(Infos(delivered))
      requires |stream.entries[0].info| <= room && at + room <= output.Length
      modifies output
      ensures Valid() && copied == |stream.entries[0].info|
      ensures HoldsOpenEntries(layout, output[..], before, delivered + [stream.entries[0]])
      ensures TotalSize(Infos(delivered + [stream.entries[0]])) == at + copied
    {
      hide InProgressEnumeration.Valid, EntryAt, SizeAt, IsStruct, WriteU32, Packed, HoldsOpenEntries, Overwrite;
      ghost var e := stream.entries[0];
      HeldSize(layout, output[..], before, delivered);
      FrontIsNamed();
      copied := CopyFront(output, at, room);
      ReprIsAllocated();
      assert e.info[..copied] == e.info;
      OneMoreEntry(layout, old(output[..]), before, delivered, e);
      UpdateNextEntryOffset(layout, output, at);
      InfosAppend(delivered, e);
      PackedAppend(layout, Infos(delivered), e.info);
    }

    /** Takes the front off the queue for good: no entry with this name will come again. */
    method TakeFront() returns (status: NtStatus)
      requires Valid() && stream.entries != []
      modifies this, queue.Repr()
      ensures Valid() && State() == AfterFront(old(State()))
      ensures status == if stream.entries == [] then stream.end else StatusMoreEntries
      ensures stream.entries == [] ==> !NtSuccess(stream.end)
    {
      hide OperationQueue.Holds;
      var name := queue.FileNameOfFront(layout, stream);
      RememberName(name);
      PopFront();
      status := SkipDuplicates();
    }

    method RememberName(name: wstring)
      requires Tracking()
      modifies `enumeratedFilenames
      ensures Tracking() && enumeratedFilenames == old(enumeratedFilenames) + {Fold(name)}
    {
      hide OperationQueue.Holds;
      enumeratedFilenames := enumeratedFilenames + {Fold(name)};
    }

    method ClearNextEntry(output: array<byte>, last: nat)
      requires Valid() && output !in Repr() && last + layout.structureBaseSize <= output.Length
      modifies output
      ensures Valid()
      ensures output[..] == WriteU32(old(output[..]), last + layout.offsetOfNextEntryOffset, 0)
    {
      hide InProgressEnumeration.Valid, WriteU32;
      LayoutIsValid();
      ReprIsAllocated();
      ClearNextEntryOffset(layout, output, last);
    }

    lemma LayoutIsValid()
      requires Valid()
      ensures layout.Valid()
    {
    }

    lemma FrontIsNamed()
      requires Valid() && stream.entries != []
      ensures
        && IsStruct(layout, stream.entries[0].info)
        && FileName(layout, stream.entries[0].info) == stream.entries[0].name
    {
      hide OperationQueue.Holds;
      queue.FrontIsStruct(layout, stream);
    }

    lemma NothingHeld(bytes: seq<byte>)
      requires Valid()
      ensures HoldsOpenEntries(layout, bytes, bytes, []) && Named(layout, []) && TotalSize(Infos([])) == 0
    {
    }

    /** Moves the front from the queue to the buffer. */
    method DeliverFront(output: array<byte>, at: nat, room: nat, ghost before: seq<byte>, ghost delivered: seq<Entry>)
      returns (status: NtStatus, end: nat)
      requires Valid() && stream.entries != [] && output !in Repr() && output.Length < U32_LIMIT
      requires HoldsOpenEntries(layout, output[..], before, delivered) && at == TotalSize(Infos(delivered))
      requires |stream.entries[0].info| <= room && at + room <= output.Length && Named(layout, delivered)
      modifies this, queue.Repr(), output
      ensures Valid() && State() == AfterFront(old(State()))
      ensures status == if stream.entries == [] then stream.end else StatusMoreEntries
      ensures stream.entries == [] ==> !NtSuccess(stream.end)
      ensures
        var longer := delivered + [old(stream).entries[0]];
        && HoldsOpenEntries(layout, output[..], before, longer) && IsLast(layout, longer, at) && Named(layout, longer)
        && end == TotalSize(Infos(longer)) == at + |old(stream).entries[0].info|
    {
      hide HoldsOpenEntries, TotalSize, IsStruct, IsLast, Named, FileName, InProgressEnumeration.Valid, AfterFront;
      ghost var front := stream.entries[0];
      FrontIsNamed();
      NamedAppend(layout, delivered, front);
      var copied := AppendFront(output, at, room, before, delivered);
      LastOf(layout, output[..], before, delivered, front);
      status := TakeFront();
      end := at + copied;
    }

    /** Copies entries one behind the other while they fit. */
    method CopyEntries(output: array<byte>, capacity: nat, limit: nat)
      returns (status: NtStatus, written: nat, last: nat, ghost delivered: seq<Entry>)
      requires Valid() && stream.entries != [] && output !in Repr()
      requires |stream.entries[0].info| <= capacity <= output.Length < U32_LIMIT && 0 < limit
      modifies this, queue.Repr(), output
      ensures Valid() && Fill(old(State()), capacity, limit) == (delivered, State())
      ensures status == if stream.entries == [] then stream.end else StatusMoreEntries
      ensures stream.entries == [] ==> !NtSuccess(stream.end)
      ensures HoldsOpenEntries(layout, output[..], old(output[..]), delivered)
      ensures IsLast(layout, delivered, last) && Named(layout, delivered)
      ensures written == TotalSize(Infos(delivered)) <= capacity
    {
      hide HoldsOpenEntries, TotalSize, ResumesFill, Fill, IsLast, Named, InProgressEnumeration.Valid, AfterFront;
      NothingHeld(output[..]);
      ghost var start, before := State(), output[..];
      var count := 0;
      written, status, last, delivered := 0, StatusMoreEntries, 0, [];
      FillStarts(start, capacity, limit);
      while NtSuccess(status) && count < limit
        invariant Valid()
        invariant HoldsOpenEntries(layout, output[..], before, delivered) && Named(layout, delivered)
        invariant written == TotalSize(Infos(delivered)) <= capacity && count <= limit
        invariant status == if stream.entries == [] then stream.end else StatusMoreEntries
        invariant stream.entries == [] ==> !NtSuccess(stream.end)
        invariant ResumesFill(start, capacity, limit, delivered, State(), capacity - written, limit - count)
        invariant if count == 0 then State() == start && written == 0 else IsLast(layout, delivered, last)
        decreases limit - count
      {
        var size := SizeOfFront();
        if capacity - written < size {
          break;
        }
        FillStep(start, capacity, limit, delivered, State(), capacity - written, limit - count);
        ghost var longer := delivered + [stream.entries[0]];
        last := written;
        status, written := DeliverFront(output, written, capacity - written, before, delivered);
        count, delivered := count + 1, longer;
      }
      FillStops(start, capacity, limit, delivered, State(), capacity - written, limit - count);
    }

    /** Copies entries one behind the other while they fit, and marks the last one as the last. */
    method FillBuffer(output: array<byte>, capacity: nat, limit: nat) returns (status: NtStatus, written: nat)
      requires Valid() && stream.entries != [] && output !in Repr()
      requires |stream.entries[0].info| <= capacity <= output.Length < U32_LIMIT && 0 < limit
      modifies this, queue.Repr(), output
      ensures Valid() && State() == Fill(old(State()), capacity, limit).1
      ensures status == if stream.entries == [] then stream.end else StatusMoreEntries
      ensures stream.entries == [] ==> !NtSuccess(stream.end)
      ensures HoldsEntries(layout, output[..], old(output[..]), Fill(old(State()), capacity, limit).0)
      ensures Named(layout, Fill(old(State()), capacity, limit).0)
      ensures written == TotalSize(Infos(Fill(old(State()), capacity, limit).0)) <= capacity
    {
      hide HoldsOpenEntries, HoldsEntries, WriteU32, TotalSize, Named, Fill, IsLast, InProgressEnumeration.Valid;
      ghost var before := output[..];
      var last;
      ghost var delivered;
      status, written, last, delivered := CopyEntries(output, capacity, limit);
      CloseLast(layout, output[..], before, delivered, last);
      ClearNextEntry(output, last);
    }

    lemma LengthFits()
      requires Valid() && stream.entries != []
      ensures layout.Valid() && layout.SizeForFileNameLength(SIZE_OF_WCHAR * |stream.entries[0].name|) < U32_LIMIT
    {
      FrontIsNamed();
    }

    method ForgetFirstInvocation()
      requires Valid()
      modifies `isFirstInvocation
      ensures Valid() && State() == old(State()).(first := false)
    {
      hide OperationQueue.Holds, Dedupe;
      isFirstInvocation := false;
    }

    method EnumerationStatus() returns (status: NtStatus)
      requires Valid()
      ensures Valid() && status == if stream.entries == [] then stream.end else StatusMoreEntries
      ensures stream.entries == [] ==> !NtSuccess(stream.end)
    {
      hide OperationQueue.Holds;
      status := queue.EnumerationStatus(layout, stream);
    }

    /** Tells the application about an entry that does not fit: as many of its bytes as there is room for,
        with the full length of its name. */
    method ReportOverflow(output: array<byte>, capacity: nat) returns (written: nat)
      requires Valid() && stream.entries != [] && output !in Repr()
      requires layout.structureBaseSize <= capacity <= output.Length < U32_LIMIT
      requires capacity < |stream.entries[0].info|
      modifies output
      ensures Valid() && written == capacity
      ensures ReportsOverflow(layout, output[..], old(output[..]), capacity, stream.entries[0])
    {
      hide InProgressEnumeration.Valid, Overwrite, WriteU32;
      LengthFits();
      written := CopyFront(output, 0, capacity);
      var name := FileNameOfFront();
      ClearNextEntry(output, 0);
      ReprIsAllocated();
      WriteFileNameLength(layout, output, SIZE_OF_WCHAR * |name|);
    }

    /** One call by the application. */
    method Advance(output: array<byte>, capacity: nat, singleEntry: bool)
      returns (status: NtStatus, information: nat)
      requires Valid() && output !in Repr() && layout.structureBaseSize <= capacity <= output.Length < U32_LIMIT
      modifies this, queue.Repr(), output
      ensures Valid() && State() == Enumerations.Advance(old(State()), Call(capacity, singleEntry)).after
      ensures status == Enumerations.Advance(old(State()), Call(capacity, singleEntry)).status
      ensures
        if old(stream.entries) == [] then information == 0 && output[..] == old(output[..])
        else if capacity < |old(stream.entries)[0].info| then
          information == capacity
          && ReportsOverflow(layout, output[..], old(output[..]), capacity, old(stream.entries)[0])
        else
          var delivered := Enumerations.Advance(old(State()), Call(capacity, singleEntry)).delivered;
          && HoldsEntries(layout, output[..], old(output[..]), delivered) && Named(layout, delivered)
          && information == TotalSize(Infos(delivered)) <= capacity
    {
      hide InProgressEnumeration.Valid, HoldsEntries, ReportsOverflow, TotalSize, Fill, Named;
      var wasFirstInvocation := isFirstInvocation;
      ForgetFirstInvocation();
      status := EnumerationStatus();
      if !NtSuccess(status) {
        if wasFirstInvocation && status == StatusNoMoreFiles {
          status := StatusNoSuchFile;
        }
        return status, 0;
      }
      var size := SizeOfFront();
      if capacity < size {
        information := ReportOverflow(output, capacity);
        return StatusBufferOverflow, information;
      }
      status, information := FillBuffer(output, capacity, if singleEntry then 1 else UNLIMITED);
      if status == StatusMoreEntries || status == StatusNoMoreFiles {
        status := StatusSuccess;
      }
    }

    /** Starts over. */
    method Restart(queryFilePattern: wstring, ghost sources: seq<Stream>)
      requires layout.Valid() && this !in queue.Repr() && queue.CanRestart(layout, queryFilePattern, sources)
      modifies this, queue.Repr()
      ensures Valid() && State() == Started(Combined(sources))
    {
      hide OperationQueue.CanRestart, OperationQueue.Holds, Merge;
      queue.Restart(queryFilePattern, layout, sources);
      stream, enumeratedFilenames, isFirstInvocation := Combined(sources), {}, true;
    }
  }
}
