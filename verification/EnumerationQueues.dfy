/** A queue over the contents of one real directory: batches of structures supplied by the system,
    filtered by what one directory-enumeration instruction includes. */
module EnumerationQueues {
  import opened Text
  import opened NtStatuses
  import opened FileInformation
  import opened Instructions
  import opened Streams

  const BUFFER_SIZE: nat := 0x1_0000
  const INVALID_POSITION: nat := 0xFFFF_FFFF

  // ---------- Structures as stream entries ----------

  function AsEntry(layout: Layout, s: FileInfo): Entry
    requires IsStruct(layout, s)
  {
    Entry(FileName(layout, s), s)
  }

  function AsEntries(layout: Layout, structs: seq<FileInfo>): (r: seq<Entry>)
    requires AreStructs(layout, structs)
    ensures |r| == |structs|
  {
    if structs == [] then [] else [AsEntry(layout, structs[0])] + AsEntries(layout, structs[1..])
  }

  lemma FirstEntry(layout: Layout, buffer: seq<byte>, at: nat, later: seq<FileInfo>)
    requires Chain(layout, buffer, at) && |buffer| < U32_LIMIT
    ensures
      var all := Entries(layout, buffer, at) + later;
      && all != [] && all[0] == buffer[at..at + SizeAt(layout, buffer, at)] && IsStruct(layout, all[0])
  {
    StructAt(layout, buffer, at);
  }

  lemma LaterEntries(layout: Layout, buffer: seq<byte>, at: nat, later: seq<FileInfo>)
    requires Chain(layout, buffer, at)
    ensures
      var next := NextAt(layout, buffer, at);
      (Entries(layout, buffer, at) + later)[1..] ==
      if next == 0 then later else Entries(layout, buffer, at + next) + later
  {
    var first, next := buffer[at..at + SizeAt(layout, buffer, at)], NextAt(layout, buffer, at);
    if next == 0 {
      assert Entries(layout, buffer, at) == [first];
    } else {
      HeadAndTail(first, Entries(layout, buffer, at + next), later);
    }
  }

  lemma ChainNext(layout: Layout, buffer: seq<byte>, at: nat)
    requires Chain(layout, buffer, at) && NextAt(layout, buffer, at) != 0
    ensures Chain(layout, buffer, at + NextAt(layout, buffer, at))
  {
  }

  lemma HeadAndTail<T>(first: T, rest: seq<T>, later: seq<T>)
    ensures ([first] + rest + later)[0] == first && ([first] + rest + later)[1..] == rest + later
  {
  }

  /** The entries one directory-enumeration instruction lets through. */
  function Included(d: SingleDirectoryEnumeration, entries: seq<Entry>): seq<Entry>
    requires d.Valid()
  {
    if entries == [] then []
    else (if d.ShouldInclude(entries[0].name) then [entries[0]] else []) + Included(d, entries[1..])
  }

  lemma {:induction false} IncludedMeaning(d: SingleDirectoryEnumeration, entries: seq<Entry>, e: Entry)
    requires d.Valid()
    ensures e in Included(d, entries) <==> e in entries && d.ShouldInclude(e.name)
  {
    if entries != [] {
      IncludedMeaning(d, entries[1..], e);
    }
  }

  lemma IncludedStep(d: SingleDirectoryEnumeration, layout: Layout, structs: seq<FileInfo>)
    requires d.Valid() && AreStructs(layout, structs) && structs != []
    ensures
      var all, rest := Included(d, AsEntries(layout, structs)), Included(d, AsEntries(layout, structs[1..]));
      all == if d.ShouldInclude(FileName(layout, structs[0])) then [AsEntry(layout, structs[0])] + rest else rest
  {
    assert AsEntries(layout, structs)[1..] == AsEntries(layout, structs[1..]);
  }

  // ---------- The system's side ----------

  /** One scan of a directory: what the enumeration buffer holds after each successful call, and the
      status of the call that finds nothing more. */
  datatype Scan = Scan(batches: seq<seq<byte>>, end: NtStatus)

  ghost predicate ValidScan(layout: Layout, scan: Scan) {
    && !NtSuccess(scan.end)
    && forall b :: b in scan.batches ==> |b| == BUFFER_SIZE && Chain(layout, b, 0)
  }

  ghost function BatchEntries(layout: Layout, batches: seq<seq<byte>>): seq<FileInfo>
    requires forall b :: b in batches ==> Chain(layout, b, 0)
  {
    if batches == [] then [] else Entries(layout, batches[0], 0) + BatchEntries(layout, batches[1..])
  }

  lemma {:induction false} BatchEntriesAreStructs(layout: Layout, scan: Scan)
    requires layout.Valid() && ValidScan(layout, scan)
    ensures AreStructs(layout, BatchEntries(layout, scan.batches))
    decreases |scan.batches|
  {
    if scan.batches != [] {
      EntriesAreStructs(layout, scan.batches[0], 0);
      BatchEntriesAreStructs(layout, Scan(scan.batches[1..], scan.end));
    }
  }

  /** What a queue offers for one scan. */
  ghost function FilteredScan(d: SingleDirectoryEnumeration, layout: Layout, scan: Scan): Stream
    requires d.Valid() && layout.Valid() && ValidScan(layout, scan)
  {
    BatchEntriesAreStructs(layout, scan);
    Stream(Included(d, AsEntries(layout, BatchEntries(layout, scan.batches))), scan.end)
  }

  /** A directory handle. Nothing is known about how the system cuts a scan into batches, or about how
      one scan relates to the next. */
  class SystemDirectory {
    const layout: Layout
    const behaviour: (nat, wstring) -> Scan
    var scans: nat
    var pending: seq<seq<byte>>
    var end: NtStatus

    ghost predicate Valid()
      reads this
    {
      && layout.Valid()
      && (forall n, p :: ValidScan(layout, behaviour(n, p)))
      && ValidScan(layout, Scan(pending, end))
    }

    /** The scan that a call continues or starts. */
    ghost function ScanFor(restart: bool, filePattern: wstring): Scan
      reads this
    {
      if restart then behaviour(scans, filePattern) else Scan(pending, end)
    }

    method PartialEnumerate(buffer: array<byte>, restart: bool, filePattern: wstring) returns (status: NtStatus)
      requires Valid() && buffer.Length == BUFFER_SIZE
      modifies this, buffer
      ensures Valid()
      ensures scans == if restart then old(scans) + 1 else old(scans)
      ensures end == old(ScanFor(restart, filePattern)).end
      ensures
        var scan := old(ScanFor(restart, filePattern));
        if scan.batches == [] then status == scan.end && pending == []
        else status == StatusSuccess && buffer[..] == scan.batches[0] && pending == scan.batches[1..]
    {
      if restart {
        var scan := behaviour(scans, filePattern);
        pending, end, scans := scan.batches, scan.end, scans + 1;
      }
      if pending == [] {
        return end;
      }
      var batch := pending[0];
      assert |batch| == BUFFER_SIZE;
      forall i | 0 <= i < BUFFER_SIZE {
        buffer[i] := batch[i];
      }
      pending := pending[1..];
      status := StatusSuccess;
    }
  }

  datatype DirectoryOpening = Opened(directory: SystemDirectory) | NotOpened(status: NtStatus)

  // ---------- The queue ----------

  class EnumerationQueue {
    const matchInstruction: SingleDirectoryEnumeration
    const layout: Layout
    const directory: SystemDirectory?
    const enumerationBuffer: array<byte>
    var position: nat
    var status: NtStatus

    ghost function Repr(): set<object> {
      {this, enumerationBuffer} + if directory == null then {} else {directory}
    }

    ghost predicate Shape()
      reads Repr()
    {
      && matchInstruction.Valid() && layout.Valid()
      && enumerationBuffer.Length == BUFFER_SIZE
      && (directory != null ==> directory.Valid() && directory.layout == layout)
    }

    ghost predicate Valid()
      reads Repr()
    {
      && Shape()
      && (NtSuccess(status) ==>
            && status == StatusMoreEntries && directory != null
            && Chain(layout, enumerationBuffer[..], position))
    }

    /** Structures not yet popped, whether or not they are included. */
    ghost function Unread(): seq<FileInfo>
      requires Valid()
      reads Repr()
    {
      if status == StatusMoreEntries then
        Entries(layout, enumerationBuffer[..], position) + BatchEntries(layout, directory.pending)
      else []
    }

    ghost function UnreadEnd(): NtStatus
      requires Valid()
      reads Repr()
    {
      if status == StatusMoreEntries then directory.end else status
    }

    lemma UnreadAreStructs()
      requires Valid()
      ensures AreStructs(layout, Unread())
    {
      if status == StatusMoreEntries {
        EntriesAreStructs(layout, enumerationBuffer[..], position);
        BatchEntriesAreStructs(layout, Scan(directory.pending, directory.end));
      }
    }

    /** What is still to be delivered. */
    ghost function Remaining(): (r: Stream)
      requires Valid()
      reads Repr()
      ensures !NtSuccess(r.end)
    {
      UnreadAreStructs();
      Stream(Included(matchInstruction, AsEntries(layout, Unread())), UnreadEnd())
    }

    /** What a restart would make available. */
    ghost function Restarted(filePattern: wstring): (r: Stream)
      requires Shape()
      reads Repr()
      ensures !NtSuccess(r.end)
    {
      if directory == null then Stream([], StatusNoMoreFiles)
      else FilteredScan(matchInstruction, layout, directory.behaviour(directory.scans, filePattern))
    }

    function Front(): FileInfo
      requires Valid() && status == StatusMoreEntries
      reads Repr()
    {
      enumerationBuffer[position..position + SizeAt(layout, enumerationBuffer[..], position)]
    }

    lemma FrontIsFirstUnread()
      requires Valid() && status == StatusMoreEntries
      ensures Unread() != [] && Front() == Unread()[0] && IsStruct(layout, Front())
    {
      var bytes, later := enumerationBuffer[..], BatchEntries(layout, directory.pending);
      FirstEntry(layout, bytes, position, later);
      assert Unread() == Entries(layout, bytes, position) + later;
    }

    function FileNameOfFront(): wstring
      requires Valid() && status == StatusMoreEntries
      reads Repr()
    {
      FrontIsFirstUnread();
      FileName(layout, Front())
    }

    function SizeOfFront(): nat
      requires Valid() && status == StatusMoreEntries
      reads Repr()
    {
      SizeAt(layout, enumerationBuffer[..], position)
    }

    /** The front is always something to be delivered. */
    ghost predicate Ready()
      reads Repr()
    {
      Valid() && (status == StatusMoreEntries ==> matchInstruction.ShouldInclude(FileNameOfFront()))
    }

    lemma FrontIsNext()
      requires Ready()
      ensures status == (if Remaining().entries == [] then Remaining().end else StatusMoreEntries)
      ensures
        status == StatusMoreEntries ==>
          && Remaining().entries[0] == Entry(FileNameOfFront(), Front())
          && IsStruct(layout, Front()) && SizeOfFront() == |Front()|
    {
      UnreadAreStructs();
      if status == StatusMoreEntries {
        FrontIsFirstUnread();
      }
    }

    method AdvanceQueueContents(restart: bool, filePattern: wstring)
      requires Shape()
      modifies Repr()
      ensures Valid()
      ensures
        if directory == null then status == StatusNoMoreFiles
        else
          var scan := old(directory.ScanFor(restart, filePattern));
          && Unread() == BatchEntries(layout, scan.batches) && UnreadEnd() == scan.end
          && directory.scans == if restart then old(directory.scans) + 1 else old(directory.scans)
    {
      if directory == null {
        position, status := INVALID_POSITION, StatusNoMoreFiles;
        return;
      }
      var result := directory.PartialEnumerate(enumerationBuffer, restart, filePattern);
      if !NtSuccess(result) {
        position, status := INVALID_POSITION, result;
      } else {
        position, status := 0, StatusMoreEntries;
      }
    }

    method PopFrontInternal()
      requires Valid() && status == StatusMoreEntries
      modifies Repr()
      ensures Valid()
      ensures old(Unread()) != [] && Unread() == old(Unread())[1..] && UnreadEnd() == old(UnreadEnd())
    {
      hide ReadU32, Entries, IsStruct, NextAt;
      var bytes := enumerationBuffer[..];
      ghost var later := BatchEntries(layout, directory.pending);
      LaterEntries(layout, bytes, position, later);
      var increment := NextAt(layout, bytes, position);
      if increment == 0 {
        AdvanceQueueContents(false, []);
      } else {
        ChainNext(layout, bytes, position);
        position := position + increment;
        assert enumerationBuffer[..] == bytes;
      }
    }

    method SkipNonMatching()
      requires Valid()
      modifies Repr()
      ensures Ready() && Remaining() == old(Remaining())
    {
      while status == StatusMoreEntries && !matchInstruction.ShouldInclude(FileNameOfFront())
        invariant Valid() && Remaining() == old(Remaining())
        decreases |Unread()|
      {
        UnreadAreStructs();
        FrontIsFirstUnread();
        IncludedStep(matchInstruction, layout, Unread());
        PopFrontInternal();
      }
    }

    method PopFront()
      requires Ready() && status == StatusMoreEntries
      modifies Repr()
      ensures Ready() && old(Remaining().entries) != [] && Remaining() == old(Tail(Remaining()))
    {
      UnreadAreStructs();
      FrontIsFirstUnread();
      IncludedStep(matchInstruction, layout, Unread());
      PopFrontInternal();
      SkipNonMatching();
    }

    method Restart(filePattern: wstring)
      requires Shape()
      modifies Repr()
      ensures Ready() && Remaining() == old(Restarted(filePattern))
    {
      AdvanceQueueContents(true, filePattern);
      SkipNonMatching();
    }

    /** Copies as much of the front as fits. */
    method CopyFront(dest: array<byte>, at: nat, capacity: nat) returns (copied: nat)
      requires Ready() && status == StatusMoreEntries
      requires dest !in Repr() && at + capacity <= dest.Length
      modifies dest
      ensures copied == Min(SizeOfFront(), capacity)
      ensures dest[..] == Overwrite(old(dest[..]), at, Front()[..copied])
    {
      hide Overwrite, IsStruct, Chain, ReadU32;
      copied := Min(SizeOfFront(), capacity);
      SliceOfSlice(enumerationBuffer[..], position, SizeOfFront(), copied);
      CopyBytes(enumerationBuffer, position, dest, at, copied);
    }

    constructor (
      matchInstruction: SingleDirectoryEnumeration, layout: Layout, opening: DirectoryOpening, filePattern: wstring)
      requires matchInstruction.Valid() && layout.Valid()
      requires opening.Opened? ==> opening.directory.Valid() && opening.directory.layout == layout
      requires opening.NotOpened? ==> !NtSuccess(opening.status)
      modifies if opening.Opened? then {opening.directory} else {}
      ensures Ready() && this.layout == layout && this.matchInstruction == matchInstruction
      ensures fresh(Repr() - if opening.Opened? then {opening.directory} else {})
      ensures directory == if opening.Opened? then opening.directory else null
      ensures
        Remaining() ==
        match opening
        case Opened(d) => old(FilteredScan(matchInstruction, layout, d.behaviour(d.scans, filePattern)))
        case NotOpened(error) => Stream([], if error in NOT_THERE_STATUSES then StatusNoMoreFiles else error)
    {
      this.matchInstruction := matchInstruction;
      this.layout := layout;
      enumerationBuffer := new byte[BUFFER_SIZE];
      position := 0;
      status := StatusSuccess;
      directory := match opening { case Opened(d) => d case NotOpened(_) => null };
      new;
      if opening.NotOpened? && !MeansNotFound(opening.status) {
        status := opening.status;
        return;
      }
      Restart(filePattern);
    }
  }
}
