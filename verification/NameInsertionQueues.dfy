/** A queue of origin-directory names to be added to a directory enumeration. */
module NameInsertionQueues {
  import opened Text
  import opened NtStatuses
  import opened FileInformation
  import opened Rules
  import opened Streams
  import opened EnumerationQueues

  /** A name to insert, and the two parts of the path of the directory that supplies everything else. */
  datatype NameInsertion = NameInsertion(fileName: wstring, sourceDirectoryPart: wstring, sourceFilePart: wstring)

  /** The answer to one query about a single directory: the buffer after the call, or a failure. */
  datatype QueryResult = Found(bytes: seq<byte>) | NotFound(status: NtStatus)

  predicate ValidResult(r: QueryResult) {
    match r
    case Found(bytes) => |bytes| == BUFFER_SIZE
    case NotFound(status) => !NtSuccess(status)
  }

  ghost predicate ValidQuery(query: (nat, NameInsertion) -> QueryResult) {
    forall n, insertion :: ValidResult(query(n, insertion))
  }

  /** The information found, under the name that is to be inserted. */
  function InsertedEntry(layout: Layout, bytes: seq<byte>, name: wstring): Entry
    requires layout.Valid() && |bytes| == BUFFER_SIZE
  {
    NameIsWritten(layout, bytes, name);
    var named := WithFileName(layout, bytes, name);
    AsEntry(layout, named[..SizeAt(layout, named, 0)])
  }

  /** What a queue offers: names that match the pattern and whose directory exists, until a query fails
      for another reason. `calls` numbers the queries, whose answers may change over time. */
  ghost function InsertionStream(
    layout: Layout, query: (nat, NameInsertion) -> QueryResult, filePattern: wstring,
    insertions: seq<NameInsertion>, calls: nat)
    : (r: Stream)
    requires layout.Valid() && ValidQuery(query)
    ensures !NtSuccess(r.end)
  {
    if insertions == [] then Stream([], StatusNoMoreFiles)
    else if !FileNameMatchesPattern(insertions[0].fileName, filePattern) then
      InsertionStream(layout, query, filePattern, insertions[1..], calls)
    else
      var result := query(calls, insertions[0]);
      assert ValidResult(result);
      match result
      case NotFound(status) =>
        if MeansNotFound(status) then InsertionStream(layout, query, filePattern, insertions[1..], calls + 1)
        else Stream([], status)
      case Found(bytes) =>
        var rest := InsertionStream(layout, query, filePattern, insertions[1..], calls + 1);
        Stream([InsertedEntry(layout, bytes, insertions[0].fileName)] + rest.entries, rest.end)
  }

  lemma StreamStep(
    layout: Layout, query: (nat, NameInsertion) -> QueryResult, filePattern: wstring,
    insertions: seq<NameInsertion>, i: nat, calls: nat)
    requires layout.Valid() && ValidQuery(query) && i < |insertions|
    ensures ValidResult(query(calls, insertions[i]))
    ensures
      var name, result := insertions[i].fileName, query(calls, insertions[i]);
      InsertionStream(layout, query, filePattern, insertions[i..], calls) ==
      if !FileNameMatchesPattern(name, filePattern) then
        InsertionStream(layout, query, filePattern, insertions[i + 1..], calls)
      else
        var rest := InsertionStream(layout, query, filePattern, insertions[i + 1..], calls + 1);
        if result.Found? then Stream([InsertedEntry(layout, result.bytes, name)] + rest.entries, rest.end)
        else if MeansNotFound(result.status) then rest
        else Stream([], result.status)
  {
    assert ValidResult(query(calls, insertions[i]));
    assert insertions[i..][0] == insertions[i] && insertions[i..][1..] == insertions[i + 1..];
  }

  /** Answers that do not change from one query to the next. */
  ghost predicate Steady(query: (nat, NameInsertion) -> QueryResult) {
    forall n, insertion :: query(n, insertion) == query(0, insertion)
  }

  /** A name is inserted if it matches the pattern and its directory exists. */
  predicate IsInserted(query: (nat, NameInsertion) -> QueryResult, filePattern: wstring, insertion: NameInsertion) {
    FileNameMatchesPattern(insertion.fileName, filePattern) && query(0, insertion).Found?
  }

  /** The query for a name fails for a reason other than that the directory is not there. */
  predicate IsRefused(query: (nat, NameInsertion) -> QueryResult, filePattern: wstring, insertion: NameInsertion) {
    && FileNameMatchesPattern(insertion.fileName, filePattern)
    && query(0, insertion).NotFound? && query(0, insertion).status !in NOT_THERE_STATUSES
  }

  /** The position of the first name whose query is refused, or the number of names. */
  function FirstRefused(
    query: (nat, NameInsertion) -> QueryResult, filePattern: wstring, insertions: seq<NameInsertion>): (i: nat)
    ensures i <= |insertions|
    ensures i < |insertions| ==> IsRefused(query, filePattern, insertions[i])
    ensures forall j :: 0 <= j < i ==> !IsRefused(query, filePattern, insertions[j])
  {
    if insertions == [] || IsRefused(query, filePattern, insertions[0]) then 0
    else 1 + FirstRefused(query, filePattern, insertions[1..])
  }

  function InsertedEntries(
    layout: Layout, query: (nat, NameInsertion) -> QueryResult, filePattern: wstring, insertions: seq<NameInsertion>)
    : seq<Entry>
    requires layout.Valid()
    requires forall insertion :: query(0, insertion).Found? ==> |query(0, insertion).bytes| == BUFFER_SIZE
  {
    if insertions == [] then []
    else
      (if IsInserted(query, filePattern, insertions[0])
       then [InsertedEntry(layout, query(0, insertions[0]).bytes, insertions[0].fileName)] else [])
      + InsertedEntries(layout, query, filePattern, insertions[1..])
  }

  lemma FoundIsFull(query: (nat, NameInsertion) -> QueryResult)
    requires ValidQuery(query)
    ensures forall insertion :: query(0, insertion).Found? ==> |query(0, insertion).bytes| == BUFFER_SIZE
  {
    forall insertion
      ensures ValidResult(query(0, insertion))
    {
    }
  }

  /** Against a filesystem that does not change, the queue offers its list filtered by pattern and existence, up to
      the first name whose query is refused, and ends with that refusal, or normally if there is none. */
  lemma {:induction false} InsertionStreamMeaning(
    layout: Layout, query: (nat, NameInsertion) -> QueryResult, filePattern: wstring,
    insertions: seq<NameInsertion>, calls: nat)
    requires layout.Valid() && ValidQuery(query) && Steady(query)
    ensures forall insertion :: query(0, insertion).Found? ==> |query(0, insertion).bytes| == BUFFER_SIZE
    ensures
      var i := FirstRefused(query, filePattern, insertions);
      InsertionStream(layout, query, filePattern, insertions, calls)
      == Stream(InsertedEntries(layout, query, filePattern, insertions[..i]),
                if i == |insertions| then StatusNoMoreFiles else query(0, insertions[i]).status)
    decreases |insertions|
  {
    hide InsertedEntry;
    FoundIsFull(query);
    var i := FirstRefused(query, filePattern, insertions);
    if insertions == [] || IsRefused(query, filePattern, insertions[0]) {
      assert insertions != [] ==> query(calls, insertions[0]) == query(0, insertions[0]);
      assert insertions[..i] == [];
    } else {
      var rest := insertions[1..];
      assert query(calls, insertions[0]) == query(0, insertions[0]) && ValidResult(query(calls, insertions[0]));
      var next := if FileNameMatchesPattern(insertions[0].fileName, filePattern) then calls + 1 else calls;
      InsertionStreamMeaning(layout, query, filePattern, rest, next);
      assert insertions[..i][0] == insertions[0] && insertions[..i][1..] == rest[..i - 1];
    }
  }

  class NameInsertionQueue {
    const insertions: seq<NameInsertion>
    const layout: Layout
    const query: (nat, NameInsertion) -> QueryResult
    const enumerationBuffer: array<byte>
    var position: nat
    var status: NtStatus
    var filePattern: wstring
    var calls: nat

    ghost function Repr(): set<object> {
      {this, enumerationBuffer}
    }

    ghost predicate Shape()
      reads Repr()
    {
      && layout.Valid() && enumerationBuffer.Length == BUFFER_SIZE
      && ValidQuery(query)
    }

    ghost predicate Valid()
      reads Repr()
    {
      && Shape() && position <= |insertions|
      && (NtSuccess(status) ==>
            && status == StatusMoreEntries
            && EntryAt(layout, enumerationBuffer[..], 0)
            && IsStruct(layout, enumerationBuffer[..SizeAt(layout, enumerationBuffer[..], 0)]))
    }

    /** What is still to be delivered. */
    ghost function Remaining(): (r: Stream)
      requires Valid()
      reads Repr()
      ensures !NtSuccess(r.end)
    {
      if status == StatusMoreEntries then
        var rest := InsertionStream(layout, query, filePattern, insertions[position..], calls);
        Stream([AsEntry(layout, Front())] + rest.entries, rest.end)
      else Stream([], status)
    }

    /** What a restart would make available. An empty pattern leaves the previous pattern in force. */
    ghost function Restarted(newPattern: wstring): (r: Stream)
      requires Shape()
      reads Repr()
      ensures !NtSuccess(r.end)
    {
      InsertionStream(layout, query, if newPattern == [] then filePattern else Fold(newPattern), insertions, calls)
    }

    function Front(): FileInfo
      requires Valid() && status == StatusMoreEntries
      reads Repr()
    {
      enumerationBuffer[..SizeAt(layout, enumerationBuffer[..], 0)]
    }

    function FileNameOfFront(): wstring
      requires Valid() && status == StatusMoreEntries
      reads Repr()
    {
      FileName(layout, Front())
    }

    function SizeOfFront(): nat
      requires Valid() && status == StatusMoreEntries
      reads Repr()
    {
      SizeAt(layout, enumerationBuffer[..], 0)
    }

    method LoadFront(bytes: seq<byte>, name: wstring)
      requires Shape() && |bytes| == BUFFER_SIZE
      modifies enumerationBuffer
      ensures EntryAt(layout, enumerationBuffer[..], 0)
      ensures
        var front := enumerationBuffer[..SizeAt(layout, enumerationBuffer[..], 0)];
        IsStruct(layout, front) && AsEntry(layout, front) == InsertedEntry(layout, bytes, name)
    {
      forall i | 0 <= i < BUFFER_SIZE {
        enumerationBuffer[i] := bytes[i];
      }
      assert enumerationBuffer[..] == bytes;
      WriteFileName(layout, enumerationBuffer, name);
      NameIsWritten(layout, bytes, name);
    }

    method AcceptFound(bytes: seq<byte>, name: wstring)
      requires Shape() && |bytes| == BUFFER_SIZE && position <= |insertions|
      modifies `status, enumerationBuffer
      ensures Valid()
      ensures
        var rest := InsertionStream(layout, query, filePattern, insertions[position..], calls);
        Remaining() == Stream([InsertedEntry(layout, bytes, name)] + rest.entries, rest.end)
    {
      LoadFront(bytes, name);
      status := StatusMoreEntries;
    }

    /** Queries for the name at the current position, which matches the pattern. */
    method TryInsertion(name: wstring, ghost goal: Stream) returns (done: bool)
      requires Shape() && position < |insertions| && name == insertions[position].fileName
      requires goal == InsertionStream(layout, query, filePattern, insertions[position..], calls)
      requires FileNameMatchesPattern(name, filePattern)
      modifies Repr()
      ensures Shape() && filePattern == old(filePattern)
      ensures done ==> Valid() && Remaining() == goal
      ensures
        !done ==>
          && position == old(position) + 1
          && goal == InsertionStream(layout, query, filePattern, insertions[position..], calls)
    {
      hide InsertedEntry, AsEntry, InsertionStream;
      var result := query(calls, insertions[position]);
      StreamStep(layout, query, filePattern, insertions, position, calls);
      calls := calls + 1;
      if result.Found? {
        position := position + 1;
        AcceptFound(result.bytes, name);
        return true;
      }
      done := !MeansNotFound(result.status);
      if done {
        status := result.status;
      } else {
        position := position + 1;
      }
    }

    method AdvanceQueueContents()
      requires Shape() && position <= |insertions|
      modifies Repr()
      ensures Valid() && filePattern == old(filePattern)
      ensures Remaining() == old(InsertionStream(layout, query, filePattern, insertions[position..], calls))
    {
      ghost var goal := InsertionStream(layout, query, filePattern, insertions[position..], calls);
      while position < |insertions|
        invariant Shape() && position <= |insertions| && filePattern == old(filePattern)
        invariant goal == InsertionStream(layout, query, filePattern, insertions[position..], calls)
        decreases |insertions| - position
      {
        var name := insertions[position].fileName;
        if FileNameMatchesPattern(name, filePattern) {
          var done := TryInsertion(name, goal);
          if done {
            return;
          }
        } else {
          StreamStep(layout, query, filePattern, insertions, position, calls);
          position := position + 1;
        }
      }
      status := StatusNoMoreFiles;
    }

    method PopFront()
      requires Valid() && status == StatusMoreEntries
      modifies Repr()
      ensures Valid() && filePattern == old(filePattern)
      ensures old(Remaining().entries) != [] && Remaining() == old(Tail(Remaining()))
    {
      AdvanceQueueContents();
    }

    method Restart(queryFilePattern: wstring)
      requires Shape()
      modifies Repr()
      ensures Valid() && Remaining() == old(Restarted(queryFilePattern))
    {
      if insertions == [] {
        position, status := 0, StatusNoMoreFiles;
        return;
      }
      if queryFilePattern != [] {
        filePattern := Fold(queryFilePattern);
      }
      position := 0;
      assert insertions[0..] == insertions;
      AdvanceQueueContents();
    }

    /** Copies as much of the front as fits. */
    method CopyFront(dest: array<byte>, at: nat, capacity: nat) returns (copied: nat)
      requires Valid() && status == StatusMoreEntries
      requires dest !in Repr() && at + capacity <= dest.Length
      modifies dest
      ensures copied == Min(SizeOfFront(), capacity)
      ensures dest[..] == Overwrite(old(dest[..]), at, Front()[..copied])
    {
      hide Overwrite;
      copied := Min(SizeOfFront(), capacity);
      SliceOfSlice(enumerationBuffer[..], 0, SizeOfFront(), copied);
      CopyBytes(enumerationBuffer, 0, dest, at, copied);
    }

    constructor (
      insertions: seq<NameInsertion>, layout: Layout, query: (nat, NameInsertion) -> QueryResult,
      queryFilePattern: wstring)
      requires layout.Valid() && ValidQuery(query)
      ensures Valid() && fresh(Repr()) && this.layout == layout
      ensures Remaining() == InsertionStream(layout, query, Fold(queryFilePattern), insertions, 0)
    {
      this.insertions := insertions;
      this.layout := layout;
      this.query := query;
      enumerationBuffer := new byte[BUFFER_SIZE];
      position, calls := 0, 0;
      status := StatusNoMoreFiles;
      filePattern := [];
      new;
      Restart(queryFilePattern);
    }
  }
}
