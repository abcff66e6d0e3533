/** Delivering a directory enumeration to an application: call after call, into buffers of any size,
    every name once. */
module Enumerations {
  import opened Text
  import opened NtStatuses
  import opened FileInformation
  import opened Streams

  /** What an enumeration still has to deliver, the names already delivered (ignoring case), and
      whether no call has been made since it was started or restarted. */
  datatype Progress = Progress(stream: Stream, seen: set<wstring>, first: bool)
  {
    /** Between calls the front of the queue is always new. */
    predicate Valid() {
      stream.entries != [] ==> Fold(stream.entries[0].name) !in seen
    }

    /** Everything that is still to come. */
    function Due(): seq<Entry> {
      Dedupe(stream.entries, seen)
    }
  }

  /** How an application calls: the size of its buffer, and whether it wants a single entry. */
  datatype Call = Call(capacity: nat, singleEntry: bool)

  datatype Outcome = Outcome(status: NtStatus, delivered: seq<Entry>, after: Progress)

  const UNLIMITED: nat := 0xFFFF_FFFF

  /** Leaves out entries at the front whose names were seen. */
  function Skip(s: Stream, seen: set<wstring>): (r: Stream)
    ensures r.end == s.end && |r.entries| <= |s.entries|
    ensures r.entries != [] ==> Fold(r.entries[0].name) !in seen
    decreases |s.entries|
  {
    if s.entries != [] && Fold(s.entries[0].name) in seen then Skip(Tail(s), seen) else s
  }

  lemma {:induction false} SkipKeepsNew(s: Stream, seen: set<wstring>)
    ensures Dedupe(Skip(s, seen).entries, seen) == Dedupe(s.entries, seen)
    decreases |s.entries|
  {
    if s.entries != [] && Fold(s.entries[0].name) in seen {
      SkipKeepsNew(Tail(s), seen);
    }
  }

  function AfterFront(p: Progress): (r: Progress)
    requires p.stream.entries != []
    ensures r.Valid() && |r.stream.entries| < |p.stream.entries| && r.stream.end == p.stream.end
  {
    var seen := p.seen + {Fold(p.stream.entries[0].name)};
    Progress(Skip(Tail(p.stream), seen), seen, p.first)
  }

  lemma DueAfterFront(p: Progress)
    requires p.Valid() && p.stream.entries != []
    ensures p.Due() == [p.stream.entries[0]] + AfterFront(p).Due()
  {
    SkipKeepsNew(Tail(p.stream), p.seen + {Fold(p.stream.entries[0].name)});
  }

  /** Entries that fit into what is left of a buffer, up to a limit on their number. */
  function Fill(p: Progress, room: nat, limit: nat): (r: (seq<Entry>, Progress))
    decreases |p.stream.entries|
  {
    if p.stream.entries == [] || limit == 0 || room < |p.stream.entries[0].info| then ([], p)
    else
      var front := p.stream.entries[0];
      var rest := Fill(AfterFront(p), room - |front.info|, limit - 1);
      ([front] + rest.0, rest.1)
  }

  /** One call. */
  function Advance(p: Progress, call: Call): Outcome {
    var q := p.(first := false);
    if p.stream.entries == [] then
      Outcome(if p.first && p.stream.end == StatusNoMoreFiles then StatusNoSuchFile else p.stream.end, [], q)
    else if call.capacity < |p.stream.entries[0].info| then
      Outcome(StatusBufferOverflow, [], q)
    else
      var (delivered, after) := Fill(q, call.capacity, if call.singleEntry then 1 else UNLIMITED);
      var ended := after.stream.entries == [] && after.stream.end != StatusNoMoreFiles;
      Outcome(if ended then after.stream.end else StatusSuccess, delivered, after)
  }

  function Infos(entries: seq<Entry>): (r: seq<FileInfo>)
    ensures |r| == |entries|
  {
    seq(|entries|, i requires 0 <= i < |entries| => entries[i].info)
  }

  // ---------- One call ----------

  lemma {:induction false} FillDelivers(p: Progress, room: nat, limit: nat)
    requires p.Valid()
    ensures
      var (delivered, after) := Fill(p, room, limit);
      && after.Valid() && after.stream.end == p.stream.end && after.first == p.first
      && p.Due() == delivered + after.Due()
      && |delivered| <= limit
    decreases |p.stream.entries|
  {
    hide Dedupe, Skip;
    if p.stream.entries != [] && limit != 0 && room >= |p.stream.entries[0].info| {
      var front := p.stream.entries[0];
      DueAfterFront(p);
      FillDelivers(AfterFront(p), room - |front.info|, limit - 1);
      var (delivered, after) := Fill(AfterFront(p), room - |front.info|, limit - 1);
      assert [front] + (delivered + after.Due()) == ([front] + delivered) + after.Due();
    } else {
      assert [] + p.Due() == p.Due();
    }
  }

  /** A call delivers the next names that are due, at least one if there is one and it fits, at most one
      if only one is wanted, and leaves the others due; a call whose buffer is too small takes nothing. */
  lemma AdvanceDelivers(p: Progress, call: Call)
    requires p.Valid()
    ensures
      var r := Advance(p, call);
      && r.after.Valid() && !r.after.first && r.after.stream.end == p.stream.end
      && p.Due() == r.delivered + r.after.Due()
      && (call.singleEntry ==> |r.delivered| <= 1)
      && (r.delivered == [] <==> p.Due() == [] || call.capacity < |p.Due()[0].info|)
      && (r.status == StatusBufferOverflow && p.stream.end != StatusBufferOverflow ==> r.after == p.(first := false))
  {
    var q := p.(first := false);
    var limit := if call.singleEntry then 1 else UNLIMITED;
    if p.stream.entries != [] {
      DueAfterFront(p);
    }
    if p.stream.entries != [] && call.capacity >= |p.stream.entries[0].info| {
      FillDelivers(q, call.capacity, limit);
    } else {
      assert [] + p.Due() == p.Due();
    }
  }

  lemma InfosCons(first: Entry, rest: seq<Entry>)
    ensures TotalSize(Infos([first] + rest)) == |first.info| + TotalSize(Infos(rest))
  {
    assert Infos([first] + rest) == [first.info] + Infos(rest);
    TotalSizeCons(first.info, Infos(rest));
  }

  lemma {:induction false} FillIsGreedy(p: Progress, room: nat, limit: nat)
    requires p.Valid()
    ensures
      var (delivered, after) := Fill(p, room, limit);
      && TotalSize(Infos(delivered)) <= room
      && (after.Due() == [] || |delivered| == limit
          || TotalSize(Infos(delivered)) + |after.Due()[0].info| > room)
    decreases |p.stream.entries|
  {
    hide Dedupe, Skip, TotalSize, Infos;
    NothingDue(p);
    assert TotalSize(Infos([])) == 0 by { NoInfos(); }
    if p.stream.entries != [] {
      var front := p.stream.entries[0];
      DueAfterFront(p);
      if limit != 0 && room >= |front.info| {
        FillIsGreedy(AfterFront(p), room - |front.info|, limit - 1);
        InfosCons(front, Fill(AfterFront(p), room - |front.info|, limit - 1).0);
      }
    }
  }

  lemma NoInfos()
    ensures TotalSize(Infos([])) == 0
  {
  }

  /** A call delivers as much as it can: its entries fit into the buffer together, and it stops only if nothing more is
      due, if it has delivered as many as are wanted, or if the next entry does not fit into what is left. */
  lemma CallIsGreedy(p: Progress, call: Call)
    requires p.Valid()
    ensures
      var r := Advance(p, call);
      && TotalSize(Infos(r.delivered)) <= call.capacity
      && (r.after.Due() == [] || |r.delivered| == (if call.singleEntry then 1 else UNLIMITED)
          || TotalSize(Infos(r.delivered)) + |r.after.Due()[0].info| > call.capacity)
  {
    hide Fill, Dedupe, TotalSize, Infos;
    var q := p.(first := false);
    FillIsGreedy(q, call.capacity, if call.singleEntry then 1 else UNLIMITED);
    NothingDue(p);
    NothingDue(q);
    NoInfos();
    if p.stream.entries != [] {
      DueAfterFront(q);
    }
  }

  /** The status tells the application exactly where it stands. */
  lemma AdvanceStatus(p: Progress, call: Call)
    requires p.Valid() && !NtSuccess(p.stream.end) && p.stream.end !in {StatusBufferOverflow, StatusNoSuchFile}
    ensures
      var r := Advance(p, call);
      && (r.status == StatusNoSuchFile <==> p.Due() == [] && p.first && p.stream.end == StatusNoMoreFiles)
      && (r.status == StatusNoMoreFiles <==> p.Due() == [] && !p.first && p.stream.end == StatusNoMoreFiles)
      && (r.status == StatusBufferOverflow <==> p.Due() != [] && call.capacity < |p.Due()[0].info|)
      && (r.status == StatusSuccess ==> r.delivered != [])
      && (p.stream.end == StatusNoMoreFiles ==>
            r.status in {StatusSuccess, StatusNoMoreFiles, StatusNoSuchFile, StatusBufferOverflow})
  {
    AdvanceDelivers(p, call);
    if p.stream.entries != [] {
      DueAfterFront(p);
    }
  }

  // ---------- Whole runs ----------

  /** The progress after a run of calls, and everything delivered on the way. */
  function Run(p: Progress, calls: seq<Call>): (r: (seq<Entry>, Progress))
    decreases |calls|
  {
    if calls == [] then ([], p)
    else
      var r := Advance(p, calls[0]);
      var rest := Run(r.after, calls[1..]);
      (r.delivered + rest.0, rest.1)
  }

  /** In any run, whatever the buffers and flags, what was delivered and what is still due make up
      exactly what was due at the start. */
  lemma {:induction false} RunDelivers(p: Progress, calls: seq<Call>)
    requires p.Valid()
    ensures
      var (delivered, after) := Run(p, calls);
      && after.Valid() && after.stream.end == p.stream.end
      && p.Due() == delivered + after.Due()
    decreases |calls|
  {
    if calls == [] {
      assert [] + p.Due() == p.Due();
    } else {
      hide Advance, Dedupe;
      var r := Advance(p, calls[0]);
      AdvanceDelivers(p, calls[0]);
      RunDelivers(r.after, calls[1..]);
      var (delivered, after) := Run(r.after, calls[1..]);
      assert r.delivered + (delivered + after.Due()) == (r.delivered + delivered) + after.Due();
    }
  }

  /** A started or restarted enumeration. */
  function Started(s: Stream): (r: Progress)
    ensures r.Valid()
  {
    Progress(s, {}, true)
  }

  lemma {:induction false} NothingDue(p: Progress)
    requires p.Valid()
    ensures p.Due() == [] <==> p.stream.entries == []
  {
    if p.stream.entries != [] {
      DueAfterFront(p);
    }
  }

  /** Every complete run from a start delivers the first occurrence of every name of the queue's stream,
      in order and each once, no matter where buffers cut it. */
  lemma CompleteRunDeliversAll(s: Stream, calls: seq<Call>)
    requires Run(Started(s), calls).1.stream.entries == []
    ensures Run(Started(s), calls).0 == Dedupe(s.entries, {})
  {
    RunDelivers(Started(s), calls);
    var after := Run(Started(s), calls).1;
    NothingDue(after);
  }

  /** An incomplete run delivers a prefix of it. */
  lemma RunDeliversPrefix(s: Stream, calls: seq<Call>)
    ensures Run(Started(s), calls).0 <= Dedupe(s.entries, {})
  {
    RunDelivers(Started(s), calls);
  }

  predicate BigEnough(p: Progress, calls: seq<Call>) {
    forall c, e :: c in calls && e in p.Due() ==> c.capacity >= |e.info|
  }

  /** A run completes as soon as it has had as many calls as there are names due, provided that every
      buffer can hold every single entry. */
  lemma {:induction false} RunCompletes(p: Progress, calls: seq<Call>)
    requires p.Valid() && BigEnough(p, calls) && |calls| >= |p.Due()|
    ensures Run(p, calls).1.stream.entries == []
    decreases |calls|
  {
    NothingDue(p);
    if calls != [] {
      var r := Advance(p, calls[0]);
      AdvanceDelivers(p, calls[0]);
      forall c, e | c in calls[1..] && e in r.after.Due()
        ensures c.capacity >= |e.info|
      {
        assert c in calls && e in p.Due();
      }
      assert p.Due() != [] ==> p.Due()[0] in p.Due() && calls[0] in calls;
      RunCompletes(r.after, calls[1..]);
    }
  }

  // ---------- Calls that report an error ----------

  /** What is delivered by those calls of a run that report success. */
  function Reported(p: Progress, calls: seq<Call>): seq<Entry>
    decreases |calls|
  {
    if calls == [] then []
    else
      var r := Advance(p, calls[0]);
      (if NtSuccess(r.status) then r.delivered else []) + Reported(r.after, calls[1..])
  }

  /** A call that delivers something reports an error if and only if it reaches the end of a queue that ends in one. */
  lemma DeliversWithError(p: Progress, call: Call)
    requires p.Valid() && !NtSuccess(p.stream.end) && Advance(p, call).delivered != []
    ensures
      var r := Advance(p, call);
      if r.after.stream.entries == [] && p.stream.end != StatusNoMoreFiles then r.status == p.stream.end
      else r.status == StatusSuccess
  {
    hide Fill;
    FillDelivers(p.(first := false), call.capacity, if call.singleEntry then 1 else UNLIMITED);
  }

  /** Successful calls deliver everything that a run delivers, unless it reaches the end of a queue that ends in an
      error; then they deliver all but what the call that reaches the end does. */
  lemma {:induction false} SuccessfulCallsDeliver(p: Progress, calls: seq<Call>)
    requires p.Valid() && !NtSuccess(p.stream.end)
    ensures Reported(p, calls) <= Run(p, calls).0
    ensures
      p.stream.end == StatusNoMoreFiles || Run(p, calls).1.stream.entries != [] ==>
        Reported(p, calls) == Run(p, calls).0
    decreases |calls|
  {
    if calls != [] {
      hide Advance;
      var r, rest := Advance(p, calls[0]), calls[1..];
      AdvanceDelivers(p, calls[0]);
      SuccessfulCallsDeliver(r.after, rest);
      if r.delivered != [] {
        DeliversWithError(p, calls[0]);
        if r.after.stream.entries == [] {
          NothingMore(r.after, rest);
        }
      }
    }
  }

  /** Nothing is delivered once the queue is at its end. */
  lemma NothingMore(p: Progress, calls: seq<Call>)
    requires p.Valid() && p.stream.entries == []
    ensures Run(p, calls).0 == [] && Run(p, calls).1.stream.entries == []
  {
    RunDelivers(p, calls);
    NothingDue(p);
    NothingDue(Run(p, calls).1);
  }
}
