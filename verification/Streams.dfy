/** The streams of entries that directory-enumeration queues produce: filtering, merging and removal of
    duplicates, as functions on values. */
module Streams {
  import opened Wrappers
  import opened Text
  import opened NtStatuses
  import opened FileInformation

  /** One structure with the file name it holds. */
  datatype Entry = Entry(name: wstring, info: FileInfo)

  /** What a queue still has to offer, and the status it will report once that is exhausted. */
  datatype Stream = Stream(entries: seq<Entry>, end: NtStatus)

  function Tail(s: Stream): Stream
    requires s.entries != []
  {
    s.(entries := s.entries[1..])
  }

  // ---------- Merging ----------

  predicate Before(a: Entry, b: Entry) {
    LessCaseInsensitive(a.name, b.name)
  }

  /** Among the first `n` streams, the one whose front sorts lowest; the earliest one on ties. */
  function LowestFront(streams: seq<Stream>, n: nat): (r: Option<nat>)
    requires n <= |streams|
    ensures r.Some? ==> r.value < n && streams[r.value].entries != []
  {
    if n == 0 then None
    else
      var best := LowestFront(streams, n - 1);
      if streams[n - 1].entries == [] then best
      else if best == None || Before(streams[n - 1].entries[0], streams[best.value].entries[0]) then Some(n - 1)
      else best
  }

  /** The front of stream `i` is to be delivered before that of stream `j`. */
  predicate SortsFirst(streams: seq<Stream>, i: nat, j: nat)
    requires i < |streams| && streams[i].entries != [] && j < |streams| && streams[j].entries != []
  {
    if j < i then Before(streams[i].entries[0], streams[j].entries[0])
    else !Before(streams[j].entries[0], streams[i].entries[0])
  }

  lemma {:induction false} LowestFrontMeaning(streams: seq<Stream>, n: nat)
    requires n <= |streams|
    ensures
      match LowestFront(streams, n)
      case None => forall j :: 0 <= j < n ==> streams[j].entries == []
      case Some(i) =>
        forall j: nat :: j < n && streams[j].entries != [] ==> SortsFirst(streams, i, j)
  {
    if n > 0 {
      LowestFrontMeaning(streams, n - 1);
      match LowestFront(streams, n)
      case None =>
      case Some(i) =>
        forall j: nat | j < n && streams[j].entries != []
          ensures SortsFirst(streams, i, j)
        {
          LowestFrontStep(streams, n, j);
        }
    }
  }

  lemma LowestFrontStep(streams: seq<Stream>, n: nat, j: nat)
    requires 0 < n <= |streams| && j < n && streams[j].entries != [] && LowestFront(streams, n).Some?
    requires
      match LowestFront(streams, n - 1)
      case None => forall j :: 0 <= j < n - 1 ==> streams[j].entries == []
      case Some(i) =>
        forall j: nat :: j < n - 1 && streams[j].entries != [] ==> SortsFirst(streams, i, j)
    ensures SortsFirst(streams, LowestFront(streams, n).value, j)
  {
    var i, best := LowestFront(streams, n).value, LowestFront(streams, n - 1);
    if i == n - 1 {
      var e := Fold(streams[n - 1].entries[0].name);
      LessIrreflexive(e);
      if j < n - 1 {
        var b, f := Fold(streams[best.value].entries[0].name), Fold(streams[j].entries[0].name);
        LessTotal(b, f);
        if Less(b, f) { LessTransitive(e, b, f); }
        assert b == f || Less(b, f);
      }
    }
  }

  /** The status of the first exhausted stream that ended in an error. */
  function FirstError(streams: seq<Stream>): Option<NtStatus> {
    if streams == [] then None
    else if streams[0].entries == [] && streams[0].end != StatusNoMoreFiles then Some(streams[0].end)
    else FirstError(streams[1..])
  }

  function Total(streams: seq<Stream>): nat {
    if streams == [] then 0 else |streams[0].entries| + Total(streams[1..])
  }

  lemma {:induction false} TotalDecreases(streams: seq<Stream>, i: nat)
    requires i < |streams| && streams[i].entries != []
    ensures Total(streams[i := Tail(streams[i])]) == Total(streams) - 1
  {
    var after := streams[i := Tail(streams[i])];
    if i > 0 {
      TotalDecreases(streams[1..], i - 1);
      assert after[1..] == streams[1..][i - 1 := Tail(streams[i])];
    } else {
      assert after[1..] == streams[1..];
    }
  }

  /** The merged stream, each entry with the position of the stream it came from. */
  datatype Merged = Merged(entries: seq<Entry>, sources: seq<nat>, end: NtStatus)

  function Merge(streams: seq<Stream>): (r: Merged)
    ensures |r.entries| == |r.sources|
    decreases Total(streams)
  {
    match FirstError(streams)
    case Some(error) => Merged([], [], error)
    case None =>
      match LowestFront(streams, |streams|)
      case None => Merged([], [], StatusNoMoreFiles)
      case Some(i) =>
        TotalDecreases(streams, i);
        var rest := Merge(streams[i := Tail(streams[i])]);
        Merged([streams[i].entries[0]] + rest.entries, [i] + rest.sources, rest.end)
  }

  /** The part of a merged stream that came from one of the streams. */
  function Share(entries: seq<Entry>, sources: seq<nat>, i: nat): seq<Entry>
    requires |entries| == |sources|
  {
    if entries == [] then []
    else (if sources[0] == i then [entries[0]] else []) + Share(entries[1..], sources[1..], i)
  }

  lemma ShareCons(head: Entry, from: nat, entries: seq<Entry>, sources: seq<nat>, i: nat)
    requires |entries| == |sources|
    ensures
      Share([head] + entries, [from] + sources, i) ==
      if from == i then [head] + Share(entries, sources, i) else Share(entries, sources, i)
  {
    assert ([head] + entries)[1..] == entries && ([from] + sources)[1..] == sources;
  }

  /** Every stream is delivered in its own order, without loss or duplication up to the point where the
      merged stream ends, and completely unless it ends in an error. */
  lemma {:induction false} MergeInterleaves(streams: seq<Stream>, i: nat)
    requires i < |streams|
    ensures Share(Merge(streams).entries, Merge(streams).sources, i) <= streams[i].entries
    ensures
      Merge(streams).end == StatusNoMoreFiles ==>
        Share(Merge(streams).entries, Merge(streams).sources, i) == streams[i].entries
    decreases Total(streams)
  {
    FirstErrorMeaning(streams);
    LowestFrontMeaning(streams, |streams|);
    if FirstError(streams) == None && LowestFront(streams, |streams|).Some? {
      var first := LowestFront(streams, |streams|).value;
      TotalDecreases(streams, first);
      var after := streams[first := Tail(streams[first])];
      MergeInterleaves(after, i);
      ShareStep(streams, first, Merge(after), i);
    }
  }

  lemma ShareStep(streams: seq<Stream>, first: nat, rest: Merged, i: nat)
    requires first < |streams| && streams[first].entries != [] && i < |streams|
    requires |rest.entries| == |rest.sources|
    ensures
      var share, after := Share(rest.entries, rest.sources, i), streams[first := Tail(streams[first])];
      var longer := Share([streams[first].entries[0]] + rest.entries, [first] + rest.sources, i);
      && (share <= after[i].entries ==> longer <= streams[i].entries)
      && (share == after[i].entries ==> longer == streams[i].entries)
  {
    ShareCons(streams[first].entries[0], first, rest.entries, rest.sources, i);
  }

  /** A queue that is exhausted and has ended in an error. */
  predicate HasFailed(s: Stream) {
    s.entries == [] && s.end != StatusNoMoreFiles
  }

  /** The error of the first queue that has failed. */
  lemma {:induction false} FirstErrorIsFirst(streams: seq<Stream>)
    ensures
      match FirstError(streams)
      case None => forall s :: s in streams ==> !HasFailed(s)
      case Some(e) =>
        exists i: nat ::
          i < |streams| && HasFailed(streams[i]) && streams[i].end == e
          && forall j :: 0 <= j < i ==> !HasFailed(streams[j])
  {
    if streams != [] {
      var rest := streams[1..];
      FirstErrorIsFirst(rest);
      if HasFailed(streams[0]) {
        assert FirstError(streams) == Some(streams[0].end);
      } else if FirstError(rest).Some? {
        var i: nat :| i < |rest| && HasFailed(rest[i]) && rest[i].end == FirstError(rest).value
          && forall j :: 0 <= j < i ==> !HasFailed(rest[j]);
        assert streams[i + 1] == rest[i];
        forall j | 0 <= j < i + 1
          ensures !HasFailed(streams[j])
        {
          assert j > 0 ==> streams[j] == rest[j - 1];
        }
      }
    }
  }

  lemma {:induction false} FirstErrorMeaning(streams: seq<Stream>)
    ensures
      match FirstError(streams)
      case None => forall s :: s in streams && s.entries == [] ==> s.end == StatusNoMoreFiles
      case Some(e) => e != StatusNoMoreFiles && exists s :: s in streams && s.entries == [] && s.end == e
  {
    if streams != [] {
      FirstErrorMeaning(streams[1..]);
      if FirstError(streams) == FirstError(streams[1..]) {
        match FirstError(streams)
        case None =>
        case Some(e) =>
          var s :| s in streams[1..] && s.entries == [] && s.end == e;
          assert s in streams;
      } else {
        assert streams[0] in streams;
      }
    }
  }

  predicate AllEnd(streams: seq<Stream>) {
    forall s :: s in streams ==> s.end == StatusNoMoreFiles
  }

  /** A single stream that ends in an error makes the merged stream end in an error. */
  lemma {:induction false} MergeEndsLikeItsStreams(streams: seq<Stream>)
    ensures Merge(streams).end == StatusNoMoreFiles <==> AllEnd(streams)
    decreases Total(streams)
  {
    FirstErrorMeaning(streams);
    LowestFrontMeaning(streams, |streams|);
    if FirstError(streams) == None && LowestFront(streams, |streams|).Some? {
      var i := LowestFront(streams, |streams|).value;
      TotalDecreases(streams, i);
      var after := streams[i := Tail(streams[i])];
      MergeEndsLikeItsStreams(after);
      assert forall j :: 0 <= j < |streams| ==> after[j].end == streams[j].end;
      assert AllEnd(after) <==> AllEnd(streams);
    }
  }

  predicate SameName(a: Entry, b: Entry) {
    Fold(a.name) == Fold(b.name)
  }

  /** Sorted without regard to case. */
  ghost predicate Sorted(entries: seq<Entry>) {
    forall k, l :: 0 <= k < l < |entries| ==> !Before(entries[l], entries[k])
  }

  ghost predicate AllSorted(streams: seq<Stream>) {
    forall s :: s in streams ==> Sorted(s.entries)
  }

  // ---------- The order of a merged stream ----------

  /** At most as high, and among equally high ones not from a later source. */
  predicate AtMost(a: wstring, i: nat, b: wstring, j: nat) {
    Less(a, b) || (a == b && i <= j)
  }

  function Higher(a: wstring, b: wstring): wstring {
    if Less(a, b) then b else a
  }

  /** The highest of the folded names up to a position. */
  function Peak(entries: seq<Entry>, l: nat): wstring
    requires l < |entries|
  {
    var front := Fold(entries[0].name);
    if l == 0 then front else Higher(front, Peak(entries[1..], l - 1))
  }

  /** The highest of all folded names. */
  function Top(entries: seq<Entry>): wstring
    requires entries != []
  {
    Peak(entries, |entries| - 1)
  }

  lemma LessOrder(a: wstring, b: wstring, c: wstring)
    ensures !Less(a, a) && !Less(b, b) && !Less(c, c)
    ensures (Less(a, b) || a == b || Less(b, a)) && (Less(b, c) || b == c || Less(c, b))
    ensures Less(a, c) || a == c || Less(c, a)
    ensures (Less(a, b) && Less(b, c) ==> Less(a, c)) && (Less(c, b) && Less(b, a) ==> Less(c, a))
    ensures (Less(b, a) && Less(a, c) ==> Less(b, c)) && (Less(c, a) && Less(a, b) ==> Less(c, b))
    ensures (Less(a, c) && Less(c, b) ==> Less(a, b)) && (Less(b, c) && Less(c, a) ==> Less(b, a))
    ensures !(Less(a, b) && Less(b, a)) && !(Less(b, c) && Less(c, b)) && !(Less(a, c) && Less(c, a))
  {
    LessIrreflexive(a);
    LessIrreflexive(b);
    LessIrreflexive(c);
    LessTotal(a, b);
    LessTotal(b, c);
    LessTotal(a, c);
    ChainsOf(a, b, c);
    ChainsOf(c, b, a);
    ChainsOf(b, a, c);
    ChainsOf(c, a, b);
    ChainsOf(a, c, b);
    ChainsOf(b, c, a);
    ChainsOf(a, b, a);
    ChainsOf(b, c, b);
    ChainsOf(a, c, a);
  }

  lemma ChainsOf(a: wstring, b: wstring, c: wstring)
    ensures Less(a, b) && Less(b, c) ==> Less(a, c)
  {
    if Less(a, b) && Less(b, c) {
      LessTransitive(a, b, c);
    }
  }

  lemma {:induction false} PeakBounds(entries: seq<Entry>, l: nat)
    requires l < |entries|
    ensures !Less(Peak(entries, l), Fold(entries[0].name)) && !Less(Peak(entries, l), Fold(entries[l].name))
    ensures !Less(Top(entries), Peak(entries, l))
    decreases |entries|
  {
    hide Less, Fold;
    var front := Fold(entries[0].name);
    LessOrder(front, front, front);
    if |entries| > 1 {
      var rest := entries[1..];
      LessOrder(front, Top(rest), Top(rest));
      if l > 0 {
        PeakBounds(rest, l - 1);
        LessOrder(front, Peak(rest, l - 1), Top(rest));
        LessOrder(front, Peak(rest, l - 1), Fold(entries[l].name));
      }
    }
  }

  /** The highest name is one of the names. */
  lemma {:induction false} TopIsThere(entries: seq<Entry>)
    requires entries != []
    ensures exists e :: e in entries && Fold(e.name) == Top(entries)
    ensures forall e :: e in entries ==> !Less(Top(entries), Fold(e.name))
    decreases |entries|
  {
    hide Less, Fold;
    assert entries[0] in entries;
    if |entries| > 1 {
      TopIsThere(entries[1..]);
      var e :| e in entries[1..] && Fold(e.name) == Top(entries[1..]);
      assert e in entries;
    }
    forall e | e in entries
      ensures !Less(Top(entries), Fold(e.name))
    {
      var l: nat :| l < |entries| && entries[l] == e;
      PeakBounds(entries, l);
      LessOrder(Top(entries), Peak(entries, l), Fold(e.name));
    }
  }

  /** Raising both sides to a common height does not change an order, provided that only one source is below it and
      the others come later where they are level with it. */
  lemma RaisedOrder(f: wstring, i: nat, p: wstring, x: nat, q: wstring, y: nat)
    requires (x != i ==> AtMost(f, i, p, x)) && (y != i ==> AtMost(f, i, q, y))
    ensures AtMost(p, x, q, y) ==> AtMost(Higher(f, p), x, Higher(f, q), y)
    ensures AtMost(Higher(f, p), x, Higher(f, q), y) && (x == i == y ==> !Less(q, p)) ==> AtMost(p, x, q, y)
  {
    hide Less;
    LessOrder(f, p, q);
  }

  /** The front that is delivered next is not above anything. */
  lemma FrontIsLowest(streams: seq<Stream>, i: nat, j: nat, p: wstring)
    requires LowestFront(streams, |streams|) == Some(i)
    requires j < |streams| && streams[j].entries != [] && !Less(p, Fold(streams[j].entries[0].name))
    ensures AtMost(Fold(streams[i].entries[0].name), i, p, j)
  {
    hide Less, LowestFront;
    LowestFrontMeaning(streams, |streams|);
    assert SortsFirst(streams, i, j);
    LessOrder(Fold(streams[i].entries[0].name), Fold(streams[j].entries[0].name), p);
  }

  /** How many of the entries before some position come from the same source. */
  function Earlier(sources: seq<nat>, k: nat): (r: nat)
    requires k < |sources|
    ensures r <= k
  {
    if k == 0 then 0 else Earlier(sources[1..], k - 1) + if sources[0] == sources[k] then 1 else 0
  }

  lemma EarlierCons(i: nat, sources: seq<nat>, k: nat)
    requires k < |sources|
    ensures ([i] + sources)[k + 1] == sources[k]
    ensures Earlier([i] + sources, k + 1) == Earlier(sources, k) + if i == sources[k] then 1 else 0
  {
    assert ([i] + sources)[1..] == sources;
  }

  lemma MergedStep(streams: seq<Stream>, k: nat)
    requires 0 < k < |Merge(streams).entries|
    ensures FirstError(streams) == None && LowestFront(streams, |streams|).Some?
    ensures
      var i := LowestFront(streams, |streams|).value;
      var m, rest := Merge(streams), Merge(streams[i := Tail(streams[i])]);
      && k - 1 < |rest.entries| && m.entries[k] == rest.entries[k - 1] && m.sources[k] == rest.sources[k - 1]
      && Earlier(m.sources, k) == Earlier(rest.sources, k - 1) + (if i == m.sources[k] then 1 else 0)
      && Total(streams[i := Tail(streams[i])]) < Total(streams)
  {
    hide LowestFront, FirstError, Total, Earlier;
    var i := LowestFront(streams, |streams|).value;
    TotalDecreases(streams, i);
    EarlierCons(i, Merge(streams[i := Tail(streams[i])]).sources, k - 1);
  }

  predicate IsNextOfSource(streams: seq<Stream>, k: nat)
    requires k < |Merge(streams).entries|
  {
    var i, l := Merge(streams).sources[k], Earlier(Merge(streams).sources, k);
    i < |streams| && l < |streams[i].entries| && Merge(streams).entries[k] == streams[i].entries[l]
  }

  lemma FirstOfSource(streams: seq<Stream>)
    requires Merge(streams).entries != []
    ensures IsNextOfSource(streams, 0)
  {
    hide LowestFront, FirstError, Total;
  }

  lemma LaterOfSource(streams: seq<Stream>, k: nat)
    requires 0 < k < |Merge(streams).entries| && LowestFront(streams, |streams|).Some?
    requires
      var after := var i := LowestFront(streams, |streams|).value; streams[i := Tail(streams[i])];
      k - 1 < |Merge(after).entries| && IsNextOfSource(after, k - 1)
    ensures IsNextOfSource(streams, k)
  {
    hide Merge, LowestFront, FirstError, Total, Earlier;
    MergedStep(streams, k);
    var i := LowestFront(streams, |streams|).value;
    var x := Merge(streams).sources[k];
    if x == i {
      assert Tail(streams[i]).entries == streams[i].entries[1..];
    }
  }

  /** Every merged entry is the next one of its source. */
  lemma {:induction false} MergeSources(streams: seq<Stream>, k: nat)
    requires k < |Merge(streams).entries|
    ensures
      var i := Merge(streams).sources[k];
      var l := Earlier(Merge(streams).sources, k);
      i < |streams| && l < |streams[i].entries| && Merge(streams).entries[k] == streams[i].entries[l]
    decreases Total(streams)
  {
    hide LowestFront, FirstError, Total, Merge, Earlier;
    if k == 0 {
      FirstOfSource(streams);
    } else {
      MergedStep(streams, k);
      var i := LowestFront(streams, |streams|).value;
      MergeSources(streams[i := Tail(streams[i])], k - 1);
      LaterOfSource(streams, k);
    }
    assert IsNextOfSource(streams, k);
  }

  /** The highest name that its source has delivered up to a merged entry. */
  function MergedPeak(streams: seq<Stream>, k: nat): wstring
    requires k < |Merge(streams).entries|
  {
    MergeSources(streams, k);
    Peak(streams[Merge(streams).sources[k]].entries, Earlier(Merge(streams).sources, k))
  }

  /** How the heights in a merged stream relate to those in what is left after its first entry. */
  lemma MergedPeakStep(streams: seq<Stream>, k: nat)
    requires 0 < k < |Merge(streams).entries|
    ensures FirstError(streams) == None && LowestFront(streams, |streams|).Some?
    ensures
      var i := LowestFront(streams, |streams|).value;
      var after := streams[i := Tail(streams[i])];
      var m, rest := Merge(streams), Merge(after);
      && m.sources[k] == rest.sources[k - 1] && k - 1 < |rest.entries|
      && MergedPeak(streams, k) == Higher(Fold(streams[i].entries[0].name), MergedPeak(after, k - 1))
      && (m.sources[k] != i ==> AtMost(Fold(streams[i].entries[0].name), i, MergedPeak(after, k - 1), m.sources[k]))
  {
    hide LowestFront, FirstError, Total, Less, Fold, Merge, Earlier;
    MergedStep(streams, k);
    var i := LowestFront(streams, |streams|).value;
    var after := streams[i := Tail(streams[i])];
    MergeSources(after, k - 1);
    var j, l := Merge(after).sources[k - 1], Earlier(Merge(after).sources, k - 1);
    if j != i {
      PeakBounds(streams[j].entries, l);
      FrontIsLowest(streams, i, j, Peak(streams[j].entries, l));
      var f, p := Fold(streams[i].entries[0].name), Peak(streams[j].entries, l);
      LessOrder(f, p, p);
    }
  }

  /** Whatever the order within the streams, the merged stream is in order of the highest name that the source of each
      entry has delivered so far, and of the sources among equally high ones. */
  lemma {:induction false} MergeIsOrdered(streams: seq<Stream>, k: nat, l: nat)
    requires k < l < |Merge(streams).entries|
    ensures AtMost(MergedPeak(streams, k), Merge(streams).sources[k], MergedPeak(streams, l), Merge(streams).sources[l])
    decreases Total(streams)
  {
    hide LowestFront, FirstError, Total, Less, MergedPeak, AtMost;
    MergedPeakStep(streams, l);
    var i := LowestFront(streams, |streams|).value;
    var after, f := streams[i := Tail(streams[i])], Fold(streams[i].entries[0].name);
    TotalDecreases(streams, i);
    if k > 0 {
      MergedPeakStep(streams, k);
      MergeIsOrdered(after, k - 1, l - 1);
      RaisedOrder(
        f, i, MergedPeak(after, k - 1), Merge(after).sources[k - 1], MergedPeak(after, l - 1),
        Merge(after).sources[l - 1]);
    } else {
      FirstIsLowest(streams, l);
    }
  }

  lemma FirstIsLowest(streams: seq<Stream>, l: nat)
    requires 0 < l < |Merge(streams).entries|
    ensures AtMost(MergedPeak(streams, 0), Merge(streams).sources[0], MergedPeak(streams, l), Merge(streams).sources[l])
  {
    hide LowestFront, FirstError, Total, Less;
    MergeSources(streams, l);
    var j := Merge(streams).sources[l];
    PeakBounds(streams[j].entries, Earlier(Merge(streams).sources, l));
    FrontIsLowest(streams, LowestFront(streams, |streams|).value, j, MergedPeak(streams, l));
  }

  /** In a sorted stream, no earlier name is higher. */
  lemma {:induction false} SortedPeak(entries: seq<Entry>, l: nat)
    requires Sorted(entries) && l < |entries|
    ensures Peak(entries, l) == Fold(entries[l].name)
    decreases |entries|
  {
    hide Less, Fold;
    if l > 0 {
      var rest := entries[1..];
      assert forall k :: 0 <= k < |rest| ==> rest[k] == entries[k + 1];
      SortedPeak(rest, l - 1);
      assert !Before(entries[l], entries[0]);
      LessOrder(Fold(entries[0].name), Fold(entries[l].name), Fold(entries[l].name));
    }
  }

  /** In order by name, and by position of the source among equal names. */
  predicate InOrder(a: Entry, i: nat, b: Entry, j: nat) {
    Before(a, b) || (SameName(a, b) && i <= j)
  }

  /** If every stream is sorted without regard to case, then so is the merged stream, and entries with
      the same name come in the order of the streams. */
  lemma MergeIsSortedAndStable(streams: seq<Stream>, k: nat, l: nat)
    requires AllSorted(streams)
    requires k < l < |Merge(streams).entries|
    ensures
      var m := Merge(streams);
      InOrder(m.entries[k], m.sources[k], m.entries[l], m.sources[l])
  {
    hide Merge, Sorted;
    MergeIsOrdered(streams, k, l);
    MergeSources(streams, k);
    MergeSources(streams, l);
    var m := Merge(streams);
    assert streams[m.sources[k]] in streams && streams[m.sources[l]] in streams;
    SortedPeak(streams[m.sources[k]].entries, Earlier(m.sources, k));
    SortedPeak(streams[m.sources[l]].entries, Earlier(m.sources, l));
  }

  // ---------- Removing duplicates ----------

  function Names(entries: seq<Entry>): set<wstring> {
    set e | e in entries :: Fold(e.name)
  }

  /** What remains when names already seen, ignoring case, are left out. */
  function Dedupe(entries: seq<Entry>, seen: set<wstring>): seq<Entry> {
    if entries == [] then []
    else if Fold(entries[0].name) in seen then Dedupe(entries[1..], seen)
    else [entries[0]] + Dedupe(entries[1..], seen + {Fold(entries[0].name)})
  }

  /** Position `k` holds the first occurrence of its name. */
  predicate IsFirst(entries: seq<Entry>, k: nat)
    requires k < |entries|
  {
    forall l :: 0 <= l < k ==> !SameName(entries[l], entries[k])
  }

  /** An entry survives exactly if it is the first with its name and that name was not seen before. */
  lemma {:induction false} DedupeMeaning(entries: seq<Entry>, seen: set<wstring>, e: Entry)
    ensures
      e in Dedupe(entries, seen) <==>
        Fold(e.name) !in seen && exists k :: 0 <= k < |entries| && entries[k] == e && IsFirst(entries, k)
  {
    if entries != [] {
      var head, tail := entries[0], entries[1..];
      var later := if Fold(head.name) in seen then seen else seen + {Fold(head.name)};
      DedupeMeaning(tail, later, e);
      if k :| 0 <= k < |entries| && entries[k] == e && IsFirst(entries, k) {
        if k > 0 {
          assert tail[k - 1] == e && IsFirst(tail, k - 1);
          assert !SameName(entries[0], entries[k]);
        }
      }
      if Fold(e.name) !in later && exists k :: 0 <= k < |tail| && tail[k] == e && IsFirst(tail, k) {
        var k :| 0 <= k < |tail| && tail[k] == e && IsFirst(tail, k);
        if !SameName(head, e) {
          assert entries[k + 1] == e && IsFirst(entries, k + 1);
        }
      }
      if e == head && Fold(e.name) !in seen {
        assert entries[0] == e && IsFirst(entries, 0);
      }
    }
  }

  /** No name is left twice, and none that was seen before. */
  lemma {:induction false} DedupeDistinct(entries: seq<Entry>, seen: set<wstring>, k: nat, l: nat)
    requires k < l < |Dedupe(entries, seen)|
    ensures !SameName(Dedupe(entries, seen)[k], Dedupe(entries, seen)[l])
  {
    var head, tail := entries[0], entries[1..];
    if Fold(head.name) in seen {
      DedupeDistinct(tail, seen, k, l);
    } else {
      var later := seen + {Fold(head.name)};
      if k > 0 {
        DedupeDistinct(tail, later, k - 1, l - 1);
      } else {
        DedupeMeaning(tail, later, Dedupe(tail, later)[l - 1]);
      }
    }
  }

  /** No name is lost. */
  lemma {:induction false} DedupeKeepsNames(entries: seq<Entry>, seen: set<wstring>)
    ensures Names(Dedupe(entries, seen)) == Names(entries) - seen
  {
    if entries != [] {
      var head, tail := entries[0], entries[1..];
      var later := if Fold(head.name) in seen then seen else seen + {Fold(head.name)};
      DedupeKeepsNames(tail, later);
      assert entries == [head] + tail;
      NamesConcat([head], tail);
      NamesConcat([head], Dedupe(tail, later));
    }
  }

  lemma NamesConcat(a: seq<Entry>, b: seq<Entry>)
    ensures Names(a + b) == Names(a) + Names(b)
  {
    assert forall e :: e in a + b <==> e in a || e in b;
  }

  /** Removing duplicates can be stopped anywhere and resumed with the names seen so far. */
  lemma {:induction false} DedupeConcat(a: seq<Entry>, b: seq<Entry>, seen: set<wstring>)
    ensures Dedupe(a + b, seen) == Dedupe(a, seen) + Dedupe(b, seen + Names(a))
  {
    if a == [] {
      assert a + b == b && seen + Names(a) == seen;
    } else {
      var head, tail := a[0], a[1..];
      var later := if Fold(head.name) in seen then seen else seen + {Fold(head.name)};
      assert (a + b)[1..] == tail + b;
      assert seen + Names(a) == later + Names(tail) by { NamesConcat([head], tail); assert a == [head] + tail; }
      DedupeConcat(tail, b, later);
    }
  }

  // ---------- What gets through before an error ----------

  /** Something of some height from a source comes no later than the highest entry of a stream that ends in an
      error. */
  predicate NotBehind(r: wstring, from: nat, s: Stream, i: nat) {
    s.end == StatusNoMoreFiles || (s.entries != [] && AtMost(r, from, Top(s.entries), i))
  }

  ghost predicate ComesInTime(streams: seq<Stream>, r: wstring, j: nat) {
    forall i: nat :: i < |streams| ==> NotBehind(r, j, streams[i], i)
  }

  lemma NothingInTime(streams: seq<Stream>, r: wstring, j: nat)
    requires FirstError(streams).Some?
    ensures !ComesInTime(streams, r, j)
  {
    hide FirstError;
    FirstErrorMeaning(streams);
    var s :| s in streams && s.entries == [] && s.end == FirstError(streams).value;
    var i: nat :| i < |streams| && streams[i] == s;
    assert !NotBehind(r, j, streams[i], i);
  }

  lemma FrontInTime(streams: seq<Stream>)
    requires FirstError(streams) == None && LowestFront(streams, |streams|).Some?
    ensures
      var i := LowestFront(streams, |streams|).value;
      ComesInTime(streams, Fold(streams[i].entries[0].name), i)
  {
    hide FirstError, LowestFront, AtMost, Fold;
    FirstErrorMeaning(streams);
    var i := LowestFront(streams, |streams|).value;
    forall x: nat | x < |streams|
      ensures NotBehind(Fold(streams[i].entries[0].name), i, streams[x], x)
    {
      assert streams[x] in streams;
      if streams[x].entries != [] {
        PeakBounds(streams[x].entries, |streams[x].entries| - 1);
        FrontIsLowest(streams, i, x, Top(streams[x].entries));
      }
    }
  }

  /** Delivering the next front does not change what comes in time. */
  lemma InTimeStep(streams: seq<Stream>, p: wstring, j: nat)
    requires LowestFront(streams, |streams|).Some? && j < |streams|
    requires
      var i := LowestFront(streams, |streams|).value;
      var left := streams[i := Tail(streams[i])][j].entries;
      left != [] && !Less(Top(left), p) && (j != i ==> !Less(p, Fold(left[0].name)))
    ensures
      var i := LowestFront(streams, |streams|).value;
      ComesInTime(streams[i := Tail(streams[i])], p, j) <==>
      ComesInTime(streams, Higher(Fold(streams[i].entries[0].name), p), j)
  {
    hide LowestFront, AtMost, Less, Fold, Higher, Peak;
    var i := LowestFront(streams, |streams|).value;
    var after, f := streams[i := Tail(streams[i])], Fold(streams[i].entries[0].name);
    if j != i {
      FrontIsLowest(streams, i, j, p);
    }
    forall x: nat | x < |streams|
      ensures NotBehind(p, j, after[x], x) <==> NotBehind(Higher(f, p), j, streams[x], x)
    {
      if x == i {
        OwnStep(streams[i], i, p, j);
      } else if streams[x].entries != [] {
        PeakBounds(streams[x].entries, |streams[x].entries| - 1);
        FrontIsLowest(streams, i, x, Top(streams[x].entries));
        OtherStep(f, i, p, j, Top(streams[x].entries), x);
      }
    }
  }

  lemma OwnStep(s: Stream, i: nat, p: wstring, j: nat)
    requires s.entries != []
    requires
      if j == i then Tail(s).entries != [] && !Less(Top(Tail(s).entries), p)
      else AtMost(Fold(s.entries[0].name), i, p, j)
    ensures NotBehind(p, j, Tail(s), i) <==> NotBehind(Higher(Fold(s.entries[0].name), p), j, s, i)
  {
    hide Less, Fold;
    var f := Fold(s.entries[0].name);
    if |s.entries| > 1 {
      RaisedOrder(f, i, p, j, Top(Tail(s).entries), i);
    } else {
      LessOrder(f, p, p);
    }
  }

  lemma OtherStep(f: wstring, i: nat, p: wstring, j: nat, q: wstring, x: nat)
    requires x != i && AtMost(f, i, q, x) && (j != i ==> AtMost(f, i, p, j))
    ensures AtMost(p, j, q, x) <==> AtMost(Higher(f, p), j, q, x)
  {
    hide Less;
    LessOrder(f, q, q);
    RaisedOrder(f, i, p, j, q, x);
  }

  /** Exactly those entries get through that come in time: a stream that ends in an error cuts off whatever is behind
      its highest entry. What counts for an entry is the highest name up to it in its own stream, which in a sorted
      stream is its own. */
  lemma {:induction false} MergeDelivers(streams: seq<Stream>, j: nat, l: nat)
    requires j < |streams| && l < |streams[j].entries|
    ensures
      l < |Share(Merge(streams).entries, Merge(streams).sources, j)| <==>
      ComesInTime(streams, Peak(streams[j].entries, l), j)
    decreases Total(streams)
  {
    hide Total, ComesInTime, FirstError, LowestFront, Less, Fold, AtMost;
    if FirstError(streams).Some? {
      NothingInTime(streams, Peak(streams[j].entries, l), j);
    } else {
      LowestFrontMeaning(streams, |streams|);
      var i := LowestFront(streams, |streams|).value;
      var after := streams[i := Tail(streams[i])];
      TotalDecreases(streams, i);
      ShareCons(streams[i].entries[0], i, Merge(after).entries, Merge(after).sources, j);
      if i == j && l == 0 {
        FrontInTime(streams);
      } else {
        var left := if i == j then l - 1 else l;
        MergeDelivers(after, j, left);
        PeakBounds(after[j].entries, left);
        InTimeStep(streams, Peak(after[j].entries, left), j);
        NotBelowFront(streams, j, Peak(after[j].entries, left));
      }
    }
  }

  lemma NotBelowFront(streams: seq<Stream>, j: nat, p: wstring)
    requires LowestFront(streams, |streams|).Some? && j < |streams| && streams[j].entries != []
    ensures
      var f := Fold(streams[LowestFront(streams, |streams|).value].entries[0].name);
      !Less(p, Fold(streams[j].entries[0].name)) ==> Higher(f, p) == p
  {
    hide LowestFront, Less, Fold;
    if !Less(p, Fold(streams[j].entries[0].name)) {
      var i := LowestFront(streams, |streams|).value;
      FrontIsLowest(streams, i, j, p);
      LessOrder(Fold(streams[i].entries[0].name), p, p);
    }
  }

  // ---------- Names in a merged stream ----------

  /** The highest of the folded names up to the first occurrence of one. */
  function Reach(entries: seq<Entry>, c: wstring): wstring
    requires c in Names(entries)
  {
    var front := Fold(entries[0].name);
    if front == c then c
    else
      NamesTail(entries, c);
      Higher(front, Reach(entries[1..], c))
  }

  lemma NamesTail(entries: seq<Entry>, c: wstring)
    requires entries != []
    ensures c in Names(entries) <==> Fold(entries[0].name) == c || c in Names(entries[1..])
  {
    assert entries == [entries[0]] + entries[1..];
    NamesConcat([entries[0]], entries[1..]);
  }

  lemma {:induction false} ReachBounds(entries: seq<Entry>, c: wstring)
    requires c in Names(entries)
    ensures entries != []
    ensures !Less(Reach(entries, c), Fold(entries[0].name)) && !Less(Reach(entries, c), c)
    ensures !Less(Top(entries), Reach(entries, c))
    decreases |entries|
  {
    hide Less, Fold;
    var front := Fold(entries[0].name);
    PeakBounds(entries, 0);
    LessOrder(front, front, front);
    if front != c {
      NamesTail(entries, c);
      ReachBounds(entries[1..], c);
      LessOrder(front, Reach(entries[1..], c), Top(entries[1..]));
      LessOrder(front, Reach(entries[1..], c), c);
    }
  }

  /** In a sorted stream, nothing higher comes before a name. */
  lemma {:induction false} SortedReach(entries: seq<Entry>, c: wstring)
    requires Sorted(entries) && c in Names(entries)
    ensures Reach(entries, c) == c
    decreases |entries|
  {
    hide Less, Fold;
    var front := Fold(entries[0].name);
    if front != c {
      var rest := entries[1..];
      NamesTail(entries, c);
      assert forall k :: 0 <= k < |rest| ==> rest[k] == entries[k + 1];
      SortedReach(rest, c);
      var e :| e in rest && Fold(e.name) == c;
      assert !Before(e, entries[0]);
      LessOrder(front, c, c);
    }
  }

  /** A stream has a name and comes to it in time. */
  ghost predicate GetsThrough(streams: seq<Stream>, c: wstring, j: nat) {
    && j < |streams| && c in Names(streams[j].entries)
    && ComesInTime(streams, Reach(streams[j].entries, c), j)
  }

  /** A name is in the merged stream if and only if some stream has it and comes to it in time. */
  lemma {:induction false} MergedNames(streams: seq<Stream>, c: wstring)
    ensures c in Names(Merge(streams).entries) <==> exists j :: GetsThrough(streams, c, j)
    decreases Total(streams)
  {
    hide Total, FirstError, LowestFront, Less, Fold, AtMost, GetsThrough, Names;
    LowestFrontMeaning(streams, |streams|);
    if FirstError(streams).Some? || LowestFront(streams, |streams|) == None {
      NothingGetsThrough(streams, c);
    } else {
      var i := LowestFront(streams, |streams|).value;
      var after := streams[i := Tail(streams[i])];
      TotalDecreases(streams, i);
      NamesTail(Merge(streams).entries, c);
      assert Merge(streams).entries[1..] == Merge(after).entries;
      if Fold(streams[i].entries[0].name) == c {
        FrontGetsThrough(streams);
      } else {
        MergedNames(after, c);
        forall j: nat
          ensures GetsThrough(after, c, j) <==> GetsThrough(streams, c, j)
        {
          GetsThroughStep(streams, c, j);
        }
      }
    }
  }

  lemma NothingGetsThrough(streams: seq<Stream>, c: wstring)
    requires FirstError(streams).Some? || LowestFront(streams, |streams|) == None
    ensures c !in Names(Merge(streams).entries) && forall j: nat :: !GetsThrough(streams, c, j)
  {
    hide FirstError, LowestFront, ComesInTime, Reach;
    LowestFrontMeaning(streams, |streams|);
    forall j: nat
      ensures !GetsThrough(streams, c, j)
    {
      if FirstError(streams).Some? && j < |streams| && c in Names(streams[j].entries) {
        NothingInTime(streams, Reach(streams[j].entries, c), j);
      }
    }
  }

  lemma FrontGetsThrough(streams: seq<Stream>)
    requires FirstError(streams) == None && LowestFront(streams, |streams|).Some?
    ensures
      var i := LowestFront(streams, |streams|).value;
      GetsThrough(streams, Fold(streams[i].entries[0].name), i)
  {
    hide FirstError, LowestFront, ComesInTime;
    FrontInTime(streams);
    var entries := streams[LowestFront(streams, |streams|).value].entries;
    NamesTail(entries, Fold(entries[0].name));
  }

  lemma GetsThroughStep(streams: seq<Stream>, c: wstring, j: nat)
    requires LowestFront(streams, |streams|).Some?
    requires Fold(streams[LowestFront(streams, |streams|).value].entries[0].name) != c
    ensures
      var i := LowestFront(streams, |streams|).value;
      GetsThrough(streams[i := Tail(streams[i])], c, j) <==> GetsThrough(streams, c, j)
  {
    hide LowestFront, ComesInTime, Less, Fold, AtMost, Names, Top;
    var i := LowestFront(streams, |streams|).value;
    var after := streams[i := Tail(streams[i])];
    if j == i {
      NamesTail(streams[i].entries, c);
    }
    if j < |streams| && c in Names(after[j].entries) {
      ReachBounds(after[j].entries, c);
      InTimeStep(streams, Reach(after[j].entries, c), j);
      if j != i {
        NotBelowFront(streams, j, Reach(after[j].entries, c));
      }
    }
  }

  /** The merged stream ends as one of the streams does. */
  lemma {:induction false} MergeEndsAsOne(streams: seq<Stream>)
    ensures Merge(streams).end == StatusNoMoreFiles || exists s :: s in streams && s.end == Merge(streams).end
    decreases Total(streams)
  {
    FirstErrorMeaning(streams);
    LowestFrontMeaning(streams, |streams|);
    if FirstError(streams) == None && LowestFront(streams, |streams|).Some? {
      var i := LowestFront(streams, |streams|).value;
      TotalDecreases(streams, i);
      var after := streams[i := Tail(streams[i])];
      MergeEndsAsOne(after);
      if s :| s in after && s.end == Merge(after).end {
        var j :| 0 <= j < |after| && after[j] == s;
        assert streams[j] in streams && streams[j].end == s.end;
      }
    }
  }

  /** Of all streams that have a name, the first merged entry of that name comes from the one that comes to it lowest,
      and from the earliest of those that come to it equally low, also if the merged stream ends in an error. */
  lemma {:induction false} FirstComesFrom(streams: seq<Stream>, k: nat, j: nat)
    requires k < |Merge(streams).entries| && IsFirst(Merge(streams).entries, k)
    requires j < |streams| && Fold(Merge(streams).entries[k].name) in Names(streams[j].entries)
    ensures
      var i, c := Merge(streams).sources[k], Fold(Merge(streams).entries[k].name);
      && i < |streams| && c in Names(streams[i].entries)
      && AtMost(Reach(streams[i].entries, c), i, Reach(streams[j].entries, c), j)
    decreases Total(streams)
  {
    hide Total, FirstError, LowestFront, Less, Fold, AtMost, Names, IsFirst;
    var i := LowestFront(streams, |streams|).value;
    var c := Fold(Merge(streams).entries[k].name);
    var after, f := streams[i := Tail(streams[i])], Fold(streams[i].entries[0].name);
    TotalDecreases(streams, i);
    if k == 0 {
      assert Merge(streams).entries[0] == streams[i].entries[0];
      NamesTail(streams[i].entries, c);
      ReachBounds(streams[j].entries, c);
      FrontIsLowest(streams, i, j, Reach(streams[j].entries, c));
    } else {
      FirstInRest(Merge(streams).entries, k);
      assert Merge(streams).entries[1..] == Merge(after).entries;
      NamesTail(streams[i].entries, c);
      FirstComesFrom(after, k - 1, j);
      var x := Merge(after).sources[k - 1];
      ReachStep(streams, c, j);
      ReachStep(streams, c, x);
      RaisedOrder(f, i, Reach(after[x].entries, c), x, Reach(after[j].entries, c), j);
    }
  }

  lemma FirstInRest(entries: seq<Entry>, k: nat)
    requires 0 < k < |entries| && IsFirst(entries, k)
    ensures IsFirst(entries[1..], k - 1) && entries[1..][k - 1] == entries[k]
    ensures Fold(entries[0].name) != Fold(entries[k].name)
  {
    hide Fold;
    assert !SameName(entries[0], entries[k]);
    forall l | 0 <= l < k - 1
      ensures !SameName(entries[1..][l], entries[1..][k - 1])
    {
      assert !SameName(entries[l + 1], entries[k]);
    }
  }

  /** How far it is to a name that is not the next front, before and after that is delivered. */
  lemma ReachStep(streams: seq<Stream>, c: wstring, j: nat)
    requires LowestFront(streams, |streams|).Some? && j < |streams|
    requires Fold(streams[LowestFront(streams, |streams|).value].entries[0].name) != c
    requires
      var i := LowestFront(streams, |streams|).value;
      c in Names(streams[i := Tail(streams[i])][j].entries)
    ensures
      var i := LowestFront(streams, |streams|).value;
      var f, left := Fold(streams[i].entries[0].name), streams[i := Tail(streams[i])][j].entries;
      && c in Names(streams[j].entries) && Reach(streams[j].entries, c) == Higher(f, Reach(left, c))
      && (j != i ==> AtMost(f, i, Reach(left, c), j))
  {
    hide LowestFront, Less, Fold, Names;
    var i := LowestFront(streams, |streams|).value;
    if j == i {
      NamesTail(streams[i].entries, c);
      ReachBounds(streams[i].entries[1..], c);
    } else {
      ReachBounds(streams[j].entries, c);
      FrontIsLowest(streams, i, j, Reach(streams[j].entries, c));
      NotBelowFront(streams, j, Reach(streams[j].entries, c));
    }
  }

  /** What is left of a name once duplicates are removed comes from the earliest stream that has the name if and only
      if no later stream comes to it lower. */
  lemma EarliestStreamWins(streams: seq<Stream>, k: nat, e: nat)
    requires k < |Merge(streams).entries| && IsFirst(Merge(streams).entries, k)
    requires e < |streams| && Fold(Merge(streams).entries[k].name) in Names(streams[e].entries)
    requires forall j :: 0 <= j < e ==> Fold(Merge(streams).entries[k].name) !in Names(streams[j].entries)
    ensures
      var c := Fold(Merge(streams).entries[k].name);
      Merge(streams).sources[k] == e <==>
      forall j :: e < j < |streams| && c in Names(streams[j].entries) ==>
        !Less(Reach(streams[j].entries, c), Reach(streams[e].entries, c))
  {
    hide Merge, Less, Names, Fold, IsFirst, Reach;
    var c, i := Fold(Merge(streams).entries[k].name), Merge(streams).sources[k];
    FirstComesFrom(streams, k, e);
    forall j | e < j < |streams| && c in Names(streams[j].entries)
      ensures i == e ==> !Less(Reach(streams[j].entries, c), Reach(streams[e].entries, c))
    {
      FirstComesFrom(streams, k, j);
      LessOrder(Reach(streams[e].entries, c), Reach(streams[j].entries, c), Reach(streams[j].entries, c));
    }
    LessOrder(Reach(streams[i].entries, c), Reach(streams[e].entries, c), Reach(streams[e].entries, c));
  }

  /** So it does if every stream is sorted. */
  lemma EarliestSortedStreamWins(streams: seq<Stream>, k: nat, j: nat)
    requires AllSorted(streams)
    requires k < |Merge(streams).entries| && IsFirst(Merge(streams).entries, k)
    requires j < Merge(streams).sources[k]
    ensures j < |streams| && Fold(Merge(streams).entries[k].name) !in Names(streams[j].entries)
  {
    hide Merge, Less, Names, Fold, IsFirst, Reach, Sorted;
    MergeSources(streams, k);
    var c, i := Fold(Merge(streams).entries[k].name), Merge(streams).sources[k];
    if c in Names(streams[j].entries) {
      FirstComesFrom(streams, k, j);
      assert streams[i] in streams && streams[j] in streams;
      SortedReach(streams[i].entries, c);
      SortedReach(streams[j].entries, c);
      LessOrder(c, c, c);
      assert false;
    }
  }
}
