/** Threads that open, use, rename, enumerate and close handles while the system is free to reuse a handle as soon as
    it is closed. What the store says about a handle is about the handle's current opening, unless the program
    records something after an application has closed the handle under a call that was still at work with it. */
module HandleProtocol {
  import opened Wrappers
  import opened Text
  import opened OpenHandleStores

  type Thread = nat

  /** How far a thread has got in the call it is making. `opening` tells apart successive openings of
      handles with the same value; no code sees it. */
  datatype Activity =
    | Idle
    /** The system has opened a handle that is not stored or returned yet; no paths if it will not be stored. */
    | Opened(handle: Handle, paths: Option<(wstring, wstring)>)
    /** A call that works with a handle other than closing it. */
    | Using(handle: Handle)
    /** The system has renamed the file behind a handle and the store is still to be told; no paths if no rule is
        about the new place. */
    | Renamed(handle: Handle, opening: nat, paths: Option<(wstring, wstring)>)
    /** A queue was made from what the store said about a handle, and is still to be put into the store. */
    | Queued(handle: Handle, opening: nat)
    /** About to close a handle that was not found in the store. */
    | ClosingUnstored(handle: Handle)
    /** About to close and remove a handle that was found in the store. */
    | ClosingStored(handle: Handle)

  /** `system` maps every open handle to its opening. `facts` records which opening the paths in each entry of the
      store are about. A directory enumeration is represented by the opening it was made for. `owned` are the
      handles in the application's hands. */
  datatype State = State(
    system: map<Handle, nat>,
    nextOpening: nat,
    store: HandleTable<nat>,
    facts: map<Handle, nat>,
    owned: set<Handle>,
    threads: map<Thread, Activity>)
  {
    function At(t: Thread): Activity {
      if t in threads then threads[t] else Idle
    }

    function Becomes(t: Thread, a: Activity): State {
      this.(threads := threads[t := a])
    }
  }

  datatype Action =
    | SystemOpens(h: Handle, paths: Option<(wstring, wstring)>)
    | StoreAndReturn
    | BeginUse(h: Handle)
    | SystemRenames(renamed: Option<(wstring, wstring)>)
    | RecordRename
    | MakeQueue
    | Associate
    | EndUse
    | BeginClose(h: Handle)
    | Close(succeeds: bool)
    | RemoveAndClose(succeeds: bool)

  const INITIALLY: State := State(map[], 0, map[], map[], {}, map[])

  /** What a thread can do next. The system opens any handle that is not open, and renames the file behind one that
      is. Applications work with and close handles that are in their hands, at any time, and close a handle once. */
  predicate Enabled(s: State, t: Thread, a: Action) {
    match a
    case SystemOpens(h, _) => s.At(t) == Idle && h !in s.system
    case StoreAndReturn => s.At(t).Opened?
    case BeginUse(h) => s.At(t) == Idle && h in s.owned
    case SystemRenames(_) => s.At(t).Using? && s.At(t).handle in s.system
    case RecordRename => s.At(t).Renamed?
    case MakeQueue =>
      && s.At(t).Using? && s.At(t).handle in s.store && s.At(t).handle in s.facts
      && s.store[s.At(t).handle].directoryEnumeration == None
    case Associate => s.At(t).Queued?
    case EndUse => s.At(t).Using?
    case BeginClose(h) => s.At(t) == Idle && h in s.owned
    case Close(_) => s.At(t).ClosingUnstored?
    case RemoveAndClose(_) => s.At(t).ClosingStored?
  }

  function Apply(s: State, t: Thread, a: Action): State
    requires Enabled(s, t, a)
  {
    match a
    case SystemOpens(h, paths) =>
      s.(system := s.system[h := s.nextOpening], nextOpening := s.nextOpening + 1).Becomes(t, Opened(h, paths))
    case StoreAndReturn =>
      var h := s.At(t).handle;
      var returned := s.(owned := s.owned + {h}).Becomes(t, Idle);
      (match s.At(t).paths
       case None => returned
       case Some((associated, actual)) =>
         returned.(store := Inserted(s.store, h, associated, actual),
                   facts := if h in s.store || h !in s.system then s.facts else s.facts[h := s.system[h]]))
    case BeginUse(h) => s.Becomes(t, Using(h))
    case SystemRenames(paths) =>
      var h := s.At(t).handle;
      s.Becomes(t, Renamed(h, s.system[h], paths))
    case RecordRename => Recorded(s, s.At(t)).Becomes(t, Using(s.At(t).handle))
    case MakeQueue =>
      var h := s.At(t).handle;
      s.Becomes(t, Queued(h, s.facts[h]))
    case Associate =>
      var h := s.At(t).handle;
      s.(store := Associated(s.store, h, s.At(t).opening)).Becomes(t, Using(h))
    case EndUse => s.Becomes(t, Idle)
    case BeginClose(h) =>
      s.(owned := s.owned - {h}).Becomes(t, if h in s.store then ClosingStored(h) else ClosingUnstored(h))
    case Close(succeeds) =>
      var h := s.At(t).handle;
      (if succeeds then s.(system := s.system - {h}) else s.(owned := s.owned + {h})).Becomes(t, Idle)
    case RemoveAndClose(succeeds) =>
      var h := s.At(t).handle;
      (if succeeds then s.(system := s.system - {h}, store := s.store - {h}, facts := s.facts - {h})
       else s.(owned := s.owned + {h})).Becomes(t, Idle)
  }

  /** A rename is put on record: with new paths, or by taking the handle off the record. */
  function Recorded(s: State, a: Activity): State
    requires a.Renamed?
  {
    match a.paths
    case None => s.(store := s.store - {a.handle}, facts := s.facts - {a.handle})
    case Some((associated, actual)) =>
      s.(store := InsertedOrUpdated(s.store, a.handle, associated, actual), facts := s.facts[a.handle := a.opening])
  }

  // ---------- What is kept ----------

  predicate Claims(a: Activity, h: Handle) {
    (a.Opened? || a.ClosingStored? || a.ClosingUnstored?) && a.handle == h
  }

  /** Some thread is about to return or to close the handle. */
  predicate Claimed(s: State, h: Handle) {
    exists t :: t in s.threads && Claims(s.threads[t], h)
  }

  predicate ActivityValid(s: State, a: Activity) {
    match a
    case Opened(h, _) => h in s.system && h !in s.store && h !in s.owned
    case ClosingUnstored(h) => h in s.system && h !in s.store && h !in s.owned
    case ClosingStored(h) => h in s.system && h in s.store && h !in s.owned
    case _ => true
  }

  ghost predicate TablesAgree(s: State) {
    && s.owned <= s.system.Keys
    && s.store.Keys <= s.system.Keys
    && s.facts.Keys == s.store.Keys
    && (forall h :: h in s.facts ==> s.facts[h] == s.system[h])
    && (forall h :: h in s.store ==> s.store[h].directoryEnumeration in {None, Some(s.system[h])})
    && forall h :: h in s.system ==> s.system[h] < s.nextOpening
  }

  ghost predicate ActivitiesValid(s: State) {
    forall t :: t in s.threads ==> ActivityValid(s, s.threads[t])
  }

  ghost predicate ClaimsApart(s: State) {
    forall t, u, h :: t in s.threads && u in s.threads && Claims(s.threads[t], h) && Claims(s.threads[u], h) ==> t == u
  }

  /** What every step keeps that does not come too late. */
  ghost predicate Invariant(s: State) {
    TablesAgree(s) && ActivitiesValid(s) && ClaimsApart(s)
  }

  /** A thread records something about a handle that is no longer what it was: it has been closed, or opened anew
      since; or the store says nothing about it and another thread relies on that; or another thread relies on its
      entry. */
  predicate IsTooLate(s: State, t: Thread, a: Action) {
    match s.At(t)
    case Renamed(h, opening, Some(_)) =>
      a == RecordRename && (h !in s.system || s.system[h] != opening || (h !in s.store && Claimed(s, h)))
    case Renamed(h, _, None) => a == RecordRename && h in s.store && Claimed(s, h)
    case Queued(h, opening) => a == Associate && h in s.store && (h !in s.system || s.system[h] != opening)
    case _ => false
  }

  /** Exactly the steps that come too late break the invariant. */
  lemma StepKeepsInvariant(s: State, t: Thread, a: Action)
    requires Invariant(s) && Enabled(s, t, a)
    ensures Invariant(Apply(s, t, a)) <==> !IsTooLate(s, t, a)
  {
    assert ActivityValid(s, s.At(t));
    if IsTooLate(s, t, a) {
      LateStepBreaks(s, t, a);
    } else {
      StepKeepsTables(s, t, a);
      StepKeepsActivities(s, t, a);
      StepKeepsClaims(s, t, a);
    }
  }

  lemma LateStepBreaks(s: State, t: Thread, a: Action)
    requires Invariant(s) && Enabled(s, t, a) && IsTooLate(s, t, a)
    ensures !Invariant(Apply(s, t, a))
  {
    var after, h := Apply(s, t, a), s.At(t).handle;
    if a == RecordRename && Claimed(s, h) {
      var u :| u in s.threads && Claims(s.threads[u], h);
      assert ActivityValid(s, s.threads[u]);
      assert u in after.threads && after.threads[u] == s.threads[u];
      assert !ActivityValid(after, after.threads[u]) || !TablesAgree(after);
    } else {
      assert h in after.store;
    }
  }

  lemma StepKeepsTables(s: State, t: Thread, a: Action)
    requires Invariant(s) && Enabled(s, t, a) && !IsTooLate(s, t, a)
    ensures TablesAgree(Apply(s, t, a))
  {
    if a == RecordRename {
      RecordingKeepsTables(s, t);
    } else if a == Associate {
      AssociatingKeepsTables(s, t);
    } else {
      assert ActivityValid(s, s.At(t));
    }
  }

  lemma RecordingKeepsTables(s: State, t: Thread)
    requires TablesAgree(s) && s.At(t).Renamed? && !IsTooLate(s, t, RecordRename)
    ensures TablesAgree(Recorded(s, s.At(t)))
  {
  }

  lemma AssociatingKeepsTables(s: State, t: Thread)
    requires TablesAgree(s) && s.At(t).Queued? && !IsTooLate(s, t, Associate)
    ensures TablesAgree(Apply(s, t, Associate))
  {
  }

  lemma StepKeepsActivities(s: State, t: Thread, a: Action)
    requires Invariant(s) && Enabled(s, t, a) && !IsTooLate(s, t, a)
    ensures ActivitiesValid(Apply(s, t, a))
  {
    var after := Apply(s, t, a);
    forall u | u in after.threads
      ensures ActivityValid(after, after.threads[u])
    {
      if u != t {
        OtherStaysValid(s, t, a, u);
      } else if t in s.threads {
        assert ActivityValid(s, s.threads[t]);
      }
    }
  }

  lemma OtherStaysValid(s: State, t: Thread, a: Action, u: Thread)
    requires Invariant(s) && Enabled(s, t, a) && !IsTooLate(s, t, a) && u in s.threads && u != t
    ensures ActivityValid(Apply(s, t, a), s.threads[u])
  {
    var other := s.threads[u];
    assert ActivityValid(s, other) && ActivityValid(s, s.At(t));
    if !s.At(t).Idle? && Claims(other, s.At(t).handle) {
      assert Claimed(s, s.At(t).handle);
      assert t in s.threads && !Claims(s.At(t), s.At(t).handle);
    }
  }

  lemma StepKeepsClaims(s: State, t: Thread, a: Action)
    requires Invariant(s) && Enabled(s, t, a)
    ensures ClaimsApart(Apply(s, t, a))
  {
    hide Invariant, Apply, Enabled;
    OthersStay(s, t, a);
    InvariantHasClaimsApart(s);
    forall u | u in s.threads && u != t
      ensures forall h :: Claims(Apply(s, t, a).At(t), h) ==> !Claims(s.threads[u], h)
    {
      NewClaimIsFree(s, t, a, u);
    }
  }

  lemma OthersStay(s: State, t: Thread, a: Action)
    requires Enabled(s, t, a)
    ensures Apply(s, t, a).threads.Keys == s.threads.Keys + {t}
    ensures forall u :: u in s.threads && u != t ==> Apply(s, t, a).threads[u] == s.threads[u]
  {
  }

  lemma InvariantHasClaimsApart(s: State)
    requires Invariant(s)
    ensures ClaimsApart(s)
  {
  }

  lemma NewClaimIsFree(s: State, t: Thread, a: Action, u: Thread)
    requires Invariant(s) && Enabled(s, t, a) && u in s.threads && u != t
    ensures forall h :: Claims(Apply(s, t, a).At(t), h) ==> !Claims(s.threads[u], h)
  {
    assert ActivityValid(s, s.threads[u]);
  }

  // ---------- Runs ----------

  predicate IsStep(s: State, step: (Thread, Action), after: State) {
    Enabled(s, step.0, step.1) && after == Apply(s, step.0, step.1)
  }

  /** A run: which thread does what, step by step. */
  ghost predicate IsRun(states: seq<State>, steps: seq<(Thread, Action)>) {
    && |states| == |steps| + 1 && states[0] == INITIALLY
    && forall i :: 0 <= i < |steps| ==> IsStep(states[i], steps[i], states[i + 1])
  }

  /** None of the first steps of a run comes too late. */
  ghost predicate InTime(states: seq<State>, steps: seq<(Thread, Action)>, upTo: nat)
    requires upTo <= |steps| <= |states|
  {
    forall i :: 0 <= i < upTo ==> !IsTooLate(states[i], steps[i].0, steps[i].1)
  }

  /** The invariant holds in every state up to some point of a run if and only if no step before that point comes too
      late. */
  lemma {:induction false} RunKeepsInvariant(states: seq<State>, steps: seq<(Thread, Action)>, upTo: nat)
    requires IsRun(states, steps) && upTo <= |steps|
    ensures (forall i :: 0 <= i <= upTo ==> Invariant(states[i])) <==> InTime(states, steps, upTo)
  {
    hide Invariant, IsTooLate, Apply, Enabled;
    if upTo == 0 {
      InvariantInitially();
    } else {
      var before := upTo - 1;
      RunKeepsInvariant(states, steps, before);
      assert IsStep(states[before], steps[before], states[before + 1]);
      if InTime(states, steps, before) {
        assert Invariant(states[before]);
        StepKeepsInvariant(states[before], steps[before].0, steps[before].1);
        assert InTime(states, steps, upTo) <==> Invariant(states[upTo]);
      } else {
        assert !InTime(states, steps, upTo);
      }
    }
  }

  lemma InvariantInitially()
    ensures Invariant(INITIALLY)
  {
  }

  /** As long as no step came too late: each stored handle is open, the paths in its entry are about the current
      opening of the handle, and so is its directory enumeration if it has one, so that whoever asks for the data
      of a handle gets data about the handle as it is now. */
  lemma StoredHandlesAreCurrent(states: seq<State>, steps: seq<(Thread, Action)>, i: nat, h: Handle)
    requires IsRun(states, steps) && i <= |steps| && InTime(states, steps, i) && h in states[i].store
    ensures h in states[i].system && h in states[i].facts && states[i].facts[h] == states[i].system[h]
    ensures states[i].store[h].directoryEnumeration in {None, Some(states[i].system[h])}
  {
    RunKeepsInvariant(states, steps, i);
    assert Invariant(states[i]);
  }

  /** As long as no step came too late, a handle that is inserted never meets an entry that is already there, and a
      handle that is closed and removed is in the store. */
  lemma StoreCallsAreSafe(states: seq<State>, steps: seq<(Thread, Action)>, i: nat)
    requires IsRun(states, steps) && i < |steps| && InTime(states, steps, i)
    ensures
      var (t, a) := steps[i];
      var doing := states[i].At(t);
      && (a == StoreAndReturn ==> doing.Opened? && doing.handle !in states[i].store)
      && (a.RemoveAndClose? ==> doing.ClosingStored? && doing.handle in states[i].store)
  {
    RunKeepsInvariant(states, steps, i);
    assert Invariant(states[i]);
    assert IsStep(states[i], steps[i], states[i + 1]);
  }

  // ---------- Applications that do not close what they use ----------

  predicate WorksWith(a: Activity, h: Handle) {
    (a.Using? || a.Renamed? || a.Queued?) && a.handle == h
  }

  predicate InUse(s: State, h: Handle) {
    exists t :: t in s.threads && WorksWith(s.threads[t], h)
  }

  /** No handle is closed while a call is at work with it. */
  ghost predicate ClosesOnlyUnused(states: seq<State>, steps: seq<(Thread, Action)>)
    requires |steps| <= |states|
  {
    forall i :: 0 <= i < |steps| && steps[i].1.BeginClose? ==> !InUse(states[i], steps[i].1.h)
  }

  /** What is in use stays in the application's hands, as the opening it was. */
  predicate Held(s: State, a: Activity) {
    match a
    case Using(h) => h in s.owned
    case Renamed(h, opening, _) => h in s.owned && h in s.system && s.system[h] == opening
    case Queued(h, opening) => h in s.owned && h in s.system && s.system[h] == opening
    case _ => true
  }

  ghost predicate AllHeld(s: State) {
    forall t :: t in s.threads ==> Held(s, s.threads[t])
  }

  lemma HeldIsInTime(s: State, t: Thread, a: Action)
    requires Invariant(s) && AllHeld(s) && Enabled(s, t, a)
    ensures !IsTooLate(s, t, a)
  {
    if t in s.threads && !s.At(t).Idle? && WorksWith(s.At(t), s.At(t).handle) {
      assert Held(s, s.threads[t]);
      OwnedIsNotClaimed(s, s.At(t).handle);
    }
  }

  lemma OwnedIsNotClaimed(s: State, h: Handle)
    requires Invariant(s) && h in s.owned
    ensures !Claimed(s, h)
  {
    forall t | t in s.threads
      ensures !Claims(s.threads[t], h)
    {
      assert ActivityValid(s, s.threads[t]);
    }
  }

  lemma StepKeepsHeld(s: State, t: Thread, a: Action)
    requires Invariant(s) && AllHeld(s) && Enabled(s, t, a) && (a.BeginClose? ==> !InUse(s, a.h))
    ensures AllHeld(Apply(s, t, a))
  {
    hide Invariant, Apply, Enabled, InUse, Held;
    OthersStay(s, t, a);
    forall u | u in Apply(s, t, a).threads
      ensures Held(Apply(s, t, a), Apply(s, t, a).threads[u])
    {
      if u != t {
        OtherStaysHeld(s, t, a, u);
      } else {
        StaysHeld(s, t, a);
      }
    }
  }

  lemma StaysHeld(s: State, t: Thread, a: Action)
    requires Invariant(s) && AllHeld(s) && Enabled(s, t, a)
    ensures t in Apply(s, t, a).threads && Held(Apply(s, t, a), Apply(s, t, a).threads[t])
  {
    assert ActivityValid(s, s.At(t)) && Held(s, s.At(t));
  }

  lemma OtherStaysHeld(s: State, t: Thread, a: Action, u: Thread)
    requires Invariant(s) && AllHeld(s) && Enabled(s, t, a) && (a.BeginClose? ==> !InUse(s, a.h))
    requires u in s.threads && u != t
    ensures Held(Apply(s, t, a), s.threads[u])
  {
    assert ActivityValid(s, s.At(t)) && Held(s, s.threads[u]);
    assert a.BeginClose? ==> !WorksWith(s.threads[u], a.h);
  }

  /** If an application closes no handle while a call of its own is at work with it, then no step ever comes too late,
      so that everything above holds in the whole run; and handles in use are in the application's hands. */
  lemma {:induction false} CarefulRunsAreInTime(states: seq<State>, steps: seq<(Thread, Action)>, upTo: nat)
    requires IsRun(states, steps) && ClosesOnlyUnused(states, steps) && upTo <= |steps|
    ensures InTime(states, steps, upTo) && Invariant(states[upTo]) && AllHeld(states[upTo])
  {
    hide Invariant, IsTooLate, Apply, Enabled, InUse, Held;
    if upTo == 0 {
      InvariantInitially();
    } else {
      var before := upTo - 1;
      CarefulRunsAreInTime(states, steps, before);
      assert IsStep(states[before], steps[before], states[before + 1]);
      HeldIsInTime(states[before], steps[before].0, steps[before].1);
      StepKeepsInvariant(states[before], steps[before].0, steps[before].1);
      StepKeepsHeld(states[before], steps[before].0, steps[before].1);
    }
  }

  // ---------- Keeping an entry while working with it ----------

  /** A step that takes the entry of a handle out of the store: a rename to a place no rule is about is recorded, or
      the handle is closed. */
  predicate TakesAway(s: State, t: Thread, a: Action, h: Handle) {
    match s.At(t)
    case Renamed(handle, _, None) => a == RecordRename && handle == h
    case ClosingStored(handle) => a == RemoveAndClose(true) && handle == h
    case _ => false
  }

  /** An entry disappears by a step of some thread if and only if that thread closes the handle, or has renamed its
      file to a place no rule is about. Otherwise, unless the step comes too late, the entry and the handle stay,
      about the same opening; and an enumeration in progress is replaced only by one that another thread has made
      for the same handle. */
  lemma EntrySurvivesUnlessTaken(s: State, h: Handle, u: Thread, a: Action)
    requires Invariant(s) && h in s.store && Enabled(s, u, a)
    ensures h !in Apply(s, u, a).store <==> TakesAway(s, u, a, h)
    ensures
      !TakesAway(s, u, a, h) && !IsTooLate(s, u, a) ==>
        && h in Apply(s, u, a).system && Apply(s, u, a).system[h] == s.system[h]
        && h in Apply(s, u, a).facts && Apply(s, u, a).facts[h] == s.facts[h] == s.system[h]
        && (Apply(s, u, a).store[h].directoryEnumeration == s.store[h].directoryEnumeration
            || (a == Associate && s.At(u).handle == h))
  {
    assert u in s.threads ==> ActivityValid(s, s.threads[u]);
    if !TakesAway(s, u, a, h) && !IsTooLate(s, u, a) {
      StepKeepsTables(s, u, a);
    }
  }

  /** A thread does nothing over part of a run. */
  ghost predicate Waits(t: Thread, steps: seq<(Thread, Action)>, from: nat, upTo: nat)
    requires upTo <= |steps|
  {
    forall i :: from <= i < upTo ==> steps[i].0 != t
  }

  /** The entry of a handle is taken away in some step of part of a run. */
  ghost predicate Taken(states: seq<State>, steps: seq<(Thread, Action)>, h: Handle, from: nat, upTo: nat)
    requires upTo <= |steps| <= |states|
  {
    exists i :: from <= i < upTo && TakesAway(states[i], steps[i].0, steps[i].1, h)
  }

  /** Over any part of any run without a step that comes too late: as long as nobody takes an entry away, it stays and
      the handle stays open, all about the same opening. */
  lemma {:induction false} EntryLivesUntilTaken(
    states: seq<State>, steps: seq<(Thread, Action)>, h: Handle, from: nat, upTo: nat)
    requires IsRun(states, steps) && from <= upTo <= |steps| && InTime(states, steps, upTo)
    requires h in states[from].store && !Taken(states, steps, h, from, upTo)
    ensures h in states[from].system && h in states[upTo].system && states[upTo].system[h] == states[from].system[h]
    ensures h in states[upTo].store && h in states[upTo].facts && states[upTo].facts[h] == states[from].system[h]
    decreases upTo - from
  {
    hide Invariant, IsTooLate, Apply, Enabled, TakesAway;
    StoredHandlesAreCurrent(states, steps, from, h);
    if from < upTo {
      var last := upTo - 1;
      assert InTime(states, steps, last) && !Taken(states, steps, h, from, last);
      EntryLivesUntilTaken(states, steps, h, from, last);
      RunKeepsInvariant(states, steps, last);
      assert IsStep(states[last], steps[last], states[last + 1]);
      EntrySurvivesUnlessTaken(states[last], h, steps[last].0, steps[last].1);
    }
  }

  /** In the run of an application that closes nothing it uses, a handle that a thread works with stays open, as the
      same opening. */
  lemma {:induction false} HandleStaysOpenWhileUsed(
    states: seq<State>, steps: seq<(Thread, Action)>, t: Thread, h: Handle, from: nat, upTo: nat)
    requires IsRun(states, steps) && ClosesOnlyUnused(states, steps) && from <= upTo <= |steps|
    requires WorksWith(states[from].At(t), h) && Waits(t, steps, from, upTo)
    ensures states[upTo].At(t) == states[from].At(t)
    ensures h in states[from].system && h in states[upTo].system && states[upTo].system[h] == states[from].system[h]
    decreases upTo - from
  {
    hide Invariant, IsTooLate, Apply, Enabled, InUse;
    CarefulRunsAreInTime(states, steps, from);
    HeldIsOpen(states[from], t, h);
    if from < upTo {
      var (u, a) := steps[upTo - 1];
      HandleStaysOpenWhileUsed(states, steps, t, h, from, upTo - 1);
      CarefulRunsAreInTime(states, steps, upTo - 1);
      assert IsStep(states[upTo - 1], steps[upTo - 1], states[upTo]) && u != t;
      OpenWhileHeld(states[upTo - 1], t, h, u, a);
    }
  }

  lemma HeldIsOpen(s: State, t: Thread, h: Handle)
    requires Invariant(s) && AllHeld(s) && WorksWith(s.At(t), h)
    ensures h in s.owned && h in s.system
  {
    assert Held(s, s.threads[t]);
  }

  lemma OpenWhileHeld(s: State, t: Thread, h: Handle, u: Thread, a: Action)
    requires Invariant(s) && AllHeld(s) && WorksWith(s.At(t), h) && u != t && Enabled(s, u, a)
    ensures h in s.system && h in Apply(s, u, a).system && Apply(s, u, a).system[h] == s.system[h]
    ensures Apply(s, u, a).At(t) == s.At(t)
  {
    HeldIsOpen(s, t, h);
    assert u in s.threads ==> ActivityValid(s, s.threads[u]);
  }

  // ---------- Losing an entry to another thread ----------

  /** One thread opens a file that is put on record, two threads start to work with the handle, and one of them
      renames the file to a place no rule is about. */
  function StepsThatForget(t: Thread, u: Thread, h: Handle, paths: (wstring, wstring)): seq<(Thread, Action)> {
    [(t, SystemOpens(h, Some(paths))), (t, StoreAndReturn), (t, BeginUse(h)), (u, BeginUse(h)),
     (u, SystemRenames(None)), (u, RecordRename)]
  }

  /** The states such a run goes through. */
  function StatesThatForget(t: Thread, u: Thread, h: Handle, paths: (wstring, wstring)): seq<State>
    requires t != u
  {
    var s1 := State(map[h := 0], 1, map[], map[], {}, map[t := Opened(h, Some(paths))]);
    var table: HandleTable<nat> := map[h := HandleData(paths.0, paths.1, None)];
    var s2 := State(map[h := 0], 1, table, map[h := 0], {h}, map[t := Idle]);
    var s3 := s2.(threads := map[t := Using(h)]);
    var s4 := s3.(threads := map[t := Using(h), u := Using(h)]);
    var s5 := s3.(threads := map[t := Using(h), u := Renamed(h, 0, None)]);
    [INITIALLY, s1, s2, s3, s4, s5, s4.(store := map[], facts := map[])]
  }

  /** It is a run in which nothing is closed, and at its end the first thread still works with the open handle but its
      entry is gone. */
  lemma ForgettingLosesTheEntry(t: Thread, u: Thread, h: Handle, paths: (wstring, wstring))
    requires t != u
    ensures
      var states, steps := StatesThatForget(t, u, h, paths), StepsThatForget(t, u, h, paths);
      && IsRun(states, steps) && ClosesOnlyUnused(states, steps)
      && states[3].At(t) == Using(h) && h in states[3].store && Waits(t, steps, 3, 6)
      && states[6].At(t) == Using(h) && h in states[6].system && h !in states[6].store
  {
    var states, steps := StatesThatForget(t, u, h, paths), StepsThatForget(t, u, h, paths);
    assert |states| == 7 && |steps| == 6;
    forall i | 0 <= i < |steps|
      ensures IsStep(states[i], steps[i], states[i + 1])
    {
      hide IsStep, StatesThatForget;
      if i < 3 {
        OpeningSteps(t, u, h, paths, i);
      } else {
        ForgettingSteps(t, u, h, paths, i);
      }
    }
  }

  lemma OpeningSteps(t: Thread, u: Thread, h: Handle, paths: (wstring, wstring), i: nat)
    requires t != u && i < 3
    ensures IsStep(StatesThatForget(t, u, h, paths)[i], StepsThatForget(t, u, h, paths)[i],
        StatesThatForget(t, u, h, paths)[i + 1])
  {
    assert i in {0, 1, 2};
  }

  lemma ForgettingSteps(t: Thread, u: Thread, h: Handle, paths: (wstring, wstring), i: nat)
    requires t != u && 3 <= i < 6
    ensures IsStep(StatesThatForget(t, u, h, paths)[i], StepsThatForget(t, u, h, paths)[i],
        StatesThatForget(t, u, h, paths)[i + 1])
  {
    assert i in {3, 4, 5};
  }

  // ---------- Recording too late ----------

  /** One thread renames the file behind a handle that is not on record. Before the rename is recorded, another thread
      closes the handle; afterwards it opens a file for which the system gives it the same handle. */
  function StepsTooLate(t: Thread, u: Thread, h: Handle, former: (wstring, wstring), next: (wstring, wstring))
    : seq<(Thread, Action)>
  {
    [(t, SystemOpens(h, None)), (t, StoreAndReturn), (t, BeginUse(h)), (t, SystemRenames(Some(former))),
     (u, BeginClose(h)), (u, Close(true)), (t, RecordRename),
     (u, SystemOpens(h, Some(next))), (u, StoreAndReturn)]
  }

  function StatesTooLate(t: Thread, u: Thread, h: Handle, former: (wstring, wstring), next: (wstring, wstring))
    : seq<State>
    requires t != u
  {
    var entry: HandleTable<nat> := map[h := HandleData(former.0, former.1, None)];
    var renamed := Renamed(h, 0, Some(former));
    var s1 := State(map[h := 0], 1, map[], map[], {}, map[t := Opened(h, None)]);
    var s2 := s1.(owned := {h}, threads := map[t := Idle]);
    var s3 := s2.(threads := map[t := Using(h)]);
    var s4 := s2.(threads := map[t := renamed]);
    var s5 := s1.(threads := map[t := renamed, u := ClosingUnstored(h)]);
    var s6 := State(map[], 1, map[], map[], {}, map[t := renamed, u := Idle]);
    var s7 := State(map[], 1, entry, map[h := 0], {}, map[t := Using(h), u := Idle]);
    var s8 := State(map[h := 1], 2, entry, map[h := 0], {}, map[t := Using(h), u := Opened(h, Some(next))]);
    var s9 := s8.(owned := {h}, threads := map[t := Using(h), u := Idle]);
    [INITIALLY, s1, s2, s3, s4, s5, s6, s7, s8, s9]
  }

  /** It is a run. The late step leaves an entry for a handle that is not open, and then the file opened last is in
      the application's hands under what the store says about the file that was closed. */
  lemma RecordingTooLate(t: Thread, u: Thread, h: Handle, former: (wstring, wstring), next: (wstring, wstring))
    requires t != u
    ensures
      var states, steps := StatesTooLate(t, u, h, former, next), StepsTooLate(t, u, h, former, next);
      && IsRun(states, steps) && IsTooLate(states[6], t, RecordRename) && InTime(states, steps, 6)
      && h in states[7].store && h !in states[7].system
      && h in states[9].owned && states[9].system[h] == 1 && states[9].facts[h] == 0
      && states[9].store[h].associatedPath == former.0 && states[9].store[h].realOpenedPath == former.1
  {
    var states, steps := StatesTooLate(t, u, h, former, next), StepsTooLate(t, u, h, former, next);
    assert |states| == 10 && |steps| == 9;
    forall i | 0 <= i < |steps|
      ensures IsStep(states[i], steps[i], states[i + 1])
    {
      hide IsStep, StatesTooLate;
      if i < 3 {
        FirstSteps(t, u, h, former, next, i);
      } else if i < 6 {
        ClosingSteps(t, u, h, former, next, i);
      } else {
        LateSteps(t, u, h, former, next, i);
      }
    }
  }

  lemma FirstSteps(t: Thread, u: Thread, h: Handle, former: (wstring, wstring), next: (wstring, wstring), i: nat)
    requires t != u && 0 <= i < 3
    ensures IsStep(StatesTooLate(t, u, h, former, next)[i], StepsTooLate(t, u, h, former, next)[i],
        StatesTooLate(t, u, h, former, next)[i + 1])
  {
    assert i in {0, 1, 2};
  }

  lemma ClosingSteps(t: Thread, u: Thread, h: Handle, former: (wstring, wstring), next: (wstring, wstring), i: nat)
    requires t != u && 3 <= i < 6
    ensures IsStep(StatesTooLate(t, u, h, former, next)[i], StepsTooLate(t, u, h, former, next)[i],
        StatesTooLate(t, u, h, former, next)[i + 1])
  {
    assert i in {3, 4, 5};
  }

  lemma LateSteps(t: Thread, u: Thread, h: Handle, former: (wstring, wstring), next: (wstring, wstring), i: nat)
    requires t != u && 6 <= i < 9
    ensures IsStep(StatesTooLate(t, u, h, former, next)[i], StepsTooLate(t, u, h, former, next)[i],
        StatesTooLate(t, u, h, former, next)[i + 1])
  {
    assert i in {6, 7, 8};
  }

  /** Why closing and removing must be one step: if a handle were only closed, another thread could be given
      the same handle, its insertion would meet the old entry, and its opening would be described by that. */
  lemma ClosingWithoutRemovingLosesData(s: State, t: Thread, u: Thread, h: Handle, paths: (wstring, wstring))
    requires Invariant(s) && s.At(t) == ClosingStored(h) && s.At(u) == Idle && u != t
    ensures
      var closed := s.(system := s.system - {h});
      && Enabled(closed, u, SystemOpens(h, Some(paths)))
      && var reopened := Apply(closed, u, SystemOpens(h, Some(paths)));
      && Enabled(reopened, u, StoreAndReturn) && h in reopened.store
      && Apply(reopened, u, StoreAndReturn).store[h] == s.store[h]
      && Apply(reopened, u, StoreAndReturn).facts[h] != Apply(reopened, u, StoreAndReturn).system[h]
  {
    assert t in s.threads && ActivityValid(s, s.threads[t]);
  }
}
