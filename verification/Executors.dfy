/** Executing file-operation instructions: attempts with different create dispositions and file names, and
    what is recorded about the handle that results. */
module Executors {
  import opened Wrappers
  import opened Text
  import opened NtStatuses
  import opened Filesystems
  import opened Instructions
  import opened Volumes
  import opened DirectoryHierarchies
  import opened OpenHandleStores
  import opened Listing

  // ---------- Which attempts are made ----------

  datatype Condition = Unconditional | FileMustExist | FileMustNotExist

  datatype DispositionToTry = DispositionToTry(condition: Condition, disposition: CreateDisposition)

  datatype Attempt = Attempt(condition: Condition, disposition: CreateDisposition, path: wstring)

  function Always(disposition: CreateDisposition): DispositionToTry {
    DispositionToTry(Unconditional, disposition)
  }

  function SelectCreateDispositionsToTry(preference: CreateDispositionPreference, disposition: CreateDisposition)
    : seq<DispositionToTry>
  {
    match preference
    case NoPreference => [Always(disposition)]
    case PreferCreateNewFile =>
      (match disposition
       case FileOpenIf => [Always(FileCreate), Always(FileOpen)]
       case FileOverwriteIf => [Always(FileCreate), Always(FileOverwrite)]
       case FileSupersede => [Always(FileCreate), Always(FileSupersede)]
       case _ => [Always(disposition)])
    case PreferOpenExistingFile =>
      (match disposition
       case FileOpenIf => [Always(FileOpen), Always(FileCreate)]
       case FileOverwriteIf => [Always(FileOverwrite), Always(FileCreate)]
       case FileSupersede => [DispositionToTry(FileMustExist, FileSupersede), Always(FileSupersede)]
       case _ => [Always(disposition)])
  }

  function WithDisposition(d: DispositionToTry, files: seq<wstring>): seq<Attempt> {
    if files == [] then []
    else [Attempt(d.condition, d.disposition, files[0])] + WithDisposition(d, files[1..])
  }

  /** All attempts, in order: for each create disposition, each file. */
  function Attempts(dispositions: seq<DispositionToTry>, files: seq<wstring>): seq<Attempt> {
    if dispositions == [] then []
    else WithDisposition(dispositions[0], files) + Attempts(dispositions[1..], files)
  }

  // ---------- What comes of them ----------

  /** `last` is the path of the last attempt, if any was made. */
  datatype Progress = Progress(status: NtStatus, last: Option<wstring>, volume: Volume)

  predicate ShouldTry(v: Volume, a: Attempt) {
    match a.condition
    case Unconditional => true
    case FileMustExist => Exists(v.files, a.path)
    case FileMustNotExist => !Exists(v.files, a.path)
  }

  function Try(p: Progress, refuse: Refusals, a: Attempt, directory: bool): Progress {
    if !ShouldTry(p.volume, a) then p
    else
      var (status, after) := NtCreate(p.volume, refuse, FsKey(a.path), a.disposition, directory);
      Progress(status, Some(a.path), after)
  }

  /** Attempts are made one after the other as long as it is worth trying the next. */
  function TryAll(p: Progress, refuse: Refusals, attempts: seq<Attempt>, directory: bool): Progress
    decreases |attempts|
  {
    if attempts == [] || !ShouldTryNextFilename(p.status) then p
    else TryAll(Try(p, refuse, attempts[0], directory), refuse, attempts[1..], directory)
  }

  function Start(v: Volume): Progress {
    Progress(StatusObjectPathNotFound, None, v)
  }

  function TryInstruction(
    v: Volume, refuse: Refusals, op: FileOperationInstruction, disposition: CreateDisposition, directory: bool,
    unredirected: wstring): Progress
  {
    TryAll(
      Start(v), refuse,
      Attempts(SelectCreateDispositionsToTry(op.createDispositionPreference, disposition),
          FilesToTry(op, unredirected)),
      directory)
  }

  lemma {:induction false} TryAllConcat(
    p: Progress, refuse: Refusals, a: seq<Attempt>, b: seq<Attempt>, directory: bool)
    ensures TryAll(p, refuse, a + b, directory) == TryAll(TryAll(p, refuse, a, directory), refuse, b, directory)
    decreases |a|
  {
    if a == [] {
      assert a + b == b;
    } else if ShouldTryNextFilename(p.status) {
      assert (a + b)[0] == a[0] && (a + b)[1..] == a[1..] + b;
      TryAllConcat(Try(p, refuse, a[0], directory), refuse, a[1..], b, directory);
    }
  }

  // ---------- The last attempt decides ----------

  /** The outcome is that of a single call on the volume as it was before, with the path that is
      recorded as the last one: no earlier attempt changes anything. */
  ghost predicate DecidedBy(
    before: Volume, after: Progress, refuse: Refusals, attempts: seq<Attempt>, directory: bool)
  {
    if after.last == None then after == Start(before)
    else
      exists a :: a in attempts && ShouldTry(before, a) && after.last == Some(a.path)
        && (after.status, after.volume) == NtCreate(before, refuse, FsKey(a.path), a.disposition, directory)
  }

  lemma {:induction false} LastAttemptDecides(
    before: Volume, p: Progress, refuse: Refusals, done: seq<Attempt>, attempts: seq<Attempt>, directory: bool)
    requires DecidedBy(before, p, refuse, done, directory)
    ensures DecidedBy(before, TryAll(p, refuse, attempts, directory), refuse, done + attempts, directory)
    decreases |attempts|
  {
    hide DecidedBy, Try;
    if attempts == [] || !ShouldTryNextFilename(p.status) {
      DecidedByMore(before, p, refuse, done, attempts, directory);
    } else {
      var a := attempts[0];
      DecidedByNext(before, p, refuse, done, a, directory);
      LastAttemptDecides(before, Try(p, refuse, a, directory), refuse, done + [a], attempts[1..], directory);
      assert done + [a] + attempts[1..] == done + attempts;
    }
  }

  lemma DecidedByMore(
    before: Volume, p: Progress, refuse: Refusals, done: seq<Attempt>, more: seq<Attempt>, directory: bool)
    requires DecidedBy(before, p, refuse, done, directory)
    ensures DecidedBy(before, p, refuse, done + more, directory)
  {
    if p.last.Some? {
      var a :| a in done && ShouldTry(before, a) && p.last == Some(a.path)
        && (p.status, p.volume) == NtCreate(before, refuse, FsKey(a.path), a.disposition, directory);
      assert a in done + more;
    }
  }

  lemma DecidedByNext(
    before: Volume, p: Progress, refuse: Refusals, done: seq<Attempt>, a: Attempt, directory: bool)
    requires DecidedBy(before, p, refuse, done, directory) && ShouldTryNextFilename(p.status)
    ensures DecidedBy(before, Try(p, refuse, a, directory), refuse, done + [a], directory)
  {
    hide NtCreate, DecidedBy;
    NothingChangedSoFar(before, p, refuse, done, directory);
    if ShouldTry(before, a) {
      DecidedByOne(before, Try(p, refuse, a, directory), refuse, done, a, directory);
    } else {
      DecidedByMore(before, p, refuse, done, [a], directory);
    }
  }

  lemma NothingChangedSoFar(before: Volume, p: Progress, refuse: Refusals, done: seq<Attempt>, directory: bool)
    requires DecidedBy(before, p, refuse, done, directory) && ShouldTryNextFilename(p.status)
    ensures p.volume == before
  {
    hide NtCreate;
    if p.last.Some? {
      var d :| d in done && (p.status, p.volume) == NtCreate(before, refuse, FsKey(d.path), d.disposition, directory);
      FailureChangesNothing(before, refuse, FsKey(d.path), d.disposition, directory);
    }
  }

  lemma DecidedByOne(before: Volume, p: Progress, refuse: Refusals, done: seq<Attempt>, a: Attempt, directory: bool)
    requires ShouldTry(before, a) && p.last == Some(a.path)
    requires (p.status, p.volume) == NtCreate(before, refuse, FsKey(a.path), a.disposition, directory)
    ensures DecidedBy(before, p, refuse, done + [a], directory)
  {
    hide NtCreate, FsKey;
    assert a in done + [a];
  }

  lemma InstructionIsDecidedByLastAttempt(
    v: Volume, refuse: Refusals, op: FileOperationInstruction, disposition: CreateDisposition, directory: bool,
    unredirected: wstring)
    ensures
      DecidedBy(
        v, TryInstruction(v, refuse, op, disposition, directory, unredirected), refuse,
        Attempts(
          SelectCreateDispositionsToTry(op.createDispositionPreference, disposition), FilesToTry(op, unredirected)),
        directory)
  {
    var attempts := Attempts(
      SelectCreateDispositionsToTry(op.createDispositionPreference, disposition), FilesToTry(op, unredirected));
    LastAttemptDecides(v, Start(v), refuse, [], attempts, directory);
    assert [] + attempts == attempts;
  }

  // ---------- Overlay ----------

  /** Instructions the director issues for Overlay rules when a file may be created. */
  predicate IsOverlay(op: FileOperationInstruction) {
    op.redirectedFilename.Some? && op.filenamesToTry == RedirectedFirst
    && op.createDispositionPreference == PreferOpenExistingFile
  }

  /** Where an operation that opens or creates takes place: on the target if it exists, otherwise on the
      origin side if that exists, otherwise on the target if there is a directory for it, and on the origin
      side as the last resort. */
  function OverlayChoice(v: Volume, target: wstring, unredirected: wstring): wstring {
    if Exists(v.files, target) then target
    else if Exists(v.files, unredirected) then unredirected
    else if HasParent(v.files, FsKey(target)) then target
    else unredirected
  }

  lemma TryFour(p: Progress, refuse: Refusals, a: Attempt, b: Attempt, c: Attempt, d: Attempt, directory: bool)
    requires ShouldTryNextFilename(p.status)
    ensures
      var pa := Try(p, refuse, a, directory);
      var pb := Try(pa, refuse, b, directory);
      var pc := Try(pb, refuse, c, directory);
      TryAll(p, refuse, [a, b, c, d], directory) ==
      if !ShouldTryNextFilename(pa.status) then pa
      else if !ShouldTryNextFilename(pb.status) then pb
      else if !ShouldTryNextFilename(pc.status) then pc
      else Try(pc, refuse, d, directory)
  {
    hide Try, ShouldTryNextFilename;
    assert [a, b, c, d][1..] == [b, c, d] && [b, c, d][1..] == [c, d] && [c, d][1..] == [d] && [d][1..] == [];
    var pa := Try(p, refuse, a, directory);
    var pb := Try(pa, refuse, b, directory);
    var pc := Try(pb, refuse, c, directory);
    assert TryAll(p, refuse, [a, b, c, d], directory) == TryAll(pa, refuse, [b, c, d], directory);
    if ShouldTryNextFilename(pa.status) {
      assert TryAll(pa, refuse, [b, c, d], directory) == TryAll(pb, refuse, [c, d], directory);
      if ShouldTryNextFilename(pb.status) {
        assert TryAll(pb, refuse, [c, d], directory) == TryAll(pc, refuse, [d], directory);
        assert TryAll(pc, refuse, [d], directory) == if ShouldTryNextFilename(pc.status)
            then Try(pc, refuse, d, directory) else pc;
      } else {
        assert TryAll(pb, refuse, [c, d], directory) == pb;
      }
    } else {
      assert TryAll(pa, refuse, [b, c, d], directory) == pa;
    }
  }

  lemma TwoByTwo(x: DispositionToTry, y: DispositionToTry, f: wstring, g: wstring)
    ensures
      Attempts([x, y], [f, g]) ==
      [Attempt(x.condition, x.disposition, f), Attempt(x.condition, x.disposition, g),
       Attempt(y.condition, y.disposition, f), Attempt(y.condition, y.disposition, g)]
  {
    WithTwo(x, f, g);
    WithTwo(y, f, g);
    assert [x, y][1..] == [y] && [y][1..] == [] && Attempts([], [f, g]) == [];
  }

  lemma WithTwo(x: DispositionToTry, f: wstring, g: wstring)
    ensures
      WithDisposition(x, [f, g]) ==
      [Attempt(x.condition, x.disposition, f), Attempt(x.condition, x.disposition, g)]
  {
    assert [f, g][1..] == [g] && [g][1..] == [] && WithDisposition(x, []) == [];
  }

  /** Open-or-create under Overlay, in every state of the volume: the whole sequence of attempts does what a
      single call with the application's own disposition does on the file that is chosen. */
  lemma OverlayOpenOrCreate(
    v: Volume, refuse: Refusals, op: FileOperationInstruction, disposition: CreateDisposition, directory: bool,
    unredirected: wstring)
    requires IsOverlay(op) && disposition in {FileOpenIf, FileOverwriteIf, FileSupersede}
    ensures
      var target := op.redirectedFilename.value;
      var chosen := OverlayChoice(v, target, unredirected);
      var (status, after) := NtCreate(v, refuse, FsKey(chosen), disposition, directory);
      TryInstruction(v, refuse, op, disposition, directory, unredirected) == Progress(status, Some(chosen), after)
  {
    hide NtCreate, FsKey, ShouldTryNextFilename, TryAll, HasParent;
    var target := op.redirectedFilename.value;
    var dispositions := SelectCreateDispositionsToTry(op.createDispositionPreference, disposition);
    var x, y := dispositions[0], dispositions[1];
    assert dispositions == [x, y] && FilesToTry(op, unredirected) == [target, unredirected];
    TwoByTwo(x, y, target, unredirected);
    WorthTrying();
    TryFour(
      Start(v), refuse, Attempt(x.condition, x.disposition, target), Attempt(x.condition, x.disposition, unredirected),
      Attempt(y.condition, y.disposition, target), Attempt(y.condition, y.disposition, unredirected), directory);
    OpeningExisting(v, refuse, FsKey(target), disposition, directory);
    OpeningExisting(v, refuse, FsKey(unredirected), disposition, directory);
    if !Exists(v.files, target) && !Exists(v.files, unredirected) {
      CreatingMissing(v, refuse, FsKey(target), disposition, directory);
      CreatingMissing(v, refuse, FsKey(unredirected), disposition, directory);
    }
  }

  lemma WorthTrying()
    ensures ShouldTryNextFilename(StatusObjectPathNotFound)
  {
  }

  /** The first disposition tried does on an existing file what the application asked for, and nothing but
      fail on a missing one. */
  lemma OpeningExisting(v: Volume, refuse: Refusals, p: Path, disposition: CreateDisposition, directory: bool)
    requires disposition in {FileOpenIf, FileOverwriteIf, FileSupersede}
    ensures
      var first := SelectCreateDispositionsToTry(PreferOpenExistingFile, disposition)[0];
      var r := NtCreate(v, refuse, p, first.disposition, directory);
      if p in v.files then r == NtCreate(v, refuse, p, disposition, directory) && !ShouldTryNextFilename(r.0)
      else first.condition == FileMustExist || (ShouldTryNextFilename(r.0) && r.1 == v)
  {
  }

  /** The second disposition tried does on a missing file what the application asked for. */
  lemma CreatingMissing(v: Volume, refuse: Refusals, p: Path, disposition: CreateDisposition, directory: bool)
    requires disposition in {FileOpenIf, FileOverwriteIf, FileSupersede} && p !in v.files
    ensures
      var second := SelectCreateDispositionsToTry(PreferOpenExistingFile, disposition)[1];
      var r := NtCreate(v, refuse, p, second.disposition, directory);
      && second.condition == Unconditional
      && r == NtCreate(v, refuse, p, disposition, directory)
      && (ShouldTryNextFilename(r.0) <==> !HasParent(v.files, p))
      && (ShouldTryNextFilename(r.0) ==> r.1 == v)
  {
  }

  /** Where an operation that only creates takes place: on the target if that exists already or there is a
      directory for it; whether the file exists on the origin side makes no difference. */
  function OverlayCreateChoice(v: Volume, target: wstring, unredirected: wstring): wstring {
    if Exists(v.files, target) || HasParent(v.files, FsKey(target)) then target else unredirected
  }

  /** Create-only under Overlay, in every state of the volume: the attempts do what a single call does on the file
      that is chosen. */
  lemma OverlayCreate(
    v: Volume, refuse: Refusals, op: FileOperationInstruction, directory: bool, unredirected: wstring)
    requires IsOverlay(op)
    ensures
      var chosen := OverlayCreateChoice(v, op.redirectedFilename.value, unredirected);
      var (status, after) := NtCreate(v, refuse, FsKey(chosen), FileCreate, directory);
      TryInstruction(v, refuse, op, FileCreate, directory, unredirected) == Progress(status, Some(chosen), after)
  {
    hide NtCreate, TryAll, FsKey, HasParent, ShouldTryNextFilename;
    var target := op.redirectedFilename.value;
    assert FilesToTry(op, unredirected) == [target, unredirected];
    WithTwo(Always(FileCreate), target, unredirected);
    var a, b := Attempt(Unconditional, FileCreate, target), Attempt(Unconditional, FileCreate, unredirected);
    assert Attempts([Always(FileCreate)], [target, unredirected]) == [a, b];
    WorthTrying();
    CreateMeaning(v, refuse, FsKey(target), directory);
    TryTwo(Start(v), refuse, a, b, directory);
  }

  lemma TryTwo(p: Progress, refuse: Refusals, a: Attempt, b: Attempt, directory: bool)
    requires ShouldTryNextFilename(p.status)
    ensures
      var pa := Try(p, refuse, a, directory);
      TryAll(p, refuse, [a, b], directory) ==
      if !ShouldTryNextFilename(pa.status) then pa else Try(pa, refuse, b, directory)
  {
    hide Try, ShouldTryNextFilename;
    assert [a, b][1..] == [b] && [b][1..] == [];
    var pa := Try(p, refuse, a, directory);
    assert TryAll(p, refuse, [a, b], directory) == TryAll(pa, refuse, [b], directory);
  }

  lemma CreateMeaning(v: Volume, refuse: Refusals, p: Path, directory: bool)
    ensures
      var (status, after) := NtCreate(v, refuse, p, FileCreate, directory);
      && (ShouldTryNextFilename(status) <==> p !in v.files && !HasParent(v.files, p))
      && (NtSuccess(status) <==> p !in v.files && HasParent(v.files, p) && refuse(p) == None)
      && (!NtSuccess(status) ==> after == v)
      && (NtSuccess(status) ==> status == StatusSuccess && p in after.files)
  {
  }

  /** When create-only under Overlay fails although the file exists on the origin side: exactly if it would fail
      without the origin side. If nothing is in the way on the target side, a file is created there. */
  lemma OverlayCreateIgnoresOrigin(
    v: Volume, refuse: Refusals, op: FileOperationInstruction, directory: bool, unredirected: wstring)
    requires IsOverlay(op) && Exists(v.files, unredirected)
    ensures
      var target := op.redirectedFilename.value;
      var r := TryInstruction(v, refuse, op, FileCreate, directory, unredirected);
      && (!NtSuccess(r.status) <==>
            Exists(v.files, target) || !HasParent(v.files, FsKey(target)) || refuse(FsKey(target)).Some?)
      && (NtSuccess(r.status) ==> r.last == Some(target) && Exists(r.volume.files, target))
  {
    hide NtCreate, TryInstruction, FsKey, HasParent, ShouldTryNextFilename;
    OverlayCreate(v, refuse, op, directory, unredirected);
    CreateMeaning(v, refuse, FsKey(op.redirectedFilename.value), directory);
    CreateMeaning(v, refuse, FsKey(unredirected), directory);
  }

  lemma FirstStops(p: Progress, refuse: Refusals, attempts: seq<Attempt>, directory: bool)
    requires attempts != [] && ShouldTryNextFilename(p.status)
    requires !ShouldTryNextFilename(Try(p, refuse, attempts[0], directory).status)
    ensures TryAll(p, refuse, attempts, directory) == Try(p, refuse, attempts[0], directory)
  {
    hide Try, ShouldTryNextFilename;
  }

  lemma OpenMeaning(v: Volume, refuse: Refusals, p: Path, directory: bool)
    ensures
      var (status, after) := NtCreate(v, refuse, p, FileOpen, directory);
      after == v && (ShouldTryNextFilename(status) <==> p !in v.files)
  {
  }

  /** An existing file is opened or overwritten, or refused for a reason of its own; a missing one is not created. */
  lemma ExistingOnly(v: Volume, refuse: Refusals, p: Path, disposition: CreateDisposition, directory: bool)
    requires disposition in {FileOpen, FileOverwrite}
    ensures
      var (status, after) := NtCreate(v, refuse, p, disposition, directory);
      && (status in NOT_FOUND_STATUSES <==> p !in v.files)
      && (p !in v.files ==> after == v)
  {
  }

  /** Opening or overwriting reaches the first of the files that exists, whichever instruction it is: with that file
      and no other it does what one call does, and if none exists the operation fails because of that. */
  lemma {:induction false} OpenReachesFirstExisting(
    p: Progress, refuse: Refusals, files: seq<wstring>, disposition: CreateDisposition, directory: bool)
    requires disposition in {FileOpen, FileOverwrite} && p.status in NOT_FOUND_STATUSES
    ensures
      var r := TryAll(p, refuse, WithDisposition(Always(disposition), files), directory);
      match FirstExisting(p.volume.files, files)
      case None => r.status in NOT_FOUND_STATUSES && r.volume == p.volume
      case Some(reached) =>
        && r.last.Some? && FsKey(r.last.value) == reached
        && (r.status, r.volume) == NtCreate(p.volume, refuse, reached, disposition, directory)
    decreases |files|
  {
    hide NtCreate, FsKey, ShouldTryNextFilename;
    OnlyNotFoundIsTriedAgain(p.status);
    if files != [] {
      var a := Attempt(Unconditional, disposition, files[0]);
      ExistingOnly(p.volume, refuse, FsKey(files[0]), disposition, directory);
      var next := Try(p, refuse, a, directory);
      OnlyNotFoundIsTriedAgain(next.status);
      assert WithDisposition(Always(disposition), files)[0] == a;
      assert WithDisposition(Always(disposition), files)[1..] == WithDisposition(Always(disposition), files[1..]);
      if next.status in NOT_FOUND_STATUSES {
        OpenReachesFirstExisting(next, refuse, files[1..], disposition, directory);
      }
    }
  }

  /** Operations that only work on what exists, whatever the instruction prefers. */
  lemma WorksOnFirstExisting(
    v: Volume, refuse: Refusals, op: FileOperationInstruction, disposition: CreateDisposition, directory: bool,
    unredirected: wstring)
    requires disposition in {FileOpen, FileOverwrite}
    ensures
      var r := TryInstruction(v, refuse, op, disposition, directory, unredirected);
      match FirstExisting(v.files, FilesToTry(op, unredirected))
      case None => r.status in NOT_FOUND_STATUSES && r.volume == v
      case Some(reached) =>
        && r.last.Some? && FsKey(r.last.value) == reached
        && (r.status, r.volume) == NtCreate(v, refuse, reached, disposition, directory)
  {
    hide NtCreate, FsKey;
    var files := FilesToTry(op, unredirected);
    assert SelectCreateDispositionsToTry(op.createDispositionPreference, disposition) == [Always(disposition)];
    assert Attempts([Always(disposition)], files) == WithDisposition(Always(disposition), files) + Attempts([], files);
    assert WithDisposition(Always(disposition), files) + [] == WithDisposition(Always(disposition), files);
    OpenReachesFirstExisting(Start(v), refuse, files, disposition, directory);
  }

  /** Where there is one file to try and no preference, as for Simple rules and for paths that are only intercepted, the
      system is called exactly once, for that file and with what the application asked for. */
  lemma OneFileOneCall(
    v: Volume, refuse: Refusals, op: FileOperationInstruction, disposition: CreateDisposition, directory: bool,
    unredirected: wstring, file: wstring)
    requires op.createDispositionPreference == NoPreference && FilesToTry(op, unredirected) == [file]
    ensures
      var (status, after) := NtCreate(v, refuse, FsKey(file), disposition, directory);
      TryInstruction(v, refuse, op, disposition, directory, unredirected) == Progress(status, Some(file), after)
  {
    hide NtCreate, FsKey, FilesToTry;
    WithOne(Always(disposition), file);
    var a := Attempt(Unconditional, disposition, file);
    TryOne(Start(v), refuse, a, directory);
  }

  lemma TryOne(p: Progress, refuse: Refusals, a: Attempt, directory: bool)
    requires ShouldTryNextFilename(p.status)
    ensures TryAll(p, refuse, [a], directory) == Try(p, refuse, a, directory)
  {
    hide Try, ShouldTryNextFilename;
    assert [a][1..] == [];
  }

  lemma WithOne(x: DispositionToTry, f: wstring)
    ensures WithDisposition(x, [f]) == [Attempt(x.condition, x.disposition, f)]
    ensures Attempts([x], [f]) == [Attempt(x.condition, x.disposition, f)]
  {
    assert [f][1..] == [] && WithDisposition(x, []) == [] && [x][1..] == [] && Attempts([], [f]) == [];
  }

  /** A preference for creating, which no rule asks for, makes an operation that opens or creates create only: where the
      one file to try exists, the operation fails with a collision. */
  lemma PreferringCreationOnlyCreates(
    v: Volume, refuse: Refusals, op: FileOperationInstruction, disposition: CreateDisposition, directory: bool,
    unredirected: wstring, file: wstring)
    requires op.createDispositionPreference == PreferCreateNewFile && FilesToTry(op, unredirected) == [file]
    requires disposition in {FileOpenIf, FileOverwriteIf, FileSupersede}
    ensures
      var (status, after) := NtCreate(v, refuse, FsKey(file), FileCreate, directory);
      TryInstruction(v, refuse, op, disposition, directory, unredirected) == Progress(status, Some(file), after)
  {
    hide FsKey, FilesToTry, TryAll;
    var dispositions := SelectCreateDispositionsToTry(PreferCreateNewFile, disposition);
    var x, y := dispositions[0], dispositions[1];
    assert dispositions == [x, y] && x == Always(FileCreate);
    WithOne(x, file);
    WithOne(y, file);
    assert [x, y][1..] == [y];
    var a, b := Attempt(x.condition, x.disposition, file), Attempt(y.condition, y.disposition, file);
    assert Attempts([x, y], [file]) == [a, b];
    TryTwo(Start(v), refuse, a, b, directory);
  }

  /** Whatever the instruction, some file is tried. */
  lemma SomethingIsTried(
    v: Volume, refuse: Refusals, op: FileOperationInstruction, disposition: CreateDisposition, directory: bool,
    unredirected: wstring)
    ensures TryInstruction(v, refuse, op, disposition, directory, unredirected).last.Some?
  {
    hide NtCreate, FsKey, TryAll;
    var dispositions := SelectCreateDispositionsToTry(op.createDispositionPreference, disposition);
    var files := FilesToTry(op, unredirected);
    var d := dispositions[|dispositions| - 1];
    assert d.condition == Unconditional && files != [];
    AttemptIsAmong(dispositions, files, |dispositions| - 1);
    UnconditionalIsTried(Start(v), refuse, Attempts(dispositions, files), directory);
  }

  lemma {:induction false} AttemptIsAmong(dispositions: seq<DispositionToTry>, files: seq<wstring>, i: nat)
    requires i < |dispositions| && files != []
    ensures Attempt(dispositions[i].condition, dispositions[i].disposition, files[0]) in Attempts(dispositions, files)
    decreases |dispositions|
  {
    if i > 0 {
      AttemptIsAmong(dispositions[1..], files, i - 1);
    } else {
      assert WithDisposition(dispositions[0], files)[0]
          == Attempt(dispositions[0].condition, dispositions[0].disposition, files[0]);
    }
  }

  lemma {:induction false} UnconditionalIsTried(p: Progress, refuse: Refusals, attempts: seq<Attempt>, directory: bool)
    requires
      p.last.Some? || (ShouldTryNextFilename(p.status) && exists a :: a in attempts && a.condition == Unconditional)
    ensures TryAll(p, refuse, attempts, directory).last.Some?
    decreases |attempts|
  {
    hide NtCreate, FsKey, ShouldTryNextFilename;
    if attempts != [] && ShouldTryNextFilename(p.status) {
      UnconditionalIsTried(Try(p, refuse, attempts[0], directory), refuse, attempts[1..], directory);
    }
  }

  /** So opening a file reaches what `FirstExisting` says it does. */
  lemma OpeningReaches(v: Volume, refuse: Refusals, op: FileOperationInstruction, directory: bool,
    unredirected: wstring)
    ensures
      var r := TryInstruction(v, refuse, op, FileOpen, directory, unredirected);
      && r.volume == v
      && match FirstExisting(v.files, FilesToTry(op, unredirected))
         case None => ShouldTryNextFilename(r.status)
         case Some(reached) =>
           && r.last.Some? && FsKey(r.last.value) == reached
           && r.status == NtCreate(v, refuse, reached, FileOpen, directory).0
  {
    hide NtCreate, FsKey, TryInstruction, FilesToTry, ShouldTryNextFilename;
    var r := TryInstruction(v, refuse, op, FileOpen, directory, unredirected);
    WorksOnFirstExisting(v, refuse, op, FileOpen, directory, unredirected);
    OnlyNotFoundIsTriedAgain(r.status);
    if FirstExisting(v.files, FilesToTry(op, unredirected)).Some? {
      OpenMeaning(v, refuse, FirstExisting(v.files, FilesToTry(op, unredirected)).value, directory);
    }
  }

  // ---------- The code ----------

  /** The path recorded as the one the application knows the handle by; empty if the handle is not recorded. */
  function AssociatedPath(op: FileOperationInstruction, successful: wstring, unredirected: wstring): wstring {
    match op.filenameHandleAssociation
    case NoName => []
    case WhicheverWasSuccessful => successful
    case UnredirectedName => unredirected
    case RedirectedName => op.redirectedFilename.GetOr([])
  }

  method AttemptAll(
    system: System, op: FileOperationInstruction, disposition: CreateDisposition, directory: bool,
    unredirected: wstring)
    returns (status: NtStatus, last: Option<wstring>)
    modifies system
    ensures
      Progress(status, last, system.volume)
      == TryInstruction(old(system.volume), system.refuse, op, disposition, directory, unredirected)
  {
    hide NtCreate, FsKey, ShouldTryNextFilename, SelectCreateDispositionsToTry, FilesToTry;
    WorthTrying();
    status, last := StatusObjectPathNotFound, None;
    var dispositions := SelectCreateDispositionsToTry(op.createDispositionPreference, disposition);
    var files := FilesToTry(op, unredirected);
    ghost var goal := TryInstruction(system.volume, system.refuse, op, disposition, directory, unredirected);
    assert dispositions[0..] == dispositions;
    for i := 0 to |dispositions|
      invariant ShouldTryNextFilename(status)
      invariant
        TryAll(Progress(status, last, system.volume), system.refuse, Attempts(dispositions[i..], files), directory)
            == goal
    {
      assert dispositions[i..][0] == dispositions[i] && dispositions[i..][1..] == dispositions[i + 1..];
      TryAllConcat(
        Progress(status, last, system.volume), system.refuse, WithDisposition(dispositions[i], files),
        Attempts(dispositions[i + 1..], files), directory);
      status, last := AttemptFiles(system, dispositions[i], files, directory, status, last);
      if !ShouldTryNextFilename(status) {
        return;
      }
    }
  }

  method AttemptFiles(
    system: System, d: DispositionToTry, files: seq<wstring>, directory: bool, status0: NtStatus,
    last0: Option<wstring>)
    returns (status: NtStatus, last: Option<wstring>)
    requires ShouldTryNextFilename(status0)
    modifies system
    ensures
      Progress(status, last, system.volume)
      == TryAll(Progress(status0, last0, old(system.volume)), system.refuse, WithDisposition(d, files), directory)
  {
    hide NtCreate, FsKey, ShouldTryNextFilename;
    status, last := status0, last0;
    ghost var goal := TryAll(Progress(status, last, system.volume), system.refuse, WithDisposition(d, files),
        directory);
    assert files[0..] == files;
    for i := 0 to |files|
      invariant ShouldTryNextFilename(status)
      invariant
        TryAll(Progress(status, last, system.volume), system.refuse, WithDisposition(d, files[i..]), directory) == goal
    {
      ghost var a, rest := Attempt(d.condition, d.disposition, files[i]), WithDisposition(d, files[i + 1..]);
      assert files[i..][0] == files[i] && files[i..][1..] == files[i + 1..];
      assert WithDisposition(d, files[i..]) == [a] + rest && ([a] + rest)[1..] == rest;
      var shouldTryThisFile :=
        match d.condition
        case Unconditional => true
        case FileMustExist => Exists(system.volume.files, files[i])
        case FileMustNotExist => !Exists(system.volume.files, files[i]);
      if !shouldTryThisFile {
        continue;
      }
      last := Some(files[i]);
      status := system.NtCreateFile(files[i], d.disposition, directory);
      if !ShouldTryNextFilename(status) {
        return;
      }
    }
  }

  /** The pre-operation an instruction may call for. */
  function Prepared(v: Volume, refuse: Refusals, op: FileOperationInstruction): (NtStatus, Volume) {
    match op.ensureHierarchy
    case None => (StatusSuccess, v)
    case Some(path) => HierarchyResult(v, refuse, path)
  }

  /** Everything a file operation does: the status it returns, the volume afterwards, and what is recorded
      about the handle, if it is. */
  datatype Execution = Execution(status: NtStatus, volume: Volume, recorded: Option<(wstring, wstring)>)

  function Plain(v: Volume, refuse: Refusals, path: wstring, disposition: CreateDisposition, directory: bool)
    : Execution
  {
    var (status, after) := NtCreate(v, refuse, FsKey(path), disposition, directory);
    Execution(status, after, None)
  }

  function Execute(
    v: Volume, refuse: Refusals, op: FileOperationInstruction, disposition: CreateDisposition, directory: bool,
    unredirected: wstring): Execution
  {
    if op == NoRedirectionOrInterception() then Plain(v, refuse, unredirected, disposition, directory)
    else
      var (prepared, ready) := Prepared(v, refuse, op);
      if !NtSuccess(prepared) then Execution(prepared, ready, None)
      else
        var r := TryInstruction(ready, refuse, op, disposition, directory, unredirected);
        match r.last
        case None => Plain(r.volume, refuse, unredirected, disposition, directory)
        case Some(last) =>
          var associated := AssociatedPath(op, last, unredirected);
          Execution(
            r.status, r.volume,
            if NtSuccess(r.status) && associated != [] then Some((RemoveTrailing(associated), RemoveTrailing(last)))
            else None)
  }

  /** What an attempt may do is what the application asked for, or one half of it: to work on an existing file or to
      create a missing one. */
  predicate IsPartOf(d: CreateDisposition, disposition: CreateDisposition) {
    || d == disposition
    || (d == FileCreate && disposition in {FileOpenIf, FileOverwriteIf, FileSupersede})
    || (d == FileOpen && disposition == FileOpenIf)
    || (d == FileOverwrite && disposition == FileOverwriteIf)
  }

  lemma {:induction false} AttemptsAreOnFiles(
    dispositions: seq<DispositionToTry>, files: seq<wstring>, disposition: CreateDisposition, a: Attempt)
    requires forall d :: d in dispositions ==> IsPartOf(d.disposition, disposition)
    requires a in Attempts(dispositions, files)
    ensures a.path in files && IsPartOf(a.disposition, disposition)
    decreases |dispositions|
  {
    hide IsPartOf;
    if dispositions != [] {
      if a in WithDisposition(dispositions[0], files) {
        WithDispositionOnFiles(dispositions[0], files, a);
      } else {
        AttemptsAreOnFiles(dispositions[1..], files, disposition, a);
      }
    }
  }

  lemma {:induction false} WithDispositionOnFiles(d: DispositionToTry, files: seq<wstring>, a: Attempt)
    requires a in WithDisposition(d, files)
    ensures a.path in files && a.disposition == d.disposition
    decreases |files|
  {
    if files != [] && a != Attempt(d.condition, d.disposition, files[0]) {
      WithDispositionOnFiles(d, files[1..], a);
    }
  }

  /** What a call that an operation comes down to looks like. */
  ghost predicate IsCall(
    done: Execution, v: Volume, refuse: Refusals, files: seq<wstring>, disposition: CreateDisposition,
    directory: bool)
  {
    exists path, d ::
      path in files && IsPartOf(d, disposition)
      && (done.status, done.volume) == NtCreate(v, refuse, FsKey(path), d, directory)
  }

  /** Whatever the instruction, a file operation comes down to a single call, once the directory that it needs is there:
      on one of the files of the instruction, to do no more than the application asked for. If the directory cannot be
      provided, no call is made, the operation fails with the reason, and nothing is recorded. */
  lemma OperationIsOneCall(
    v: Volume, refuse: Refusals, op: FileOperationInstruction, disposition: CreateDisposition, directory: bool,
    unredirected: wstring)
    ensures
      var done := Execute(v, refuse, op, disposition, directory, unredirected);
      var (prepared, ready) := Prepared(v, refuse, op);
      if NtSuccess(prepared) then
        IsCall(done, ready, refuse, FilesToTry(op, unredirected), disposition, directory)
      else done == Execution(prepared, ready, None)
  {
    hide NtCreate, FsKey, TryInstruction, HierarchyResult, FilesToTry, RemoveTrailing, IsCall, AssociatedPath;
    var (prepared, ready) := Prepared(v, refuse, op);
    var done := Execute(v, refuse, op, disposition, directory, unredirected);
    if op == NoRedirectionOrInterception() {
      OneFile(op, unredirected);
      CallOn(done, v, refuse, FilesToTry(op, unredirected), disposition, directory, unredirected, disposition);
    } else if NtSuccess(prepared) {
      SomethingIsTried(ready, refuse, op, disposition, directory, unredirected);
      InstructionIsCall(ready, refuse, op, disposition, directory, unredirected, done);
    }
  }

  lemma OneFile(op: FileOperationInstruction, unredirected: wstring)
    requires op == NoRedirectionOrInterception()
    ensures unredirected in FilesToTry(op, unredirected)
  {
  }

  lemma CallOn(
    done: Execution, v: Volume, refuse: Refusals, files: seq<wstring>, disposition: CreateDisposition,
    directory: bool, path: wstring, d: CreateDisposition)
    requires path in files && IsPartOf(d, disposition)
    requires (done.status, done.volume) == NtCreate(v, refuse, FsKey(path), d, directory)
    ensures IsCall(done, v, refuse, files, disposition, directory)
  {
    hide NtCreate, FsKey, IsPartOf;
  }

  lemma InstructionIsCall(
    v: Volume, refuse: Refusals, op: FileOperationInstruction, disposition: CreateDisposition, directory: bool,
    unredirected: wstring, done: Execution)
    requires TryInstruction(v, refuse, op, disposition, directory, unredirected).last.Some?
    requires
      var r := TryInstruction(v, refuse, op, disposition, directory, unredirected);
      done.status == r.status && done.volume == r.volume
    ensures IsCall(done, v, refuse, FilesToTry(op, unredirected), disposition, directory)
  {
    hide NtCreate, FsKey, TryInstruction, FilesToTry, Attempts, IsCall;
    var files := FilesToTry(op, unredirected);
    var dispositions := SelectCreateDispositionsToTry(op.createDispositionPreference, disposition);
    InstructionIsDecidedByLastAttempt(v, refuse, op, disposition, directory, unredirected);
    var a :| a in Attempts(dispositions, files)
      && (done.status, done.volume) == NtCreate(v, refuse, FsKey(a.path), a.disposition, directory);
    PartsOnly(op.createDispositionPreference, disposition);
    AttemptsAreOnFiles(dispositions, files, disposition, a);
    CallOn(done, v, refuse, files, disposition, directory, a.path, a.disposition);
  }

  lemma PartsOnly(preference: CreateDispositionPreference, disposition: CreateDisposition)
    ensures
      forall d :: d in SelectCreateDispositionsToTry(preference, disposition) ==> IsPartOf(d.disposition, disposition)
  {
  }

  /** `newHandle` is the handle the system gives out if it opens or creates the file. */
  method NewFileHandle<T>(
    system: System, store: OpenHandleStore<T>, op: FileOperationInstruction, disposition: CreateDisposition,
    directory: bool, unredirected: wstring, newHandle: Handle)
    returns (status: NtStatus)
    requires
      op.ensureHierarchy.Some? && HasDriveLetterPrefix(Trimmed(op.ensureHierarchy.value)) ==>
        Normalised(Trimmed(op.ensureHierarchy.value))
    modifies system, store
    ensures
      var done := Execute(old(system.volume), system.refuse, op, disposition, directory, unredirected);
      && status == done.status && system.volume == done.volume
      && store.openHandles ==
         match done.recorded
         case None => old(store.openHandles)
         case Some((associated, realOpened)) => Inserted(old(store.openHandles), newHandle, associated, realOpened)
  {
    hide NtCreate, FsKey, TryInstruction, HierarchyResult, Trimmed;
    if op == NoRedirectionOrInterception() {
      status := system.NtCreateFile(unredirected, disposition, directory);
      return;
    }
    if op.ensureHierarchy.Some? {
      status := CreateDirectoryHierarchy(system, op.ensureHierarchy.value);
      if !NtSuccess(status) {
        return;
      }
    }
    var last;
    status, last := AttemptAll(system, op, disposition, directory, unredirected);
    if last == None {
      status := system.NtCreateFile(unredirected, disposition, directory);
      return;
    }
    if NtSuccess(status) {
      var associated := AssociatedPath(op, last.value, unredirected);
      if associated != [] {
        var _ := store.InsertHandle(newHandle, RemoveTrailing(associated), RemoveTrailing(last.value));
      }
    }
  }

  /** Closing: a handle that is on record is closed and removed in one step, any other is just closed.
      `systemCallResult` is what the system answers. */
  method CloseHandle<T>(store: OpenHandleStore<T>, handle: Handle, systemCallResult: NtStatus)
    returns (status: NtStatus)
    modifies store
    ensures status == systemCallResult
    ensures
      store.openHandles ==
      if NtSuccess(systemCallResult) then old(store.openHandles) - {handle} else old(store.openHandles)
  {
    var data := store.GetDataForHandle(handle);
    if data == None {
      return systemCallResult;
    }
    status, data := store.RemoveAndCloseHandle(handle, systemCallResult);
  }
}
