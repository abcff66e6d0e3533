/** What the system does when a program opens or creates files: a model of its create call on an abstract
    volume. */
module Volumes {
  import opened Wrappers
  import opened Text
  import opened NtStatuses
  import opened PrefixTrees
  import opened Filesystems

  datatype CreateDisposition = FileSupersede | FileOpen | FileCreate | FileOpenIf | FileOverwrite | FileOverwriteIf

  /** What exists, and what the files contain. */
  datatype Volume = Volume(files: Filesystem, contents: map<Path, seq<int>>)

  const STATUS_NOT_A_DIRECTORY: NtStatus := StatusOtherError(0xC000_0103)
  const STATUS_FILE_IS_A_DIRECTORY: NtStatus := StatusOtherError(0xC000_00BA)

  /** Failures after which another file name is worth a try. */
  predicate ShouldTryNextFilename(status: NtStatus) {
    status in {StatusObjectNameInvalid, StatusObjectNameNotFound, StatusObjectPathInvalid, StatusObjectPathNotFound}
  }

  /** These are the answers that something is not there, and no others; in particular not that access is denied. */
  lemma OnlyNotFoundIsTriedAgain(status: NtStatus)
    ensures ShouldTryNextFilename(status) <==> status in NOT_FOUND_STATUSES
  {
  }

  /** Reasons of the system's own, such as access rights, not to open or create a file. They are never that
      it is not there. */
  type Refusals = r: Path -> Option<NtStatus> |
    forall p :: r(p).Some? ==> !NtSuccess(r(p).value) && r(p).value !in NOT_FOUND_STATUSES
    witness (p: Path) => None

  predicate HasParent(files: Filesystem, p: Path) {
    |p| > 1 && Parent(p) in files && files[Parent(p)] == Directory
  }

  /** One call to open or create a file, or with `directory` a directory. */
  function NtCreate(v: Volume, refuse: Refusals, p: Path, disposition: CreateDisposition, directory: bool)
    : (NtStatus, Volume)
  {
    if p in v.files then
      if disposition == FileCreate then (StatusObjectNameCollision, v)
      else if directory && v.files[p] == File then (STATUS_NOT_A_DIRECTORY, v)
      else if refuse(p).Some? then (refuse(p).value, v)
      else if disposition == FileOpen || disposition == FileOpenIf then (StatusSuccess, v)
      else if v.files[p] == Directory then (STATUS_FILE_IS_A_DIRECTORY, v)
      else (StatusSuccess, v.(contents := v.contents[p := []]))
    else if !HasParent(v.files, p) then (StatusObjectPathNotFound, v)
    else if disposition == FileOpen || disposition == FileOverwrite then (StatusObjectNameNotFound, v)
    else if refuse(p).Some? then (refuse(p).value, v)
    else (StatusSuccess, Volume(v.files[p := if directory then Directory else File], v.contents[p := []]))
  }

  /** A call that fails changes nothing. */
  lemma FailureChangesNothing(v: Volume, refuse: Refusals, p: Path, disposition: CreateDisposition, directory: bool)
    ensures !NtSuccess(NtCreate(v, refuse, p, disposition, directory).0) ==>
        NtCreate(v, refuse, p, disposition, directory).1 == v
  {
  }

  class System {
    var volume: Volume
    const refuse: Refusals

    constructor (volume: Volume, refuse: Refusals)
      ensures this.volume == volume && this.refuse == refuse
    {
      this.volume, this.refuse := volume, refuse;
    }

    method NtCreateFile(path: wstring, disposition: CreateDisposition, directory: bool) returns (status: NtStatus)
      modifies this
      ensures (status, volume) == NtCreate(old(volume), refuse, FsKey(path), disposition, directory)
    {
      var result := NtCreate(volume, refuse, FsKey(path), disposition, directory);
      status, volume := result.0, result.1;
    }

    method EnsureDirectoryExists(path: wstring) returns (status: NtStatus)
      modifies this
      ensures (status, volume) == NtCreate(old(volume), refuse, FsKey(path), FileOpenIf, true)
    {
      status := NtCreateFile(path, FileOpenIf, true);
    }
  }
}
