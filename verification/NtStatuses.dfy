/** System status codes, as far as the program tells them apart. */
module NtStatuses {
  datatype NtStatus =
    | StatusSuccess
    | StatusMoreEntries
    | StatusBufferOverflow
    | StatusNoMoreFiles
    | StatusNoSuchFile
    | StatusBufferTooSmall
    | StatusObjectNameInvalid
    | StatusObjectNameNotFound
    | StatusObjectNameCollision
    | StatusObjectPathInvalid
    | StatusObjectPathNotFound
    | StatusInternalError
    | StatusOtherError(code: nat)

  predicate NtSuccess(status: NtStatus) {
    status in {StatusSuccess, StatusMoreEntries}
  }

  /** What the system answers if something that is to be enumerated or queried is not there. */
  const NOT_THERE_STATUSES: set<NtStatus> := {
    StatusNoSuchFile, StatusObjectNameInvalid, StatusObjectNameNotFound, StatusObjectPathInvalid,
    StatusObjectPathNotFound}

  /** What it answers if something that is to be opened is not there. */
  const NOT_FOUND_STATUSES: set<NtStatus> := {
    StatusObjectNameInvalid, StatusObjectNameNotFound, StatusObjectPathInvalid, StatusObjectPathNotFound}

  /** Failures that mean "it is not there". */
  predicate MeansNotFound(status: NtStatus) {
    status in {
      StatusNoSuchFile, StatusObjectNameInvalid, StatusObjectNameNotFound, StatusObjectPathInvalid,
      StatusObjectPathNotFound}
  }

  /** These are the answers that something is not there, and no others. */
  lemma OnlyNotThereMeansNotFound(status: NtStatus)
    ensures MeansNotFound(status) <==> status in NOT_THERE_STATUSES
  {
  }
}
