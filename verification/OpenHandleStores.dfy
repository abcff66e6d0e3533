/** The store of what is known about open handles. Each method runs under the store's lock, so each is
    one atomic step for the other threads. */
module OpenHandleStores {
  import opened Wrappers
  import opened Text
  import opened NtStatuses

  type Handle = nat

  datatype HandleData<T> = HandleData(associatedPath: wstring, realOpenedPath: wstring, directoryEnumeration: Option<T>)

  type HandleTable<T> = map<Handle, HandleData<T>>

  /** Inserting keeps an entry that is already there. */
  function Inserted<T>(table: HandleTable<T>, h: Handle, associatedPath: wstring, realOpenedPath: wstring)
    : (r: HandleTable<T>)
    ensures r.Keys == table.Keys + {h}
  {
    if h in table then table else table[h := HandleData(associatedPath, realOpenedPath, None)]
  }

  /** Inserting or updating replaces the paths but keeps an enumeration in progress. */
  function InsertedOrUpdated<T>(table: HandleTable<T>, h: Handle, associatedPath: wstring, realOpenedPath: wstring)
    : (r: HandleTable<T>)
    ensures r.Keys == table.Keys + {h}
  {
    if h in table then
      table[h := table[h].(associatedPath := associatedPath, realOpenedPath := realOpenedPath)]
    else table[h := HandleData(associatedPath, realOpenedPath, None)]
  }

  /** Puts a directory enumeration into an entry, if there is one. */
  function Associated<T>(table: HandleTable<T>, h: Handle, enumeration: T): (r: HandleTable<T>)
    ensures r.Keys == table.Keys
  {
    if h in table then table[h := table[h].(directoryEnumeration := Some(enumeration))] else table
  }

  class OpenHandleStore<T> {
    var openHandles: HandleTable<T>

    constructor ()
      ensures openHandles == map[]
    {
      openHandles := map[];
    }

    method GetDataForHandle(handle: Handle) returns (data: Option<HandleData<T>>)
      ensures data == if handle in openHandles then Some(openHandles[handle]) else None
    {
      data := if handle in openHandles then Some(openHandles[handle]) else None;
    }

    /** `inserted` is what the source asserts in its debug build. */
    method InsertHandle(handle: Handle, associatedPath: wstring, realOpenedPath: wstring) returns (inserted: bool)
      modifies this
      ensures openHandles == Inserted(old(openHandles), handle, associatedPath, realOpenedPath)
      ensures inserted == (handle !in old(openHandles))
    {
      inserted := handle !in openHandles;
      if inserted {
        openHandles := openHandles[handle := HandleData(associatedPath, realOpenedPath, None)];
      }
    }

    method InsertOrUpdateHandle(handle: Handle, associatedPath: wstring, realOpenedPath: wstring)
      modifies this
      ensures openHandles == InsertedOrUpdated(old(openHandles), handle, associatedPath, realOpenedPath)
    {
      if handle !in openHandles {
        openHandles := openHandles[handle := HandleData(associatedPath, realOpenedPath, None)];
      } else {
        openHandles :=
          openHandles[handle :=
              openHandles[handle].(associatedPath := associatedPath, realOpenedPath := realOpenedPath)];
      }
    }

    method AssociateDirectoryEnumerationState(handle: Handle, state: T)
      modifies this
      ensures openHandles == Associated(old(openHandles), handle, state)
      ensures
        forall h :: h in openHandles ==>
          openHandles[h] ==
          if h == handle then old(openHandles)[h].(directoryEnumeration := Some(state)) else old(openHandles)[h]
    {
      if handle in openHandles {
        openHandles := openHandles[handle := openHandles[handle].(directoryEnumeration := Some(state))];
      }
    }

    method RemoveHandle(handle: Handle) returns (removed: Option<HandleData<T>>)
      modifies this
      ensures openHandles == old(openHandles) - {handle}
      ensures removed == if handle in old(openHandles) then Some(old(openHandles)[handle]) else None
    {
      removed := if handle in openHandles then Some(openHandles[handle]) else None;
      openHandles := openHandles - {handle};
    }

    /** Closes a handle and removes it in one step. `systemCallResult` is what the system answers to the
        request to close; unless it is success, nothing changes. */
    method RemoveAndCloseHandle(handle: Handle, systemCallResult: NtStatus)
      returns (status: NtStatus, removed: Option<HandleData<T>>)
      requires handle in openHandles
      modifies this
      ensures status == systemCallResult
      ensures
        if NtSuccess(status) then
          openHandles == old(openHandles) - {handle} && removed == Some(old(openHandles)[handle])
        else openHandles == old(openHandles) && removed == None
    {
      status := systemCallResult;
      if !NtSuccess(status) {
        return status, None;
      }
      removed := Some(openHandles[handle]);
      openHandles := openHandles - {handle};
    }
  }
}
