/** Bringing a task's record and its partial file together before an attempt. */
module TaskReconciling {
  import opened Common
  import opened LocalFiles
  import opened ResumeProtocol
  import StateFiles

  type LocalState = StateFiles.LocalState

  class TaskRecord {
    var committedBytes: nat
    var expectedSize: nat
    var localState: LocalState

    constructor (committed: nat, expected: nat, state: LocalState)
      ensures committedBytes == committed && expectedSize == expected && localState == state
    {
      committedBytes, expectedSize, localState := committed, expected, state;
    }

    /**
      `reconcileTask` on a file that may not exist; `opens` and `flushes` say whether opening and flushing
      work. A success is the protocol's reconciling step: record and file meet at the shorter of the two.
      A failure never touches the record, and the file only if the flush after the cut is what failed.
     */
    method Reconcile(file: LocalFile?, opens: bool, flushes: bool) returns (ok: bool)
      requires file != null ==> file.Valid() && file.isOpen && file.writable
      modifies this`committedBytes, this`localState, file
      ensures file != null ==> file.Valid() && expectedSize == old(expectedSize)
      ensures ok <==>
              file == null || (opens && |old(file.flat)| <= expectedSize
              && (|old(file.flat)| > old(committedBytes) ==> flushes))
      ensures ok ==> committedBytes == ReconciledCount(old(committedBytes), if file == null then None
              else Some(Disk(old(file.flat), 0)))
      ensures ok ==> (localState.Present? <==> committedBytes > 0)
      ensures ok && file != null ==> file.flat == old(file.flat)[..committedBytes] && |file.flat| == committedBytes
      ensures !ok ==> committedBytes == old(committedBytes) && localState == old(localState)
      ensures !ok ==>
              file.flat == old(file.flat) || (opens && !flushes && committedBytes < |old(file.flat)|
              && file.flat == old(file.flat)[..committedBytes])
    {
      if file == null {
        committedBytes, localState := 0, StateFiles.NotDownloaded;
        return true;
      }
      if !opens { return false; }
      var sized, physicalSize := file.Size();
      if !sized || physicalSize > expectedSize { return false; }
      if physicalSize > committedBytes {
        var cut := file.Truncate(committedBytes);
        if !cut || !flushes { return false; }
      } else if physicalSize < committedBytes {
        committedBytes := physicalSize;
      }
      localState := if committedBytes != 0 then StateFiles.Present else StateFiles.NotDownloaded;
      return true;
    }
  }

  /**
    What reconciling is for: if the record's count is durable and a prefix of the remote file, then after a
    success the record counts exactly the file, and the file is that prefix of the remote one.
   */
  lemma ReconciledIsPrefix(remote: seq<byte>, committed: nat, disk: Disk)
    requires Min(committed, |disk.shown|) <= |remote|
    requires disk.shown[..Min(committed, |disk.shown|)] == remote[..Min(committed, |disk.shown|)]
    ensures var count := ReconciledCount(committed, Some(disk));
            count == |ReconciledFile(committed, Some(disk)).value.shown|
                && ReconciledFile(committed, Some(disk)).value.shown == remote[..count]
  {
    if |disk.shown| <= committed { assert disk.shown[..|disk.shown|] == disk.shown; }
  }
}
