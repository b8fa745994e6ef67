/**
 * The `autodraft_processed` table: for each Gmail thread, the id of the last
 * message a reply draft was written for and when (epoch seconds). The
 * auto-draft run consults it to avoid drafting twice for the same head message.
 *
 * The read swallows every error and answers "nothing stored"; the write does
 * not test the handle, so on an uninitialised store it fails.
 */
module AutodraftState {
  import opened Wrappers

  datatype StateRow = StateRow(lastMessageId: string, draftedAt: int)

  /** What `getAutodraftState` returns: `last_message_id || undefined`, `Number(drafted_at || 0)`. */
  datatype ThreadState = ThreadState(threadId: string, lastMessageId: Option<string>, draftedAt: int)

  datatype StoreUnavailable = StoreUnavailable

  /** `Math.floor(Date.now() / 1000)`: Dafny's division by a positive divisor already floors. */
  function EpochSeconds(nowMs: int): (s: int)
    ensures s * 1000 <= nowMs < s * 1000 + 1000
  {
    nowMs / 1000
  }

  function ToThreadState(threadId: string, row: StateRow): (r: ThreadState)
    ensures r.threadId == threadId && r.draftedAt == row.draftedAt
    ensures r.lastMessageId.None? <==> row.lastMessageId == ""
    ensures r.lastMessageId.Some? ==> r.lastMessageId.value == row.lastMessageId
  {
    ThreadState(threadId, if row.lastMessageId == "" then None else Some(row.lastMessageId), row.draftedAt)
  }

  /** What a read of the table answers for a thread: nothing when the store is not ready
    * or holds no row for it. */
  function Lookup(ready: bool, rows: map<string, StateRow>, threadId: string): (r: Option<ThreadState>)
    ensures r.Some? <==> ready && threadId in rows
    ensures r.Some? ==> r.value.lastMessageId == (if rows[threadId].lastMessageId == "" then None else Some(rows[threadId].lastMessageId))
  {
    if ready && threadId in rows then Some(ToThreadState(threadId, rows[threadId])) else None
  }

  class AutodraftStore {
    /** Whether the database handle exists. */
    var ready: bool
    var rows: map<string, StateRow>

    constructor (ready: bool)
      ensures this.ready == ready && rows == map[]
    {
      this.ready := ready;
      rows := map[];
    }

    /** `getAutodraftState`. */
    function GetAutodraftState(threadId: string): (r: Option<ThreadState>)
      reads this
      ensures r.Some? <==> ready && threadId in rows
      ensures r.Some? ==> r.value == ToThreadState(threadId, rows[threadId])
    {
      Lookup(ready, rows, threadId)
    }

    /** `upsertAutodraftState`: replaces both columns of the thread's row, stamped with the
      * current second. */
    method UpsertAutodraftState(threadId: string, lastMessageId: string, nowMs: int)
      returns (r: Result<(), StoreUnavailable>)
      modifies this`rows
      ensures r.Failure? <==> !ready
      ensures !ready ==> rows == old(rows)
      ensures ready ==> rows == old(rows)[threadId := StateRow(lastMessageId, EpochSeconds(nowMs))]
    {
      if !ready {
        return Failure(StoreUnavailable);
      }
      rows := rows[threadId := StateRow(lastMessageId, EpochSeconds(nowMs))];
      return Success(());
    }
  }
}
