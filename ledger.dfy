/**
 * The execution ledger: the `executions` table of the service's SQLite store,
 * keyed by `trace_id`, holding one row per action that waits for a human
 * confirmation. Rows are created `pending`; the two compare-and-swap updates
 * move a row out of `pending` (to `confirmed` or `canceled`); the unguarded
 * update merges a patch into a row whatever its status.
 *
 * Every patch is a SQL `COALESCE(new, old)` merge: an omitted field keeps its
 * stored value. Values are stored as written and converted on the way out
 * (`row.x || undefined`), so a stored empty string (or an `expires_at` of 0)
 * reads back as absent.
 */
module Ledger {
  import opened Wrappers

  datatype Status = Pending | Confirmed | Canceled | Executed

  /** The record's `type` column. */
  datatype ExecType = GmailSend | GmailDraft | CalendarCreate

  datatype PendingParams = PendingParams(
    to: Option<string>,
    subject: Option<string>,
    body: Option<string>,
    threadId: Option<string>,
    draftId: Option<string>)

  /** What a caller passes to `createExecution`: a record without its timestamps. */
  datatype NewExecution = NewExecution(
    traceId: string,
    kind: ExecType,
    userId: string,
    action: string,
    params: PendingParams,
    digest: Option<string>,
    expiresAt: Option<int>,
    status: Status,
    reason: Option<string>,
    channel: Option<string>,
    messageTs: Option<string>)

  /** A row of the table, holding the values as they were written. */
  datatype Row = Row(
    kind: ExecType,
    userId: string,
    action: string,
    params: PendingParams,
    digest: Option<string>,
    expiresAt: Option<int>,
    status: Status,
    reason: Option<string>,
    channel: Option<string>,
    messageTs: Option<string>,
    createdAt: int,
    updatedAt: int)

  /** A record as the store hands it back to callers. */
  datatype ExecutionRecord = ExecutionRecord(
    traceId: string,
    kind: ExecType,
    userId: string,
    action: string,
    params: PendingParams,
    digest: Option<string>,
    expiresAt: Option<int>,
    status: Status,
    reason: Option<string>,
    channel: Option<string>,
    messageTs: Option<string>,
    createdAt: int,
    updatedAt: int)

  /** The patch accepted by `updateExecution`; `None` means "omitted". */
  datatype Patch = Patch(
    status: Option<Status>,
    reason: Option<string>,
    channel: Option<string>,
    messageTs: Option<string>,
    expiresAt: Option<int>,
    digest: Option<string>)

  /** The patch accepted by `confirmIfPending`. */
  datatype ConfirmPatch = ConfirmPatch(
    channel: Option<string>,
    messageTs: Option<string>,
    expiresAt: Option<int>,
    digest: Option<string>)

  /** The patch accepted by `cancelIfPending`. */
  datatype CancelPatch = CancelPatch(
    reason: Option<string>,
    channel: Option<string>,
    messageTs: Option<string>)

  /** The insert fails on the UNIQUE `trace_id` column. */
  datatype StoreError = DuplicateTraceId

  type Table = map<string, Row>

  // ---------------------------------------------------------------------
  // value conversions at the store boundary
  // ---------------------------------------------------------------------

  /** `v || null` / `v || undefined` on an optional string: the empty string counts as absent. */
  function NonEmpty(v: Option<string>): (r: Option<string>)
    ensures r.Some? ==> r == v && r.value != ""
    ensures v.Some? && v.value != "" ==> r == v
  {
    if v == Some("") then None else v
  }

  /** `v || undefined` on an optional number: zero counts as absent. */
  function NonZero(v: Option<int>): (r: Option<int>)
    ensures r.Some? ==> r == v && r.value != 0
    ensures v.Some? && v.value != 0 ==> r == v
  {
    if v == Some(0) then None else v
  }

  /** The record `getExecutionByTraceId` builds from a stored row. */
  function ToRecord(id: string, row: Row): ExecutionRecord
  {
    ExecutionRecord(id, row.kind, row.userId, row.action, row.params,
      NonEmpty(row.digest), NonZero(row.expiresAt), row.status,
      NonEmpty(row.reason), NonEmpty(row.channel), NonEmpty(row.messageTs),
      row.createdAt, row.updatedAt)
  }

  /** The row `createExecution` inserts: digest and expiry are written as given
    * (`?? null`), reason, channel and message timestamp drop the empty string (`|| null`). */
  function InsertedRow(e: NewExecution, now: int): Row
  {
    Row(e.kind, e.userId, e.action, e.params, e.digest, e.expiresAt, e.status,
      NonEmpty(e.reason), NonEmpty(e.channel), NonEmpty(e.messageTs), now, now)
  }

  // ---------------------------------------------------------------------
  // the table operations as functions of the table
  // ---------------------------------------------------------------------

  /** `createExecution`: insert a fresh row, or fail on a duplicate `trace_id`. */
  function Create(t: Table, e: NewExecution, now: int): (res: (Table, Result<ExecutionRecord, StoreError>))
    ensures e.traceId in t ==> res == (t, Failure(DuplicateTraceId))
    ensures e.traceId !in t ==> res.1.Success?
    ensures res.1.Success? ==>
      res.0.Keys == t.Keys + {e.traceId} && (forall k :: k in t ==> res.0[k] == t[k])
    ensures res.1.Success? ==>
      var row := res.0[e.traceId];
      row.kind == e.kind && row.userId == e.userId && row.action == e.action && row.params == e.params
      && row.digest == e.digest && row.expiresAt == e.expiresAt && row.status == e.status
      && row.reason == NonEmpty(e.reason) && row.channel == NonEmpty(e.channel)
      && row.messageTs == NonEmpty(e.messageTs) && row.createdAt == now && row.updatedAt == now
    ensures res.1.Success? ==>
      var r := res.1.value;
      r.traceId == e.traceId && r.kind == e.kind && r.userId == e.userId && r.action == e.action
      && r.params == e.params && r.digest == e.digest && r.expiresAt == e.expiresAt && r.status == e.status
      && r.reason == e.reason && r.channel == e.channel && r.messageTs == e.messageTs
      && r.createdAt == now && r.updatedAt == now
    ensures res.1.Success? ==>
      var r := res.1.value;
      Lookup(res.0, e.traceId)
        == Some(r.(digest := NonEmpty(r.digest), expiresAt := NonZero(r.expiresAt), reason := NonEmpty(r.reason),
                   channel := NonEmpty(r.channel), messageTs := NonEmpty(r.messageTs)))
  {
    if e.traceId in t then (t, Failure(DuplicateTraceId))
    else
      (t[e.traceId := InsertedRow(e, now)],
       Success(ExecutionRecord(e.traceId, e.kind, e.userId, e.action, e.params, e.digest,
         e.expiresAt, e.status, e.reason, e.channel, e.messageTs, now, now)))
  }

  /** `getExecutionByTraceId`. */
  function Lookup(t: Table, id: string): (r: Option<ExecutionRecord>)
    ensures r.Some? <==> id in t
    ensures r.Some? ==> r.value.traceId == id && r.value.status == t[id].status
    ensures r.Some? ==> r.value.createdAt == t[id].createdAt && r.value.updatedAt == t[id].updatedAt
    ensures r.Some? && r.value.reason.Some? ==> r.value.reason.value != ""
  {
    if id in t then Some(ToRecord(id, t[id])) else None
  }

  function ApplyUpdate(row: Row, p: Patch, now: int): Row
  {
    row.(status := p.status.UnwrapOr(row.status),
         reason := Coalesce(p.reason, row.reason),
         channel := Coalesce(p.channel, row.channel),
         messageTs := Coalesce(p.messageTs, row.messageTs),
         expiresAt := Coalesce(p.expiresAt, row.expiresAt),
         digest := Coalesce(p.digest, row.digest),
         updatedAt := now)
  }

  function ApplyConfirm(row: Row, p: ConfirmPatch, now: int): Row
  {
    row.(status := Confirmed,
         channel := Coalesce(p.channel, row.channel),
         messageTs := Coalesce(p.messageTs, row.messageTs),
         expiresAt := Coalesce(p.expiresAt, row.expiresAt),
         digest := Coalesce(p.digest, row.digest),
         updatedAt := now)
  }

  function ApplyCancel(row: Row, p: CancelPatch, now: int): Row
  {
    row.(status := Canceled,
         reason := Coalesce(p.reason, row.reason),
         channel := Coalesce(p.channel, row.channel),
         messageTs := Coalesce(p.messageTs, row.messageTs),
         updatedAt := now)
  }

  /** `updateExecution`: merge the patch into the row whatever its status, and re-read it. */
  function Update(t: Table, id: string, p: Patch, now: int): (res: (Table, Option<ExecutionRecord>))
    ensures res.1.Some? <==> id in t
    ensures res.1.None? ==> res.0 == t
    ensures res.0.Keys == t.Keys
    ensures forall k :: k in t && k != id ==> res.0[k] == t[k]
    ensures res.1.Some? ==> res.1 == Lookup(res.0, id)
    ensures res.1.Some? ==>
      res.0[id].status == p.status.UnwrapOr(t[id].status)
      && res.0[id].createdAt == t[id].createdAt && res.0[id].updatedAt == now
  {
    if id in t then
      var t' := t[id := ApplyUpdate(t[id], p, now)];
      (t', Lookup(t', id))
    else (t, None)
  }

  /** `confirmIfPending`: the compare-and-swap `pending -> confirmed`. */
  function Confirm(t: Table, id: string, p: ConfirmPatch, now: int): (res: (Table, Option<ExecutionRecord>))
    ensures res.1.Some? <==> id in t && t[id].status == Pending
    ensures res.1.None? ==> res.0 == t
    ensures res.0.Keys == t.Keys
    ensures forall k :: k in t && k != id ==> res.0[k] == t[k]
    ensures res.1.Some? ==> res.1 == Lookup(res.0, id)
    ensures res.1.Some? ==>
      res.0[id].status == Confirmed && res.0[id].reason == t[id].reason
      && res.0[id].createdAt == t[id].createdAt && res.0[id].updatedAt == now
  {
    if id in t && t[id].status == Pending then
      var t' := t[id := ApplyConfirm(t[id], p, now)];
      (t', Lookup(t', id))
    else (t, None)
  }

  /** `cancelIfPending`: the compare-and-swap `pending -> canceled`. */
  function Cancel(t: Table, id: string, p: CancelPatch, now: int): (res: (Table, Option<ExecutionRecord>))
    ensures res.1.Some? <==> id in t && t[id].status == Pending
    ensures res.1.None? ==> res.0 == t
    ensures res.0.Keys == t.Keys
    ensures forall k :: k in t && k != id ==> res.0[k] == t[k]
    ensures res.1.Some? ==> res.1 == Lookup(res.0, id)
    ensures res.1.Some? ==>
      res.0[id].status == Canceled
      && res.0[id].expiresAt == t[id].expiresAt && res.0[id].digest == t[id].digest
      && res.0[id].createdAt == t[id].createdAt && res.0[id].updatedAt == now
  {
    if id in t && t[id].status == Pending then
      var t' := t[id := ApplyCancel(t[id], p, now)];
      (t', Lookup(t', id))
    else (t, None)
  }

  /** The row filter of `findExpiredConfirmed`: confirmed, with a stored expiry at or before `now`. */
  predicate IsExpiredConfirmed(row: Row, now: int)
  {
    row.status == Confirmed && row.expiresAt.Some? && row.expiresAt.value <= now
  }

  function ExpiredConfirmed(t: Table, now: int): set<string>
  {
    set id | id in t && IsExpiredConfirmed(t[id], now)
  }

  function TraceIds(recs: seq<ExecutionRecord>): set<string>
  {
    set i | 0 <= i < |recs| :: recs[i].traceId
  }

  /** Each record is the read-back of the row stored under its trace id. */
  predicate ReadBack(recs: seq<ExecutionRecord>, t: Table)
  {
    forall i :: 0 <= i < |recs| ==>
      recs[i].traceId in t && recs[i] == ToRecord(recs[i].traceId, t[recs[i].traceId])
  }

  predicate DistinctIds(recs: seq<ExecutionRecord>)
  {
    forall i, j :: 0 <= i < j < |recs| ==> recs[i].traceId != recs[j].traceId
  }

  /** What the scan of `findExpiredConfirmed` knows after visiting the keys in `seen`. */
  predicate ScanInv(recs: seq<ExecutionRecord>, t: Table, now: int, seen: set<string>)
  {
    (forall i :: 0 <= i < |recs| ==> recs[i].traceId in seen) &&
    TraceIds(recs) == ExpiredConfirmed(t, now) * seen &&
    ReadBack(recs, t) && DistinctIds(recs)
  }

  lemma ScanStep(recs: seq<ExecutionRecord>, t: Table, now: int, seen: set<string>, id: string)
    requires id in t && id !in seen
    requires ScanInv(recs, t, now, seen)
    ensures ScanInv(if IsExpiredConfirmed(t[id], now) then recs + [ToRecord(id, t[id])] else recs,
                    t, now, seen + {id})
  {
    if IsExpiredConfirmed(t[id], now) {
      TraceIdsAppend(recs, ToRecord(id, t[id]));
    }
  }

  lemma ScanDone(recs: seq<ExecutionRecord>, t: Table, now: int, seen: set<string>)
    requires seen == t.Keys
    requires ScanInv(recs, t, now, seen)
    ensures TraceIds(recs) == ExpiredConfirmed(t, now)
  {
  }

  lemma TraceIdsAppend(recs: seq<ExecutionRecord>, r: ExecutionRecord)
    ensures TraceIds(recs + [r]) == TraceIds(recs) + {r.traceId}
  {
    var s := recs + [r];
    forall x | x in TraceIds(s) ensures x in TraceIds(recs) + {r.traceId} {
      var i :| 0 <= i < |s| && s[i].traceId == x;
      if i < |recs| {
        assert recs[i] == s[i];
      }
    }
    forall x | x in TraceIds(recs) + {r.traceId} ensures x in TraceIds(s) {
      if x == r.traceId {
        assert s[|recs|].traceId == x;
      } else {
        var i :| 0 <= i < |recs| && recs[i].traceId == x;
        assert s[i] == recs[i];
      }
    }
  }

  // ---------------------------------------------------------------------
  // the store
  // ---------------------------------------------------------------------

  class ExecutionLedger {
    var rows: Table

    constructor ()
      ensures rows == map[]
    {
      rows := map[];
    }

    method CreateExecution(e: NewExecution, now: int) returns (r: Result<ExecutionRecord, StoreError>)
      modifies this
      ensures (rows, r) == Create(old(rows), e, now)
    {
      var res := Create(rows, e, now);
      rows, r := res.0, res.1;
    }

    function GetExecutionByTraceId(id: string): (r: Option<ExecutionRecord>)
      reads this
      ensures r.Some? <==> id in rows
      ensures r.Some? ==> r.value.traceId == id && r.value.status == rows[id].status
    {
      Lookup(rows, id)
    }

    method UpdateExecution(id: string, p: Patch, now: int) returns (r: Option<ExecutionRecord>)
      modifies this
      ensures (rows, r) == Update(old(rows), id, p, now)
    {
      var res := Update(rows, id, p, now);
      rows, r := res.0, res.1;
    }

    method ConfirmIfPending(id: string, p: ConfirmPatch, now: int) returns (r: Option<ExecutionRecord>)
      modifies this
      ensures (rows, r) == Confirm(old(rows), id, p, now)
    {
      var res := Confirm(rows, id, p, now);
      rows, r := res.0, res.1;
    }

    method CancelIfPending(id: string, p: CancelPatch, now: int) returns (r: Option<ExecutionRecord>)
      modifies this
      ensures (rows, r) == Cancel(old(rows), id, p, now)
    {
      var res := Cancel(rows, id, p, now);
      rows, r := res.0, res.1;
    }

    /** `findExpiredConfirmed`: every expired confirmed row exactly once, as read back. */
    method FindExpiredConfirmed(now: int) returns (recs: seq<ExecutionRecord>)
      ensures TraceIds(recs) == ExpiredConfirmed(rows, now)
      ensures ReadBack(recs, rows) && DistinctIds(recs)
    {
      var t := rows;
      var todo := t.Keys;
      ghost var seen: set<string> := {};
      recs := [];
      while todo != {}
        invariant todo + seen == t.Keys && todo !! seen
        invariant ScanInv(recs, t, now, seen)
        decreases |todo|
      {
        var id :| id in todo;
        ghost var before := recs;
        if IsExpiredConfirmed(t[id], now) {
          recs := recs + [ToRecord(id, t[id])];
        }
        ScanStep(before, t, now, seen, id);
        todo := todo - {id};
        seen := seen + {id};
      }
      ScanDone(recs, t, now, seen);
    }
  }

  // ---------------------------------------------------------------------
  // properties
  // ---------------------------------------------------------------------

  /** Of two compare-and-swap calls on one trace id, at most one returns a record. */
  lemma TwoCasAtMostOneWins(t: Table, id: string, first: CasCall, second: CasCall, now1: int, now2: int)
    ensures !(RunCas(t, id, first, now1).1.Some? && RunCas(RunCas(t, id, first, now1).0, id, second, now2).1.Some?)
  {
  }

  datatype CasCall = DoConfirm(cp: ConfirmPatch) | DoCancel(xp: CancelPatch)

  function RunCas(t: Table, id: string, c: CasCall, now: int): (Table, Option<ExecutionRecord>)
  {
    match c
    case DoConfirm(cp) => Confirm(t, id, cp, now)
    case DoCancel(xp) => Cancel(t, id, xp, now)
  }

  /** Any call the store accepts on one trace id, in a history of calls. */
  datatype LedgerOp =
    | CasOp(call: CasCall, at: int)
    | UpdateOp(patch: Patch, at: int)

  /** Replays a history of calls on one trace id; counts the compare-and-swaps that returned a record. */
  function Replay(t: Table, id: string, ops: seq<LedgerOp>): (Table, nat)
  {
    if ops == [] then (t, 0)
    else
      match ops[0]
      case CasOp(c, at) =>
        var s := RunCas(t, id, c, at);
        var rest := Replay(s.0, id, ops[1..]);
        (rest.0, rest.1 + (if s.1.Some? then 1 else 0))
      case UpdateOp(p, at) =>
        Replay(Update(t, id, p, at).0, id, ops[1..])
  }

  /** No unguarded update in the history writes `pending` back (no caller of the service does). */
  predicate NeverReopens(ops: seq<LedgerOp>)
  {
    forall i :: 0 <= i < |ops| && ops[i].UpdateOp? ==> ops[i].patch.status != Some(Pending)
  }

  predicate IsPendingIn(t: Table, id: string)
  {
    id in t && t[id].status == Pending
  }

  /** Once a row has left `pending` it never returns there, and no compare-and-swap succeeds on it. */
  lemma {:induction false} LeftPendingStaysLeft(t: Table, id: string, ops: seq<LedgerOp>)
    requires NeverReopens(ops)
    requires !IsPendingIn(t, id)
    ensures !IsPendingIn(Replay(t, id, ops).0, id)
    ensures Replay(t, id, ops).1 == 0
    decreases |ops|
  {
    if ops != [] {
      assert NeverReopens(ops[1..]) by {
        forall i | 0 <= i < |ops[1..]| && ops[1..][i].UpdateOp?
          ensures ops[1..][i].patch.status != Some(Pending)
        {
          assert ops[1..][i] == ops[i + 1];
        }
      }
      match ops[0]
      case CasOp(c, at) =>
        LeftPendingStaysLeft(RunCas(t, id, c, at).0, id, ops[1..]);
      case UpdateOp(p, at) =>
        assert ops[0].patch.status != Some(Pending);
        LeftPendingStaysLeft(Update(t, id, p, at).0, id, ops[1..]);
    }
  }

  /** In any history of compare-and-swaps and non-reopening updates, at most one
    * compare-and-swap on a trace id ever succeeds. */
  lemma {:induction false} AtMostOneCasWins(t: Table, id: string, ops: seq<LedgerOp>)
    requires NeverReopens(ops)
    ensures Replay(t, id, ops).1 <= 1
    decreases |ops|
  {
    if ops != [] {
      assert NeverReopens(ops[1..]) by {
        forall i | 0 <= i < |ops[1..]| && ops[1..][i].UpdateOp?
          ensures ops[1..][i].patch.status != Some(Pending)
        {
          assert ops[1..][i] == ops[i + 1];
        }
      }
      match ops[0]
      case CasOp(c, at) =>
        var s := RunCas(t, id, c, at);
        if s.1.Some? {
          LeftPendingStaysLeft(s.0, id, ops[1..]);
        } else {
          AtMostOneCasWins(s.0, id, ops[1..]);
        }
      case UpdateOp(p, at) =>
        AtMostOneCasWins(Update(t, id, p, at).0, id, ops[1..]);
    }
  }

  /** COALESCE: no patch of any of the three kinds can remove a stored value. */
  lemma NoPatchClearsAField(row: Row, p: Patch, cp: ConfirmPatch, xp: CancelPatch, now: int)
    ensures row.reason.Some? ==> ApplyUpdate(row, p, now).reason.Some? && ApplyCancel(row, xp, now).reason.Some?
    ensures row.channel.Some? ==>
      ApplyUpdate(row, p, now).channel.Some? && ApplyConfirm(row, cp, now).channel.Some?
      && ApplyCancel(row, xp, now).channel.Some?
    ensures row.messageTs.Some? ==>
      ApplyUpdate(row, p, now).messageTs.Some? && ApplyConfirm(row, cp, now).messageTs.Some?
      && ApplyCancel(row, xp, now).messageTs.Some?
    ensures row.expiresAt.Some? ==>
      ApplyUpdate(row, p, now).expiresAt.Some? && ApplyConfirm(row, cp, now).expiresAt.Some?
    ensures row.digest.Some? ==>
      ApplyUpdate(row, p, now).digest.Some? && ApplyConfirm(row, cp, now).digest.Some?
  {
  }

  /** An omitted patch field keeps the stored value: the execute step's `reason: undefined`
    * keeps the reason the row already had. */
  lemma OmittedReasonIsKept(t: Table, id: string, s: Status, now: int)
    requires id in t
    ensures Update(t, id, Patch(Some(s), None, None, None, None, None), now).0[id].reason == t[id].reason
  {
  }

  /** A patch field given as the empty string is written (`?? null` keeps it) but reads back
    * as absent (`|| undefined`). */
  lemma EmptyReasonReadsAbsent(t: Table, id: string, now: int)
    requires id in t
    ensures Update(t, id, Patch(None, Some(""), None, None, None, None), now).0[id].reason == Some("")
    ensures Update(t, id, Patch(None, Some(""), None, None, None, None), now).1.value.reason == None
  {
  }

  /** Reading a freshly created row gives back the status it was created with. */
  lemma CreateThenLookup(t: Table, e: NewExecution, now: int)
    requires e.traceId !in t
    ensures Lookup(Create(t, e, now).0, e.traceId).Some?
    ensures Lookup(Create(t, e, now).0, e.traceId).value.status == e.status
    ensures Lookup(Create(t, e, now).0, e.traceId).value.createdAt == now
  {
  }
}
