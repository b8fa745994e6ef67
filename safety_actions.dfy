/**
 * The two buttons of a confirmation prompt. `safety_confirm` looks the
 * execution up, moves it from `pending` to `confirmed` with a fresh expiry and a
 * digest of what is about to be done, and, when it won that compare-and-swap
 * and the execution is a Gmail draft, saves the draft and records `executed`
 * (or `canceled`, with the error as reason). `safety_cancel` moves a pending
 * execution to `canceled`. A press that loses the compare-and-swap only
 * reports the status it found.
 *
 * The Gmail draft call is a parameter (`createDraft`), as are the clock and the
 * button payload. Chat messages are not modelled: every one of them is posted
 * only when both the channel and the message timestamp are known.
 */
module SafetyActions {
  import opened Wrappers
  import opened Strings
  import opened Ledger
  import opened Ids
  import opened Drafts

  /** `EXECUTION_TTL_MINUTES` when it is unset. */
  const DefaultExecTtlMinutes: int := 10
  /** The reason of a cancel press whose payload carries none. */
  const UserCancelReason: string := "ユーザー操作"

  /** `(v || '').toString()` on an optional string. */
  function OrEmpty(v: Option<string>): (r: string)
    ensures v.Some? ==> r == v.value
    ensures v.None? ==> r == ""
  {
    if v.Some? then v.value else ""
  }

  /** The digest stored by a confirm: recipient, subject and the first 50 characters of the body. */
  function ConfirmDigest(p: PendingParams): (d: string)
    ensures StartsWith(d, "to=" + OrEmpty(p.to) + "; subject=" + OrEmpty(p.subject) + "; body_head=")
    ensures EndsWith(d, Take(OrEmpty(p.body), 50))
    ensures |d| <= |"to=" + OrEmpty(p.to) + "; subject=" + OrEmpty(p.subject) + "; body_head="| + 50
  {
    var head := "to=" + OrEmpty(p.to) + "; subject=" + OrEmpty(p.subject) + "; body_head=";
    var d := head + Take(OrEmpty(p.body), 50);
    assert d[..|head|] == head;
    d
  }

  /** Two executions whose recipient, subject and first 50 body characters agree get the
    * same digest: the rest of the body is not part of it. */
  lemma DigestIgnoresBodyTail(p: PendingParams, rest: string)
    requires |OrEmpty(p.body)| >= 50
    ensures ConfirmDigest(p.(body := Some(OrEmpty(p.body) + rest))) == ConfirmDigest(p)
  {
    var b := OrEmpty(p.body);
    assert Take(b + rest, 50) == (b + rest)[..50] == b[..50];
  }

  /** `Date.now() + EXEC_TTL_MINUTES * 60 * 1000`. */
  function ExpiresAt(nowMs: int, ttlMinutes: int): (e: int)
    ensures e - nowMs == ttlMinutes * 60000
  {
    nowMs + ttlMinutes * 60 * 1000
  }

  /** `buildDraftFromExecution`: the draft handed to Gmail, built from the record's parameters. */
  function DraftFromExecution(rec: ExecutionRecord, nowMs: int): (d: DraftData)
    ensures d.body == OrEmpty(rec.params.body) && d.subject == rec.params.subject && d.to == rec.params.to
    ensures d.threadId == rec.params.threadId && d.draftId == rec.params.draftId && d.createdAt == nowMs
    ensures d.cc.None? && d.bcc.None? && d.inReplyToMessageId.None?
  {
    DraftData(OrEmpty(rec.params.body), rec.params.subject, rec.params.to, None, None, None,
      rec.params.threadId, nowMs, rec.params.draftId)
  }

  datatype ConfirmOutcome =
    | ConfirmNotFound
    | DraftExecuted(draft: DraftData)
    | DraftFailed(draft: DraftData, message: string)
    | Prepared(plannedMessageId: string)
    | ConfirmAlreadyHandled(status: Status)

  function ExecutedPatch(): Patch
  {
    Patch(Some(Executed), None, None, None, None, None)
  }

  function FailedPatch(message: string): Patch
  {
    Patch(Some(Canceled), Some(message), None, None, None, None)
  }

  /** The draft step of `executeGmailDraftAction` on the table. */
  function ExecuteDraft(t: Table, rec: ExecutionRecord, nowMs: int, createDraft: DraftData -> Result<(), string>): (res: (Table, ConfirmOutcome))
    ensures res.0.Keys == t.Keys
    ensures forall k :: k in t && k != rec.traceId ==> res.0[k] == t[k]
    ensures res.1.DraftExecuted? || res.1.DraftFailed?
    ensures res.1.draft == DraftFromExecution(rec, nowMs)
    ensures res.1.DraftExecuted? <==> createDraft(res.1.draft).Success?
    ensures rec.traceId in t && res.1.DraftExecuted? ==>
      res.0[rec.traceId].status == Executed && res.0[rec.traceId].reason == t[rec.traceId].reason
    ensures rec.traceId in t && res.1.DraftFailed? ==>
      res.0[rec.traceId].status == Canceled && res.0[rec.traceId].reason == Some(res.1.message)
      && createDraft(res.1.draft) == Failure(res.1.message)
  {
    var draft := DraftFromExecution(rec, nowMs);
    match createDraft(draft)
    case Success(_) => (Update(t, rec.traceId, ExecutedPatch(), nowMs).0, DraftExecuted(draft))
    case Failure(m) => (Update(t, rec.traceId, FailedPatch(m), nowMs).0, DraftFailed(draft, m))
  }

  /** The ledger side of a confirm press, as a function of the table. */
  function ConfirmFlow(t: Table, traceId: string, channel: Option<string>, messageTs: Option<string>,
                       nowMs: int, ttlMinutes: int, createDraft: DraftData -> Result<(), string>): (res: (Table, ConfirmOutcome))
    ensures res.0.Keys == t.Keys
    ensures forall k :: k in t && k != traceId ==> res.0[k] == t[k]
    ensures res.1.ConfirmNotFound? <==> traceId !in t
    ensures res.1.ConfirmAlreadyHandled? <==> traceId in t && t[traceId].status != Pending
    ensures res.1.ConfirmNotFound? || res.1.ConfirmAlreadyHandled? ==> res.0 == t
    ensures res.1.ConfirmAlreadyHandled? ==> res.1.status == t[traceId].status
    ensures (res.1.DraftExecuted? || res.1.DraftFailed?) <==>
      traceId in t && t[traceId].status == Pending && t[traceId].kind == GmailDraft
    ensures res.1.Prepared? <==> traceId in t && t[traceId].status == Pending && t[traceId].kind != GmailDraft
    ensures res.1.Prepared? ==>
      res.1.plannedMessageId == PlannedMessageIdFromTrace(traceId) && res.0[traceId].status == Confirmed
      && res.0[traceId].expiresAt == Some(ExpiresAt(nowMs, ttlMinutes))
      && res.0[traceId].digest == Some(ConfirmDigest(t[traceId].params))
    ensures res.1.DraftExecuted? ==> res.0[traceId].status == Executed && res.0[traceId].reason == t[traceId].reason
    ensures res.1.DraftFailed? ==> res.0[traceId].status == Canceled && res.0[traceId].reason == Some(res.1.message)
  {
    match Lookup(t, traceId)
    case None => (t, ConfirmNotFound)
    case Some(rec) =>
      var cp := ConfirmPatch(channel, messageTs, Some(ExpiresAt(nowMs, ttlMinutes)), Some(ConfirmDigest(rec.params)));
      var (t1, confirmed) := Confirm(t, traceId, cp, nowMs);
      if confirmed.None? then (t1, ConfirmAlreadyHandled(t1[traceId].status))
      else if confirmed.value.kind == GmailDraft then ExecuteDraft(t1, confirmed.value, nowMs, createDraft)
      else (t1, Prepared(PlannedMessageIdFromTrace(traceId)))
  }

  datatype CancelOutcome =
    | CancelNotFound
    | CanceledBy(reason: string)
    | CancelAlreadyHandled(status: Status)

  /** `payload.reason || 'ユーザー操作'`. */
  function CancelReason(payloadReason: Option<string>): (r: string)
    ensures r != ""
    ensures payloadReason.Some? && payloadReason.value != "" ==> r == payloadReason.value
    ensures payloadReason.None? || payloadReason.value == "" ==> r == UserCancelReason
  {
    if payloadReason.Some? && payloadReason.value != "" then payloadReason.value else UserCancelReason
  }

  /** The ledger side of a cancel press, as a function of the table. */
  function CancelFlow(t: Table, traceId: string, payloadReason: Option<string>, channel: Option<string>,
                      messageTs: Option<string>, nowMs: int): (res: (Table, CancelOutcome))
    ensures res.0.Keys == t.Keys
    ensures forall k :: k in t && k != traceId ==> res.0[k] == t[k]
    ensures res.1.CancelNotFound? <==> traceId !in t
    ensures res.1.CancelAlreadyHandled? <==> traceId in t && t[traceId].status != Pending
    ensures res.1.CancelNotFound? || res.1.CancelAlreadyHandled? ==> res.0 == t
    ensures res.1.CancelAlreadyHandled? ==> res.1.status == t[traceId].status
    ensures res.1.CanceledBy? ==>
      res.1.reason == CancelReason(payloadReason) && res.0[traceId].status == Canceled
      && res.0[traceId].reason == Some(res.1.reason)
      && res.0[traceId].expiresAt == t[traceId].expiresAt && res.0[traceId].digest == t[traceId].digest
  {
    match Lookup(t, traceId)
    case None => (t, CancelNotFound)
    case Some(_) =>
      var reason := CancelReason(payloadReason);
      var (t1, canceled) := Cancel(t, traceId, CancelPatch(Some(reason), channel, messageTs), nowMs);
      if canceled.Some? then (t1, CanceledBy(reason)) else (t1, CancelAlreadyHandled(t1[traceId].status))
  }

  /** The store of saved drafts after a confirm: a saved Gmail draft that came from a stored
    * draft removes it. */
  function DraftsAfter(store: map<string, UserDrafts>, userId: string, outcome: ConfirmOutcome): map<string, UserDrafts>
  {
    if outcome.DraftExecuted? && outcome.draft.draftId.Some? && outcome.draft.draftId.value != "" then
      WithoutDraft(store, userId, outcome.draft.draftId.value)
    else store
  }

  /** `executeGmailDraftAction`: save the draft, then record `executed` and drop the stored
    * draft, or record `canceled` with the error message. */
  method ExecuteGmailDraftAction(ledger: ExecutionLedger, drafts: DraftStore, rec: ExecutionRecord, nowMs: int,
                                 createDraft: DraftData -> Result<(), string>) returns (outcome: ConfirmOutcome)
    modifies ledger, drafts
    ensures (ledger.rows, outcome) == ExecuteDraft(old(ledger.rows), rec, nowMs, createDraft)
    ensures drafts.drafts == DraftsAfter(old(drafts.drafts), rec.userId, outcome)
  {
    var draft := DraftFromExecution(rec, nowMs);
    var saved := createDraft(draft);
    if saved.Success? {
      var _ := ledger.UpdateExecution(rec.traceId, ExecutedPatch(), nowMs);
      if draft.draftId.Some? && draft.draftId.value != "" {
        drafts.DeleteDraft(rec.userId, draft.draftId.value);
      }
      outcome := DraftExecuted(draft);
    } else {
      var _ := ledger.UpdateExecution(rec.traceId, FailedPatch(saved.error), nowMs);
      outcome := DraftFailed(draft, saved.error);
    }
  }

  /** The `safety_confirm` handler. */
  method SafetyConfirm(ledger: ExecutionLedger, drafts: DraftStore, traceId: string, channel: Option<string>,
                       messageTs: Option<string>, nowMs: int, ttlMinutes: int,
                       createDraft: DraftData -> Result<(), string>) returns (outcome: ConfirmOutcome)
    requires ledger != drafts as object
    modifies ledger, drafts
    ensures (ledger.rows, outcome) == ConfirmFlow(old(ledger.rows), traceId, channel, messageTs, nowMs, ttlMinutes, createDraft)
    ensures traceId in old(ledger.rows) ==>
      drafts.drafts == DraftsAfter(old(drafts.drafts), old(ledger.rows)[traceId].userId, outcome)
    ensures traceId !in old(ledger.rows) ==> drafts.drafts == old(drafts.drafts)
  {
    var rec := ledger.GetExecutionByTraceId(traceId);
    if rec.None? {
      return ConfirmNotFound;
    }
    var cp := ConfirmPatch(channel, messageTs, Some(ExpiresAt(nowMs, ttlMinutes)), Some(ConfirmDigest(rec.value.params)));
    var confirmed := ledger.ConfirmIfPending(traceId, cp, nowMs);
    if confirmed.None? {
      var latest := ledger.GetExecutionByTraceId(traceId);
      outcome := ConfirmAlreadyHandled(latest.value.status);
    } else if confirmed.value.kind == GmailDraft {
      outcome := ExecuteGmailDraftAction(ledger, drafts, confirmed.value, nowMs, createDraft);
    } else {
      outcome := Prepared(PlannedMessageIdFromTrace(traceId));
    }
  }

  /** The `safety_cancel` handler. */
  method SafetyCancel(ledger: ExecutionLedger, traceId: string, payloadReason: Option<string>, channel: Option<string>,
                      messageTs: Option<string>, nowMs: int) returns (outcome: CancelOutcome)
    modifies ledger
    ensures (ledger.rows, outcome) == CancelFlow(old(ledger.rows), traceId, payloadReason, channel, messageTs, nowMs)
  {
    var rec := ledger.GetExecutionByTraceId(traceId);
    if rec.None? {
      return CancelNotFound;
    }
    var reason := CancelReason(payloadReason);
    var canceled := ledger.CancelIfPending(traceId, CancelPatch(Some(reason), channel, messageTs), nowMs);
    if canceled.Some? {
      outcome := CanceledBy(reason);
    } else {
      var latest := ledger.GetExecutionByTraceId(traceId);
      outcome := CancelAlreadyHandled(latest.value.status);
    }
  }

  // ---------------------------------------------------------------------
  // presses on the same execution
  // ---------------------------------------------------------------------

  /** After any confirm press the execution is no longer pending. */
  lemma ConfirmLeavesNothingPending(t: Table, traceId: string, channel: Option<string>, messageTs: Option<string>,
                                    nowMs: int, ttlMinutes: int, createDraft: DraftData -> Result<(), string>)
    requires traceId in t
    ensures ConfirmFlow(t, traceId, channel, messageTs, nowMs, ttlMinutes, createDraft).0[traceId].status != Pending
  {
    var res := ConfirmFlow(t, traceId, channel, messageTs, nowMs, ttlMinutes, createDraft);
    if t[traceId].status == Pending {
      assert res.1.DraftExecuted? || res.1.DraftFailed? || res.1.Prepared?;
    }
  }

  /** A second confirm press on the same execution never runs the action again: it reports
    * the status left by the first press and changes nothing. */
  lemma SecondConfirmIsNoOp(t: Table, traceId: string, channel: Option<string>, messageTs: Option<string>,
                            nowMs: int, ttlMinutes: int, createDraft: DraftData -> Result<(), string>,
                            channel2: Option<string>, messageTs2: Option<string>, nowMs2: int)
    requires traceId in t
    ensures var t1 := ConfirmFlow(t, traceId, channel, messageTs, nowMs, ttlMinutes, createDraft).0;
      ConfirmFlow(t1, traceId, channel2, messageTs2, nowMs2, ttlMinutes, createDraft) == (t1, ConfirmAlreadyHandled(t1[traceId].status))
  {
    ConfirmLeavesNothingPending(t, traceId, channel, messageTs, nowMs, ttlMinutes, createDraft);
  }

  /** A cancel press after a confirm press changes nothing, and a confirm press after a
    * cancel press runs nothing: whichever press comes first decides. */
  lemma FirstPressDecides(t: Table, traceId: string, channel: Option<string>, messageTs: Option<string>,
                          nowMs: int, ttlMinutes: int, createDraft: DraftData -> Result<(), string>,
                          payloadReason: Option<string>)
    requires traceId in t
    ensures var t1 := ConfirmFlow(t, traceId, channel, messageTs, nowMs, ttlMinutes, createDraft).0;
      CancelFlow(t1, traceId, payloadReason, channel, messageTs, nowMs) == (t1, CancelAlreadyHandled(t1[traceId].status))
    ensures var t2 := CancelFlow(t, traceId, payloadReason, channel, messageTs, nowMs).0;
      ConfirmFlow(t2, traceId, channel, messageTs, nowMs, ttlMinutes, createDraft) == (t2, ConfirmAlreadyHandled(t2[traceId].status))
  {
    ConfirmLeavesNothingPending(t, traceId, channel, messageTs, nowMs, ttlMinutes, createDraft);
    var r := CancelFlow(t, traceId, payloadReason, channel, messageTs, nowMs);
    assert r.0[traceId].status != Pending by {
      if t[traceId].status == Pending {
        assert r.1.CanceledBy?;
      }
    }
  }

  /** A cancel press never marks anything `executed`. */
  lemma CancelNeverExecutes(t: Table, traceId: string, payloadReason: Option<string>, channel: Option<string>,
                            messageTs: Option<string>, nowMs: int)
    ensures forall k :: k in t && t[k].status != Executed ==>
      CancelFlow(t, traceId, payloadReason, channel, messageTs, nowMs).0[k].status != Executed
  {
    var r := CancelFlow(t, traceId, payloadReason, channel, messageTs, nowMs);
    if traceId in t && t[traceId].status == Pending {
      assert r.1.CanceledBy?;
    }
  }

  /** Only a confirm press that wins the compare-and-swap on a pending Gmail draft can mark
    * it `executed`, and only when Gmail accepted the draft. */
  lemma OnlyWinningDraftExecutes(t: Table, traceId: string, channel: Option<string>, messageTs: Option<string>,
                                 nowMs: int, ttlMinutes: int, createDraft: DraftData -> Result<(), string>)
    requires traceId in t && t[traceId].status != Executed
    ensures ConfirmFlow(t, traceId, channel, messageTs, nowMs, ttlMinutes, createDraft).0[traceId].status == Executed
      <==> t[traceId].status == Pending && t[traceId].kind == GmailDraft
           && createDraft(DraftFromExecution(ToRecord(traceId, ApplyConfirm(t[traceId],
                ConfirmPatch(channel, messageTs, Some(ExpiresAt(nowMs, ttlMinutes)), Some(ConfirmDigest(t[traceId].params))), nowMs)), nowMs)).Success?
  {
  }
}
