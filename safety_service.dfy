/**
 * The confirmation prompt in front of a dangerous mail or calendar action
 * (services/safetyService.ts): a short summary of the draft, a `pending` execution
 * written to the ledger under a fresh `exec` trace id, and a prompt whose two buttons
 * carry that trace id. Posting the prompt and the action log are left to the caller:
 * the model returns the prompt's content.
 */
module SafetyService {
  import opened Wrappers
  import opened Strings
  import opened TextUtils
  import opened Ledger
  import opened Ids
  import opened Drafts
  import opened SafetyActions

  /** How many body characters the summary shows. */
  const PreviewLimit: nat := 60
  const Ellipsis: string := "…"
  const Unset: string := "(未設定)"
  const NoBody: string := "(なし)"

  datatype Summary = Summary(to: Option<string>, subject: Option<string>, bodyPreview: string)

  /** What a button sends back when pressed: `{trace_id}` or `{trace_id, reason}`. */
  datatype ButtonValue = ButtonValue(traceId: string, reason: Option<string>)

  /** The content of the prompt: the action, the three summary fields and the buttons. */
  datatype Prompt = Prompt(
    action: string, primaryLabel: string,
    toField: string, subjectField: string, previewField: string,
    confirm: ButtonValue, cancel: ButtonValue)

  /** The body as the summary shows it: whole up to 60 characters, else its first 60 and
    * an ellipsis. */
  function BodyPreview(body: string): (p: string)
    ensures |body| <= PreviewLimit ==> p == body
    ensures |body| > PreviewLimit ==>
              |p| == PreviewLimit + 1 && p[..PreviewLimit] == body[..PreviewLimit] && p[PreviewLimit..] == Ellipsis
  {
    if |body| > PreviewLimit then body[..PreviewLimit] + Ellipsis else body
  }

  /** `cleanEmailLike(to) || to`: the first address in the recipient text, else the text. */
  function SummaryTo(to: Option<string>): (r: Option<string>)
    ensures to.None? ==> r.None?
    ensures ExtractFirstEmail(to).Some? ==> r == ExtractFirstEmail(to)
    ensures to.Some? && ExtractFirstEmail(to).None? ==> r == to
  {
    var c := CleanEmailLike(to);
    if c.Some? && c.value != "" then c else to
  }

  /** `buildSummary(draft)`. */
  function BuildSummary(d: DraftData): Summary
  {
    Summary(SummaryTo(d.to), d.subject, BodyPreview(d.body))
  }

  /** The `action` column: what the execution does, in words. */
  function ActionLabel(t: ExecType): string
  {
    match t
    case GmailSend => "Gmail送信"
    case GmailDraft => "Gmail下書き作成"
    case CalendarCreate => "Calendar作成"
  }

  /** The label of the confirm button. */
  function PrimaryLabel(t: ExecType): string
  {
    match t
    case GmailDraft => "保存"
    case GmailSend => "送信"
    case CalendarCreate => "OK"
  }

  /** `v || placeholder` on an optional text. */
  function OrPlaceholder(v: Option<string>, placeholder: string): (r: string)
    ensures v.Some? && v.value != "" ==> r == v.value
    ensures v.None? || v.value == "" ==> r == placeholder
  {
    if v.Some? && v.value != "" then v.value else placeholder
  }

  /** The `pending` execution written before the prompt is posted. */
  function PendingExecution(traceId: string, userId: string, t: ExecType, d: DraftData, draftId: Option<string>): NewExecution
  {
    var s := BuildSummary(d);
    NewExecution(traceId, t, userId, ActionLabel(t),
      PendingParams(s.to, s.subject, Some(d.body), d.threadId, draftId),
      None, None, Pending, None, None, None)
  }

  function PromptFor(traceId: string, t: ExecType, s: Summary): Prompt
  {
    Prompt(ActionLabel(t), PrimaryLabel(t),
      OrPlaceholder(s.to, Unset), OrPlaceholder(s.subject, Unset),
      OrPlaceholder(if s.bodyPreview == "" then None else Some(s.bodyPreview), NoBody),
      ButtonValue(traceId, None), ButtonValue(traceId, Some(UserCancelReason)))
  }

  /** `promptUserConfirmation`: the execution is recorded as `pending` under a fresh `exec`
    * trace id, then the prompt is built. A failing insert (the trace id is taken) throws
    * before anything is posted, so no prompt results. */
  method PromptUserConfirmation(ledger: ExecutionLedger, userId: string, t: ExecType, d: DraftData,
                                draftId: Option<string>, nowMs: nat, randomText: string)
    returns (traceId: string, prompt: Option<Prompt>)
    modifies ledger
    ensures traceId == GenerateTraceId(Some("exec"), nowMs, randomText)
    ensures ledger.rows == Create(old(ledger.rows), PendingExecution(traceId, userId, t, d, draftId), nowMs).0
    ensures prompt.Some? <==> traceId !in old(ledger.rows)
    ensures prompt.Some? ==> prompt.value == PromptFor(traceId, t, BuildSummary(d))
  {
    traceId := GenerateTraceId(Some("exec"), nowMs, randomText);
    var summary := BuildSummary(d);
    var created := ledger.CreateExecution(PendingExecution(traceId, userId, t, d, draftId), nowMs);
    if created.Failure? {
      return traceId, None;
    }
    prompt := Some(PromptFor(traceId, t, summary));
  }

  // ---------------------------------------------------------------------
  // properties
  // ---------------------------------------------------------------------

  /** The preview starts with the body's first 60 characters and is at most one character
    * longer. */
  lemma PreviewIsBodyHead(body: string)
    ensures StartsWith(BodyPreview(body), Take(body, PreviewLimit)) && |BodyPreview(body)| <= PreviewLimit + 1
  {
    var p := BodyPreview(body);
    if |body| > PreviewLimit {
      assert p[..PreviewLimit] == Take(body, PreviewLimit);
    }
  }

  /** The recipient shown is an address found in the draft's recipient whenever there is
    * one, and the recipient as written otherwise. */
  lemma SummaryToComesFromDraft(to: Option<string>)
    ensures SummaryTo(to).Some? <==> to.Some?
    ensures SummaryTo(to).Some? ==> Contains(to.value, SummaryTo(to).value)
  {
    if ExtractFirstEmail(to).Some? {
      ExtractIsSubstring(to);
    } else if to.Some? {
      ContainsAt(to.value, to.value, 0);
    }
  }

  /** Each action type has its own `action` text and confirm label. */
  lemma LabelsTellTypesApart(t: ExecType, u: ExecType)
    requires t != u
    ensures ActionLabel(t) != ActionLabel(u)
    ensures PrimaryLabel(t) != PrimaryLabel(u)
  {
    match t
    case GmailSend => assert ActionLabel(t)[5] != ActionLabel(u)[5] || |ActionLabel(u)| != |ActionLabel(t)|;
    case GmailDraft => assert |ActionLabel(u)| != |ActionLabel(t)| || ActionLabel(t)[5] != ActionLabel(u)[5];
    case CalendarCreate => assert ActionLabel(t)[0] != ActionLabel(u)[0];
  }

  /** The recorded execution is pending, under an `exec_` trace id, with the summary's
    * recipient and subject and the whole body. */
  lemma PromptedExecutionIsPending(t0: Table, userId: string, t: ExecType, d: DraftData,
                                   draftId: Option<string>, nowMs: nat, randomText: string)
    requires GenerateTraceId(Some("exec"), nowMs, randomText) !in t0
    ensures var id := GenerateTraceId(Some("exec"), nowMs, randomText);
            var t1 := Create(t0, PendingExecution(id, userId, t, d, draftId), nowMs).0;
            StartsWith(id, "exec_") && id in t1 && t1[id].status == Pending && t1[id].kind == t
            && t1[id].params == PendingParams(SummaryTo(d.to), d.subject, Some(d.body), d.threadId, draftId)
            && t1[id].reason.None? && t1[id].expiresAt.None?
  {
    TraceIdShape(Some("exec"), nowMs, randomText);
    var id := GenerateTraceId(Some("exec"), nowMs, randomText);
    var p := "exec_" + NatToBase36(nowMs) + "_";
    assert id[..5] == p[..5];
  }

  /** Pressing the prompt's cancel button cancels the recorded execution with the reason
    * `ユーザー操作`. */
  lemma CancelButtonCancels(t0: Table, userId: string, t: ExecType, d: DraftData, draftId: Option<string>,
                            nowMs: nat, randomText: string, channel: Option<string>, messageTs: Option<string>, later: int)
    requires GenerateTraceId(Some("exec"), nowMs, randomText) !in t0
    ensures var id := GenerateTraceId(Some("exec"), nowMs, randomText);
            var t1 := Create(t0, PendingExecution(id, userId, t, d, draftId), nowMs).0;
            var b := PromptFor(id, t, BuildSummary(d)).cancel;
            var res := CancelFlow(t1, b.traceId, b.reason, channel, messageTs, later);
            res.1 == CanceledBy(UserCancelReason) && res.0[id].status == Canceled
            && res.0[id].reason == Some(UserCancelReason)
  {
    var id := GenerateTraceId(Some("exec"), nowMs, randomText);
    var t1 := Create(t0, PendingExecution(id, userId, t, d, draftId), nowMs).0;
    assert t1[id].status == Pending;
    var res := CancelFlow(t1, id, Some(UserCancelReason), channel, messageTs, later);
    assert !res.1.CancelNotFound? && !res.1.CancelAlreadyHandled?;
  }

  /** Pressing the prompt's confirm button saves the draft of a Gmail-draft execution (or
    * records why it failed), and prepares any other execution for sending. */
  lemma ConfirmButtonRuns(t0: Table, userId: string, t: ExecType, d: DraftData, draftId: Option<string>,
                          nowMs: nat, randomText: string, channel: Option<string>, messageTs: Option<string>,
                          later: int, ttlMinutes: int, createDraft: DraftData -> Result<(), string>)
    requires GenerateTraceId(Some("exec"), nowMs, randomText) !in t0
    ensures var id := GenerateTraceId(Some("exec"), nowMs, randomText);
            var t1 := Create(t0, PendingExecution(id, userId, t, d, draftId), nowMs).0;
            var b := PromptFor(id, t, BuildSummary(d)).confirm;
            var res := ConfirmFlow(t1, b.traceId, channel, messageTs, later, ttlMinutes, createDraft);
            (t == GmailDraft <==> res.1.DraftExecuted? || res.1.DraftFailed?)
            && (t != GmailDraft <==> res.1.Prepared?)
  {
    var id := GenerateTraceId(Some("exec"), nowMs, randomText);
    var t1 := Create(t0, PendingExecution(id, userId, t, d, draftId), nowMs).0;
    assert t1[id].status == Pending && t1[id].kind == t;
  }
}
