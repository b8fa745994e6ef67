/**
 * One auto-draft run for one Gmail account (`runAutoDraftForToken`): the listed
 * threads are taken in turn; a thread whose head message already has a draft,
 * or whose sender or subject the heuristics reject, is passed over; otherwise
 * the thread is fetched, a recipient and a reply subject are worked out, the
 * conversation log and the greeting are put into the prompt, the model's
 * answer becomes the draft body, and the draft is created. Only a created
 * draft counts, and only then is the thread's head recorded in the state
 * table, so that the next poll passes the thread over.
 *
 * Gmail, the language model and the clock are parameters: `Services` answers
 * each call, `None` standing for a call that throws (the run catches it and
 * goes on with the next thread).
 */
module AutoDraftRun {
  import opened Wrappers
  import opened Strings
  import opened JsNumber
  import opened AutoDraftThreads
  import opened AutoDraftPrompt
  import opened DraftText
  import opened Greeting
  import opened AutodraftState
  import Mime

  /** The payload given to `createGmailDraftDirect`. */
  datatype Draft = Draft(to: string, subject: string, body: string, threadId: string)

  /** The calls the run makes: the thread's messages, the model's `output_text` for the
    * system and user prompts, and whether creating the draft succeeded. */
  datatype Services = Services(fetchThread: string -> Option<seq<ThreadMessage>>,
                               complete: (string, string) -> Option<string>,
                               createDraft: Draft -> bool)

  /** What the run reads once: `SELF_USER_EMAIL`, `AUTODRAFT_HISTORY_LIMIT`, the two prompt
    * templates, the account's Gmail signature (nothing when `AUTODRAFT_USE_GMAIL_SIGNATURE`
    * is off), `AUTODRAFT_SIGNATURE`, and the charset decoders. */
  datatype RunConfig = RunConfig(selfEmail: Option<string>, historyLimit: JsNum, systemPrompt: string,
                                 userTemplate: string, gmailSignature: Option<string>,
                                 envSignature: Option<string>, codec: Mime.Codec)

  /** What became of one thread. */
  datatype Outcome = AlreadyDrafted | Heuristic | Failed | NoMessages | NoRecipient | Drafted(draft: Draft)

  /** `a || b` on optional text. */
  function OrElse(a: Option<string>, b: Option<string>): (r: Option<string>)
    ensures Truthy(a) ==> r == a
    ensures !Truthy(a) ==> r == b
  {
    if Truthy(a) then a else b
  }

  /** `state && state.last_message_id === meta.latestId`. */
  predicate HeadDrafted(h: ThreadHead, state: Option<ThreadState>)
  {
    state.Some? && state.value.lastMessageId == Some(h.latestId)
  }

  /** The greeting for a thread: the display name of the last message's sender, or else
    * of the listed sender, greeted by `buildRecipientGreeting` as written (a name ending in
    * 中 or 御 is left bare). */
  function ThreadGreeting(h: ThreadHead, last: ThreadMessage, codec: Mime.Codec): Option<string>
  {
    RecipientGreetingAsWritten(OrElse(ExtractDisplayName(last.from, codec), ExtractDisplayName(h.from, codec)))
  }

  /** A thread whose last message comes from 田中 is greeted 田中, with no honorific, as the
    * code is written. */
  lemma TanakaThreadGreetedBare(h: ThreadHead, last: ThreadMessage, codec: Mime.Codec)
    requires ExtractDisplayName(last.from, codec) == Some("田中")
    ensures ThreadGreeting(h, last, codec) == Some("田中")
  {
    TanakaAsWritten("田中");
  }

  /** `extractEmail(lastMsg.from) || extractEmail(meta.from)`. */
  function Recipient(h: ThreadHead, last: ThreadMessage): Option<string>
  {
    OrElse(ExtractEmail(last.from), ExtractEmail(h.from))
  }

  /** `ensureReplySubject(lastMsg.subject || meta.subject)`. */
  function ReplySubject(h: ThreadHead, last: ThreadMessage): string
  {
    EnsureReplySubject(OrElse(last.subject, h.subject))
  }

  /** The user prompt for a thread's messages. */
  function ThreadPrompt(msgs: seq<ThreadMessage>, cfg: RunConfig, greeting: Option<string>): string
  {
    UserPrompt(cfg.userTemplate, ConversationText(msgs, cfg.historyLimit), greeting)
  }

  /** The draft for a thread: to the recipient, under the reply subject, with the model's
    * answer made a draft body. */
  function ReplyDraft(to: string, h: ThreadHead, last: ThreadMessage, greeting: Option<string>, answer: string,
                      cfg: RunConfig): Draft
  {
    Draft(to, ReplySubject(h, last), DraftBody(answer, greeting, cfg.gmailSignature, cfg.envSignature), h.threadId)
  }

  /** The body of the loop in `runAutoDraftForToken` for one thread, given what the state
    * table answers for it. */
  function PlanThread(h: ThreadHead, state: Option<ThreadState>, cfg: RunConfig, svc: Services): Outcome
  {
    if HeadDrafted(h, state) then AlreadyDrafted
    else if ShouldSkipByHeuristics(h.from, h.subject, cfg.selfEmail) then Heuristic
    else
      match svc.fetchThread(h.threadId)
      case None => Failed
      case Some(msgs) => PlanFetched(h, msgs, cfg, svc)
  }

  /** The rest of the loop body once the thread's messages are fetched. */
  function PlanFetched(h: ThreadHead, msgs: seq<ThreadMessage>, cfg: RunConfig, svc: Services): Outcome
  {
    if msgs == [] then NoMessages
    else
      var last := msgs[|msgs| - 1];
      var toAddr := Recipient(h, last);
      if !Truthy(toAddr) then NoRecipient
      else
        var greeting := ThreadGreeting(h, last, cfg.codec);
        match svc.complete(cfg.systemPrompt, ThreadPrompt(msgs, cfg, greeting))
        case None => Failed
        case Some(answer) =>
          var d := ReplyDraft(toAddr.value, h, last, greeting, answer, cfg);
          if svc.createDraft(d) then Drafted(d) else Failed
  }

  /** A draft is made only for a thread whose head has none yet and that the heuristics
    * let through; it goes to a valid address, under a reply subject, in the thread, and
    * Gmail accepted it. */
  lemma DraftedShape(h: ThreadHead, state: Option<ThreadState>, cfg: RunConfig, svc: Services)
    requires PlanThread(h, state, cfg, svc).Drafted?
    ensures var d := PlanThread(h, state, cfg, svc).draft;
      !HeadDrafted(h, state) && !ShouldSkipByHeuristics(h.from, h.subject, cfg.selfEmail)
      && IsValidEmail(d.to) && HasReplyPrefix(d.subject) && d.threadId == h.threadId && svc.createDraft(d)
  {
  }

  /** A head that already has a draft is never drafted again, whatever the services answer. */
  lemma DraftedHeadSkipped(h: ThreadHead, state: Option<ThreadState>, cfg: RunConfig, svc: Services)
    ensures HeadDrafted(h, state) <==> PlanThread(h, state, cfg, svc) == AlreadyDrafted
  {
  }

  /** A greeting in normal form is a single trimmed line. */
  lemma GreetingIsOneLine(g: string)
    requires Normal(g) && g != ""
    ensures Trim(g) == g && '\n' !in g
  {
    TrimKeepsTrimmed(g);
    if '\n' in g {
      var i :| 0 <= i < |g| && g[i] == '\n';
      assert IsSpace(g[i]);
    }
  }

  /** A drafted thread's body is the model's answer to the thread's prompt, made a draft body. */
  lemma DraftedBody(h: ThreadHead, msgs: seq<ThreadMessage>, cfg: RunConfig, svc: Services)
    requires PlanFetched(h, msgs, cfg, svc).Drafted?
    ensures msgs != []
    ensures var greeting := ThreadGreeting(h, msgs[|msgs| - 1], cfg.codec);
      var reply := svc.complete(cfg.systemPrompt, ThreadPrompt(msgs, cfg, greeting));
      reply.Some? && PlanFetched(h, msgs, cfg, svc).draft
                     == ReplyDraft(Recipient(h, msgs[|msgs| - 1]).value, h, msgs[|msgs| - 1], greeting, reply.value, cfg)
  {
    var last := msgs[|msgs| - 1];
    var toAddr := Recipient(h, last);
    var greeting := ThreadGreeting(h, last, cfg.codec);
    var reply := svc.complete(cfg.systemPrompt, ThreadPrompt(msgs, cfg, greeting));
    assert Truthy(toAddr) && reply.Some?;
    assert PlanFetched(h, msgs, cfg, svc).draft == ReplyDraft(toAddr.value, h, last, greeting, reply.value, cfg);
  }

  /** Without a signature, a draft for a recipient whose name is known opens with the
    * greeting for that name. */
  lemma DraftOpensWithGreeting(h: ThreadHead, msgs: seq<ThreadMessage>, cfg: RunConfig, svc: Services)
    requires PlanFetched(h, msgs, cfg, svc).Drafted?
    requires !Truthy(SignatureSource(cfg.gmailSignature, cfg.envSignature))
    ensures var greeting := ThreadGreeting(h, msgs[|msgs| - 1], cfg.codec);
      greeting.Some? ==> LeadsWith(PlanFetched(h, msgs, cfg, svc).draft.body, greeting.value)
  {
    DraftedBody(h, msgs, cfg, svc);
    var greeting := ThreadGreeting(h, msgs[|msgs| - 1], cfg.codec);
    if greeting.Some? {
      GreetingIsOneLine(greeting.value);
      var reply := svc.complete(cfg.systemPrompt, ThreadPrompt(msgs, cfg, greeting));
      assert ReplyDraft(Recipient(h, msgs[|msgs| - 1]).value, h, msgs[|msgs| - 1], greeting, reply.value, cfg).body
        == DraftBody(reply.value, greeting, cfg.gmailSignature, cfg.envSignature);
      DraftLeadsWithGreeting(reply.value, greeting, cfg.gmailSignature, cfg.envSignature);
    }
  }

  // ---------------------------------------------------------------------
  // the run over all threads
  // ---------------------------------------------------------------------

  /** No two threads share an id. */
  predicate DistinctThreads(threads: seq<ThreadHead>)
  {
    forall i, j :: 0 <= i < j < |threads| ==> threads[i].threadId != threads[j].threadId
  }

  /** What becomes of each thread when the table is read as it was before the run. */
  function Outcomes(threads: seq<ThreadHead>, ready: bool, rows: map<string, StateRow>, cfg: RunConfig,
                    svc: Services): (outs: seq<Outcome>)
    ensures |outs| == |threads|
    ensures forall i :: 0 <= i < |threads| ==> outs[i] == PlanThread(threads[i], Lookup(ready, rows, threads[i].threadId), cfg, svc)
  {
    seq(|threads|, i requires 0 <= i < |threads| => PlanThread(threads[i], Lookup(ready, rows, threads[i].threadId), cfg, svc))
  }

  /** The drafts created, in order. */
  function DraftsOf(outs: seq<Outcome>): seq<Draft>
    decreases |outs|
  {
    if outs == [] then []
    else DraftsOf(outs[..|outs| - 1]) + (if outs[|outs| - 1].Drafted? then [outs[|outs| - 1].draft] else [])
  }

  /** The table after the run: every drafted thread's row names its head, stamped `now`. */
  function RowsAfter(rows: map<string, StateRow>, threads: seq<ThreadHead>, outs: seq<Outcome>, nowMs: int)
    : map<string, StateRow>
    requires |outs| == |threads|
    decreases |threads|
  {
    if threads == [] then rows
    else
      var n := |threads| - 1;
      var prev := RowsAfter(rows, threads[..n], outs[..n], nowMs);
      if outs[n].Drafted? then prev[threads[n].threadId := StateRow(threads[n].latestId, EpochSeconds(nowMs))]
      else prev
  }

  /** Rows of threads the run did not draft are as they were. */
  lemma {:induction false} RowsAfterElsewhere(rows: map<string, StateRow>, threads: seq<ThreadHead>,
                                               outs: seq<Outcome>, nowMs: int, t: string)
    requires |outs| == |threads|
    requires forall i :: 0 <= i < |threads| && outs[i].Drafted? ==> threads[i].threadId != t
    ensures var after := RowsAfter(rows, threads, outs, nowMs);
      (t in after <==> t in rows) && (t in rows ==> after[t] == rows[t])
    decreases |threads|
  {
    if threads != [] {
      var n := |threads| - 1;
      RowsAfterElsewhere(rows, threads[..n], outs[..n], nowMs, t);
    }
  }

  /** A drafted thread's row names its head. */
  lemma {:induction false} RowsAfterDrafted(rows: map<string, StateRow>, threads: seq<ThreadHead>,
                                             outs: seq<Outcome>, nowMs: int, i: nat)
    requires |outs| == |threads| && DistinctThreads(threads)
    requires i < |threads| && outs[i].Drafted?
    ensures var after := RowsAfter(rows, threads, outs, nowMs);
      threads[i].threadId in after && after[threads[i].threadId] == StateRow(threads[i].latestId, EpochSeconds(nowMs))
    decreases |threads|
  {
    var n := |threads| - 1;
    if i < n {
      RowsAfterDrafted(rows, threads[..n], outs[..n], nowMs, i);
    }
  }

  /** At most one draft per thread. */
  lemma {:induction false} DraftsAtMost(outs: seq<Outcome>)
    ensures |DraftsOf(outs)| <= |outs|
    decreases |outs|
  {
    if outs != [] {
      DraftsAtMost(outs[..|outs| - 1]);
    }
  }

  /** Every head of the listing has a message id. */
  lemma HeadsHaveIds(items: seq<ListedMessage>)
    ensures forall j :: 0 <= j < |Heads(items)| ==> Heads(items)[j].latestId != ""
  {
    HeadsSound(items);
    forall j | 0 <= j < |Heads(items)| ensures Heads(items)[j].latestId != "" {
      assert Heads(items)[j] in Heads(items);
    }
  }

  /** The threads of a run over a listing. */
  function RunThreads(items: seq<ListedMessage>, limit: JsNum): (threads: seq<ThreadHead>)
    ensures DistinctThreads(threads)
    ensures forall j :: 0 <= j < |threads| ==> threads[j].latestId != ""
  {
    HeadsDistinct(items);
    HeadsHaveIds(items);
    Heads(items)[..SliceEnd(|Heads(items)|, limit)]
  }

  /** The step of the run on thread `i`: the table still answers for it as before the run. */
  lemma ReadUntouched(rows: map<string, StateRow>, threads: seq<ThreadHead>, outs: seq<Outcome>,
                      nowMs: int, i: nat)
    requires |outs| == |threads| && DistinctThreads(threads) && i < |threads|
    ensures forall ready :: Lookup(ready, RowsAfter(rows, threads[..i], outs[..i], nowMs), threads[i].threadId)
                           == Lookup(ready, rows, threads[i].threadId)
  {
    RowsAfterElsewhere(rows, threads[..i], outs[..i], nowMs, threads[i].threadId);
  }

  /** How the drafts and the table grow with thread `i`. */
  lemma RunStep(rows: map<string, StateRow>, threads: seq<ThreadHead>, outs: seq<Outcome>, nowMs: int, i: nat)
    requires |outs| == |threads| && i < |threads|
    ensures DraftsOf(outs[..i + 1]) == DraftsOf(outs[..i]) + (if outs[i].Drafted? then [outs[i].draft] else [])
    ensures RowsAfter(rows, threads[..i + 1], outs[..i + 1], nowMs)
      == if outs[i].Drafted?
         then RowsAfter(rows, threads[..i], outs[..i], nowMs)[threads[i].threadId := StateRow(threads[i].latestId, EpochSeconds(nowMs))]
         else RowsAfter(rows, threads[..i], outs[..i], nowMs)
  {
    assert outs[..i + 1][..i] == outs[..i] && threads[..i + 1][..i] == threads[..i];
  }

  /** One pass of the loop: the thread's state is read, the thread planned, and a drafted
    * thread's head recorded. */
  method DraftThread(store: AutodraftStore, h: ThreadHead, cfg: RunConfig, svc: Services, nowMs: int)
    returns (outcome: Outcome)
    modifies store`rows
    ensures outcome == PlanThread(h, Lookup(store.ready, old(store.rows), h.threadId), cfg, svc)
    ensures store.rows == if store.ready && outcome.Drafted?
      then old(store.rows)[h.threadId := StateRow(h.latestId, EpochSeconds(nowMs))] else old(store.rows)
  {
    var state := store.GetAutodraftState(h.threadId);
    outcome := PlanThread(h, state, cfg, svc);
    if outcome.Drafted? {
      var _ := store.UpsertAutodraftState(h.threadId, h.latestId, nowMs);
    }
  }

  /** The loop of `runAutoDraftForToken` over the selected threads. */
  method DraftThreads(store: AutodraftStore, threads: seq<ThreadHead>, cfg: RunConfig, svc: Services, nowMs: int)
    returns (drafted: nat, drafts: seq<Draft>)
    requires DistinctThreads(threads)
    modifies store`rows
    ensures var outs := Outcomes(threads, store.ready, old(store.rows), cfg, svc);
      drafts == DraftsOf(outs) && drafted == |drafts|
      && store.rows == if store.ready then RowsAfter(old(store.rows), threads, outs, nowMs) else old(store.rows)
  {
    ghost var rows0 := store.rows;
    ghost var outs := Outcomes(threads, store.ready, rows0, cfg, svc);
    drafted := 0;
    drafts := [];
    for i := 0 to |threads|
      invariant drafts == DraftsOf(outs[..i]) && drafted == |drafts|
      invariant store.rows == if store.ready then RowsAfter(rows0, threads[..i], outs[..i], nowMs) else rows0
    {
      ReadUntouched(rows0, threads, outs, nowMs, i);
      RunStep(rows0, threads, outs, nowMs, i);
      var outcome := DraftThread(store, threads[i], cfg, svc, nowMs);
      assert outcome == outs[i];
      if outcome.Drafted? {
        drafted := drafted + 1;
        drafts := drafts + [outcome.draft];
      }
    }
    assert outs[..|threads|] == outs && threads[..|threads|] == threads;
  }

  /** `runAutoDraftForToken` over the listed `items`: the number of drafts created, the
    * drafts themselves, and the state table brought up to date (a failed write is
    * swallowed, so the table stays as it was when the store is not ready). */
  method RunAutoDraftForToken(store: AutodraftStore, items: seq<ListedMessage>, limit: JsNum, cfg: RunConfig,
                              svc: Services, nowMs: int) returns (drafted: nat, drafts: seq<Draft>)
    modifies store`rows
    ensures var threads := RunThreads(items, limit);
      var outs := Outcomes(threads, store.ready, old(store.rows), cfg, svc);
      drafts == DraftsOf(outs) && drafted == |drafts|
      && store.rows == if store.ready then RowsAfter(old(store.rows), threads, outs, nowMs) else old(store.rows)
  {
    var threads := CollectThreads(items, limit);
    assert threads == RunThreads(items, limit);
    drafted, drafts := DraftThreads(store, threads, cfg, svc, nowMs);
  }

  /** The next poll over the same listing drafts none of the threads this run drafted:
    * each finds its head recorded, whatever Gmail and the model answer then. */
  lemma RerunSkipsDrafted(items: seq<ListedMessage>, limit: JsNum, rows: map<string, StateRow>,
                          cfg: RunConfig, svc: Services, nowMs: int,
                          cfg2: RunConfig, svc2: Services, i: nat)
    requires var threads := RunThreads(items, limit);
      i < |threads| && Outcomes(threads, true, rows, cfg, svc)[i].Drafted?
    ensures var threads := RunThreads(items, limit);
      var after := RowsAfter(rows, threads, Outcomes(threads, true, rows, cfg, svc), nowMs);
      PlanThread(threads[i], Lookup(true, after, threads[i].threadId), cfg2, svc2) == AlreadyDrafted
  {
    var threads := RunThreads(items, limit);
    RowsAfterDrafted(rows, threads, Outcomes(threads, true, rows, cfg, svc), nowMs, i);
  }

  /** A run creates at most `limit` drafts when `limit` is a whole number. */
  lemma RunWithinLimit(items: seq<ListedMessage>, n: nat, ready: bool, rows: map<string, StateRow>,
                       cfg: RunConfig, svc: Services)
    ensures |DraftsOf(Outcomes(RunThreads(items, Finite(n as real)), ready, rows, cfg, svc))| <= n
  {
    var threads := RunThreads(items, Finite(n as real));
    assert Truncate(n as real) == n;
    DraftsAtMost(Outcomes(threads, ready, rows, cfg, svc));
  }
}
