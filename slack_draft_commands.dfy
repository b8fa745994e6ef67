/**
 * The draft-related decisions of the chat message handler: keeping a draft
 * the model's answer describes (`processDraft`), choosing the draft a
 * "save" or "send" request is about (`handleDraftAction`), and the dry-run
 * quick commands for a new mail or a reply to item N of the cached list
 * (`handlePhase3QuickCommands`).
 *
 * The draft field patterns (`DRAFT_ID_PATTERN`, `BODY_PATTERN`, ...) are not
 * part of this model: their capture groups are parameters.
 */
module SlackDraftCommands {
  import opened Wrappers
  import opened Strings
  import opened Drafts
  import opened ListCache
  import IntentRouter
  import NumberedReply
  import DraftText
  import AutodraftState

  // ---------------------------------------------------------------------
  // processDraft
  // ---------------------------------------------------------------------

  /** The first capture group of each draft pattern, when the pattern matched. */
  datatype DraftCaptures = DraftCaptures(draftId: Option<string>, body: Option<string>, subject: Option<string>,
                                         to: Option<string>, threadId: Option<string>)

  function TrimmedOpt(v: Option<string>): (r: Option<string>)
    ensures r.Some? <==> v.Some?
    ensures r.Some? ==> r.value == Trim(v.value)
  {
    match v
    case None => None
    case Some(x) => Some(Trim(x))
  }

  /** The draft id used: the captured one when non-empty, else a fresh one. */
  function ChosenDraftId(c: DraftCaptures, generated: string): string
  {
    if Truthy(c.draftId) then c.draftId.value else generated
  }

  /** The `draftData` built from the captures, each field trimmed. */
  function CapturedDraft(c: DraftCaptures, draftId: string, nowMs: int): DraftData
  {
    DraftData(if c.body.Some? then Trim(c.body.value) else "", TrimmedOpt(c.subject), TrimmedOpt(c.to),
              None, None, None, TrimmedOpt(c.threadId), nowMs, Some(draftId))
  }

  /** `Boolean((body || '').trim() || subject || to)`. */
  predicate HasContent(d: DraftData)
  {
    Trim(d.body) != "" || Truthy(d.subject) || Truthy(d.to)
  }

  /** A capture that holds more than white space. */
  predicate Filled(v: Option<string>)
  {
    v.Some? && Trim(v.value) != ""
  }

  /** A draft is kept exactly when its body, subject or recipient capture holds text; a
    * thread id alone, or captures of white space only, are not enough. */
  lemma ContentIffFilled(c: DraftCaptures, draftId: string, nowMs: int)
    ensures HasContent(CapturedDraft(c, draftId, nowMs)) <==> Filled(c.body) || Filled(c.subject) || Filled(c.to)
  {
    if c.body.Some? {
      TrimIdempotent(c.body.value);
    }
  }

  datatype DraftProcessResult = DraftProcessResult(draftId: string, draft: DraftData, shouldPrompt: bool)

  /** `processDraft`: a draft with content is saved under its id and offered for
    * confirmation; one without content is dropped and nothing is saved. */
  method ProcessDraft(store: DraftStore, userId: string, c: DraftCaptures, generated: string, nowMs: int)
    returns (r: Option<DraftProcessResult>)
    modifies store
    ensures var id := ChosenDraftId(c, generated);
      var d := CapturedDraft(c, id, nowMs);
      (r.None? <==> !HasContent(d))
      && (r.None? ==> store.drafts == old(store.drafts))
      && (r.Some? ==>
            r.value == DraftProcessResult(id, d, true)
            && store.drafts == old(store.drafts)[userId := old(store.GetDrafts(userId)).UnwrapOr(map[])[id := d]])
  {
    var draftId := if Truthy(c.draftId) then c.draftId.value else generated;
    var d := CapturedDraft(c, draftId, nowMs);
    if !(Trim(d.body) != "" || Truthy(d.subject) || Truthy(d.to)) {
      return None;
    }
    store.SaveDraft(userId, draftId, d);
    return Some(DraftProcessResult(draftId, d, true));
  }

  // ---------------------------------------------------------------------
  // handleDraftAction
  // ---------------------------------------------------------------------

  /** `[a-zA-Z0-9\-_]`. */
  predicate DraftIdChar(c: char)
  {
    IsAsciiLetter(c) || IsDigit(c) || c == '-' || c == '_'
  }

  function DraftIdRunEnd(s: string, j: nat): (k: nat)
    requires j <= |s|
    ensures j <= k <= |s| && (k == |s| || !DraftIdChar(s[k]))
    ensures forall m :: j <= m < k ==> DraftIdChar(s[m])
    decreases |s| - j
  {
    if j < |s| && DraftIdChar(s[j]) then DraftIdRunEnd(s, j + 1) else j
  }

  /** `draftId[:：]?\s*([a-zA-Z0-9\-_]+)` at `i`: the captured id, if the pattern matches there. */
  function DraftIdAt(s: string, i: nat): (r: Option<string>)
    requires i <= |s|
    ensures r.Some? ==> r.value != [] && forall m :: 0 <= m < |r.value| ==> DraftIdChar(r.value[m])
  {
    if !OccursAt(s, "draftId", i) then None
    else
      var j := i + 7;
      var j' := if j < |s| && (s[j] == ':' || s[j] == '：') then j + 1 else j;
      var k := SkipSpaces(s, j');
      var e := DraftIdRunEnd(s, k);
      if e > k then Some(s[k..e]) else None
  }

  /** The first match at or after `i`. */
  function ExplicitDraftIdFrom(s: string, i: nat): Option<string>
    requires i <= |s|
    decreases |s| - i
  {
    if i == |s| then None
    else if DraftIdAt(s, i).Some? then DraftIdAt(s, i)
    else ExplicitDraftIdFrom(s, i + 1)
  }

  /** The draft id a request names explicitly. */
  function ExplicitDraftId(text: string): Option<string>
  {
    ExplicitDraftIdFrom(text, 0)
  }

  lemma {:induction false} DraftIdRunAt(s: string, j: nat, k: nat)
    requires j <= k <= |s| && (k == |s| || !DraftIdChar(s[k]))
    requires forall m :: j <= m < k ==> DraftIdChar(s[m])
    ensures DraftIdRunEnd(s, j) == k
    decreases k - j
  {
    if j < k {
      DraftIdRunAt(s, j + 1, k);
    }
  }

  /** `draftId: <id>` at the start of a request names `<id>`. */
  lemma NamedDraftId(id: string, rest: string)
    requires id != [] && forall m :: 0 <= m < |id| ==> DraftIdChar(id[m])
    requires rest == [] || !DraftIdChar(rest[0])
    ensures ExplicitDraftId("draftId: " + id + rest) == Some(id)
  {
    var s := "draftId: " + id + rest;
    assert s[..7] == "draftId";
    assert s[7] == ':' && s[8] == ' ';
    assert 9 == |s| || !IsSpace(s[9]) by {
      assert s[9] == id[0];
    }
    assert SkipSpaces(s, 8) == 9;
    assert forall m :: 9 <= m < 9 + |id| ==> s[m] == id[m - 9];
    assert 9 + |id| < |s| ==> s[9 + |id|] == rest[0];
    DraftIdRunAt(s, 9, 9 + |id|);
    assert s[9..9 + |id|] == id;
  }

  /** A user's drafts in `Object.entries` order. */
  type DraftEntries = seq<(string, DraftData)>

  /** The index a stable sort by `createdAt`, newest first, puts first: the first entry
    * with the largest `createdAt`. */
  function LatestIndex(es: DraftEntries): (k: nat)
    requires es != []
    ensures k < |es|
    decreases |es|
  {
    var n := |es| - 1;
    if n == 0 then 0
    else
      var p := LatestIndex(es[..n]);
      if es[n].1.createdAt > es[p].1.createdAt then n else p
  }

  /** The entry chosen is the newest, and every entry before it is strictly older. */
  lemma {:induction false} LatestIndexIsNewest(es: DraftEntries)
    requires es != []
    ensures var k := LatestIndex(es);
      (forall j :: 0 <= j < |es| ==> es[j].1.createdAt <= es[k].1.createdAt)
      && (forall j :: 0 <= j < k ==> es[j].1.createdAt < es[k].1.createdAt)
    decreases |es|
  {
    var n := |es| - 1;
    if n > 0 {
      LatestIndexIsNewest(es[..n]);
      var p := LatestIndex(es[..n]);
      forall j | 0 <= j < n ensures es[j] == es[..n][j] {
      }
    }
  }

  /** Only one entry is the newest with every earlier entry strictly older. */
  lemma LatestIndexUnique(es: DraftEntries, m: nat)
    requires m < |es|
    requires forall j :: 0 <= j < |es| ==> es[j].1.createdAt <= es[m].1.createdAt
    requires forall j :: 0 <= j < m ==> es[j].1.createdAt < es[m].1.createdAt
    ensures LatestIndex(es) == m
  {
    LatestIndexIsNewest(es);
  }

  /** `getDrafts(userId)[id]`. */
  function FindDraft(es: DraftEntries, id: string): (r: Option<DraftData>)
    ensures r.Some? ==> exists k :: 0 <= k < |es| && es[k] == (id, r.value)
    ensures r.None? ==> forall k :: 0 <= k < |es| ==> es[k].0 != id
    decreases |es|
  {
    if es == [] then None
    else if es[0].0 == id then Some(es[0].1)
    else
      var r := FindDraft(es[1..], id);
      if r.Some? then
        var k :| 0 <= k < |es[1..]| && es[1..][k] == (id, r.value);
        assert es[k + 1] == (id, r.value);
        r
      else r
  }

  predicate DistinctKeys(es: DraftEntries)
  {
    forall i, j :: 0 <= i < j < |es| ==> es[i].0 != es[j].0
  }

  lemma FindDraftAt(es: DraftEntries, k: nat)
    requires DistinctKeys(es) && k < |es|
    ensures FindDraft(es, es[k].0) == Some(es[k].1)
  {
    var r := FindDraft(es, es[k].0);
    var k' :| 0 <= k' < |es| && es[k'] == (es[k].0, r.value);
  }

  datatype ActionType = GmailSend | GmailDraft

  /** What a "save" or "send" request leads to. */
  datatype DraftAction = DraftIdMissing | SaveNow(draftId: string, draft: DraftData)
                       | Confirm(action: ActionType, draftId: string, draft: DraftData)

  /** `handleDraftAction` with the user's drafts (`None` when the user has none stored). */
  function HandleDraftAction(text: string, drafts: Option<DraftEntries>): DraftAction
  {
    var useId := match ExplicitDraftId(text)
      case Some(id) => Some(id)
      case None => if drafts.Some? && drafts.value != [] then Some(drafts.value[LatestIndex(drafts.value)].0) else None;
    if useId.None? || drafts.None? then DraftIdMissing
    else
      match FindDraft(drafts.value, useId.value)
      case None => DraftIdMissing
      case Some(d) =>
        if Contains(text, "保存して") then SaveNow(useId.value, d)
        else Confirm(if Contains(text, "送信して") then GmailSend else GmailDraft, useId.value, d)
  }

  function ActionDraft(a: DraftAction): DraftData
    requires !a.DraftIdMissing?
  {
    a.draft
  }

  /** Without an explicit id the request acts on the newest stored draft. */
  lemma NewestDraftChosen(text: string, es: DraftEntries)
    requires ExplicitDraftId(text).None? && es != [] && DistinctKeys(es)
    ensures var a := HandleDraftAction(text, Some(es));
      !a.DraftIdMissing?
      && (forall j :: 0 <= j < |es| ==> es[j].1.createdAt <= ActionDraft(a).createdAt)
      && ActionDraft(a) == es[LatestIndex(es)].1
  {
    FindDraftAt(es, LatestIndex(es));
    LatestIndexIsNewest(es);
  }

  /** An explicit id is used as given: its stored draft, or nothing when none is stored. */
  lemma ExplicitIdUsed(text: string, drafts: Option<DraftEntries>)
    requires ExplicitDraftId(text).Some?
    ensures var id := ExplicitDraftId(text).value;
      var a := HandleDraftAction(text, drafts);
      (a.DraftIdMissing? <==> drafts.None? || FindDraft(drafts.value, id).None?)
      && (!a.DraftIdMissing? ==> a.draftId == id && ActionDraft(a) == FindDraft(drafts.value, id).value)
  {
  }

  /** A request saying both "save" and "send" saves; "send" alone asks to confirm a send. */
  lemma SaveBeforeSend(text: string, drafts: Option<DraftEntries>)
    ensures var a := HandleDraftAction(text, drafts);
      (a.SaveNow? <==> !a.DraftIdMissing? && Contains(text, "保存して"))
      && (a.Confirm? ==> (a.action == GmailSend <==> Contains(text, "送信して")))
  {
  }

  // ---------------------------------------------------------------------
  // handlePhase3QuickCommands
  // ---------------------------------------------------------------------

  /** `/^(\d+)\s*(?:番)?\s*(?:を)?\s*に?\s*(返信|reply)$/` read with `parseInt`. */
  function ReplyCommand(t: string): (r: Option<nat>)
    ensures r.Some? ==> t != [] && IsDigit(t[0])
  {
    var e := DigitRunEnd(t, 0);
    if e == 0 then None
    else
      var p1 := SkipSpaces(t, e);
      var p2 := if p1 < |t| && t[p1] == '番' then SkipSpaces(t, p1 + 1) else p1;
      var p3 := if p2 < |t| && t[p2] == 'を' then SkipSpaces(t, p2 + 1) else p2;
      var p4 := if p3 < |t| && t[p3] == 'に' then SkipSpaces(t, p3 + 1) else p3;
      if t[p4..] == "返信" || t[p4..] == "reply" then
        DigitRunAllDigits(t, 0);
        Some(DigitsValue(t[..e]))
      else None
  }

  /** `<digits>番に返信` asks to reply to item `<digits>`. */
  lemma NumberedReplyCommand(d: string)
    requires d != [] && AllDigits(d)
    ensures ReplyCommand(d + "番に返信") == Some(DigitsValue(d))
  {
    var t := d + "番に返信";
    var n := |d|;
    assert forall i :: 0 <= i < n ==> t[i] == d[i];
    assert t[n] == '番' && t[n + 1] == 'に';
    IntentRouter.DigitRunFrom(t, 0, n);
    assert SkipSpaces(t, n) == n;
    assert SkipSpaces(t, n + 1) == n + 1;
    assert SkipSpaces(t, n + 2) == n + 2;
    assert t[n + 2..] == "返信";
    assert t[..n] == d;
  }

  /** What a quick command does. */
  datatype QuickOutcome =
    | NotQuick                              // returns false: the message goes on to the other handlers
    | Compose(draft: DraftData)             // an empty dry-run draft
    | NoList                                // no cached list in this conversation
    | ListExpired
    | ListUnreadable
    | IndexMissing(index: nat)
    | Reply(draft: DraftData)               // a dry-run reply to the chosen item

  function EmptyDraft(nowMs: int): DraftData
  {
    DraftData("", None, None, None, None, None, None, nowMs, None)
  }

  /** The reply draft for a cached list item. */
  function ReplyDraft(item: CacheItem, nowMs: int): DraftData
  {
    DraftData("\n\n--- 元のメール ---\n件名: " + item.subject + "\n送信者: " + item.from + "\n",
              Some(DraftText.EnsureReplySubject(Some(item.subject))), Some(item.from), None, None,
              Some(item.messageId), None, nowMs, None)
  }

  /** `handlePhase3QuickCommands`: `lookup` is the cache's `getLatestEmailListCacheByScope`
    * and `thread` is `thread_ts || ts`. */
  function QuickCommand(text: string, channel: Option<string>, thread: Option<string>,
                        lookup: (string, Option<string>) -> Option<CacheRecord>, nowMs: int): QuickOutcome
  {
    if !Truthy(channel) then NotQuick
    else if Trim(text) in IntentRouter.ComposePhrases then Compose(EmptyDraft(nowMs))
    else
      match ReplyCommand(text)
      case None => NotQuick
      case Some(idx) => ReplyToIndex(idx, lookup(channel.value, thread), nowMs)
  }

  /** The reply branch once the index is read and the cache consulted. */
  function ReplyToIndex(idx: nat, cache: Option<CacheRecord>, nowMs: int): QuickOutcome
  {
    match cache
    case None => NoList
    case Some(rec) =>
      if NumberedReply.IsExpired(AutodraftState.EpochSeconds(nowMs), rec.expiresAt) then ListExpired
      else
        match rec.itemsJson
        case Unparseable(_) => ListUnreadable
        case Items(items) =>
          match NumberedReply.FindByIndex(items, idx)
          case None => IndexMissing(idx)
          case Some(item) => Reply(ReplyDraft(item, nowMs))
  }

  /** A list is expired only strictly after its expiry second. */
  lemma ExpiredIff(idx: nat, rec: CacheRecord, nowMs: int)
    ensures ReplyToIndex(idx, Some(rec), nowMs) == ListExpired <==> nowMs / 1000 > rec.expiresAt
  {
  }

  /** A reply goes to the sender of the first listed item with the index asked for, as a
    * reply in its thread of messages and under a subject marked as a reply. */
  lemma ReplyShape(idx: nat, cache: Option<CacheRecord>, nowMs: int)
    requires ReplyToIndex(idx, cache, nowMs).Reply?
    ensures var d := ReplyToIndex(idx, cache, nowMs).draft;
      var items := cache.value.itemsJson.items;
      exists k :: 0 <= k < |items| && items[k].index == idx
        && (forall j :: 0 <= j < k ==> items[j].index != idx)
        && d.to == Some(items[k].from) && d.inReplyToMessageId == Some(items[k].messageId)
        && d.subject.Some? && DraftText.HasReplyPrefix(d.subject.value)
        && EndsWith(d.subject.value, items[k].subject)
  {
    var items := cache.value.itemsJson.items;
    var item := NumberedReply.FindByIndex(items, idx).value;
    var k :| 0 <= k < |items| && items[k] == item && forall j :: 0 <= j < k ==> items[j].index != idx;
  }

  /** A compose phrase is never read as a reply command. */
  lemma ComposeIsNotReply(text: string, channel: Option<string>, thread: Option<string>,
                          lookup: (string, Option<string>) -> Option<CacheRecord>, nowMs: int)
    requires Truthy(channel) && Trim(text) in IntentRouter.ComposePhrases
    ensures QuickCommand(text, channel, thread, lookup, nowMs) == Compose(EmptyDraft(nowMs))
  {
  }
}
