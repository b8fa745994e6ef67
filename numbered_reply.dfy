/**
 * Requests that name a mail of the last numbered list ("3番を開いて", "2 返信")
 * (handlers/numberedReplyHandler.ts): the list is looked up in the scoped list cache of
 * the conversation, judged fresh or expired, the numbered item picked, and either its body
 * opened or a reply or draft saved. When the cache cannot answer, the newest list the
 * user's memory holds is used instead.
 *
 * The numbered pattern itself is not part of this model: its match (the index and the
 * action word) is an input. So are the cache's scope lookup, the memory search result and
 * the draft id, which the caller obtains. The messages posted are named by the outcome.
 */
module NumberedReply {
  import opened Wrappers
  import opened Strings
  import opened ListCache
  import opened Drafts
  import opened EmailTypes

  /** The fields of an incoming chat message that the handler reads. */
  datatype Message = Message(text: string, channel: Option<string>, threadTs: Option<string>, ts: Option<string>)

  /** A match of the numbered pattern: the list index and the action word. */
  datatype NumberedMatch = NumberedMatch(index: int, action: string)

  /** The thread a list is looked up in: `thread_ts || ts`. */
  function ScopeThread(m: Message): (r: Option<string>)
    ensures m.threadTs.Some? && m.threadTs.value != "" ==> r == m.threadTs
    ensures m.threadTs.None? || m.threadTs.value == "" ==> r == m.ts
  {
    if m.threadTs.Some? && m.threadTs.value != "" then m.threadTs else m.ts
  }

  predicate HasChannel(m: Message)
  {
    m.channel.Some? && m.channel.value != ""
  }

  /** `/(開いて|開く|open)/.test(action)`: the action word mentions opening. */
  predicate MentionsOpen(action: string)
  {
    Contains(action, "開いて") || Contains(action, "開く") || Contains(action, "open")
  }

  /** The action word is exactly one of the opening words. */
  predicate IsOpenAction(action: string)
  {
    action == "開いて" || action == "open" || action == "開く"
  }

  /** A list is expired strictly after its expiry second: at that very second it is fresh. */
  predicate IsExpired(nowSec: int, expiresAt: int)
  {
    nowSec > expiresAt
  }

  /** `items.find(i => Number(i.index) === target)`: the first item with that index. */
  function FindByIndex(items: seq<CacheItem>, target: int): (r: Option<CacheItem>)
    ensures r.Some? ==> r.value in items && r.value.index == target
    ensures r.None? <==> forall k :: 0 <= k < |items| ==> items[k].index != target
    ensures r.Some? ==> exists k :: 0 <= k < |items| && items[k] == r.value
                                   && forall j :: 0 <= j < k ==> items[j].index != target
  {
    if items == [] then None
    else if items[0].index == target then Some(items[0])
    else
      var r := FindByIndex(items[1..], target);
      if r.Some? then
        var k :| 0 <= k < |items[1..]| && items[1..][k] == r.value
                 && forall j :: 0 <= j < k ==> items[1..][j].index != target;
        assert items[k + 1] == r.value;
        r
      else r
  }

  // ---------------------------------------------------------------------
  // tryOpenFromCache
  // ---------------------------------------------------------------------

  /** What the fast path does with a message. */
  datatype OpenOutcome =
    | Declined                                              // not an open request: returns false
    | NoRecentList                                          // no list in this scope
    | ListExpired
    | OpenBody(index: int, item: CacheItem, cacheKey: string)
    | IndexNotFound(index: int)
    | ListUnreadable                                        // `items_json` does not parse

  /** The item a fresh cached list offers for an index: found, and with a message id. */
  function CachedItem(rec: CacheRecord, index: int): (r: Option<CacheItem>)
    requires rec.itemsJson.Items?
    ensures r.Some? ==> r.value.messageId != "" && r.value.index == index && r.value in rec.itemsJson.items
  {
    var found := FindByIndex(rec.itemsJson.items, index);
    if found.Some? && found.value.messageId != "" then found else None
  }

  /** `tryOpenFromCache`: `lookup` is the cache's `getLatestEmailListCacheByScope`. */
  function TryOpenFromCache(m: Message, matched: Option<NumberedMatch>,
                            lookup: (string, Option<string>) -> Option<CacheRecord>, nowSec: int): OpenOutcome
  {
    if matched.None? || !MentionsOpen(matched.value.action) || !HasChannel(m) then Declined
    else
      var index := matched.value.index;
      match lookup(m.channel.value, ScopeThread(m))
      case None => NoRecentList
      case Some(rec) =>
        if IsExpired(nowSec, rec.expiresAt) then ListExpired
        else if rec.itemsJson.Unparseable? then ListUnreadable
        else
          match CachedItem(rec, index)
          case Some(item) => OpenBody(index, item, rec.cacheKey)
          case None => IndexNotFound(index)
  }

  /** The fast path answers (returns true) exactly for open requests in a channel; it opens
    * a body only from a fresh list of this conversation's scope, and only the first item with
    * the requested index. */
  lemma FastPathDecision(m: Message, matched: Option<NumberedMatch>,
                         lookup: (string, Option<string>) -> Option<CacheRecord>, nowSec: int)
    ensures TryOpenFromCache(m, matched, lookup, nowSec) != Declined <==>
              matched.Some? && MentionsOpen(matched.value.action) && HasChannel(m)
    ensures TryOpenFromCache(m, matched, lookup, nowSec).OpenBody? ==>
              var o := TryOpenFromCache(m, matched, lookup, nowSec);
              var rec := lookup(m.channel.value, ScopeThread(m));
              rec.Some? && !IsExpired(nowSec, rec.value.expiresAt) && rec.value.cacheKey == o.cacheKey
              && rec.value.itemsJson.Items? && FindByIndex(rec.value.itemsJson.items, o.index) == Some(o.item)
              && o.index == matched.value.index && o.item.messageId != ""
    ensures TryOpenFromCache(m, matched, lookup, nowSec) == ListExpired <==>
              matched.Some? && MentionsOpen(matched.value.action) && HasChannel(m)
              && lookup(m.channel.value, ScopeThread(m)).Some?
              && IsExpired(nowSec, lookup(m.channel.value, ScopeThread(m)).value.expiresAt)
  {
  }

  // ---------------------------------------------------------------------
  // memory fallback: getLatestEmailList, findEmailByIndex, findEmailBySubject
  // ---------------------------------------------------------------------

  /** A memory entry's text: a list of mails with its kind, owner and generation time (in
    * milliseconds), or text that does not parse. */
  datatype MemoryData =
    | ListMemory(kind: string, userId: string, generatedAt: int, emails: seq<EmailItem>)
    | NotJson

  /** A memory entry is one of the user's mail lists. */
  predicate IsUserList(d: MemoryData, userId: string)
  {
    d.ListMemory? && d.kind == "email_list" && d.userId == userId
  }

  /** The position of the user's newest list: of those with the latest generation time, the
    * first (the sort is stable). */
  function NewestUserList(ms: seq<MemoryData>, userId: string): (r: Option<nat>)
    ensures r.None? <==> forall j :: 0 <= j < |ms| ==> !IsUserList(ms[j], userId)
    ensures r.Some? ==> r.value < |ms| && IsUserList(ms[r.value], userId)
    ensures r.Some? ==> forall j :: 0 <= j < |ms| && IsUserList(ms[j], userId) ==>
                          ms[j].generatedAt <= ms[r.value].generatedAt
                          && (j < r.value ==> ms[j].generatedAt < ms[r.value].generatedAt)
  {
    if ms == [] then None
    else
      var rest := NewestUserList(ms[1..], userId);
      assert forall j :: 1 <= j < |ms| ==> ms[j] == ms[1..][j - 1];
      if !IsUserList(ms[0], userId) then
        if rest.Some? then Some(rest.value + 1) else None
      else if rest.Some? && ms[rest.value + 1].generatedAt > ms[0].generatedAt then Some(rest.value + 1)
      else Some(0)
  }

  /** `getLatestEmailList`. */
  function LatestEmailList(ms: seq<MemoryData>, userId: string): (r: Option<MemoryData>)
    ensures r.Some? ==> IsUserList(r.value, userId)
  {
    match NewestUserList(ms, userId)
    case Some(i) => Some(ms[i])
    case None => None
  }

  /** The newest list is the only one that is as new as every other and strictly newer than
    * every earlier one. */
  lemma NewestIsUnique(ms: seq<MemoryData>, userId: string, i: nat)
    requires i < |ms| && IsUserList(ms[i], userId)
    requires forall j :: 0 <= j < |ms| && IsUserList(ms[j], userId) ==>
               ms[j].generatedAt <= ms[i].generatedAt && (j < i ==> ms[j].generatedAt < ms[i].generatedAt)
    ensures NewestUserList(ms, userId) == Some(i)
  {
  }

  /** `emails.find(e => e.index === target)`. */
  function FindEmailAt(emails: seq<EmailItem>, target: int): (r: Option<EmailItem>)
    ensures r.Some? ==> r.value in emails && r.value.index == target
    ensures r.None? <==> forall k :: 0 <= k < |emails| ==> emails[k].index != target
  {
    if emails == [] then None
    else if emails[0].index == target then Some(emails[0])
    else FindEmailAt(emails[1..], target)
  }

  /** Whether a mail matches a search term: its subject or its sender contains the term,
    * ignoring case. */
  predicate MatchesTerm(e: EmailItem, term: string)
  {
    Contains(Lower(e.subject), Lower(term)) || Contains(Lower(e.from), Lower(term))
  }

  /** `emails.find(...)` for a search term. */
  function FindEmailByTerm(emails: seq<EmailItem>, term: string): (r: Option<EmailItem>)
    ensures r.Some? ==> r.value in emails && MatchesTerm(r.value, term)
    ensures r.None? <==> forall k :: 0 <= k < |emails| ==> !MatchesTerm(emails[k], term)
  {
    if emails == [] then None
    else if MatchesTerm(emails[0], term) then Some(emails[0])
    else FindEmailByTerm(emails[1..], term)
  }

  /** The memory feature is switched off only by the exact value `false`. */
  predicate MemosDisabled(flag: Option<string>)
  {
    flag == Some("false")
  }

  /** `findEmailByIndex`, given the memory search's result. */
  function FindEmailByIndex(flag: Option<string>, memories: seq<MemoryData>, userId: string, target: int): Option<EmailItem>
  {
    if MemosDisabled(flag) || memories == [] then None
    else
      match LatestEmailList(memories, userId)
      case None => None
      case Some(list) => FindEmailAt(list.emails, target)
  }

  /** `findEmailBySubject`, given the memory search's result. */
  function FindEmailBySubject(flag: Option<string>, memories: seq<MemoryData>, userId: string, term: string): Option<EmailItem>
  {
    if MemosDisabled(flag) || memories == [] then None
    else
      match LatestEmailList(memories, userId)
      case None => None
      case Some(list) => FindEmailByTerm(list.emails, term)
  }

  /** A mail found in memory comes from the user's newest list, and a memory that was
    * switched off finds nothing. */
  lemma MemoryLookupUsesNewestList(flag: Option<string>, memories: seq<MemoryData>, userId: string, target: int)
    ensures MemosDisabled(flag) ==> FindEmailByIndex(flag, memories, userId, target).None?
    ensures FindEmailByIndex(flag, memories, userId, target).Some? ==>
              var i := NewestUserList(memories, userId);
              i.Some? && FindEmailByIndex(flag, memories, userId, target).value in memories[i.value].emails
              && FindEmailByIndex(flag, memories, userId, target).value.index == target
  {
  }

  // ---------------------------------------------------------------------
  // handleNumberedRequest
  // ---------------------------------------------------------------------

  /** The mail an action works on. */
  datatype TargetEmail = TargetEmail(subject: string, from: string, fromEmail: Option<string>,
                                     threadId: Option<string>, id: string, index: int)

  /** The target built from a cached item: the cache keeps no thread id or sender address. */
  function FromCacheItem(item: CacheItem): TargetEmail
  {
    TargetEmail(item.subject, item.from, None, None, item.messageId, item.index)
  }

  function FromEmailItem(e: EmailItem): TargetEmail
  {
    TargetEmail(e.subject, e.from, e.fromEmail, e.threadId, e.id, e.index)
  }

  /** What `handleNumberedRequest` does. */
  datatype NumberedOutcome =
    | NoThreadInfo                                          // the message has no channel
    | Expired
    | OpenCached(index: int, item: CacheItem, cacheKey: string)
    | Act(target: TargetEmail, action: string)
    | NoListFound                                           // memory switched off
    | NotInMemory(index: int)

  /** Whether the cache decides the request: a fresh list holding the item. */
  function FromCache(rec: Option<CacheRecord>, nowSec: int, index: int): (r: Option<(CacheRecord, CacheItem)>)
    ensures r.Some? ==> rec == Some(r.value.0) && !IsExpired(nowSec, r.value.0.expiresAt)
                        && r.value.0.itemsJson.Items? && CachedItem(r.value.0, index) == Some(r.value.1)
  {
    if rec.Some? && !IsExpired(nowSec, rec.value.expiresAt) && rec.value.itemsJson.Items?
       && CachedItem(rec.value, index).Some?
    then Some((rec.value, CachedItem(rec.value, index).value))
    else None
  }

  /** `handleNumberedRequest`: a fresh cached list decides; an expired one stops the request;
    * an unreadable list or a missing item falls through to the memory. */
  function HandleNumberedRequest(m: Message, matched: NumberedMatch,
                                 lookup: (string, Option<string>) -> Option<CacheRecord>, nowSec: int,
                                 flag: Option<string>, memories: seq<MemoryData>, userId: string): NumberedOutcome
  {
    if !HasChannel(m) then NoThreadInfo
    else
      var rec := lookup(m.channel.value, ScopeThread(m));
      if rec.Some? && IsExpired(nowSec, rec.value.expiresAt) then Expired
      else
        match FromCache(rec, nowSec, matched.index)
        case Some((r, item)) =>
          if IsOpenAction(matched.action) then OpenCached(matched.index, item, r.cacheKey)
          else Act(FromCacheItem(item), matched.action)
        case None =>
          if MemosDisabled(flag) then NoListFound
          else
            match FindEmailByIndex(flag, memories, userId, matched.index)
            case None => NotInMemory(matched.index)
            case Some(e) => Act(FromEmailItem(e), matched.action)
  }

  /** An expired list stops the request, whatever memory holds; a fresh list with the item
    * decides it; memory is consulted only otherwise. */
  lemma CacheBeforeMemory(m: Message, matched: NumberedMatch,
                          lookup: (string, Option<string>) -> Option<CacheRecord>, nowSec: int,
                          flag: Option<string>, memories: seq<MemoryData>, userId: string)
    requires HasChannel(m)
    ensures var rec := lookup(m.channel.value, ScopeThread(m));
            var o := HandleNumberedRequest(m, matched, lookup, nowSec, flag, memories, userId);
            (rec.Some? && IsExpired(nowSec, rec.value.expiresAt) <==> o == Expired)
            && (FromCache(rec, nowSec, matched.index).Some? ==>
                  var item := FromCache(rec, nowSec, matched.index).value.1;
                  if IsOpenAction(matched.action) then o.OpenCached? && o.item == item
                  else o == Act(FromCacheItem(item), matched.action))
            && (o.NotInMemory? || o == NoListFound ==> FromCache(rec, nowSec, matched.index).None?)
  {
  }

  /** The fast path and the full handler agree on a fresh cached list: where the full handler
    * opens a body, the fast path opens the same one. */
  lemma FastPathAgrees(m: Message, matched: NumberedMatch,
                       lookup: (string, Option<string>) -> Option<CacheRecord>, nowSec: int,
                       flag: Option<string>, memories: seq<MemoryData>, userId: string)
    requires HandleNumberedRequest(m, matched, lookup, nowSec, flag, memories, userId).OpenCached?
    ensures var o := HandleNumberedRequest(m, matched, lookup, nowSec, flag, memories, userId);
            TryOpenFromCache(m, Some(matched), lookup, nowSec) == OpenBody(o.index, o.item, o.cacheKey)
  {
    OpenWordsMentionOpen(matched.action);
  }

  /** Every exact opening word passes the fast path's looser test. */
  lemma OpenWordsMentionOpen(action: string)
    requires IsOpenAction(action)
    ensures MentionsOpen(action)
  {
    ContainsAt(action, action, 0);
  }

  // ---------------------------------------------------------------------
  // executeEmailAction
  // ---------------------------------------------------------------------

  /** The draft an action word creates, if any: a reply carries the quoted header of the
    * original and `Re: ` before its subject; a draft is addressed to the sender. */
  function ActionDraft(target: TargetEmail, action: string, draftId: string, nowMs: int): Option<DraftData>
  {
    if action == "返信" || action == "reply" then
      Some(DraftData("\n\n--- 元のメール ---\n件名: " + target.subject + "\n送信者: " + target.from + "\n",
                     Some("Re: " + target.subject), None, None, None, None, target.threadId, nowMs, Some(draftId)))
    else if action == "下書き" || action == "draft" then
      var to := if target.fromEmail.Some? && target.fromEmail.value != "" then target.fromEmail.value else target.from;
      Some(DraftData("", Some(target.subject), Some(to), None, None, None, None, nowMs, Some(draftId)))
    else None
  }

  /** `executeEmailAction`: the draft, if the action makes one, is saved for the user under
    * the fresh draft id; the request counts as handled either way. */
  method ExecuteEmailAction(store: DraftStore, target: TargetEmail, action: string, userId: string,
                            draftId: string, nowMs: int)
    returns (handled: bool, saved: Option<DraftData>)
    modifies store
    ensures handled
    ensures saved == ActionDraft(target, action, draftId, nowMs)
    ensures saved.Some? ==> store.drafts == old(store.drafts)[userId :=
              (if userId in old(store.drafts) then old(store.drafts)[userId] else map[])[draftId := saved.value]]
    ensures saved.None? ==> store.drafts == old(store.drafts)
  {
    saved := ActionDraft(target, action, draftId, nowMs);
    if saved.Some? {
      store.SaveDraft(userId, draftId, saved.value);
    }
    handled := true;
  }

  /** A reply draft is titled `Re: ` and the original subject, stays in the original thread,
    * and is saved under its own draft id; a plain draft goes to the sender's address when
    * known; other words save nothing. */
  lemma ActionDrafts(target: TargetEmail, action: string, draftId: string, nowMs: int)
    ensures var d := ActionDraft(target, action, draftId, nowMs);
            (d.Some? <==> action in {"返信", "reply", "下書き", "draft"})
            && (d.Some? ==> d.value.draftId == Some(draftId) && d.value.createdAt == nowMs)
            && ((action == "返信" || action == "reply") ==>
                  d.value.subject == Some("Re: " + target.subject) && d.value.threadId == target.threadId
                  && Contains(d.value.body, target.subject))
            && ((action == "下書き" || action == "draft") ==>
                  d.value.body == "" && d.value.subject == Some(target.subject)
                  && d.value.to == Some(if target.fromEmail.Some? && target.fromEmail.value != ""
                                        then target.fromEmail.value else target.from))
  {
    if action == "返信" || action == "reply" {
      var pre := "\n\n--- 元のメール ---\n件名: ";
      var b := pre + target.subject + "\n送信者: " + target.from + "\n";
      assert b[|pre|..|pre| + |target.subject|] == target.subject;
      ContainsAt(b, target.subject, |pre|);
    }
  }
}
