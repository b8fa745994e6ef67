/**
 * Listing inbox mails through a Pipedream Gmail action without the language
 * model (services/gmailReadDirectService.ts): the request body, the list of
 * action paths to try, the first path that answers, and the numbered lines
 * built from the answer.
 *
 * The HTTP calls are parameters: `post(path, body)` is the outcome of
 * `tryPost` for one action path, and `discovered` is what the action listing
 * (`discoverGmailActions`) returned. `calendar(date, n)` stands for the local
 * calendar day `n` days after the midnight that begins `date` (JavaScript
 * `Date` arithmetic). The answer is a parsed JSON document, as in the list
 * detector, with every field given as its text.
 */
module GmailReadDirect {
  import opened Wrappers
  import opened Strings
  import opened Seqs
  import opened DateText
  import EmailDetection

  // ---------------------------------------------------------------------
  // one line per mail
  // ---------------------------------------------------------------------

  const NoSubject := "(件名なし)"
  const NoSender := "(送信者不明)"

  /** `(v || '').trim() || placeholder`. */
  function SafeText(v: Option<string>, placeholder: string): (r: string)
    ensures v.None? || AllSpace(v.value) ==> r == placeholder
    ensures v.Some? && !AllSpace(v.value) ==> r == Trim(v.value) && r != []
  {
    var s := Trim(if v.Some? then v.value else "");
    if s != [] then s else placeholder
  }

  /** The shown text is never empty and has no surrounding white space, given a placeholder
    * without surrounding white space. */
  lemma SafeTextClean(v: Option<string>, placeholder: string)
    requires placeholder != [] && !IsSpace(placeholder[0]) && !IsSpace(placeholder[|placeholder| - 1])
    ensures SafeText(v, placeholder) != [] && Trim(SafeText(v, placeholder)) == SafeText(v, placeholder)
  {
    if v.Some? && !AllSpace(v.value) {
      TrimIdempotent(v.value);
    } else {
      TrimKeepsTrimmed(placeholder);
    }
  }

  /** `(\d{4})[\/年-](\d{1,2})[\/月-](\d{1,2})(?:[\sT]*(\d{1,2}):(\d{2}))?` */
  const DirectPattern := YearFirst({'/', '年', '-'}, {'/', '月', '-'}, AnySeparators)

  /** `toDateStr` on a string: empty stays empty, ISO-like text is cut to minutes, a recognised
    * date is written `YYYY-MM-DD HH:mm`, anything else is kept. */
  function ToDateStr(s: string): string
  {
    if s == "" then "" else Normalize(s, DirectPattern)
  }

  /** A date written with 年 and 月 comes out zero-padded at midnight. */
  lemma KanjiDateNormalised(y: string, m: string, d: string)
    requires |y| == 4 && AllDigits(y) && 1 <= |m| <= 2 && AllDigits(m) && 1 <= |d| <= 2 && AllDigits(d)
    ensures ToDateStr(y + "年" + m + "月" + d) == y + "-" + PadStart2(m) + "-" + PadStart2(d) + " 00:00"
  {
    var t := y + "年" + m + "月" + d;
    assert t == y + ['年'] + m + ['月'] + d;
    assert t[4] == '年';
    assert !IsoLike(t);
    YearFirstWhole(y, '年', m, '月', d, {'/', '年', '-'}, {'/', '月', '-'}, AnySeparators);
    assert Normalize(t, DirectPattern) == Render(DateMatch(y, m, d, None));
    RenderWithoutTime(y, m, d);
  }

  /** `N. subject — from` */
  function LineHead(idx: nat, subject: Option<string>, from: Option<string>): string
  {
    NatToString(idx) + ". " + SubjectAndSender(subject, from)
  }

  function SubjectAndSender(subject: Option<string>, from: Option<string>): string
  {
    SafeText(subject, NoSubject) + " — " + SafeText(from, NoSender)
  }

  /** `（date）` when the date text is not empty. */
  function DatePart(ds: string): string
  {
    if ds != "" then "（" + ds + "）" else ""
  }

  /** ` [id:…]` when there is an id. */
  function IdPart(id: Option<string>): string
  {
    if Truthy(id) then " [id:" + id.value + "]" else ""
  }

  /** `formatLine`: `N. subject — from（date） [id:…]`. */
  function FormatLine(idx: nat, subject: Option<string>, from: Option<string>, date: string, id: Option<string>): string
  {
    LineHead(idx, subject, from) + DatePart(ToDateStr(date)) + IdPart(id)
  }

  /** Three pieces joined: the first is a prefix; the last, or the middle when the last is empty,
    * a suffix. */
  lemma ThreePieces(h: string, a: string, b: string)
    ensures StartsWith(h + a + b, h) && EndsWith(h + a + b, b)
    ensures b == "" ==> EndsWith(h + a + b, a)
    ensures a == "" && b == "" ==> h + a + b == h
  {
    assert (h + a + b)[..|h|] == h;
    assert (h + a + b)[|h + a + b| - |b|..] == b;
    if b == "" {
      assert h + a + b == h + a;
    }
  }

  /** The head starts with the number and `. `. */
  lemma HeadStartsWithNumber(idx: nat, subject: Option<string>, from: Option<string>)
    ensures StartsWith(LineHead(idx, subject, from), NatToString(idx) + ". ")
  {
    PrefixOfJoin(NatToString(idx) + ". ", SubjectAndSender(subject, from));
  }

  lemma PrefixOfJoin(x: string, y: string)
    ensures StartsWith(x + y, x)
  {
    assert (x + y)[..|x|] == x;
  }

  lemma StartsWithTrans(a: string, b: string, c: string)
    requires StartsWith(a, b) && StartsWith(b, c)
    ensures StartsWith(a, c)
  {
    assert a[..|c|] == b[..|c|];
  }

  /** The line starts with its number, the subject and the sender; it ends with the id part when
    * there is an id, else with the date part when the date is shown, and is the head alone when
    * there is neither. */
  lemma FormatLineLayout(idx: nat, subject: Option<string>, from: Option<string>, date: string, id: Option<string>)
    ensures var r := FormatLine(idx, subject, from, date, id);
      StartsWith(r, LineHead(idx, subject, from))
      && StartsWith(r, NatToString(idx) + ". ")
      && (Truthy(id) ==> EndsWith(r, " [id:" + id.value + "]"))
      && (!Truthy(id) && ToDateStr(date) != "" ==> EndsWith(r, "（" + ToDateStr(date) + "）"))
      && (!Truthy(id) && ToDateStr(date) == "" ==> r == LineHead(idx, subject, from))
  {
    var h := LineHead(idx, subject, from);
    ThreePieces(h, DatePart(ToDateStr(date)), IdPart(id));
    HeadStartsWithNumber(idx, subject, from);
    StartsWithTrans(FormatLine(idx, subject, from, date, id), h, NatToString(idx) + ". ");
  }

  // ---------------------------------------------------------------------
  // the request
  // ---------------------------------------------------------------------

  datatype ListParams = ListParams(mailbox: Option<string>, date: Option<string>, query: Option<string>,
                                   limit: Option<nat>)

  /** The JSON body posted to the action; `labelIds: ['INBOX']` is `inboxLabel`. */
  datatype RequestBody = RequestBody(mailbox: string, limit: nat, date: Option<string>, q: Option<string>,
                                     query: Option<string>, inboxLabel: bool)

  /** `after:<date> before:<next day>`. */
  function DayWindow(date: string, calendar: (string, int) -> Day): string
  {
    "after:" + SlashDay(calendar(date, 0)) + " before:" + SlashDay(calendar(date, 1))
  }

  /** The request body: the date gives a one-day `q` window, and an explicit query replaces it. */
  function BuildBody(p: ListParams, limit: nat, calendar: (string, int) -> Day): (b: RequestBody)
    ensures b.mailbox == (if Truthy(p.mailbox) then p.mailbox.value else "inbox")
    ensures b.limit == limit
    ensures Truthy(p.query) ==> b.q == p.query && b.query == p.query
    ensures !Truthy(p.query) && Truthy(p.date) ==> b.q == Some(Trim(DayWindow(p.date.value, calendar))) && b.query == b.q
    ensures !Truthy(p.query) && !Truthy(p.date) ==> b.q.None? && b.query.None?
    ensures b.inboxLabel <==> Lower(b.mailbox) == "inbox"
  {
    var mailbox := if Truthy(p.mailbox) then p.mailbox.value else "inbox";
    var dated := if Truthy(p.date) then Some(Trim(DayWindow(p.date.value, calendar))) else None;
    var q := if Truthy(p.query) then p.query else dated;
    RequestBody(mailbox, limit, if Truthy(p.date) then p.date else None, q, q, Lower(mailbox) == "inbox")
  }

  /** `Number(GMAIL_LIST_LIMIT ?? String(p.limit || 10))`, with the setting given as a number. */
  function Limit(p: ListParams, setting: Option<nat>): nat
  {
    if setting.Some? then setting.value
    else if p.limit.Some? && p.limit.value != 0 then p.limit.value
    else 10
  }

  // ---------------------------------------------------------------------
  // the action paths
  // ---------------------------------------------------------------------

  const DefaultAction := "/actions/gmail/list_messages"

  const Hardcoded := [
    "/actions/gmail/list_messages",
    "/actions/gmail/search_messages",
    "/actions/gmail/list_emails",
    "/actions/gmail/list",
    "/actions/gmail/messages/list",
    "/actions/gmail/inbox_list",
    "/actions/gmail/messages_list",
    "/actions/gmail/users_messages_list",
    "/actions/gmail/users_threads_list",
    "/actions/gmail/get_messages",
    "/actions/gmail/get_threads",
    "/actions/gmail/list_inbox",
    "/actions/gmail/inbox",
    "/actions/gmail/threads/list",
    "/actions/gmail/threads_search",
    "/actions/gmail/messages/search",
    "/actions/gmail/search",
    "/actions/gmail/query",
    "/actions/gmail/listThreads",
    "/actions/gmail/listMessages"
  ]

  /** The preferred path when given, else the configured action (default `list_messages`). */
  function Configured(preferredPath: Option<string>, actionSetting: Option<string>): string
  {
    if Truthy(preferredPath) then preferredPath.value
    else if Truthy(actionSetting) then actionSetting.value
    else DefaultAction
  }

  /** The candidate list: configured, then discovered, then hard-coded paths, each path once at
    * its first position (the `tried` set filter). */
  method CandidatePaths(configured: string, discovered: seq<string>) returns (candidates: seq<string>)
    ensures candidates == Dedup([configured] + discovered + Hardcoded)
  {
    var all := [configured] + discovered + Hardcoded;
    var tried: set<string> := {};
    candidates := [];
    var i := 0;
    while i < |all|
      invariant i <= |all|
      invariant candidates + DedupAfter(all[i..], tried) == Dedup(all)
    {
      assert all[i..][0] == all[i] && all[i..][1..] == all[i + 1..];
      if all[i] !in tried {
        tried := tried + {all[i]};
        candidates := candidates + [all[i]];
      }
      i := i + 1;
    }
  }

  /** The configured path is tried first, every discovered and hard-coded path is tried, and no
    * path is tried twice. */
  lemma CandidateOrder(configured: string, discovered: seq<string>)
    ensures var c := Dedup([configured] + discovered + Hardcoded);
      c != [] && c[0] == configured && NoRepeats(c)
      && (forall p :: p in discovered ==> p in c)
      && (forall p :: p in Hardcoded ==> p in c)
      && (forall p :: p in c ==> p == configured || p in discovered || p in Hardcoded)
  {
    var all := [configured] + discovered + Hardcoded;
    DedupFacts(all);
    assert all[0] == configured;
    forall p | p in discovered
      ensures p in all
    {
      var i :| 0 <= i < |discovered| && discovered[i] == p;
      assert all[1 + i] == p;
    }
    forall p | p in Hardcoded
      ensures p in all
    {
      var i :| 0 <= i < |Hardcoded| && Hardcoded[i] == p;
      assert all[1 + |discovered| + i] == p;
    }
  }

  // ---------------------------------------------------------------------
  // the first path that answers
  // ---------------------------------------------------------------------

  /** `tryPost`: a 404 gives null, another failure is thrown, else the response data
    * (None when the data is falsy). */
  datatype PostResult = NotFound | Error(message: string) | Answered(data: Option<EmailDetection.JsonDoc>)

  const NotFoundMessage := "direct_list_not_found"

  /** A path whose answer is a 404 or falsy data: the loop moves on. */
  predicate Miss(r: PostResult)
  {
    r.NotFound? || (r.Answered? && r.data.None?)
  }

  /** The loop over the candidates: the first truthy answer, the first other error, or
    * `direct_list_not_found` when every path misses. */
  function FirstHit(paths: seq<string>, reply: string -> PostResult): Result<EmailDetection.JsonDoc, string>
    decreases |paths|
  {
    if paths == [] then Failure(NotFoundMessage)
    else
      var r := reply(paths[0]);
      if r.Error? then Failure(r.message)
      else if r.Answered? && r.data.Some? then Success(r.data.value)
      else FirstHit(paths[1..], reply)
  }

  /** Paths that miss are skipped. */
  lemma {:induction false} MissesSkipped(paths: seq<string>, reply: string -> PostResult, k: nat)
    requires k <= |paths|
    requires forall j :: 0 <= j < k ==> Miss(reply(paths[j]))
    ensures FirstHit(paths, reply) == FirstHit(paths[k..], reply)
    decreases k
  {
    if k > 0 {
      assert Miss(reply(paths[0]));
      MissesSkipped(paths[1..], reply, k - 1);
      assert paths[1..][k - 1..] == paths[k..];
    }
  }

  /** After misses only, the first truthy answer is used, and the first other error is thrown. */
  lemma FirstHitOutcome(paths: seq<string>, reply: string -> PostResult, k: nat)
    requires k < |paths|
    requires forall j :: 0 <= j < k ==> Miss(reply(paths[j]))
    ensures reply(paths[k]).Error? ==> FirstHit(paths, reply) == Failure(reply(paths[k]).message)
    ensures reply(paths[k]).Answered? && reply(paths[k]).data.Some? ==>
              FirstHit(paths, reply) == Success(reply(paths[k]).data.value)
  {
    MissesSkipped(paths, reply, k);
    assert paths[k..][0] == paths[k];
  }

  /** When every path misses, the listing fails with `direct_list_not_found`. */
  lemma AllMissesNotFound(paths: seq<string>, reply: string -> PostResult)
    requires forall j :: 0 <= j < |paths| ==> Miss(reply(paths[j]))
    ensures FirstHit(paths, reply) == Failure(NotFoundMessage)
  {
    MissesSkipped(paths, reply, |paths|);
  }

  // ---------------------------------------------------------------------
  // the lines
  // ---------------------------------------------------------------------

  const IdKeys := ["id", "messageId", "threadId"]
  const SubjectKeys := ["subject", "snippet", "title"]
  const SenderKeys := ["from", "sender", "author", "email"]
  const DateKeys := ["date", "internalDate", "receivedAt", "createdAt"]

  /** The line for the mail at position `i` (0-based) of the answer. */
  function EntryLine(i: nat, fields: map<string, string>): string
  {
    FormatLine(i + 1,
               EmailDetection.FirstTruthy(fields, SubjectKeys),
               EmailDetection.FirstTruthy(fields, SenderKeys),
               EmailDetection.FirstTruthy(fields, DateKeys).UnwrapOr(""),
               EmailDetection.FirstTruthy(fields, IdKeys))
  }

  /** Reading a field of a `null` entry throws. */
  const NullEntryError := "TypeError"

  predicate HasNull(entries: seq<EmailDetection.JsonEntry>)
  {
    exists i :: 0 <= i < |entries| && entries[i].NullEntry?
  }

  /** The lines of the shown entries, numbered from 1. */
  function NumberedLines(shown: seq<EmailDetection.JsonEntry>): (r: seq<string>)
    ensures |r| == |shown|
    ensures forall i :: 0 <= i < |shown| ==> r[i] == EntryLine(i, EmailDetection.FieldsOf(shown[i]))
  {
    seq(|shown|, i requires 0 <= i < |shown| => EntryLine(i, EmailDetection.FieldsOf(shown[i])))
  }

  /** `items.slice(0, limit).map(...)`; the mapping throws on a `null` entry. */
  function Lines(entries: seq<EmailDetection.JsonEntry>, limit: nat): (r: Result<seq<string>, string>)
    ensures r.Success? ==> r.value == NumberedLines(entries[..Min(|entries|, limit)])
    ensures r.Failure? <==> HasNull(entries[..Min(|entries|, limit)])
  {
    var shown := entries[..Min(|entries|, limit)];
    if HasNull(shown) then Failure(NullEntryError) else Success(NumberedLines(shown))
  }

  function Min(a: nat, b: nat): nat
  {
    if a < b then a else b
  }

  /** The value returned: the lines joined by newlines, and how many there are. */
  datatype DirectList = DirectList(linesText: string, count: nat)

  function Listing(hit: Result<EmailDetection.JsonDoc, string>, limit: nat): Result<DirectList, string>
  {
    if hit.Failure? then Failure(hit.error)
    else
      var lines := Lines(EmailDetection.ListEntries(hit.value), limit);
      if lines.Failure? then Failure(lines.error)
      else Success(DirectList(Join(lines.value, "\n"), |lines.value|))
  }

  /** The answer of `post` to each path, with one request body. */
  function Replies(post: (string, RequestBody) -> PostResult, body: RequestBody): string -> PostResult
  {
    path => post(path, body)
  }

  /** What `listMessagesDirect` returns: the listing of the first answer among the candidate
    * paths, all asked with the same request body. */
  function DirectListing(p: ListParams, preferredPath: Option<string>, actionSetting: Option<string>,
                         limitSetting: Option<nat>, discovered: seq<string>,
                         post: (string, RequestBody) -> PostResult, calendar: (string, int) -> Day)
    : Result<DirectList, string>
  {
    var limit := Limit(p, limitSetting);
    var candidates := Dedup([Configured(preferredPath, actionSetting)] + discovered + Hardcoded);
    Listing(FirstHit(candidates, Replies(post, BuildBody(p, limit, calendar))), limit)
  }

  /** `listMessagesDirect`: tries the candidate paths in order with one request body and lists
    * at most `limit` mails from the first answer. */
  method ListMessagesDirect(p: ListParams, preferredPath: Option<string>, actionSetting: Option<string>,
                            limitSetting: Option<nat>, discovered: seq<string>,
                            post: (string, RequestBody) -> PostResult, calendar: (string, int) -> Day)
    returns (r: Result<DirectList, string>, usedPath: Option<string>)
    ensures r == DirectListing(p, preferredPath, actionSetting, limitSetting, discovered, post, calendar)
    ensures usedPath.Some? ==> usedPath.value in [Configured(preferredPath, actionSetting)] + discovered + Hardcoded
  {
    var limit := Limit(p, limitSetting);
    var body := BuildBody(p, limit, calendar);
    var configured := Configured(preferredPath, actionSetting);
    var candidates := CandidatePaths(configured, discovered);
    r, usedPath := TryCandidates(candidates, body, limit, post);
    DedupFacts([configured] + discovered + Hardcoded);
  }

  /** The loop of `listMessagesDirect` over the candidate paths: the first error is thrown, the
    * first truthy answer is listed, and `direct_list_not_found` is thrown when all miss. */
  method TryCandidates(candidates: seq<string>, body: RequestBody, limit: nat,
                       post: (string, RequestBody) -> PostResult)
    returns (r: Result<DirectList, string>, usedPath: Option<string>)
    ensures r == Listing(FirstHit(candidates, Replies(post, body)), limit)
    ensures usedPath.Some? ==> usedPath.value in candidates
  {
    var reply := Replies(post, body);
    var data: Option<EmailDetection.JsonDoc> := None;
    usedPath := None;
    ghost var hit := FirstHit(candidates, reply);
    var i := 0;
    while i < |candidates|
      invariant i <= |candidates|
      invariant hit == FirstHit(candidates[i..], reply)
      invariant data.None? && usedPath.None?
    {
      var res := post(candidates[i], body);
      assert reply(candidates[i]) == res;
      FirstHitStep(candidates, reply, i);
      if res.Error? {
        r := Failure(res.message);
        return;
      }
      if res.Answered? && res.data.Some? {
        data := res.data;
        usedPath := Some(candidates[i]);
        break;
      }
      i := i + 1;
    }
    if data.None? {
      assert candidates[i..] == [];
      r := Failure(NotFoundMessage);
      return;
    }
    assert hit == Success(data.value);
    var lines := Lines(EmailDetection.ListEntries(data.value), limit);
    if lines.Failure? {
      r := Failure(lines.error);
    } else {
      r := Success(DirectList(Join(lines.value, "\n"), |lines.value|));
    }
  }

  /** One step of the loop over the candidates. */
  lemma FirstHitStep(paths: seq<string>, reply: string -> PostResult, i: nat)
    requires i < |paths|
    ensures var r := reply(paths[i]);
      FirstHit(paths[i..], reply) ==
        if r.Error? then Failure(r.message)
        else if r.Answered? && r.data.Some? then Success(r.data.value)
        else FirstHit(paths[i + 1..], reply)
  {
    assert paths[i..][0] == paths[i] && paths[i..][1..] == paths[i + 1..];
  }

  /** Every entry line starts with its 1-based number. */
  lemma EntryLineNumbered(i: nat, fields: map<string, string>)
    ensures StartsWith(EntryLine(i, fields), NatToString(i + 1) + ". ")
  {
    FormatLineLayout(i + 1, EmailDetection.FirstTruthy(fields, SubjectKeys),
                     EmailDetection.FirstTruthy(fields, SenderKeys),
                     EmailDetection.FirstTruthy(fields, DateKeys).UnwrapOr(""),
                     EmailDetection.FirstTruthy(fields, IdKeys));
  }

  /** At most `limit` lines are listed, numbered from 1. */
  lemma ListingBounded(hit: Result<EmailDetection.JsonDoc, string>, limit: nat)
    requires Listing(hit, limit).Success?
    ensures Listing(hit, limit).value.count <= limit
    ensures var lines := Lines(EmailDetection.ListEntries(hit.value), limit).value;
      forall i :: 0 <= i < |lines| ==> StartsWith(lines[i], NatToString(i + 1) + ". ")
  {
    var entries := EmailDetection.ListEntries(hit.value);
    var shown := entries[..Min(|entries|, limit)];
    var lines := Lines(entries, limit).value;
    assert lines == NumberedLines(shown);
    forall i | 0 <= i < |lines|
      ensures StartsWith(lines[i], NatToString(i + 1) + ". ")
    {
      EntryLineNumbered(i, EmailDetection.FieldsOf(shown[i]));
    }
  }
}
