/**
 * Phase-1 intent routing (services/intentRouter.ts): a short chat message is
 * classified as opening a numbered e-mail, listing e-mails, composing a new
 * one, or something else. Three local rules decide first, without the language
 * model; only when none applies is the model asked, once and then once more
 * with a reminder, for a JSON verdict.
 *
 * The regular expressions are written out as the matches they find. The model's
 * replies and `JSON.parse` are parameters.
 */
module IntentRouter {
  import opened Wrappers
  import opened Strings

  datatype Phase1Action = OpenIndex | ListEmails | Compose | Other

  /** `params`: the local open rule's `{index}`, an empty object, or the model's
    * `params` value (kept as its JSON text). */
  datatype Phase1Params = IndexParams(index: nat) | EmptyParams | ModelParams(json: string)

  /** `Phase1Result`; `rawText` and `violation` are set only on a model verdict. */
  datatype Phase1Result = Phase1Result(
    action: Phase1Action, params: Phase1Params, rawText: Option<string>, violation: Option<bool>)

  // ---------------------------------------------------------------------
  // the local open rule:  /(\d+)\s*(?:番)?\s*(?:を)?\s*(?:に)?\s*(開いて|開く|open)/i
  // ---------------------------------------------------------------------

  /** `(?:c)?` at `j`. */
  function Optional(t: string, j: nat, c: char): (k: nat)
    requires j <= |t|
    ensures k == if j < |t| && t[j] == c then j + 1 else j
    ensures k <= |t|
  {
    if j < |t| && t[j] == c then j + 1 else j
  }

  /** `open` in either case (the `i` flag folds ASCII letters only). */
  predicate OpenWordAt(t: string, j: nat)
  {
    j + 4 <= |t| && Lower(t[j..j + 4]) == "open"
  }

  /** `(開いて|開く|open)` at `j`. */
  predicate VerbAt(t: string, j: nat)
  {
    OccursAt(t, "開いて", j) || OccursAt(t, "開く", j) || OpenWordAt(t, j)
  }

  /** Where the verb must stand after a digit run ending at `e`: the blanks, `番`,
    * `を` and `に` are each optional and are taken greedily. Backtracking cannot
    * help, because none of the characters that may follow a blank run or an
    * optional letter could be consumed by the part it gives up. */
  function VerbPosition(t: string, e: nat): (v: nat)
    requires e <= |t|
    ensures e <= v <= |t|
  {
    var a := SkipSpaces(t, e);
    var b := SkipSpaces(t, Optional(t, a, '番'));
    var c := SkipSpaces(t, Optional(t, b, 'を'));
    SkipSpaces(t, Optional(t, c, 'に'))
  }

  /** The rule matches starting at `q`: a digit run begins there and the verb follows
    * it. (A shorter `\d+` than the whole run would leave a digit next, which nothing
    * after it accepts.) */
  predicate MatchesAt(t: string, q: nat)
  {
    q < |t| && IsDigit(t[q]) && VerbAt(t, VerbPosition(t, DigitRunEnd(t, q)))
  }

  /** The leftmost match at or after `p`, as its start and the end of its captured
    * digit run. */
  function OpenIndexFrom(t: string, p: nat): (r: Option<(nat, nat)>)
    requires p <= |t|
    ensures r.Some? ==> p <= r.value.0 < r.value.1 <= |t| && r.value.1 == DigitRunEnd(t, r.value.0)
    ensures r.Some? ==> MatchesAt(t, r.value.0)
    decreases |t| - p
  {
    if p == |t| then None
    else if !IsDigit(t[p]) then OpenIndexFrom(t, p + 1)
    else
      var e := DigitRunEnd(t, p);
      if VerbAt(t, VerbPosition(t, e)) then Some((p, e)) else OpenIndexFrom(t, e)
  }

  /** `Number(m[1])` of the local open rule, when the text matches. The capture is a
    * digit run, so the number is never NaN. */
  function OpenIndexMatch(t: string): (r: Option<nat>)
  {
    match OpenIndexFrom(t, 0)
    case None => None
    case Some((p, e)) => DigitRunAllDigits(t, p); Some(DigitsValue(t[p..e]))
  }

  /** Inside a digit run every position has the same run end. */
  lemma {:induction false} DigitRunEndInside(t: string, p: nat, q: nat)
    requires p <= |t| && p <= q <= DigitRunEnd(t, p)
    ensures DigitRunEnd(t, q) == DigitRunEnd(t, p)
    decreases q - p
  {
    if p < q {
      DigitRunEndInside(t, p + 1, q);
    }
  }

  /** The scan finds the leftmost match: none starts between `p` and the one it
    * returns, and none at all when it returns nothing. */
  lemma {:induction false} OpenIndexFromLeftmost(t: string, p: nat, q: nat)
    requires p <= q < |t|
    requires OpenIndexFrom(t, p).None? || q < OpenIndexFrom(t, p).value.0
    ensures !MatchesAt(t, q)
    decreases |t| - p
  {
    if !IsDigit(t[p]) {
      if q > p {
        OpenIndexFromLeftmost(t, p + 1, q);
      }
    } else {
      var e := DigitRunEnd(t, p);
      if q < e {
        DigitRunEndInside(t, p, q);
      } else {
        OpenIndexFromLeftmost(t, e, q);
      }
    }
  }

  /** A text without a decimal digit never matches the open rule. */
  lemma {:induction false} NoDigitNoOpen(t: string, p: nat)
    requires p <= |t|
    requires forall i :: p <= i < |t| ==> !IsDigit(t[i])
    ensures OpenIndexFrom(t, p).None?
    decreases |t| - p
  {
    if p < |t| {
      NoDigitNoOpen(t, p + 1);
    }
  }

  /** `<digits>番を開いて` is read as opening item `<digits>`. */
  lemma NumberedOpenRequest(d: string)
    requires d != [] && AllDigits(d)
    ensures OpenIndexMatch(d + "番を開いて") == Some(DigitsValue(d))
  {
    var t := d + "番を開いて";
    var n := |d|;
    assert t[..n] == d;
    assert forall k :: 0 <= k < 5 ==> t[n + k] == "番を開いて"[k];
    DigitRunFrom(t, 0, n);
    assert SkipSpaces(t, n) == n;
    assert Optional(t, n, '番') == n + 1;
    assert SkipSpaces(t, n + 1) == n + 1;
    assert Optional(t, n + 1, 'を') == n + 2;
    assert SkipSpaces(t, n + 2) == n + 2;
    assert Optional(t, n + 2, 'に') == n + 2;
    assert VerbPosition(t, n) == n + 2;
    assert t[n + 2..n + 5] == "開いて";
    assert OpenIndexFrom(t, 0) == Some((0, n));
  }

  /** A run of `m` digits from `j` followed by a non-digit ends at `j + m`. */
  lemma {:induction false} DigitRunFrom(t: string, j: nat, m: nat)
    requires j + m <= |t|
    requires forall i :: j <= i < j + m ==> IsDigit(t[i])
    requires j + m == |t| || !IsDigit(t[j + m])
    ensures DigitRunEnd(t, j) == j + m
    decreases m
  {
    if m > 0 {
      DigitRunFrom(t, j + 1, m - 1);
    }
  }

  // ---------------------------------------------------------------------
  // the local compose and list rules
  // ---------------------------------------------------------------------

  /** `/^(?:新規メール(?:作成)?|メール(?:を)?(?:作成|作って|書いて)|新しいメール)$/`
    * written out as the nine texts it accepts. */
  const ComposePhrases: set<string> := {
    "新規メール", "新規メール作成",
    "メール作成", "メール作って", "メール書いて",
    "メールを作成", "メールを作って", "メールを書いて",
    "新しいメール"
  }

  /** `\d{1,2}\/\d{1,2}` at `i`: it occurs somewhere exactly when a digit, a slash and
    * a digit occur in a row. */
  predicate SlashDateAt(t: string, i: nat)
  {
    i + 3 <= |t| && IsDigit(t[i]) && t[i + 1] == '/' && IsDigit(t[i + 2])
  }

  /** `\d{4}-\d{1,2}-\d{1,2}` at `i` (the second group's one- or two-digit forms). */
  predicate IsoDateAt(t: string, i: nat)
  {
    i + 8 <= |t| && IsDigit(t[i]) && IsDigit(t[i + 1]) && IsDigit(t[i + 2]) && IsDigit(t[i + 3])
    && t[i + 4] == '-' && IsDigit(t[i + 5])
    && ((t[i + 6] == '-' && IsDigit(t[i + 7]))
        || (i + 9 <= |t| && IsDigit(t[i + 6]) && t[i + 7] == '-' && IsDigit(t[i + 8])))
  }

  /** `\d{1,2}\s*月\s*\d{1,2}\s*日?` at `i`: a digit, blanks, `月`, blanks, a digit
    * (the trailing `日?` never decides whether there is a match). */
  predicate KanjiDateAt(t: string, i: nat)
  {
    i < |t| && IsDigit(t[i])
    && var j := SkipSpaces(t, i + 1);
       j < |t| && t[j] == '月'
       && var k := SkipSpaces(t, j + 1);
          k < |t| && IsDigit(t[k])
  }

  /** `dateLike`. */
  predicate DateLike(t: string)
  {
    exists i: nat :: i < |t| && (SlashDateAt(t, i) || IsoDateAt(t, i) || KanjiDateAt(t, i))
  }

  /** `relativeDate`: 今日, きょう, 昨日, きのう, 一昨日 or おととい. */
  predicate RelativeDate(t: string)
  {
    Contains(t, "今日") || Contains(t, "きょう") || Contains(t, "昨日") || Contains(t, "きのう")
    || Contains(t, "一昨日") || Contains(t, "おととい")
  }

  /** `/一覧|受信|inbox|list/`. */
  predicate ListKeyword(t: string)
  {
    Contains(t, "一覧") || Contains(t, "受信") || Contains(t, "inbox") || Contains(t, "list")
  }

  /** The verdict of the three local rules, in order, or `None` when the model must
    * decide. The list rule reads the lower-cased text. */
  function LocalRoute(userText: string): (r: Option<Phase1Result>)
    ensures OpenIndexMatch(userText).Some? ==>
              r == Some(Phase1Result(OpenIndex, IndexParams(OpenIndexMatch(userText).value), None, None))
    ensures OpenIndexMatch(userText).None? && Trim(userText) in ComposePhrases ==>
              r == Some(Phase1Result(Compose, EmptyParams, None, None))
    ensures r.None? <==>
              OpenIndexMatch(userText).None? && Trim(userText) !in ComposePhrases
              && !ListKeyword(Lower(userText)) && !DateLike(Lower(userText)) && !RelativeDate(Lower(userText))
    ensures r.Some? && OpenIndexMatch(userText).None? && Trim(userText) !in ComposePhrases ==>
              r == Some(Phase1Result(ListEmails, EmptyParams, None, None))
  {
    var m := OpenIndexMatch(userText);
    if m.Some? then Some(Phase1Result(OpenIndex, IndexParams(m.value), None, None))
    else if Trim(userText) in ComposePhrases then Some(Phase1Result(Compose, EmptyParams, None, None))
    else
      var s := Lower(userText);
      if ListKeyword(s) || DateLike(s) || RelativeDate(s) then Some(Phase1Result(ListEmails, EmptyParams, None, None))
      else None
  }

  /** Every compose phrase, with or without surrounding blanks, is routed locally to
    * `compose`. */
  lemma ComposePhraseRouted(phrase: string)
    requires phrase in ComposePhrases
    ensures LocalRoute(phrase) == Some(Phase1Result(Compose, EmptyParams, None, None))
  {
    assert forall i :: 0 <= i < |phrase| ==> !IsDigit(phrase[i]);
    NoDigitNoOpen(phrase, 0);
    TrimKeepsTrimmed(phrase);
  }

  // ---------------------------------------------------------------------
  // the model's verdict
  // ---------------------------------------------------------------------

  /** `normalizeAction`: `String(a || '')` lower-cased, then the first family it
    * mentions in the order open, list, compose. */
  function NormalizeAction(a: Option<string>): Phase1Action
  {
    var s := Lower(a.UnwrapOr(""));
    if Contains(s, "open") then OpenIndex
    else if Contains(s, "list") || Contains(s, "inbox") || Contains(s, "search") then ListEmails
    else if Contains(s, "compose") || NewMail(s) || Contains(s, "draft") then Compose
    else Other
  }

  /** `new\s*mail` somewhere in `s`. */
  predicate NewMail(s: string)
  {
    exists i: nat :: i < |s| && OccursAt(s, "new", i) && OccursAt(s, "mail", SkipSpaces(s, i + 3))
  }

  /** The canonical action names are read back as themselves. */
  lemma OpenIndexNameKept()
    ensures NormalizeAction(Some("open_index")) == OpenIndex
  {
    LowerOfLowerCase("open_index");
    ContainsAt("open_index", "open", 0);
  }

  lemma ListEmailsNameKept()
    ensures NormalizeAction(Some("list_emails")) == ListEmails
  {
    LowerOfLowerCase("list_emails");
    Absent("list_emails", "open");
    ContainsAt("list_emails", "list", 0);
  }

  lemma ComposeNameKept()
    ensures NormalizeAction(Some("compose")) == Compose
  {
    LowerOfLowerCase("compose");
    ComposeNamesNoOtherFamily();
    ContainsAt("compose", "compose", 0);
  }

  lemma ComposeNamesNoOtherFamily()
    ensures !Contains("compose", "open") && !Contains("compose", "list")
    ensures !Contains("compose", "inbox") && !Contains("compose", "search")
  {
    ComposeIsNotOpenOrList();
    ComposeIsNotInboxOrSearch();
  }

  lemma ComposeIsNotOpenOrList()
    ensures !Contains("compose", "open") && !Contains("compose", "list")
  {
    Absent("compose", "open");
    Absent("compose", "list");
  }

  lemma ComposeIsNotInboxOrSearch()
    ensures !Contains("compose", "inbox") && !Contains("compose", "search")
  {
    Absent("compose", "inbox");
    Absent("compose", "search");
  }

  /** A missing action is `other`. */
  lemma MissingActionIsOther()
    ensures NormalizeAction(None) == Other
  {
    assert Lower("") == "";
  }

  /** Whatever else the model wrote, an action mentioning `open` is an open request:
    * the open family is tested first. */
  lemma OpenWins(a: string)
    requires Contains(Lower(a), "open")
    ensures NormalizeAction(Some(a)) == OpenIndex
  {
  }

  /** What `JSON.parse` gave for the fields the router reads: `action` when it is a
    * string, and `params` (as JSON text) when it is truthy. */
  datatype ParsedVerdict = ParsedVerdict(action: Option<string>, params: Option<string>)

  /** `safeParseJson`: only a text whose trimmed form starts with `{` is parsed. */
  function SafeParseJson(text: string, parse: string -> Option<ParsedVerdict>): (r: Option<ParsedVerdict>)
    ensures !StartsWith(Trim(text), "{") ==> r.None?
    ensures StartsWith(Trim(text), "{") ==> r == parse(Trim(text))
  {
    var trimmed := Trim(text);
    if !StartsWith(trimmed, "{") then None else parse(trimmed)
  }

  /** `sanitize`: at most the first 500 characters. */
  function Sanitize(s: string): (r: string)
    ensures |r| <= 500 && StartsWith(s, r)
    ensures |s| <= 500 ==> r == s
  {
    Take(s, 500)
  }

  /** One model reply: the `type` of each `output` entry (when `output` is an array)
    * and `output_text`. */
  datatype ModelReply = ModelReply(outputTypes: Option<seq<Option<string>>>, outputText: Option<string>)

  /** The `violation` flag: some output entry has a truthy type other than `message`. */
  predicate Violation(r: ModelReply)
  {
    r.outputTypes.Some?
    && exists i :: 0 <= i < |r.outputTypes.value| && Truthy(r.outputTypes.value[i])
                   && r.outputTypes.value[i].value != "message"
  }

  /** `output_text || ''`. */
  function ReplyText(r: ModelReply): string
  {
    r.outputText.UnwrapOr("")
  }

  function Verdict(p: ParsedVerdict, txt: string, violation: bool): Phase1Result
  {
    Phase1Result(NormalizeAction(p.action),
                 if Truthy(p.params) then ModelParams(p.params.value) else EmptyParams,
                 Some(txt), Some(violation))
  }

  /** `routePhase1Intent`. `apiKey` is `OPENAI_API_KEY`; `first` and `retry` are the two
    * model calls' replies, `None` when the call threw. */
  function RoutePhase1Intent(userText: string, apiKey: Option<string>, first: Option<ModelReply>,
                             retry: Option<ModelReply>, parse: string -> Option<ParsedVerdict>)
    : Option<Phase1Result>
  {
    var local := LocalRoute(userText);
    if local.Some? then local
    else if !Truthy(apiKey) || first.None? then None
    else
      var txt := ReplyText(first.value);
      var parsed := SafeParseJson(txt, parse);
      if parsed.Some? then Some(Verdict(parsed.value, txt, Violation(first.value)))
      else if retry.None? then None
      else
        var txt2 := ReplyText(retry.value);
        var parsed2 := SafeParseJson(txt2, parse);
        if parsed2.Some? then Some(Verdict(parsed2.value, txt2, Violation(retry.value)))
        else None
  }

  /** The local rules decide without the model: their verdict does not depend on the
    * key or on any reply. */
  lemma LocalRulesNeedNoModel(userText: string, apiKey: Option<string>, first: Option<ModelReply>,
                              retry: Option<ModelReply>, parse: string -> Option<ParsedVerdict>)
    requires LocalRoute(userText).Some?
    ensures RoutePhase1Intent(userText, apiKey, first, retry, parse) == LocalRoute(userText)
  {
  }

  /** Without an API key the router returns null for every text the local rules leave
    * open; a model verdict is always the normalised action of a parsed reply, taken
    * from the first reply when that one parses. */
  lemma ModelVerdicts(userText: string, apiKey: Option<string>, first: Option<ModelReply>,
                      retry: Option<ModelReply>, parse: string -> Option<ParsedVerdict>)
    requires LocalRoute(userText).None?
    ensures !Truthy(apiKey) ==> RoutePhase1Intent(userText, apiKey, first, retry, parse).None?
    ensures var r := RoutePhase1Intent(userText, apiKey, first, retry, parse);
            r.Some? ==> Truthy(apiKey) && first.Some? && r.value.rawText.Some?
                        && SafeParseJson(r.value.rawText.value, parse).Some?
                        && r.value.action == NormalizeAction(SafeParseJson(r.value.rawText.value, parse).value.action)
    ensures Truthy(apiKey) && first.Some? && SafeParseJson(ReplyText(first.value), parse).Some? ==>
              RoutePhase1Intent(userText, apiKey, first, retry, parse)
              == Some(Verdict(SafeParseJson(ReplyText(first.value), parse).value, ReplyText(first.value),
                              Violation(first.value)))
  {
  }
}
