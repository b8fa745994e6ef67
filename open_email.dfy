/**
 * Opening one mail of a numbered list (services/openEmailService.ts): the header line,
 * the choice between fetching by message id and searching by subject, sender and
 * date, one retry by metadata when the id fetch brings back too little, and the
 * clean-up of the body shown (tags removed, five entities decoded, long bodies cut).
 *
 * The language model that fetches the body is a parameter: given a request, whose
 * prompt text is `PromptText`, it returns the response's output text (empty when it
 * has none), or None when the call throws.
 */
module OpenEmail {
  import opened Wrappers
  import opened Strings
  import opened EmailTypes

  // ---------------------------------------------------------------------
  // sanitizeHtml: tags
  // ---------------------------------------------------------------------

  /** The length of the run of characters other than `>` from `p` on. */
  function NonGtRun(s: string, p: nat): (n: nat)
    requires p <= |s|
    ensures p + n <= |s|
    ensures forall k :: p <= k < p + n ==> s[k] != '>'
    ensures p + n == |s| || s[p + n] == '>'
    decreases |s| - p
  {
    if p == |s| || s[p] == '>' then 0 else 1 + NonGtRun(s, p + 1)
  }

  /** The length of a match of `<\/?[^>]+>` at `p`, if any. The optional `/` is itself a
    * character other than `>`, so the pattern matches exactly what `<[^>]+>` matches:
    * `<`, at least one character other than `>`, and the first `>` after them. */
  function TagAt(s: string, p: nat): (n: Option<nat>)
    requires p < |s|
    ensures n.Some? ==> p + n.value <= |s| && n.value >= 3
  {
    if s[p] != '<' then None
    else
      var r := NonGtRun(s, p + 1);
      if r == 0 || p + 1 + r == |s| then None else Some(r + 2)
  }

  /** `s.replace(/<\/?[^>]+>/g, '')`, scanning from `p`. */
  function StripTags(s: string, p: nat): (r: string)
    requires p <= |s|
    ensures |r| <= |s| - p
    decreases |s| - p
  {
    if p == |s| then ""
    else
      match TagAt(s, p)
      case Some(n) => StripTags(s, p + n)
      case None => [s[p]] + StripTags(s, p + 1)
  }

  // ---------------------------------------------------------------------
  // sanitizeHtml: entities
  // ---------------------------------------------------------------------

  /** The five entity replacements, one pass after the other, as the code applies them. */
  function DecodeEntitiesInTurn(s: string): string
  {
    var a := ReplaceAll(s, "&lt;", "<");
    var b := ReplaceAll(a, "&gt;", ">");
    var c := ReplaceAll(b, "&amp;", "&");
    var d := ReplaceAll(c, "&quot;", "\"");
    ReplaceAll(d, "&#39;", "'")
  }

  /** `sanitizeHtml(input)` as written: tags removed, then the entities decoded in turn. */
  function SanitizeHtmlAsWritten(input: string): string
  {
    DecodeEntitiesInTurn(StripTags(input, 0))
  }

  /** The five entities and the characters they stand for. */
  function EntityAt(t: string): (e: Option<(nat, char)>)
    ensures e.Some? ==> 4 <= e.value.0 <= |t|
  {
    if StartsWith(t, "&lt;") then Some((4, '<'))
    else if StartsWith(t, "&gt;") then Some((4, '>'))
    else if StartsWith(t, "&amp;") then Some((5, '&'))
    else if StartsWith(t, "&quot;") then Some((6, '"'))
    else if StartsWith(t, "&#39;") then Some((5, '\''))
    else None
  }

  /** The five entities decoded in a single scan: what an entity decodes to is never read
    * again, so `&amp;quot;` stays `&quot;`. */
  function DecodeEntities(t: string): string
    decreases |t|
  {
    if t == [] then []
    else
      match EntityAt(t)
      case Some((n, c)) => [c] + DecodeEntities(t[n..])
      case None => [t[0]] + DecodeEntities(t[1..])
  }

  /** The sanitising `sanitizeHtml` is evidently meant to do: tags removed, then the
    * entities decoded once, so that escaped text comes back as it was. */
  function SanitizeHtml(input: string): string
  {
    DecodeEntities(StripTags(input, 0))
  }

  /** The character written for each special character when text is escaped for HTML. */
  function EscapeChar(c: char): string
  {
    if c == '<' then "&lt;"
    else if c == '>' then "&gt;"
    else if c == '&' then "&amp;"
    else if c == '"' then "&quot;"
    else if c == '\'' then "&#39;"
    else [c]
  }

  function EscapeHtml(x: string): string
  {
    if x == [] then [] else EscapeChar(x[0]) + EscapeHtml(x[1..])
  }

  /** Decoding once undoes escaping: every text comes back as it was. */
  lemma {:induction false} DecodeEscaped(x: string)
    ensures DecodeEntities(EscapeHtml(x)) == x
  {
    if x != [] {
      var e := EscapeChar(x[0]);
      var t := EscapeHtml(x);
      assert t == e + EscapeHtml(x[1..]);
      assert t[|e|..] == EscapeHtml(x[1..]);
      EscapeHead(x[0], EscapeHtml(x[1..]));
      DecodeEscaped(x[1..]);
      assert [x[0]] + x[1..] == x;
    }
  }

  /** A text differing from a pattern at some position does not start with it. */
  lemma DiffersAt(t: string, pat: string, k: nat)
    requires k < |pat| && k < |t| && t[k] != pat[k]
    ensures !StartsWith(t, pat)
  {
  }

  /** A text that starts with something else than `&` starts with no entity. */
  lemma NoEntityWithoutAmp(t: string)
    requires t != [] && t[0] != '&'
    ensures EntityAt(t).None?
  {
    DiffersAt(t, "&lt;", 0);
    DiffersAt(t, "&gt;", 0);
    DiffersAt(t, "&amp;", 0);
    DiffersAt(t, "&quot;", 0);
    DiffersAt(t, "&#39;", 0);
  }

  /** The decoding of an escaped character followed by anything. */
  lemma EscapeHead(c: char, rest: string)
    ensures var t := EscapeChar(c) + rest;
            DecodeEntities(t) == [c] + DecodeEntities(t[|EscapeChar(c)|..])
  {
    var e := EscapeChar(c);
    var t := e + rest;
    assert t[..|e|] == e;
    if c == '<' {
      assert EntityAt(t) == Some((4, '<'));
    } else if c == '>' {
      DiffersAt(t, "&lt;", 1);
      assert EntityAt(t) == Some((4, '>'));
    } else if c == '&' {
      DiffersAt(t, "&lt;", 1);
      DiffersAt(t, "&gt;", 1);
      assert EntityAt(t) == Some((5, '&'));
    } else if c == '"' {
      DiffersAt(t, "&lt;", 1);
      DiffersAt(t, "&gt;", 1);
      DiffersAt(t, "&amp;", 1);
      assert EntityAt(t) == Some((6, '"'));
    } else if c == '\'' {
      DiffersAt(t, "&lt;", 1);
      DiffersAt(t, "&gt;", 1);
      DiffersAt(t, "&amp;", 1);
      DiffersAt(t, "&quot;", 1);
      assert EntityAt(t) == Some((5, '\''));
    } else {
      NoEntityWithoutAmp(t);
    }
  }

  /** Escaping the entity `&quot;` escapes its `&` only. */
  lemma EscapedQuotEntity()
    ensures EscapeHtml("&quot;") == "&amp;quot;"
  {
    var x := "&quot;";
    EscapePlain(x[1..]);
    assert EscapeHtml(x) == EscapeChar('&') + EscapeHtml(x[1..]);
  }

  /** The `&lt;` and `&gt;` passes leave `&amp;quot;` as it is. */
  lemma AngleBracketPassesKeep()
    ensures ReplaceAll("&amp;quot;", "&lt;", "<") == "&amp;quot;"
    ensures ReplaceAll("&amp;quot;", "&gt;", ">") == "&amp;quot;"
  {
    var s := "&amp;quot;";
    assert s[1..] == "amp;quot;";
    DiffersAt(s, "&lt;", 1);
    LeadingAmpOnly(s, "&lt;", "<");
    DiffersAt(s, "&gt;", 1);
    LeadingAmpOnly(s, "&gt;", ">");
  }

  /** The `&amp;` pass turns `&amp;quot;` into the entity `&quot;`. */
  lemma AmpPassMakesEntity()
    ensures ReplaceAll("&amp;quot;", "&amp;", "&") == "&quot;"
  {
    var s := "&amp;quot;";
    assert s[..5] == "&amp;" && s[5..] == "quot;";
    NoAmpUntouched(s[5..], "&amp;", "&");
  }

  /** The `&quot;` pass then decodes that entity, and the `&#39;` pass keeps the result. */
  lemma QuotPassDecodesAgain()
    ensures ReplaceAll("&quot;", "&quot;", "\"") == "\""
    ensures ReplaceAll("\"", "&#39;", "'") == "\""
  {
    var q := "&quot;";
    assert q[..6] == "&quot;" && q[6..] == "";
    NoAmpUntouched("\"", "&#39;", "'");
  }

  /** As written, `&amp;quot;` is decoded twice and comes out as `"`. */
  lemma AsWrittenDecodesTwice()
    ensures DecodeEntitiesInTurn("&amp;quot;") == "\""
  {
    AngleBracketPassesKeep();
    AmpPassMakesEntity();
    QuotPassDecodesAgain();
  }

  /** Decoded once, `&amp;quot;` is the text `&quot;`. */
  lemma DecodedOnceKeepsEntity()
    ensures DecodeEntities("&amp;quot;") == "&quot;"
  {
    var s := "&amp;quot;";
    assert s[..5] == "&amp;";
    AmpEntityFirst(s);
    assert s[5..] == "quot;";
    DecodePlain(s[5..]);
  }

  /** A text starting with `&amp;` starts with that entity. */
  lemma AmpEntityFirst(t: string)
    requires StartsWith(t, "&amp;")
    ensures EntityAt(t) == Some((5, '&'))
  {
    DiffersAt(t, "&lt;", 1);
    DiffersAt(t, "&gt;", 1);
  }

  /** The decoding as written does not undo escaping: the text `&quot;`, escaped, comes
    * back as `"`, where a single decoding gives `&quot;` back. */
  lemma DoubleDecoding()
    ensures DecodeEntitiesInTurn(EscapeHtml("&quot;")) == "\""
    ensures DecodeEntities(EscapeHtml("&quot;")) == "&quot;"
  {
    EscapedQuotEntity();
    AsWrittenDecodesTwice();
    DecodedOnceKeepsEntity();
  }

  /** Text without the special characters has nothing to escape. */
  lemma {:induction false} EscapePlain(x: string)
    requires forall k :: 0 <= k < |x| ==> x[k] !in "<>&\"'"
    ensures EscapeHtml(x) == x
  {
    if x != [] {
      EscapePlain(x[1..]);
      assert [x[0]] + x[1..] == x;
    }
  }

  /** Text without `&` holds no entity. */
  lemma {:induction false} DecodePlain(x: string)
    requires '&' !in x
    ensures DecodeEntities(x) == x
  {
    if x != [] {
      NoEntityWithoutAmp(x);
      assert '&' !in x[1..];
      DecodePlain(x[1..]);
      assert [x[0]] + x[1..] == x;
    }
  }

  /** A replacement of an `&` pattern leaves text without `&` as it is. */
  lemma {:induction false} NoAmpUntouched(t: string, pat: string, rep: string)
    requires pat != "" && pat[0] == '&' && '&' !in t
    ensures ReplaceAll(t, pat, rep) == t
  {
    if t != [] {
      DiffersAt(t, pat, 0);
      assert '&' !in t[1..];
      NoAmpUntouched(t[1..], pat, rep);
      assert [t[0]] + t[1..] == t;
    }
  }

  /** A replacement of an `&` pattern that does not start the text leaves it as it is
    * when no other `&` follows. */
  lemma LeadingAmpOnly(t: string, pat: string, rep: string)
    requires pat != "" && pat[0] == '&' && t != [] && !StartsWith(t, pat) && '&' !in t[1..]
    ensures ReplaceAll(t, pat, rep) == t
  {
    NoAmpUntouched(t[1..], pat, rep);
    assert [t[0]] + t[1..] == t;
  }

  // ---------------------------------------------------------------------
  // truncateBody, isPseudoMessageId
  // ---------------------------------------------------------------------

  const DefaultBodyLimit: nat := 4000
  const TruncationNote: string := "\n…（※長文のため一部省略）"

  /** `truncateBody(s, limit)`: the text shown and whether it was cut. */
  function TruncateBody(s: string, limit: nat): (r: (string, bool))
    ensures s == "" ==> r == ("", false)
    ensures |s| <= limit ==> r == (s, false)
    ensures |s| > limit ==> r == (s[..limit] + TruncationNote, true)
  {
    if s == "" then ("", false)
    else if |s| <= limit then (s, false)
    else (s[..limit] + TruncationNote, true)
  }

  /** The length of the run of decimal digits from `p` on. */
  function DigitRun(s: string, p: nat): (n: nat)
    requires p <= |s|
    ensures p + n <= |s|
    ensures forall k :: p <= k < p + n ==> IsDigit(s[k])
    ensures p + n == |s| || !IsDigit(s[p + n])
    decreases |s| - p
  {
    if p < |s| && IsDigit(s[p]) then 1 + DigitRun(s, p + 1) else 0
  }

  /** `/^email_\d+_\d+/.test(s)`: the ids made up for mails found without one. The first
    * run of digits is greedy and must be followed by `_`. */
  predicate IsPseudoMessageId(s: Option<string>)
  {
    s.Some? && StartsWith(s.value, "email_")
    && var d := DigitRun(s.value, 6);
       d > 0 && 6 + d < |s.value| && s.value[6 + d] == '_' && DigitRun(s.value, 7 + d) > 0
  }

  lemma NonGtRunIs(s: string, p: nat, n: nat)
    requires p + n <= |s|
    requires forall k :: p <= k < p + n ==> s[k] != '>'
    requires p + n == |s| || s[p + n] == '>'
    ensures NonGtRun(s, p) == n
  {
  }

  lemma DigitRunIs(s: string, p: nat, n: nat)
    requires p + n <= |s|
    requires forall k :: p <= k < p + n ==> IsDigit(s[k])
    requires p + n == |s| || !IsDigit(s[p + n])
    ensures DigitRun(s, p) == n
  {
  }

  /** The made-up ids `email_<time>_<index>` are recognised as such. */
  lemma MadeUpIdsArePseudo(nowMs: nat, index: nat)
    ensures IsPseudoMessageId(Some(MadeUpId(nowMs, index)))
  {
    DigitsJoinedArePseudo(NatToString(nowMs), NatToString(index));
  }

  /** `email_`, digits, `_` and digits make a made-up id. */
  lemma DigitsJoinedArePseudo(a: string, b: string)
    requires AllDigits(a) && a != [] && AllDigits(b) && b != []
    ensures IsPseudoMessageId(Some("email_" + a + "_" + b))
  {
    var s := "email_" + a + "_" + b;
    assert s[..6] == "email_";
    assert s[6..6 + |a|] == a;
    assert s[6 + |a|] == '_';
    assert s[7 + |a|] == b[0];
    PseudoLayout(s, a);
  }

  /** `email_`, a run of `n` digits, `_` and a digit make a made-up id. */
  lemma PseudoLayout(s: string, a: string)
    requires StartsWith(s, "email_") && AllDigits(a) && a != [] && 7 + |a| < |s|
    requires s[6..6 + |a|] == a
    requires s[6 + |a|] == '_' && IsDigit(s[7 + |a|])
    ensures IsPseudoMessageId(Some(s))
  {
    assert forall k :: 6 <= k < 6 + |a| ==> s[k] == a[k - 6];
    DigitRunIs(s, 6, |a|);
  }

  /** An id that does not start with `email_` is a real message id. */
  lemma RealIdsAreNotPseudo(s: string)
    requires !StartsWith(s, "email_")
    ensures !IsPseudoMessageId(Some(s))
  {
  }

  // ---------------------------------------------------------------------
  // the header and the prompts
  // ---------------------------------------------------------------------

  /** What the cached list says about the mail. */
  datatype MailRef = MailRef(messageId: Option<string>, subject: Option<string>, from: Option<string>, date: Option<string>)

  const NoSubject: string := "(件名なし)"
  const UnknownSender: string := "(送信者不明)"

  /** `v || placeholder`. */
  function OrElse(v: Option<string>, placeholder: string): (r: string)
    ensures v.Some? && v.value != "" ==> r == v.value
    ensures v.None? || v.value == "" ==> r == placeholder
  {
    if v.Some? && v.value != "" then v.value else placeholder
  }

  predicate IsOpenParen(c: char)
  {
    c == '(' || c == '（'
  }

  predicate IsCloseParen(c: char)
  {
    c == ')' || c == '）'
  }

  /** Characters `.` does not match. */
  predicate IsLineTerminator(c: char)
  {
    c == '\n' || c == '\r' || c == '\U{2028}' || c == '\U{2029}'
  }

  /** Whether a match of `[（(].*?[）)]\s*$` starts at `p`: an opening parenthesis, then,
    * on the same line, a closing one after which only white space is left. */
  predicate ParenTailAt(s: string, p: nat)
    requires p < |s|
  {
    IsOpenParen(s[p])
    && exists q :: p < q < |s| && IsCloseParen(s[q]) && AllSpace(s[q + 1..])
                   && forall k :: p < k < q ==> !IsLineTerminator(s[k])
  }

  /** The first position from `p` on where such a match starts. */
  function FirstParenTail(s: string, p: nat): (r: Option<nat>)
    requires p <= |s|
    ensures r.Some? ==> p <= r.value < |s| && ParenTailAt(s, r.value)
    ensures r.None? ==> forall k :: p <= k < |s| ==> !ParenTailAt(s, k)
    ensures r.Some? ==> forall k :: p <= k < r.value ==> !ParenTailAt(s, k)
    decreases |s| - p
  {
    if p == |s| then None
    else if ParenTailAt(s, p) then Some(p)
    else FirstParenTail(s, p + 1)
  }

  /** The sender shown: the text before a parenthesised tail (usually a date), trimmed. */
  function SenderShown(from: Option<string>): string
  {
    var f := OrElse(from, UnknownSender);
    match FirstParenTail(f, 0)
    case Some(p) => Trim(f[..p])
    case None => Trim(f)
  }

  /** `#<index> <subject> — <sender>` and the date in full-width parentheses when known. */
  function Header(index: nat, item: MailRef): string
  {
    var date := if item.date.Some? && item.date.value != "" then "（" + item.date.value + "）" else "";
    "#" + NatToString(index) + " " + OrElse(item.subject, NoSubject) + " — " + SenderShown(item.from) + date
  }

  /** The message id as a template literal writes it: `undefined` when the list has none. */
  function IdText(messageId: Option<string>): (r: string)
    ensures messageId.Some? ==> r == messageId.value
    ensures messageId.None? ==> r == "undefined"
  {
    if messageId.Some? then messageId.value else "undefined"
  }

  /** The rules that close both prompts: no writing tools, the body only. */
  const RuleLines: seq<string> := [
    "注意:",
    "- 送信/削除/アーカイブ/下書き作成など書き込み操作は禁止です。",
    "- 出力は本文のみ（接頭辞や説明のないプレーンテキスト）。"]

  /** The prompt that fetches a body by message id. */
  function NudgeById(messageId: string): string
  {
    Join([
      "読み取り専用のGmail MCP検索ツール（gmail-find-email）を優先して、本文を1通だけ取得してください。",
      "可能なら q=\"rfc822msgid:" + messageId + "\" を使って対象メールを特定し、本文テキストのみを出力してください。",
      "もし検索が利用できない場合は、messageIdを直接指定できる読み取りツールを使用してください。"]
      + RuleLines, "\n")
  }

  const MetaIntro: string := "読み取り専用のGmail MCP検索ツール（gmail-find-email）で、次の条件に最も一致する受信メール1通の本文を取得してください。"

  function SubjectLine(subj: string): string
  {
    "- 件名に含む: \"" + subj + "\""
  }

  function FromLine(frm: string): string
  {
    "- 送信者に含む: \"" + frm + "\""
  }

  function DateLine(d: string): string
  {
    "- 受信日付を優先: " + d + "（±1日まで許容）"
  }

  /** `v ? line : undefined`, with the undefined entries filtered out. */
  function LineIf(v: string, line: string): (r: seq<string>)
    ensures v != "" ==> r == [line]
    ensures v == "" ==> r == []
  {
    if v != "" then [line] else []
  }

  /** The lines of the prompt that searches by subject, sender and date: the subject cut to
    * 120 characters, then the sender line and the date line (cut to 120 and 32) only when
    * those are known, then the rules. */
  function MetaLines(subject: Option<string>, from: Option<string>, date: Option<string>): (lines: seq<string>)
    ensures var frm := Take(OrElse(from, ""), 120);
            var d := Take(OrElse(date, ""), 32);
            |lines| == 5 + |LineIf(frm, FromLine(frm))| + |LineIf(d, DateLine(d))|
            && lines[0] == MetaIntro && lines[1] == SubjectLine(Take(OrElse(subject, ""), 120))
            && (frm != "" ==> lines[2] == FromLine(frm))
            && (d != "" ==> lines[|lines| - 4] == DateLine(d))
            && lines[|lines| - 3..] == RuleLines
  {
    var subj := Take(OrElse(subject, ""), 120);
    var frm := Take(OrElse(from, ""), 120);
    var d := Take(OrElse(date, ""), 32);
    [MetaIntro, SubjectLine(subj)] + LineIf(frm, FromLine(frm)) + LineIf(d, DateLine(d)) + RuleLines
  }

  function NudgeByMeta(subject: Option<string>, from: Option<string>, date: Option<string>): string
  {
    Join(MetaLines(subject, from, date), "\n")
  }

  // ---------------------------------------------------------------------
  // openEmailBodyFromCache
  // ---------------------------------------------------------------------

  const AuthFailure: string := "\n⚠️ 本文の取得に失敗しました（認証エラー）"
  const FetchFailure: string := "\n⚠️ 本文の取得に失敗しました。"
  /** Bodies shorter than this from an id fetch are fetched again by metadata. */
  const MinBodyLength: nat := 10

  /** The two kinds of fetch request. */
  datatype Request = ById(messageId: string) | ByMeta(subject: Option<string>, from: Option<string>, date: Option<string>)

  /** The prompt sent for a request. */
  function PromptText(r: Request): string
  {
    match r
    case ById(id) => NudgeById(id)
    case ByMeta(subject, from, date) => NudgeByMeta(subject, from, date)
  }

  function MetaRequest(item: MailRef): Request
  {
    ByMeta(item.subject, item.from, item.date)
  }

  /** The first fetch: by message id, unless the id is a made-up one. */
  function FirstRequest(item: MailRef): Request
  {
    if IsPseudoMessageId(item.messageId) then MetaRequest(item) else ById(IdText(item.messageId))
  }

  /** Whether a first fetch that answered `first` is followed by a search by metadata. */
  predicate Retries(item: MailRef, first: string)
  {
    !IsPseudoMessageId(item.messageId) && |first| < MinBodyLength
  }

  /** The requests sent, in order. */
  function RequestsSent(item: MailRef, tokenOk: bool, ask: Request -> Option<string>): seq<Request>
  {
    if !tokenOk then []
    else
      var first := ask(FirstRequest(item));
      if first.Some? && Retries(item, first.value) then [FirstRequest(item), MetaRequest(item)]
      else [FirstRequest(item)]
  }

  /** The raw body that ends up shown, or None when the first fetch threw. A retry that
    * throws leaves the first answer in place. */
  function BodyFetched(item: MailRef, ask: Request -> Option<string>): Option<string>
  {
    var first := ask(FirstRequest(item));
    if first.None? then None
    else if Retries(item, first.value) && ask(MetaRequest(item)).Some? then
      ask(MetaRequest(item))
    else first
  }

  /** The text posted after the header. */
  function Shown(item: MailRef, tokenOk: bool, ask: Request -> Option<string>): string
  {
    if !tokenOk then AuthFailure
    else match BodyFetched(item, ask)
      case None => FetchFailure
      case Some(raw) => "\n" + TruncateBody(SanitizeHtmlAsWritten(raw), DefaultBodyLimit).0
  }

  /** `openEmailBodyFromCache`: the message posted and the prompts sent, in order. */
  method OpenEmailBodyFromCache(index: nat, item: MailRef, tokenOk: bool, ask: Request -> Option<string>)
    returns (posted: string, asked: seq<Request>)
    ensures asked == RequestsSent(item, tokenOk, ask)
    ensures posted == Header(index, item) + Shown(item, tokenOk, ask)
  {
    var header := Header(index, item);
    asked := [];
    if !tokenOk {
      posted := header + AuthFailure;
      return;
    }
    var byId := !IsPseudoMessageId(item.messageId);
    var prompt := if byId then ById(IdText(item.messageId)) else MetaRequest(item);
    asked := [prompt];
    var resp := ask(prompt);
    if resp.None? {
      posted := header + FetchFailure;
      return;
    }
    var bodyRaw := resp.value;
    if byId && |bodyRaw| < MinBodyLength {
      var retry := MetaRequest(item);
      asked := asked + [retry];
      var resp2 := ask(retry);
      if resp2.Some? {
        bodyRaw := resp2.value;
      }
    }
    assert BodyFetched(item, ask) == Some(bodyRaw);
    var body := SanitizeHtmlAsWritten(bodyRaw);
    var shown := TruncateBody(body, DefaultBodyLimit);
    var text := "\n" + shown.0;
    posted := header + text;
  }

  /** Without a token nothing is asked and the header is posted with the authentication
    * failure; with one, the first prompt is always sent. */
  lemma TokenDecidesFirstRequest(item: MailRef, tokenOk: bool, ask: Request -> Option<string>)
    ensures !tokenOk ==> RequestsSent(item, tokenOk, ask) == [] && Shown(item, tokenOk, ask) == AuthFailure
    ensures tokenOk ==> 1 <= |RequestsSent(item, tokenOk, ask)| <= 2 && RequestsSent(item, tokenOk, ask)[0] == FirstRequest(item)
  {
  }

  /** A made-up id goes straight to the search by metadata, once. */
  lemma PseudoIdSearchesOnce(item: MailRef, ask: Request -> Option<string>)
    requires IsPseudoMessageId(item.messageId)
    ensures RequestsSent(item, true, ask) == [MetaRequest(item)]
    ensures BodyFetched(item, ask) == ask(MetaRequest(item))
  {
  }

  /** A real id is fetched by id first, and searched for by metadata exactly when the
    * answer is shorter than ten characters. */
  lemma ShortAnswerIsRetried(item: MailRef, ask: Request -> Option<string>)
    requires !IsPseudoMessageId(item.messageId)
    ensures RequestsSent(item, true, ask)[0] == ById(IdText(item.messageId))
    ensures |RequestsSent(item, true, ask)| == 2 <==>
              ask(ById(IdText(item.messageId))).Some? && |ask(ById(IdText(item.messageId))).value| < MinBodyLength
    ensures |RequestsSent(item, true, ask)| == 2 ==> RequestsSent(item, true, ask)[1] == MetaRequest(item)
  {
  }

  /** A first fetch that throws shows the failure notice. */
  lemma FirstFailureShowsNotice(item: MailRef, ask: Request -> Option<string>)
    requires ask(FirstRequest(item)).None?
    ensures Shown(item, true, ask) == FetchFailure
  {
  }

  /** The body shown comes from the last fetch sent when that one answered; a retry that
    * throws keeps the first answer. */
  lemma BodyIsLastAnswer(item: MailRef, ask: Request -> Option<string>)
    requires ask(FirstRequest(item)).Some?
    ensures var p := RequestsSent(item, true, ask);
            BodyFetched(item, ask) == (if ask(p[|p| - 1]).Some? then ask(p[|p| - 1]) else ask(p[0]))
  {
  }

  /** The message always starts with the header. */
  lemma PostedStartsWithHeader(index: nat, item: MailRef, tokenOk: bool, ask: Request -> Option<string>)
    ensures StartsWith(Header(index, item) + Shown(item, tokenOk, ask), Header(index, item))
  {
    var h := Header(index, item);
    assert (h + Shown(item, tokenOk, ask))[..|h|] == h;
  }

  // ---------------------------------------------------------------------
  // properties
  // ---------------------------------------------------------------------

  /** A cut body keeps its first `limit` characters and is marked as cut; a body that fits
    * is shown whole. */
  lemma TruncateKeepsHead(s: string, limit: nat)
    ensures var (text, cut) := TruncateBody(s, limit);
            StartsWith(text, Take(s, limit)) && (cut <==> |s| > limit)
            && (!cut ==> text == s)
  {
    var (text, cut) := TruncateBody(s, limit);
    if cut {
      assert text[..limit] == s[..limit];
    }
  }

  /** A lone tag disappears entirely. */
  lemma LoneTagRemoved(name: string)
    requires name != "" && '>' !in name
    ensures StripTags("<" + name + ">", 0) == ""
  {
    var s := "<" + name + ">";
    assert forall k :: 1 <= k < 1 + |name| ==> s[k] == name[k - 1];
    NonGtRunIs(s, 1, |name|);
    assert TagAt(s, 0) == Some(|s|);
  }

  /** Every `<` left is directly followed by `>` or by no `>` at all, so no tag is left. */
  predicate TagFree(r: string)
  {
    forall i :: 0 <= i < |r| && r[i] == '<' ==> (i + 1 < |r| && r[i + 1] == '>') || NoGt(r[i + 1..])
  }

  predicate NoGt(r: string)
  {
    forall j :: 0 <= j < |r| ==> r[j] != '>'
  }

  /** Tag removal brings in no `>`. */
  lemma {:induction false} NoGtStaysNoGt(s: string, p: nat)
    requires p <= |s| && NoGt(s[p..])
    ensures NoGt(StripTags(s, p))
    decreases |s| - p
  {
    if p < |s| {
      assert s[p + 1..] == s[p..][1..];
      NonGtRunToEnd(s, p + 1);
      NoGtStaysNoGt(s, p + 1);
    }
  }

  /** Without `>` ahead, the run of characters other than `>` reaches the end. */
  lemma NonGtRunToEnd(s: string, q: nat)
    requires q <= |s| && NoGt(s[q..])
    ensures q + NonGtRun(s, q) == |s|
  {
  }

  /** A character put in front of tag-free text keeps it tag-free when it is no `<`, or a
    * `<` followed by `>` or by no `>` at all. */
  lemma ConsTagFree(c: char, rest: string)
    requires TagFree(rest)
    requires c == '<' ==> (rest != [] && rest[0] == '>') || NoGt(rest)
    ensures TagFree([c] + rest)
  {
    var r := [c] + rest;
    forall i | 0 <= i < |r| && r[i] == '<'
      ensures (i + 1 < |r| && r[i + 1] == '>') || NoGt(r[i + 1..])
    {
      if i == 0 {
        assert r[1..] == rest;
      } else {
        assert rest[i - 1] == '<';
        assert r[i + 1..] == rest[i..];
      }
    }
  }

  /** What tag removal leaves is free of tags. */
  lemma {:induction false} StripTagsLeavesNoTag(s: string, p: nat)
    requires p <= |s|
    ensures TagFree(StripTags(s, p))
    decreases |s| - p
  {
    if p < |s| {
      var t := TagAt(s, p);
      if t.Some? {
        StripTagsLeavesNoTag(s, p + t.value);
      } else {
        StripTagsLeavesNoTag(s, p + 1);
        var rest := StripTags(s, p + 1);
        if s[p] == '<' && p + 1 < |s| {
          if NonGtRun(s, p + 1) == 0 {
            assert s[p + 1] == '>' && TagAt(s, p + 1).None?;
            assert rest[0] == '>';
          } else {
            assert NoGt(s[p + 1..]);
            NoGtStaysNoGt(s, p + 1);
          }
        }
        ConsTagFree(s[p], rest);
      }
    }
  }

  /** Tag removal leaves tag-free text as it is. */
  lemma {:induction false} TagFreeUntouched(r: string, p: nat)
    requires p <= |r| && TagFree(r)
    ensures StripTags(r, p) == r[p..]
    decreases |r| - p
  {
    if p < |r| {
      if r[p] == '<' && p + 1 < |r| && r[p + 1] != '>' {
        NonGtRunToEnd(r, p + 1);
      }
      TagFreeUntouched(r, p + 1);
      assert r[p..] == [r[p]] + r[p + 1..];
    }
  }

  /** Escaped text holds no `<`. */
  lemma {:induction false} EscapeHasNoLt(x: string)
    ensures '<' !in EscapeHtml(x)
  {
    if x != [] {
      EscapeHasNoLt(x[1..]);
      assert '<' !in EscapeChar(x[0]);
    }
  }

  /** Escaped text has no tag to remove. */
  lemma EscapedIsTagFree(x: string)
    ensures TagFree(EscapeHtml(x)) && StripTags(EscapeHtml(x), 0) == EscapeHtml(x)
  {
    var e := EscapeHtml(x);
    EscapeHasNoLt(x);
    assert forall i :: 0 <= i < |e| ==> e[i] != '<';
    TagFreeUntouched(e, 0);
    assert e[0..] == e;
  }

  /** The corrected sanitising undoes escaping: every text comes back as it was. */
  lemma SanitizeEscaped(x: string)
    ensures SanitizeHtml(EscapeHtml(x)) == x
  {
    EscapedIsTagFree(x);
    DecodeEscaped(x);
  }

  /** The sanitising as written does not: the text `&quot;`, escaped, is shown as `"`. */
  lemma SanitizeAsWrittenDecodesTwice()
    ensures SanitizeHtmlAsWritten(EscapeHtml("&quot;")) == "\""
    ensures SanitizeHtml(EscapeHtml("&quot;")) == "&quot;"
  {
    EscapedIsTagFree("&quot;");
    DoubleDecoding();
  }

  /** Removing tags twice removes no more than removing them once. */
  lemma StripTagsIdempotent(s: string)
    ensures StripTags(StripTags(s, 0), 0) == StripTags(s, 0)
  {
    StripTagsLeavesNoTag(s, 0);
    TagFreeUntouched(StripTags(s, 0), 0);
  }

  /** A sender written `name (date)` is shown as the name alone, trimmed. */
  lemma TrailingParenthesisDropped(name: string, inner: string)
    requires name != "" && forall k :: 0 <= k < |name| ==> !IsOpenParen(name[k])
    requires forall k :: 0 <= k < |inner| ==> !IsLineTerminator(inner[k])
    ensures SenderShown(Some(name + "(" + inner + ")")) == Trim(name)
  {
    var f := name + "(" + inner + ")";
    var q := |f| - 1;
    assert f[|name|] == '(' && f[q] == ')' && f[q + 1..] == [];
    assert forall k :: |name| < k < q ==> f[k] == inner[k - |name| - 1];
    assert ParenTailAt(f, |name|);
    var r := FirstParenTail(f, 0);
    assert r == Some(|name|) by {
      assert forall k :: 0 <= k < |name| ==> f[k] == name[k];
    }
    assert f[..|name|] == name;
  }
}
