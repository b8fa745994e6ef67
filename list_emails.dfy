/**
 * Listing the inbox on request (services/listEmailsService.ts): the request
 * text is read for a date and an unread filter, a fresh cached list is shown
 * at once, and the list itself comes from the Gmail API, from a direct
 * Pipedream action, or from the language model's answer. Whatever the route,
 * a list is only shown when at least two mails were recognised in it.
 *
 * Clock, calendar, HTTP and language-model results are parameters:
 * `year` is the current year, `dayText(n)` the local date `n` days from today
 * written `YYYY-MM-DD`, `calendar(date, n)` the local day `n` days after the
 * midnight that begins `date`, and `detect(text)` the mails the list
 * detector recognised in `text` (None when it found none).
 */
module ListEmails {
  import opened Wrappers
  import opened Strings
  import opened DateText
  import opened EmailTypes
  import opened ListCache
  import GmailReadDirect
  import Seqs
  import CacheKey

  // ---------------------------------------------------------------------
  // formatting
  // ---------------------------------------------------------------------

  /** `pad(n)`: a leading `0` for one-digit numbers. */
  function Pad(n: nat): (r: string)
    ensures |r| >= 2 && AllDigits(r)
    ensures r[0] == '0' <==> n < 10
  {
    if n < 10 then "0" + NatToString(n) else NatToString(n)
  }

  /** `pad` keeps the number's value and agrees with `String(n).padStart(2, '0')`. */
  lemma PadIsPadStart(n: nat)
    ensures Pad(n) == PadStart2(NatToString(n))
    ensures DigitsValue(Pad(n)) == n
  {
    NatToStringRoundTrip(n);
    if n < 10 {
      LeadingZeroValue(NatToString(n));
    } else {
      assert NatToString(n) == NatToString(n / 10) + [DigitChar(n % 10)];
    }
  }

  /** `${y}/${pad(m)}/${pad(d)}`, as the request prompt writes a day. */
  function NudgeDay(d: Day): string
  {
    NatToString(d.year) + "/" + Pad(d.month) + "/" + Pad(d.day)
  }

  /** The prompt's day text is the same as the one the Gmail query uses. */
  lemma NudgeDayIsSlashDay(d: Day)
    ensures NudgeDay(d) == SlashDay(d)
  {
    PadIsPadStart(d.month);
    PadIsPadStart(d.day);
  }

  /** `(\d{4})[\/](\d{1,2})[\/](\d{1,2})(?:[\sT](\d{1,2}):(\d{2}))?` */
  const ListPattern := YearFirst({'/'}, {'/'}, OneSeparator)

  /** `toDateStr`: empty stays empty, ISO-like text is cut to minutes, `Y/M/D[ h:mm]` is written
    * `YYYY-MM-DD HH:mm`, anything else is kept. */
  function ToDateStr(s: Option<string>): string
  {
    if s.None? || s.value == "" then "" else Normalize(s.value, ListPattern)
  }

  /** `Y/M/D` comes out zero-padded at midnight. */
  lemma SlashDateNormalised(y: string, m: string, d: string)
    requires |y| == 4 && AllDigits(y) && 1 <= |m| <= 2 && AllDigits(m) && 1 <= |d| <= 2 && AllDigits(d)
    ensures ToDateStr(Some(y + "/" + m + "/" + d)) == y + "-" + PadStart2(m) + "-" + PadStart2(d) + " 00:00"
  {
    SlashDateFound(y, m, d);
    RenderWithoutTime(y, m, d);
  }

  lemma SlashDateFound(y: string, m: string, d: string)
    requires |y| == 4 && AllDigits(y) && 1 <= |m| <= 2 && AllDigits(m) && 1 <= |d| <= 2 && AllDigits(d)
    ensures ToDateStr(Some(y + "/" + m + "/" + d)) == Render(DateMatch(y, m, d, None))
  {
    var t := y + "/" + m + "/" + d;
    assert t == y + ['/'] + m + ['/'] + d;
    assert t[4] == '/';
    assert !IsoLike(t);
    YearFirstWhole(y, '/', m, '/', d, {'/'}, {'/'}, OneSeparator);
  }

  /** A recognised `Y/M/D` date gives the fixed shape, which is then kept as it is. */
  lemma ToDateStrSettles(s: string)
    requires s != "" && !IsoLike(s) && Find(s, ListPattern).Some?
    ensures DateTimeShape(ToDateStr(Some(s)))
    ensures ToDateStr(Some(ToDateStr(Some(s)))) == ToDateStr(Some(s))
  {
    NormalizeRecognised(s, {'/'}, {'/'}, OneSeparator);
  }

  /** `formatOneLine`: `N. subject — from（date）`, with placeholders for a blank subject or sender. */
  function FormatOneLine(index: nat, subject: Option<string>, from: Option<string>, date: Option<string>): string
  {
    LineWithDate(index, subject, from, ToDateStr(date))
  }

  /** `N. subject — from`, then `（ds）` when `ds` is not empty. */
  function LineWithDate(index: nat, subject: Option<string>, from: Option<string>, ds: string): string
  {
    GmailReadDirect.LineHead(index, subject, from) + GmailReadDirect.DatePart(ds)
  }

  /** A head followed by a date part keeps the head's prefix and ends with the date part. */
  lemma HeadThenDate(h: string, ds: string, n: string)
    requires StartsWith(h, n)
    ensures StartsWith(h + GmailReadDirect.DatePart(ds), n)
    ensures EndsWith(h + GmailReadDirect.DatePart(ds), GmailReadDirect.DatePart(ds))
    ensures ds == "" ==> h + GmailReadDirect.DatePart(ds) == h
  {
    var r := h + GmailReadDirect.DatePart(ds);
    assert r[..|h|] == h;
    assert r[..|n|] == h[..|n|];
    assert r[|h|..] == GmailReadDirect.DatePart(ds);
  }

  /** The line starts with its number; it ends with the date part (`（ds）`, or nothing when
    * the date text is empty), and is the head alone when the date text is empty. */
  lemma LineLayout(index: nat, subject: Option<string>, from: Option<string>, ds: string)
    ensures var r := LineWithDate(index, subject, from, ds);
      StartsWith(r, NatToString(index) + ". ")
      && EndsWith(r, GmailReadDirect.DatePart(ds))
      && (ds == "" ==> r == GmailReadDirect.LineHead(index, subject, from))
  {
    GmailReadDirect.HeadStartsWithNumber(index, subject, from);
    HeadThenDate(GmailReadDirect.LineHead(index, subject, from), ds, NatToString(index) + ". ");
  }

  /** What a listed mail offers to the line formatter. */
  datatype Listed = Listed(subject: Option<string>, from: Option<string>, date: Option<string>)

  /** The line for the mail at position `i` (0-based). */
  function ItemLine(i: nat, m: Listed): string
  {
    FormatOneLine(i + 1, m.subject, m.from, m.date)
  }

  /** The lines of the shown mails, numbered from 1. */
  function NumberedItems(shown: seq<Listed>): (lines: seq<string>)
    ensures |lines| == |shown|
    ensures forall i :: 0 <= i < |shown| ==> lines[i] == ItemLine(i, shown[i])
  {
    seq(|shown|, i requires 0 <= i < |shown| => ItemLine(i, shown[i]))
  }

  /** `items.slice(0, max).map(...)`: the first `max` mails, one numbered line each. */
  function NumberLines(ms: seq<Listed>, max: nat): (lines: seq<string>)
    ensures |lines| == if |ms| < max then |ms| else max
  {
    NumberedItems(ms[..if |ms| < max then |ms| else max])
  }

  /** Every numbered line starts with its 1-based position. */
  lemma NumberLinesNumbered(ms: seq<Listed>, max: nat)
    ensures var lines := NumberLines(ms, max);
      forall i :: 0 <= i < |lines| ==> StartsWith(lines[i], NatToString(i + 1) + ". ")
  {
    var shown := ms[..if |ms| < max then |ms| else max];
    var lines := NumberLines(ms, max);
    assert lines == NumberedItems(shown);
    forall i | 0 <= i < |lines|
      ensures StartsWith(lines[i], NatToString(i + 1) + ". ")
    {
      LineLayout(i + 1, shown[i].subject, shown[i].from, ToDateStr(shown[i].date));
    }
  }

  function FromCacheItem(c: CacheItem): Listed
  {
    Listed(Some(c.subject), Some(c.from), c.date)
  }

  function FromEmail(e: EmailItem): Listed
  {
    Listed(Some(e.subject), Some(e.from), e.date)
  }

  // ---------------------------------------------------------------------
  // the request parameters
  // ---------------------------------------------------------------------

  datatype ListParams = ListParams(date: Option<string>, mailbox: Option<string>, query: Option<string>,
                                   unread: bool)

  /** `(\d{4})[\/-](\d{1,2})[\/-](\d{1,2})` */
  const YmdPattern := YearFirst({'/', '-'}, {'/', '-'}, NoTime)
  /** `(\d{1,2})[\/-](\d{1,2})` */
  const MdPattern := MonthFirst({'/', '-'})

  /** `${y}-${m.padStart(2, '0')}-${d.padStart(2, '0')}` */
  function DashDate(y: string, m: DateMatch): string
  {
    y + "-" + PadStart2(m.month) + "-" + PadStart2(m.day)
  }

  /** A written date: year-month-day first, then month/day, then M月D日, the last two in the
    * current year. */
  function WrittenDate(s: string, year: nat): Option<string>
  {
    var m1 := Find(s, YmdPattern);
    var m2 := Find(s, MdPattern);
    var m3 := Find(s, KanjiMonthDay);
    if m1.Some? then Some(DashDate(m1.value.year, m1.value))
    else if m2.Some? then Some(DashDate(NatToString(year), m2.value))
    else if m3.Some? then Some(DashDate(NatToString(year), m3.value))
    else None
  }

  predicate SaysToday(s: string)
  {
    Contains(s, "今日") || Contains(s, "きょう")
  }

  predicate SaysYesterday(s: string)
  {
    Contains(s, "昨日") || Contains(s, "きのう")
  }

  predicate SaysDayBefore(s: string)
  {
    Contains(s, "一昨日") || Contains(s, "おととい")
  }

  /** The day offset of a relative date word, with the tests in the order written: today, then
    * yesterday, then the day before yesterday. */
  function RelativeOffsetAsWritten(s: string): (n: int)
    ensures -2 <= n <= 0
    ensures n == -1 <==> !SaysToday(s) && SaysYesterday(s)
    ensures n == -2 <==> !SaysToday(s) && !SaysYesterday(s) && SaysDayBefore(s)
  {
    if SaysToday(s) then 0
    else if SaysYesterday(s) then -1
    else if SaysDayBefore(s) then -2
    else 0
  }

  /** The day offset of a relative date word, testing the longer word 一昨日 before 昨日, which
    * it contains. */
  function RelativeOffset(s: string): (n: int)
    ensures -2 <= n <= 0
    ensures n == -2 <==> !SaysToday(s) && SaysDayBefore(s)
    ensures n == -1 <==> !SaysToday(s) && !SaysDayBefore(s) && SaysYesterday(s)
  {
    if SaysToday(s) then 0
    else if SaysDayBefore(s) then -2
    else if SaysYesterday(s) then -1
    else 0
  }

  /** The date of the request: a written date, else the day a relative word names (today
    * gives none). */
  function RequestDate(s: string, year: nat, dayText: int -> string, offset: int): Option<string>
  {
    var written := WrittenDate(s, year);
    if written.Some? then written
    else if offset != 0 then Some(dayText(offset))
    else None
  }

  /** `parseParamsFromText` as intended, with 一昨日 tested before 昨日; the mailbox is
    * always the inbox. */
  function ParseParamsFromText(s: string, year: nat, dayText: int -> string): (p: ListParams)
    ensures p.mailbox == Some("inbox") && p.query.None?
    ensures p.unread <==> Contains(s, "未読") || Contains(Lower(s), "unread")
    ensures WrittenDate(s, year).Some? ==> p.date == WrittenDate(s, year)
    ensures WrittenDate(s, year).None? ==> (p.date.None? <==> RelativeOffset(s) == 0)
    ensures p.date.Some? && WrittenDate(s, year).None? ==> p.date.value == dayText(RelativeOffset(s))
  {
    ListParams(RequestDate(s, year, dayText, RelativeOffset(s)), Some("inbox"), None,
               Contains(s, "未読") || Contains(Lower(s), "unread"))
  }

  /** `parseParamsFromText` as written, with its test order for relative words; the
    * mailbox is always the inbox. */
  function ParseParamsAsWritten(s: string, year: nat, dayText: int -> string): (p: ListParams)
    ensures p.mailbox == Some("inbox") && p.query.None?
    ensures p.unread <==> Contains(s, "未読") || Contains(Lower(s), "unread")
    ensures WrittenDate(s, year).Some? ==> p.date == WrittenDate(s, year)
    ensures WrittenDate(s, year).None? ==> (p.date.None? <==> RelativeOffsetAsWritten(s) == 0)
    ensures p.date.Some? && WrittenDate(s, year).None? ==> p.date.value == dayText(RelativeOffsetAsWritten(s))
  {
    ListParams(RequestDate(s, year, dayText, RelativeOffsetAsWritten(s)), Some("inbox"), None,
               Contains(s, "未読") || Contains(Lower(s), "unread"))
  }

  /** A written date wins over any relative word. */
  lemma WrittenDateWins(s: string, year: nat, dayText: int -> string)
    requires WrittenDate(s, year).Some?
    ensures ParseParamsAsWritten(s, year, dayText).date == WrittenDate(s, year)
  {
  }

  /** "Today" gives no date, so the whole inbox is listed. */
  lemma TodayGivesNoDate(s: string, year: nat, dayText: int -> string)
    requires WrittenDate(s, year).None? && SaysToday(s)
    ensures ParseParamsAsWritten(s, year, dayText).date.None?
  {
  }

  /** 一昨日 ("the day before yesterday") gives the date two days back. */
  lemma DayBeforeYesterday(s: string, year: nat, dayText: int -> string)
    requires WrittenDate(s, year).None? && !SaysToday(s) && Contains(s, "一昨日")
    ensures ParseParamsFromText(s, year, dayText).date == Some(dayText(-2))
  {
  }

  /** As written, any text with 昨日 or きのう (and no today word or written date) gives
    * yesterday, 一昨日 included. */
  lemma Yesterday(s: string, year: nat, dayText: int -> string)
    requires WrittenDate(s, year).None? && !SaysToday(s) && SaysYesterday(s)
    ensures ParseParamsAsWritten(s, year, dayText).date == Some(dayText(-1))
  {
  }

  /** No digit means no written date. */
  lemma {:induction false} NoDigitsNoMatch(t: string, q: nat, pat: Pattern)
    requires q <= |t|
    requires forall i :: 0 <= i < |t| ==> !IsDigit(t[i])
    ensures FirstMatchAt(t, q, pat).None?
    decreases |t| - q
  {
    assert MatchAt(t, q, pat).None? by {
      if q < |t| {
        assert Run2(t, q) == 0;
        if pat.YearFirst? && q + 4 < |t| {
          assert !AllDigits(t[q..q + 4]) by {
            assert t[q..q + 4][0] == t[q];
          }
        }
      } else {
        assert Run2(t, q) == 0;
      }
    }
    if q < |t| {
      NoDigitsNoMatch(t, q + 1, pat);
    }
  }

  /** As written, 一昨日 is taken for 昨日: the request "一昨日" lists yesterday's mail. */
  lemma DayBeforeYesterdayAsWritten(year: nat, dayText: int -> string)
    ensures ParseParamsAsWritten("一昨日", year, dayText).date == Some(dayText(-1))
    ensures ParseParamsFromText("一昨日", year, dayText).date == Some(dayText(-2))
  {
    var s := "一昨日";
    NoDigitsNoMatch(s, 0, YmdPattern);
    NoDigitsNoMatch(s, 0, MdPattern);
    NoDigitsNoMatch(s, 0, KanjiMonthDay);
    assert WrittenDate(s, year).None?;
    Absent(s, "今日");
    Absent(s, "きょう");
    assert OccursAt(s, "昨日", 1) && OccursAt(s, "一昨日", 0);
    ContainsAt(s, "昨日", 1);
    ContainsAt(s, "一昨日", 0);
  }

  /** `Y-M-D` (or with slashes) on its own gives that date, zero-padded. */
  lemma YmdRequest(y: string, sep1: char, m: string, sep2: char, d: string, year: nat, dayText: int -> string)
    requires |y| == 4 && AllDigits(y) && 1 <= |m| <= 2 && AllDigits(m) && 1 <= |d| <= 2 && AllDigits(d)
    requires sep1 in {'/', '-'} && sep2 in {'/', '-'}
    ensures ParseParamsAsWritten(y + [sep1] + m + [sep2] + d, year, dayText).date
            == Some(y + "-" + PadStart2(m) + "-" + PadStart2(d))
  {
    YearFirstWhole(y, sep1, m, sep2, d, {'/', '-'}, {'/', '-'}, NoTime);
  }

  /** No character of `t` is a separator of the month-first or year-first expressions, so
    * neither matches anywhere. */
  lemma {:induction false} NoSeparatorNoMatch(t: string, q: nat)
    requires q <= |t|
    requires forall i :: 0 <= i < |t| ==> t[i] != '/' && t[i] != '-'
    ensures FirstMatchAt(t, q, YmdPattern).None? && FirstMatchAt(t, q, MdPattern).None?
    decreases |t| - q
  {
    if q < |t| {
      NoSeparatorNoMatch(t, q + 1);
    }
  }

  /** `M月D` on its own gives that day of the current year. */
  lemma KanjiRequest(m: string, d: string, year: nat, dayText: int -> string)
    requires 1 <= |m| <= 2 && AllDigits(m) && 1 <= |d| <= 2 && AllDigits(d)
    ensures ParseParamsAsWritten(m + "月" + d, year, dayText).date
            == Some(NatToString(year) + "-" + PadStart2(m) + "-" + PadStart2(d))
  {
    var t := m + "月" + d;
    forall i | 0 <= i < |t|
      ensures t[i] != '/' && t[i] != '-'
    {
      if i < |m| {
        assert t[i] == m[i];
      } else if i > |m| {
        assert t[i] == d[i - |m| - 1];
      }
    }
    NoSeparatorNoMatch(t, 0);
    KanjiWhole(m, d);
  }

  /** A year-month-day date comes out in the ISO shape `YYYY-MM-DD`. */
  lemma WrittenYmdIsIso(s: string, year: nat)
    requires Find(s, YmdPattern).Some?
    ensures var w := WrittenDate(s, year).value; |w| == 10 && IsoLike(w)
  {
    var p := FirstMatchAt(s, 0, YmdPattern).value;
    YearFirstWellFormed(s, p, {'/', '-'}, {'/', '-'}, NoTime);
    var m := Find(s, YmdPattern).value;
    PadStartTwoDigits(m.month);
    PadStartTwoDigits(m.day);
    DashJoinedIso(m.year, PadStart2(m.month), PadStart2(m.day));
  }

  lemma DashJoinedIso(y: string, mo: string, dd: string)
    requires |y| == 4 && AllDigits(y) && |mo| == 2 && AllDigits(mo) && |dd| == 2 && AllDigits(dd)
    ensures var w := y + "-" + mo + "-" + dd; |w| == 10 && IsoLike(w)
  {
    var w := y + "-" + mo + "-" + dd;
    assert w[..4] == y;
    assert w[5] == mo[0] && w[6] == mo[1] && w[8] == dd[0] && w[9] == dd[1];
  }

  // ---------------------------------------------------------------------
  // the Gmail query in the prompt
  // ---------------------------------------------------------------------

  function Opt(b: bool, x: string): seq<string>
  {
    if b then [x] else []
  }

  /** The mailbox, lower-cased, `inbox` by default. */
  function MailboxOf(p: ListParams): string
  {
    Lower(if Truthy(p.mailbox) then p.mailbox.value else "inbox")
  }

  /** The query terms in order: `label:inbox`, `is:unread`, the one-day window, the keywords. */
  function QueryParts(p: ListParams, calendar: (string, int) -> Day): seq<string>
  {
    Opt(MailboxOf(p) == "inbox", "label:inbox") + Opt(p.unread, "is:unread") + DateTerms(p, calendar)
    + Opt(Truthy(p.query), if Truthy(p.query) then p.query.value else "")
  }

  /** `after:` the requested day and `before:` the next one, when there is a date. */
  function DateTerms(p: ListParams, calendar: (string, int) -> Day): seq<string>
  {
    if Truthy(p.date) then ["after:" + NudgeDay(calendar(p.date.value, 0)),
                            "before:" + NudgeDay(calendar(p.date.value, 1))] else []
  }

  /** Where the elements of four joined sequences land. */
  lemma FourParts<T>(a: seq<T>, b: seq<T>, c: seq<T>, d: seq<T>)
    ensures var q := a + b + c + d;
      |q| == |a| + |b| + |c| + |d|
      && (forall x :: 0 <= x < |a| ==> q[x] == a[x])
      && (forall x :: 0 <= x < |b| ==> q[|a| + x] == b[x])
      && (forall x :: 0 <= x < |c| ==> q[|a| + |b| + x] == c[x])
      && (forall x :: 0 <= x < |d| ==> q[|a| + |b| + |c| + x] == d[x])
  {
  }

  /** Each requested filter has its own term at a fixed place, and there are no other terms. */
  lemma QueryOrder(p: ListParams, calendar: (string, int) -> Day)
    ensures var q := QueryParts(p, calendar);
      var i := if MailboxOf(p) == "inbox" then 1 else 0;
      var j := i + (if p.unread then 1 else 0);
      var k := j + (if Truthy(p.date) then 2 else 0);
      |q| == k + (if Truthy(p.query) then 1 else 0)
      && (MailboxOf(p) == "inbox" ==> q[0] == "label:inbox")
      && (p.unread ==> q[i] == "is:unread")
      && (Truthy(p.date) ==> q[j] == "after:" + NudgeDay(calendar(p.date.value, 0))
                             && q[j + 1] == "before:" + NudgeDay(calendar(p.date.value, 1)))
      && (Truthy(p.query) ==> q[k] == p.query.value)
  {
    var a := Opt(MailboxOf(p) == "inbox", "label:inbox");
    var b := Opt(p.unread, "is:unread");
    var c := DateTerms(p, calendar);
    var d := Opt(Truthy(p.query), if Truthy(p.query) then p.query.value else "");
    FourParts(a, b, c, d);
    if p.unread {
      assert b[0] == "is:unread";
    }
    if Truthy(p.date) {
      assert c[0] == "after:" + NudgeDay(calendar(p.date.value, 0));
      assert c[1] == "before:" + NudgeDay(calendar(p.date.value, 1));
    }
    if Truthy(p.query) {
      assert d[0] == p.query.value;
    }
  }

  /** The query shown in the prompt: the terms joined by spaces, or `label:inbox` when there
    * are none. */
  function ShownQuery(p: ListParams, calendar: (string, int) -> Day): (q: string)
    ensures q != ""
  {
    var joined := Trim(Join(QueryParts(p, calendar), " "));
    if joined != "" then joined else "label:inbox"
  }

  /** `buildListNudge`: the read-only instruction to the model. */
  function BuildListNudge(p: ListParams, calendar: (string, int) -> Day): string
  {
    var datePart := if Truthy(p.date) then p.date.value + " の" else "";
    var keywordPart := if Truthy(p.query) then "（キーワード: " + p.query.value + "）" else "";
    Join([
      "読み取り専用のGmail MCPツールで" + datePart + Upper(MailboxOf(p)) + "の受信メール一覧（上位10件）を取得してください" + keywordPart + "。",
      QueryLine(ShownQuery(p, calendar)),
      "出力は説明なし・フォーマット厳守。コードブロックやJSONは禁止。次の1行形式のみで番号付きで出力してください（最大10行）:",
      "N. 件名 — 送信者（YYYY-MM-DD HH:mm） [id:<messageId>]",
      "注意: 送信/削除/アーカイブ/下書き作成など書き込み操作は禁止です。",
      "重要: 各行の末尾に実メッセージID（RFC822 Message-ID）を [id:<messageId>] として必ず付与してください（本文取得に使用）。"
    ], "\n")
  }

  function QueryLine(q: string): string
  {
    "クエリ例: q=\"" + q + "\" withTextPayload=true maxResults=20 includeSpamTrash=false"
  }

  /** A request for an unfiltered inbox still shows `label:inbox`; so does any other mailbox. */
  lemma UnfilteredQuery(p: ListParams, calendar: (string, int) -> Day)
    requires !p.unread && !Truthy(p.date) && !Truthy(p.query)
    ensures ShownQuery(p, calendar) == "label:inbox"
  {
    var q := QueryParts(p, calendar);
    if MailboxOf(p) == "inbox" {
      assert q == ["label:inbox"];
      assert Join(q, " ") == "label:inbox";
      TrimKeepsTrimmed("label:inbox");
    } else {
      assert q == [];
    }
  }

  // ---------------------------------------------------------------------
  // the cached preview
  // ---------------------------------------------------------------------

  /** A list must hold this many mails to be shown or saved. */
  const MinListed := 2
  /** At most this many lines are shown from the cache or the Gmail API. */
  const MaxShown := 10

  /** The quick preview: a cached list still valid now (`expires_at > now`) with at least two
    * items shows its first ten. A list that does not parse shows nothing. */
  function CachedPreview(cached: Option<CacheRecord>, nowSec: int): (r: Option<seq<string>>)
    ensures r.Some? <==> cached.Some? && cached.value.expiresAt > nowSec
                         && cached.value.itemsJson.Items? && |cached.value.itemsJson.items| >= MinListed
    ensures r.Some? ==> MinListed <= |r.value| <= MaxShown
  {
    if cached.None? || cached.value.expiresAt <= nowSec || !cached.value.itemsJson.Items? then None
    else
      var items := cached.value.itemsJson.items;
      if |items| >= MinListed then
        Some(NumberLines(seq(|items|, i requires 0 <= i < |items| => FromCacheItem(items[i])), MaxShown))
      else None
  }

  // ---------------------------------------------------------------------
  // the Gmail API path
  // ---------------------------------------------------------------------

  /** `[a, b].filter(Boolean).join(' ').trim()` */
  function JoinTerms(a: string, b: string): string
  {
    if a == "" then Trim(b) else if b == "" then Trim(a) else Trim(a + " " + b)
  }

  /** The window of `n` days before to `m` days after the requested day. */
  function Window(date: string, from: int, to: int, calendar: (string, int) -> Day): string
  {
    "after:" + SlashDay(calendar(date, from)) + " before:" + SlashDay(calendar(date, to))
  }

  /** The first query: the keywords and the one-day window. */
  function PrimaryQuery(p: ListParams, calendar: (string, int) -> Day): string
  {
    var keywords := if Truthy(p.query) then p.query.value else "";
    if Truthy(p.date) then JoinTerms(keywords, Window(p.date.value, 0, 1, calendar)) else keywords
  }

  /** The retry query: the keywords and the window from the day before to two days after. */
  function WideQuery(p: ListParams, date: string, calendar: (string, int) -> Day): string
  {
    JoinTerms(if Truthy(p.query) then p.query.value else "", Window(date, -1, 2, calendar))
  }

  /** `listGmailMessages({limit, q, labelIds: ['INBOX']})`: the mails, or the failure thrown. */
  type GmailList = (string, nat) -> Result<seq<Listed>, string>

  /** The lines of one attempt, or None when the call failed. */
  function Attempt(q: string, limit: nat, list: GmailList): Option<seq<string>>
  {
    var r := list(q, limit);
    if r.Failure? then None else Some(NumberLines(r.value, MaxShown))
  }

  /** The lines the direct path ends with: the first attempt's, replaced by the widened
    * attempt's when the first gave fewer than two lines for a dated request and the retry
    * did not fail. None when the first call failed. */
  function DirectLines(p: ListParams, limit: nat, list: GmailList, calendar: (string, int) -> Day): Option<seq<string>>
  {
    var first := Attempt(PrimaryQuery(p, calendar), limit, list);
    if first.None? then None
    else if |first.value| < MinListed && Truthy(p.date) then
      var wide := Attempt(WideQuery(p, p.date.value, calendar), limit, list);
      if wide.Some? then wide else first
    else first
  }

  /** What the direct path shows: its lines, when there are at least two and the detector
    * recognised at least two mails in them. */
  function DirectShown(p: ListParams, limit: nat, list: GmailList, calendar: (string, int) -> Day,
                       detect: string -> Option<seq<EmailItem>>): Option<seq<string>>
  {
    var lines := DirectLines(p, limit, list, calendar);
    if lines.Some? && |lines.value| >= MinListed then
      var saved := detect(Join(lines.value, "\n"));
      if saved.Some? && |saved.value| >= MinListed then lines else None
    else None
  }

  /** The Gmail API path of `runPhase2List`: a one-day query, widened once when it yields
    * fewer than two lines; the lines are shown when at least two are recognised. */
  method DirectGmailList(p: ListParams, limit: nat, list: GmailList, calendar: (string, int) -> Day,
                         detect: string -> Option<seq<EmailItem>>)
    returns (shown: Option<seq<string>>)
    ensures shown == DirectShown(p, limit, list, calendar, detect)
  {
    var qPrimary := PrimaryQuery(p, calendar);
    var first := list(qPrimary, limit);
    if first.Failure? {
      return None;
    }
    var lines := NumberLines(first.value, MaxShown);
    ghost var firstLines := Attempt(PrimaryQuery(p, calendar), limit, list);
    assert firstLines == Some(lines);
    if |lines| < MinListed && Truthy(p.date) {
      var qWide := WideQuery(p, p.date.value, calendar);
      var second := list(qWide, limit);
      ghost var wideLines := Attempt(WideQuery(p, p.date.value, calendar), limit, list);
      assert wideLines == if second.Success? then Some(NumberLines(second.value, MaxShown)) else None;
      if second.Success? {
        lines := NumberLines(second.value, MaxShown);
        if qPrimary == "" {
          qPrimary := qWide;
        }
      }
    }
    assert DirectLines(p, limit, list, calendar) == Some(lines);
    shown := None;
    if |lines| >= MinListed {
      var saved := detect(Join(lines, "\n"));
      if saved.Some? && |saved.value| >= MinListed {
        shown := Some(lines);
      }
    }
  }

  /** A shown direct list has between two and ten numbered lines, and the detector recognised at
    * least two mails in it. */
  lemma DirectShownAccepted(p: ListParams, limit: nat, list: GmailList, calendar: (string, int) -> Day,
                            detect: string -> Option<seq<EmailItem>>)
    requires DirectShown(p, limit, list, calendar, detect).Some?
    ensures var lines := DirectShown(p, limit, list, calendar, detect).value;
      MinListed <= |lines| <= MaxShown
      && detect(Join(lines, "\n")).Some? && |detect(Join(lines, "\n")).value| >= MinListed
  {
  }

  /** When the first query already yields two lines, the widened query is never sent. */
  lemma NoWideningWhenEnough(p: ListParams, limit: nat, list: GmailList, calendar: (string, int) -> Day)
    requires Attempt(PrimaryQuery(p, calendar), limit, list).Some?
    requires |Attempt(PrimaryQuery(p, calendar), limit, list).value| >= MinListed
    ensures DirectLines(p, limit, list, calendar) == Attempt(PrimaryQuery(p, calendar), limit, list)
  {
  }

  // ---------------------------------------------------------------------
  // the model path and the final reply
  // ---------------------------------------------------------------------

  /** A round with the language model: its output text, or the API failure with its status. */
  datatype Round = Output(text: string) | ApiError(status: Option<int>)

  /** The reply of `runPhase2List`. */
  datatype ListReply =
    | ListShown(lines: seq<string>)
    | OnlyOne                    // one mail recognised: nothing saved, the user is asked to widen
    | DetectionFailed
    | AuthFailed                 // no connect token
    | Failed

  /** The lines for a recognised list: every mail, numbered from 1. */
  function SavedLines(emails: seq<EmailItem>): seq<string>
  {
    NumberLines(seq(|emails|, i requires 0 <= i < |emails| => FromEmail(emails[i])), |emails|)
  }

  /** The outcome of one round's text: a list of two or more, exactly one mail, or nothing. */
  function RoundVerdict(saved: Option<seq<EmailItem>>): Option<ListReply>
  {
    if saved.Some? && |saved.value| >= MinListed then Some(ListShown(SavedLines(saved.value)))
    else if saved.Some? && |saved.value| == 1 then Some(OnlyOne)
    else None
  }

  /** After a 401 the token is refreshed and one more round is made. */
  function After401(retry: Round, detect: string -> Option<seq<EmailItem>>): ListReply
  {
    if retry.ApiError? then Failed
    else
      var saved := detect(retry.text);
      if saved.Some? && |saved.value| >= MinListed then ListShown(SavedLines(saved.value)) else Failed
  }

  /** The model rounds: the first answer, then a retry restricted to read-only tools; an API
    * failure in either ends the rounds, and only a 401 is retried. */
  function ModelReply(round1: Round, round2: Round, retry: Round, detect: string -> Option<seq<EmailItem>>): ListReply
  {
    var failure := if round1.ApiError? then round1 else round2;
    if round1.Output? && RoundVerdict(detect(round1.text)).Some? then RoundVerdict(detect(round1.text)).value
    else if failure.ApiError? then
      (if failure.status == Some(401) then After401(retry, detect) else Failed)
    else if RoundVerdict(detect(round2.text)).Some? then RoundVerdict(detect(round2.text)).value
    else DetectionFailed
  }

  /** The outside world of one request. `list` is the Gmail API, `post` the direct action
    * endpoint, `detect` the list detector and saver, `cache` the list cache read by key. */
  datatype World = World(
    directGmail: bool,                          // FEATURE_LIST_DIRECT_GMAIL is "true"
    fastPath: bool,                             // FEATURE_LIST_FASTPATH is "true"
    listLimit: Option<nat>,                     // GMAIL_LIST_LIMIT, when set
    userId: string, workspaceId: Option<string>,
    cache: string -> Option<CacheRecord>, sha1Hex: string -> string, nowSec: int,
    year: nat, dayText: int -> string, calendar: (string, int) -> Day,
    list: GmailList,
    detect: string -> Option<seq<EmailItem>>,
    connectToken: Result<string, string>,
    knownPath: Option<string>, actionSetting: Option<string>, discovered: seq<string>,
    post: (string, GmailReadDirect.RequestBody) -> GmailReadDirect.PostResult,
    round1: Round, round2: Round, retry: Round)

  /** The key of the cached list for this request: mailbox, and the date as the query, page 1. */
  function PreviewKey(p: ListParams, w: World): string
  {
    CacheKey.BuildGmailListCacheKey(
      CacheKey.GmailListKeyParams(w.userId, w.workspaceId, p.mailbox, p.date, None, Some(1)), w.sha1Hex)
  }

  /** The direct action's parameters for the fast path: at most `GMAIL_LIST_LIMIT` (10) mails. */
  function FastParams(p: ListParams, w: World): GmailReadDirect.ListParams
  {
    GmailReadDirect.ListParams(p.mailbox, p.date, p.query, Some(w.listLimit.UnwrapOr(10)))
  }

  /** What `listMessagesDirect` returns for the fast path. */
  function FastDirect(p: ListParams, w: World): Result<GmailReadDirect.DirectList, string>
  {
    GmailReadDirect.DirectListing(FastParams(p, w), w.knownPath, w.actionSetting, w.listLimit,
                                  w.discovered, w.post, w.calendar)
  }

  /** The fast path: at least two listed lines and at least two recognised mails. */
  function FastPathReply(fast: Result<GmailReadDirect.DirectList, string>, detect: string -> Option<seq<EmailItem>>)
    : Option<ListReply>
  {
    if fast.Success? && fast.value.count >= MinListed then
      var saved := detect(fast.value.linesText);
      if saved.Some? && |saved.value| >= MinListed then Some(ListShown(SavedLines(saved.value))) else None
    else None
  }

  /** The reply of `runPhase2List`: the Gmail API path, the token check, the fast path, then the
    * model rounds. The API path asks for `GMAIL_LIST_LIMIT` (8) mails. */
  function Phase2Reply(userText: string, w: World): ListReply
  {
    var p := ParseParamsAsWritten(userText, w.year, w.dayText);
    var direct := if w.directGmail then DirectShown(p, w.listLimit.UnwrapOr(8), w.list, w.calendar, w.detect) else None;
    var fast := if w.fastPath then FastPathReply(FastDirect(p, w), w.detect) else None;
    if direct.Some? then ListShown(direct.value)
    else if w.connectToken.Failure? then AuthFailed
    else if fast.Some? then fast.value
    else ModelReply(w.round1, w.round2, w.retry, w.detect)
  }

  /** `runPhase2List`: the cached preview, then the first route that produces a reply. */
  method RunPhase2List(userText: string, w: World) returns (preview: Option<seq<string>>, reply: ListReply)
    ensures var p := ParseParamsAsWritten(userText, w.year, w.dayText);
      preview == CachedPreview(w.cache(PreviewKey(p, w)), w.nowSec)
    ensures reply == Phase2Reply(userText, w)
  {
    var params := ParseParamsAsWritten(userText, w.year, w.dayText);
    preview := CachedPreview(w.cache(PreviewKey(params, w)), w.nowSec);
    if w.directGmail {
      var shown := DirectGmailList(params, w.listLimit.UnwrapOr(8), w.list, w.calendar, w.detect);
      if shown.Some? {
        reply := ListShown(shown.value);
        return;
      }
    }
    if w.connectToken.Failure? {
      reply := AuthFailed;
      return;
    }
    if w.fastPath {
      var fp := FastParams(params, w);
      var direct, _ := GmailReadDirect.ListMessagesDirect(fp, w.knownPath, w.actionSetting, w.listLimit,
                                                          w.discovered, w.post, w.calendar);
      var fast := FastPathReply(direct, w.detect);
      if fast.Some? {
        reply := fast.value;
        return;
      }
    }
    reply := ModelReply(w.round1, w.round2, w.retry, w.detect);
  }

  /** Every list shown holds at least two lines, numbered from 1. */
  lemma ShownListsHaveTwo(userText: string, w: World)
    requires Phase2Reply(userText, w).ListShown?
    ensures var lines := Phase2Reply(userText, w).lines;
      |lines| >= MinListed && forall i :: 0 <= i < |lines| ==> StartsWith(lines[i], NatToString(i + 1) + ". ")
  {
    var p := ParseParamsAsWritten(userText, w.year, w.dayText);
    var direct := if w.directGmail then DirectShown(p, w.listLimit.UnwrapOr(8), w.list, w.calendar, w.detect) else None;
    if direct.Some? {
      DirectShownAccepted(p, w.listLimit.UnwrapOr(8), w.list, w.calendar, w.detect);
      DirectLinesNumbered(p, w.listLimit.UnwrapOr(8), w.list, w.calendar);
    } else {
      var fast := if w.fastPath then FastPathReply(FastDirect(p, w), w.detect) else None;
      if fast.Some? {
        SavedLinesNumbered(w.detect(FastDirect(p, w).value.linesText).value);
      } else {
        ModelShownHasTwo(w.round1, w.round2, w.retry, w.detect);
      }
    }
  }

  /** A list from the model rounds holds at least two lines, numbered from 1. */
  lemma ModelShownHasTwo(round1: Round, round2: Round, retry: Round, detect: string -> Option<seq<EmailItem>>)
    requires ModelReply(round1, round2, retry, detect).ListShown?
    ensures var lines := ModelReply(round1, round2, retry, detect).lines;
      |lines| >= MinListed && forall i :: 0 <= i < |lines| ==> StartsWith(lines[i], NatToString(i + 1) + ". ")
  {
    var text := if round1.Output? && RoundVerdict(detect(round1.text)).Some? then round1.text
                else if round1.ApiError? || round2.ApiError? then retry.text
                else round2.text;
    SavedLinesNumbered(detect(text).value);
  }

  lemma SavedLinesNumbered(emails: seq<EmailItem>)
    requires |emails| >= MinListed
    ensures var lines := SavedLines(emails);
      |lines| >= MinListed && forall i :: 0 <= i < |lines| ==> StartsWith(lines[i], NatToString(i + 1) + ". ")
  {
    NumberLinesNumbered(seq(|emails|, i requires 0 <= i < |emails| => FromEmail(emails[i])), |emails|);
  }

  /** The Gmail API path's lines are numbered from 1. */
  lemma DirectLinesNumbered(p: ListParams, limit: nat, list: GmailList, calendar: (string, int) -> Day)
    requires DirectLines(p, limit, list, calendar).Some?
    ensures var lines := DirectLines(p, limit, list, calendar).value;
      forall i :: 0 <= i < |lines| ==> StartsWith(lines[i], NatToString(i + 1) + ". ")
  {
    var first := list(PrimaryQuery(p, calendar), limit);
    NumberLinesNumbered(first.value, MaxShown);
    if Truthy(p.date) {
      var wide := list(WideQuery(p, p.date.value, calendar), limit);
      if wide.Success? {
        NumberLinesNumbered(wide.value, MaxShown);
      }
    }
  }

  /** "Only one mail" comes from a model round that recognised exactly one mail; nothing is saved. */
  lemma OnlyOneFromModel(userText: string, w: World)
    requires Phase2Reply(userText, w).OnlyOne?
    ensures (w.round1.Output? && RoundVerdict(w.detect(w.round1.text)) == Some(OnlyOne))
            || (w.round2.Output? && RoundVerdict(w.detect(w.round2.text)) == Some(OnlyOne))
    ensures w.round1.Output? ==> |w.detect(w.round1.text).UnwrapOr([])| < MinListed
  {
  }

  /** Without a connect token the request ends in an authentication error unless the Gmail API
    * path already showed a list. */
  lemma AuthErrorOnlyWithoutToken(userText: string, w: World)
    ensures var p := ParseParamsAsWritten(userText, w.year, w.dayText);
      Phase2Reply(userText, w) == AuthFailed
      <==> w.connectToken.Failure? && !(w.directGmail && DirectShown(p, w.listLimit.UnwrapOr(8), w.list, w.calendar, w.detect).Some?)
  {
  }

  /** A 401 from the model is retried once with a fresh token; any other failure ends the request. */
  lemma Only401Retried(round1: Round, round2: Round, retry: Round, detect: string -> Option<seq<EmailItem>>)
    requires round1.ApiError?
    ensures round1.status != Some(401) ==> ModelReply(round1, round2, retry, detect) == Failed
    ensures round1.status == Some(401) ==> ModelReply(round1, round2, retry, detect) == After401(retry, detect)
  {
  }
}
