/**
 * Recognising dates written in free text, as the two list formatters
 * (`toDateStr` in services/listEmailsService.ts and in
 * services/gmailReadDirectService.ts) and the list-request parser
 * (`parseParamsFromText`) do with regular expressions.
 *
 * Every expression used there has the same structure: one- or two-digit
 * fields `\d{1,2}` separated by fixed characters that are never digits.
 * A backtracking engine therefore has exactly one way to match at a given
 * start: a field takes two digits when two are there and otherwise one
 * (giving one back cannot help, because the next character would then be
 * a digit where a separator is needed). `MatchAt` computes that match
 * directly, and `FirstMatchAt` tries the start positions from left to
 * right, as `String.prototype.match` does.
 */
module DateText {
  import opened Wrappers
  import opened Strings

  /** `s.padStart(2, '0')`. */
  function PadStart2(s: string): (r: string)
    ensures |r| == if |s| < 2 then 2 else |s|
    ensures EndsWith(r, s)
    ensures forall i :: 0 <= i < |r| - |s| ==> r[i] == '0'
  {
    if |s| >= 2 then s else if |s| == 1 then "0" + s else "00"
  }

  /** A leading zero does not change the value of a digit string. */
  lemma {:induction false} LeadingZeroValue(s: string)
    requires AllDigits(s)
    ensures AllDigits("0" + s) && DigitsValue("0" + s) == DigitsValue(s)
    decreases |s|
  {
    var z := "0" + s;
    if s == [] {
      assert z[..0] == [];
    } else {
      assert z[..|z| - 1] == "0" + s[..|s| - 1];
      LeadingZeroValue(s[..|s| - 1]);
    }
  }

  /** Zero-padding keeps a digit string's value. */
  lemma PadStartKeepsValue(s: string)
    requires AllDigits(s)
    ensures AllDigits(PadStart2(s)) && DigitsValue(PadStart2(s)) == DigitsValue(s)
  {
    if |s| == 1 {
      LeadingZeroValue(s);
    } else if s == [] {
      LeadingZeroValue("0");
      LeadingZeroValue("");
    }
  }

  /** A calendar day as JavaScript's `Date` reports it: full year, month 1-12, day of month. */
  datatype Day = Day(year: nat, month: nat, day: nat)

  /** `${y}/${mm}/${dd}` with month and day as `String(x).padStart(2, '0')`. */
  function SlashDay(d: Day): string
  {
    NatToString(d.year) + "/" + PadStart2(NatToString(d.month)) + "/" + PadStart2(NatToString(d.day))
  }

  // ---------------------------------------------------------------------
  // fields
  // ---------------------------------------------------------------------

  /** Length of the field `\d{1,2}` taken greedily at `p`; 0 when no digit is there. */
  function Run2(t: string, p: nat): (k: nat)
    requires p <= |t|
    ensures k <= 2 && p + k <= |t|
    ensures forall i :: p <= i < p + k ==> IsDigit(t[i])
    ensures k < 2 ==> p + k == |t| || !IsDigit(t[p + k])
  {
    if p < |t| && IsDigit(t[p]) then
      if p + 1 < |t| && IsDigit(t[p + 1]) then 2 else 1
    else 0
  }

  /** `\d{1,2}` followed by one of `seps`: the position of that separator. */
  function FieldBefore(t: string, p: nat, seps: set<char>): (e: Option<nat>)
    requires p <= |t|
    ensures e.Some? ==> p < e.value < |t| && e.value - p <= 2 && t[e.value] in seps
    ensures e.Some? ==> forall i :: p <= i < e.value ==> IsDigit(t[i])
  {
    var k := Run2(t, p);
    if k >= 1 && p + k < |t| && t[p + k] in seps then Some(p + k) else None
  }

  predicate SpaceOrT(c: char)
  {
    IsSpace(c) || c == 'T'
  }

  /** End of the run `[\sT]*` starting at `p`. */
  function SpaceOrTEnd(t: string, p: nat): (k: nat)
    requires p <= |t|
    ensures p <= k <= |t|
    decreases |t| - p
  {
    if p < |t| && SpaceOrT(t[p]) then SpaceOrTEnd(t, p + 1) else p
  }

  /** What may separate the day from the time. */
  datatype TimeRule =
    | NoTime          // the expression has no time group
    | OneSeparator    // `(?:[\sT](\d{1,2}):(\d{2}))?`
    | AnySeparators   // `(?:[\sT]*(\d{1,2}):(\d{2}))?`

  /** Where the hour field starts under `rule`, if the separator is there. */
  function HourStart(t: string, p: nat, rule: TimeRule): (h: Option<nat>)
    requires p <= |t|
    ensures h.Some? ==> p <= h.value <= |t|
  {
    match rule
    case NoTime => None
    case OneSeparator => if p < |t| && SpaceOrT(t[p]) then Some(p + 1) else None
    case AnySeparators => Some(SpaceOrTEnd(t, p))
  }

  /** The optional time group after the day ending at `p`: hour and minute text. */
  function TimeAt(t: string, p: nat, rule: TimeRule): Option<(string, string)>
    requires p <= |t|
  {
    var h := HourStart(t, p, rule);
    if h.None? then None
    else
      var e := FieldBefore(t, h.value, {':'});
      if e.None? || e.value + 3 > |t| || !IsDigit(t[e.value + 1]) || !IsDigit(t[e.value + 2]) then None
      else Some((t[h.value..e.value], t[e.value + 1..e.value + 3]))
  }

  // ---------------------------------------------------------------------
  // the expressions
  // ---------------------------------------------------------------------

  /** The three shapes of date expression in the service. No separator set contains a digit. */
  datatype Pattern =
    | YearFirst(yearSeps: set<char>, monthSeps: set<char>, time: TimeRule)
      // `(\d{4})[yearSeps](\d{1,2})[monthSeps](\d{1,2})` and the time group
    | MonthFirst(seps: set<char>)
      // `(\d{1,2})[seps](\d{1,2})`
    | KanjiMonthDay
      // `(\d{1,2})\s*月\s*(\d{1,2})`

  /** The capture groups of a match; `year` is empty for the month-first shapes. */
  datatype DateMatch = DateMatch(year: string, month: string, day: string, time: Option<(string, string)>)

  /** The match of `pat` starting exactly at `p`, if any. */
  function MatchAt(t: string, p: nat, pat: Pattern): Option<DateMatch>
    requires p <= |t|
  {
    match pat
    case YearFirst(ys, ms, rule) =>
      if p + 4 < |t| && AllDigits(t[p..p + 4]) && t[p + 4] in ys then
        var me := FieldBefore(t, p + 5, ms);
        if me.None? then None
        else
          var d := Run2(t, me.value + 1);
          if d == 0 then None
          else Some(DateMatch(t[p..p + 4], t[p + 5..me.value], t[me.value + 1..me.value + 1 + d],
                              TimeAt(t, me.value + 1 + d, rule)))
      else None
    case MonthFirst(seps) =>
      var me := FieldBefore(t, p, seps);
      if me.None? then None
      else
        var d := Run2(t, me.value + 1);
        if d == 0 then None
        else Some(DateMatch("", t[p..me.value], t[me.value + 1..me.value + 1 + d], None))
    case KanjiMonthDay =>
      var k := Run2(t, p);
      var j := SkipSpaces(t, p + k);
      if k == 0 || j == |t| || t[j] != '月' then None
      else
        var j2 := SkipSpaces(t, j + 1);
        var d := Run2(t, j2);
        if d == 0 then None
        else Some(DateMatch("", t[p..p + k], t[j2..j2 + d], None))
  }

  /** The leftmost start at or after `q` where `pat` matches. */
  function FirstMatchAt(t: string, q: nat, pat: Pattern): (r: Option<nat>)
    requires q <= |t|
    ensures r.Some? ==> q <= r.value <= |t| && MatchAt(t, r.value, pat).Some?
    decreases |t| - q
  {
    if MatchAt(t, q, pat).Some? then Some(q)
    else if q == |t| then None
    else FirstMatchAt(t, q + 1, pat)
  }

  /** `t.match(pat)`: the groups of the leftmost match. */
  function Find(t: string, pat: Pattern): Option<DateMatch>
  {
    var p := FirstMatchAt(t, 0, pat);
    if p.None? then None else MatchAt(t, p.value, pat)
  }

  /** No start before the one `FirstMatchAt` reports matches; with no report, none matches. */
  lemma {:induction false} FirstMatchIsLeftmost(t: string, q: nat, pat: Pattern, p: nat)
    requires q <= p <= |t|
    requires FirstMatchAt(t, q, pat).None? || p < FirstMatchAt(t, q, pat).value
    ensures MatchAt(t, p, pat).None?
    decreases p - q
  {
    if p > q {
      assert MatchAt(t, q, pat).None?;
      FirstMatchIsLeftmost(t, q + 1, pat, p);
    }
  }

  /** A match found at the very start is the leftmost one. */
  lemma FindAtStart(t: string, pat: Pattern)
    requires MatchAt(t, 0, pat).Some?
    ensures Find(t, pat) == MatchAt(t, 0, pat)
  {
  }

  /** `Y<a>M<b>D` on its own is recognised with exactly those groups and no time. */
  lemma YearFirstWhole(y: string, a: char, m: string, b: char, d: string, ys: set<char>, ms: set<char>,
                       rule: TimeRule)
    requires |y| == 4 && AllDigits(y) && 1 <= |m| <= 2 && AllDigits(m) && 1 <= |d| <= 2 && AllDigits(d)
    requires a in ys && b in ms && !IsDigit(b)
    ensures Find(y + [a] + m + [b] + d, YearFirst(ys, ms, rule)) == Some(DateMatch(y, m, d, None))
  {
    var t := y + [a] + m + [b] + d;
    var e := 5 + |m|;
    assert t[..4] == y && t[4] == a && t[e] == b;
    assert t[5..e] == m && t[e + 1..] == d;
    assert Run2(t, 5) == |m|;
    assert FieldBefore(t, 5, ms) == Some(e);
    assert Run2(t, e + 1) == |d|;
    assert TimeAt(t, |t|, rule).None?;
    assert t[0..4] == y && t[e + 1..e + 1 + |d|] == d;
    assert MatchAt(t, 0, YearFirst(ys, ms, rule)) == Some(DateMatch(y, m, d, None));
    FindAtStart(t, YearFirst(ys, ms, rule));
  }

  /** `M<b>D` on its own is recognised by the month-first expression. */
  lemma MonthFirstWhole(m: string, b: char, d: string, seps: set<char>)
    requires 1 <= |m| <= 2 && AllDigits(m) && 1 <= |d| <= 2 && AllDigits(d)
    requires b in seps && !IsDigit(b)
    ensures Find(m + [b] + d, MonthFirst(seps)) == Some(DateMatch("", m, d, None))
  {
    var t := m + [b] + d;
    assert t[..|m|] == m && t[|m|] == b && t[|m| + 1..] == d;
    assert Run2(t, 0) == |m|;
    assert Run2(t, |m| + 1) == |d|;
    assert t[0..|m|] == m && t[|m| + 1..|m| + 1 + |d|] == d;
    assert MatchAt(t, 0, MonthFirst(seps)) == Some(DateMatch("", m, d, None));
    FindAtStart(t, MonthFirst(seps));
  }

  /** `M月D` on its own is recognised by the kanji expression. */
  lemma KanjiWhole(m: string, d: string)
    requires 1 <= |m| <= 2 && AllDigits(m) && 1 <= |d| <= 2 && AllDigits(d)
    ensures Find(m + "月" + d, KanjiMonthDay) == Some(DateMatch("", m, d, None))
  {
    var t := m + "月" + d;
    var k := |m|;
    assert t[..k] == m && t[k] == '月' && t[k + 1..] == d;
    assert forall i :: 0 <= i < k ==> IsDigit(t[i]);
    assert forall i :: k + 1 <= i < |t| ==> IsDigit(t[i]);
    KanjiMatch(t, k);
    assert t[0..k] == m && t[k + 1..|t|] == d;
    FindAtStart(t, KanjiMonthDay);
  }

  /** One or two digits, `月`, and one or two digits up to the end match at the start. */
  lemma KanjiMatch(t: string, k: nat)
    requires 1 <= k <= 2 && k + 2 <= |t| <= k + 3 && t[k] == '月'
    requires forall i :: 0 <= i < k ==> IsDigit(t[i])
    requires forall i :: k + 1 <= i < |t| ==> IsDigit(t[i])
    ensures MatchAt(t, 0, KanjiMonthDay) == Some(DateMatch("", t[0..k], t[k + 1..|t|], None))
  {
    assert !IsDigit(t[k]) && !IsSpace(t[k]);
    assert Run2(t, 0) == k;
    assert SkipSpaces(t, k) == k;
    assert !IsSpace(t[k + 1]);
    assert SkipSpaces(t, k + 1) == k + 1;
    assert Run2(t, k + 1) == |t| - (k + 1);
  }

  /** The groups of a year-first match have 4, 1-2 and 1-2 digits; an hour 1-2 and a minute 2. */
  predicate WellFormed(m: DateMatch)
  {
    |m.year| == 4 && AllDigits(m.year)
    && 1 <= |m.month| <= 2 && AllDigits(m.month)
    && 1 <= |m.day| <= 2 && AllDigits(m.day)
    && (m.time.Some? ==>
          1 <= |m.time.value.0| <= 2 && AllDigits(m.time.value.0)
          && |m.time.value.1| == 2 && AllDigits(m.time.value.1))
  }

  lemma TimeWellFormed(t: string, p: nat, rule: TimeRule)
    requires p <= |t|
    ensures var tm := TimeAt(t, p, rule);
      tm.Some? ==> 1 <= |tm.value.0| <= 2 && AllDigits(tm.value.0)
                   && |tm.value.1| == 2 && AllDigits(tm.value.1)
  {
  }

  /** Every year-first match has well-formed groups. */
  lemma YearFirstWellFormed(t: string, p: nat, ys: set<char>, ms: set<char>, rule: TimeRule)
    requires p <= |t|
    requires MatchAt(t, p, YearFirst(ys, ms, rule)).Some?
    ensures WellFormed(MatchAt(t, p, YearFirst(ys, ms, rule)).value)
  {
    var me := FieldBefore(t, p + 5, ms).value;
    var d := Run2(t, me + 1);
    TimeWellFormed(t, me + 1 + d, rule);
  }

  // ---------------------------------------------------------------------
  // normalisation to `YYYY-MM-DD HH:mm`
  // ---------------------------------------------------------------------

  /** `/^\d{4}-\d{2}-\d{2}/`. */
  predicate IsoLike(s: string)
  {
    |s| >= 10 && AllDigits(s[..4]) && s[4] == '-' && IsDigit(s[5]) && IsDigit(s[6])
    && s[7] == '-' && IsDigit(s[8]) && IsDigit(s[9])
  }

  /** `s.replace(c, d)` with a one-character pattern: only the first occurrence changes. */
  function ReplaceFirst(s: string, c: char, d: char): (r: string)
    ensures |r| == |s|
    ensures c !in s ==> r == s
    ensures forall i :: 0 <= i < |s| && s[i] != c ==> r[i] == s[i]
  {
    if s == [] then []
    else if s[0] == c then [d] + s[1..]
    else [s[0]] + ReplaceFirst(s[1..], c, d)
  }

  /** The shape `YYYY-MM-DD HH:mm`. */
  predicate DateTimeShape(s: string)
  {
    |s| == 16 && IsoLike(s) && s[10] == ' ' && IsDigit(s[11]) && IsDigit(s[12])
    && s[13] == ':' && IsDigit(s[14]) && IsDigit(s[15])
  }

  /** `${y}-${mo}-${d} ${hh}:${mm}` with each part zero-padded and the time defaulting to 00:00. */
  function Render(m: DateMatch): string
  {
    var hh := if m.time.Some? then m.time.value.0 else "00";
    var mm := if m.time.Some? then m.time.value.1 else "00";
    m.year + "-" + PadStart2(m.month) + "-" + PadStart2(m.day) + " " + PadStart2(hh) + ":" + PadStart2(mm)
  }

  /** Without a time the rendering ends in ` 00:00`. */
  lemma RenderWithoutTime(y: string, m: string, d: string)
    ensures Render(DateMatch(y, m, d, None)) == y + "-" + PadStart2(m) + "-" + PadStart2(d) + " 00:00"
  {
    assert PadStart2("00") == "00";
    assert " " + "00" + ":" + "00" == " 00:00";
  }

  /** The string branch of `toDateStr` for the year-first expression `pat`. */
  function Normalize(s: string, pat: Pattern): string
  {
    if IsoLike(s) then Take(ReplaceFirst(s, 'T', ' '), 16)
    else
      var m := Find(s, pat);
      if m.Some? then Render(m.value) else s
  }

  /** Four digits, then two-digit fields joined by `-`, `-`, ` ` and `:`. */
  lemma {:induction false} JoinedShape(y: string, mo: string, d: string, h: string, mi: string)
    requires |y| == 4 && AllDigits(y)
    requires |mo| == 2 && |d| == 2 && |h| == 2 && |mi| == 2
    requires AllDigits(mo) && AllDigits(d) && AllDigits(h) && AllDigits(mi)
    ensures DateTimeShape(y + "-" + mo + "-" + d + " " + h + ":" + mi)
  {
    var r := y + "-" + mo + "-" + d + " " + h + ":" + mi;
    assert |r| == 16;
    assert r[..4] == y;
    assert r[4] == '-' && r[7] == '-' && r[10] == ' ' && r[13] == ':';
    assert r[5] == mo[0] && r[6] == mo[1] && r[8] == d[0] && r[9] == d[1];
    assert r[11] == h[0] && r[12] == h[1] && r[14] == mi[0] && r[15] == mi[1];
  }

  /** Padding one or two digits gives two digits. */
  lemma PadStartTwoDigits(s: string)
    requires 1 <= |s| <= 2 && AllDigits(s)
    ensures |PadStart2(s)| == 2 && AllDigits(PadStart2(s))
  {
  }

  /** A well-formed match renders to exactly `YYYY-MM-DD HH:mm`. */
  lemma RenderShape(m: DateMatch)
    requires WellFormed(m)
    ensures DateTimeShape(Render(m))
  {
    var hh := if m.time.Some? then m.time.value.0 else "00";
    var mm := if m.time.Some? then m.time.value.1 else "00";
    PadStartTwoDigits(m.month);
    PadStartTwoDigits(m.day);
    PadStartTwoDigits(hh);
    PadStartTwoDigits(mm);
    JoinedShape(m.year, PadStart2(m.month), PadStart2(m.day), PadStart2(hh), PadStart2(mm));
  }

  /** Text already in the `YYYY-MM-DD HH:mm` shape is returned unchanged. */
  lemma NormalizeKeepsShaped(s: string, pat: Pattern)
    requires DateTimeShape(s)
    ensures Normalize(s, pat) == s
  {
    assert 'T' !in s by {
      forall i | 0 <= i < |s|
        ensures s[i] != 'T'
      {
        if i < 4 {
          assert s[i] == s[..4][i];
        }
      }
    }
  }

  /** A text the year-first expression recognises normalises to the fixed shape, and normalising
    * that again changes nothing. */
  lemma NormalizeRecognised(s: string, ys: set<char>, ms: set<char>, rule: TimeRule)
    requires !IsoLike(s) && Find(s, YearFirst(ys, ms, rule)).Some?
    ensures DateTimeShape(Normalize(s, YearFirst(ys, ms, rule)))
    ensures Normalize(Normalize(s, YearFirst(ys, ms, rule)), YearFirst(ys, ms, rule))
            == Normalize(s, YearFirst(ys, ms, rule))
  {
    var pat := YearFirst(ys, ms, rule);
    var p := FirstMatchAt(s, 0, pat).value;
    YearFirstWellFormed(s, p, ys, ms, rule);
    RenderShape(Find(s, pat).value);
    NormalizeKeepsShaped(Normalize(s, pat), pat);
  }

  /** A text neither ISO-like nor recognised is returned as it is. */
  lemma NormalizeUnrecognised(s: string, pat: Pattern)
    requires !IsoLike(s) && Find(s, pat).None?
    ensures Normalize(s, pat) == s
  {
  }
}
