/**
 * The line-oriented rule file of the compose/reply detector
 * (services/composeDetectionService.ts): inline `[...]` arrays, the
 * `key: "value"` and `key: word` captures, and the parser that walks the
 * lines keeping the current section and the rule most recently opened.
 */
module ComposeConfig {
  import opened Wrappers
  import opened Strings
  import opened JsNumber

  // ---------------------------------------------------------------------
  // the regular expressions of the parser, written out
  // ---------------------------------------------------------------------

  /** The characters `.` does not match: the ECMAScript line terminators. */
  predicate IsLineTerminator(c: char)
  {
    c == '\n' || c == '\r' || c == '\U{2028}' || c == '\U{2029}'
  }

  /** How many characters `.*` can take from `from` on. */
  function DotRun(s: string, from: nat): (n: nat)
    requires from <= |s|
    ensures from + n <= |s|
    decreases |s| - from
  {
    if from < |s| && !IsLineTerminator(s[from]) then 1 + DotRun(s, from + 1) else 0
  }

  /** How many white-space characters `\s*` takes from `from` on. */
  function SpaceRun(s: string, from: nat): (n: nat)
    requires from <= |s|
    ensures from + n <= |s|
    decreases |s| - from
  {
    if from < |s| && IsSpace(s[from]) then 1 + SpaceRun(s, from + 1) else 0
  }

  /** How many word characters `\w+` takes from `from` on. */
  function WordRun(s: string, from: nat): (n: nat)
    requires from <= |s|
    ensures from + n <= |s|
    decreases |s| - from
  {
    if from < |s| && IsWordChar(s[from]) then 1 + WordRun(s, from + 1) else 0
  }

  /** The last position in `[from, from + n)` holding `x`: where a greedy `(.*)x` stops. */
  function LastIn(s: string, from: nat, n: nat, x: char): (r: Option<nat>)
    requires from + n <= |s|
    ensures r.Some? ==> from <= r.value < from + n && s[r.value] == x
    decreases n
  {
    if n == 0 then None
    else if s[from + n - 1] == x then Some(from + n - 1)
    else LastIn(s, from, n - 1, x)
  }

  /** The capture of `(.*)x` started at `from`, if `x` closes it. */
  function GreedyTo(s: string, from: nat, x: char): (r: Option<string>)
    requires from <= |s|
  {
    match LastIn(s, from, DotRun(s, from), x)
    case None => None
    case Some(j) => Some(s[from..j])
  }

  /** `line.match(/\[(.*)\]/)?.[1]`: the leftmost `[` that a later `]` closes. */
  function BracketFrom(s: string, i: nat): (r: Option<string>)
    requires i <= |s|
    decreases |s| - i
  {
    if i == |s| then None
    else if s[i] == '[' && GreedyTo(s, i + 1, ']').Some? then GreedyTo(s, i + 1, ']')
    else BracketFrom(s, i + 1)
  }

  /** `line.match(/<key>\s*"(.*)"/)?.[1]`, searched from position `i`. */
  function QuotedFrom(s: string, key: string, i: nat): (r: Option<string>)
    requires i <= |s|
    decreases |s| - i
  {
    if i + |key| > |s| then None
    else
      var w := i + |key| + SpaceRun(s, i + |key|);
      if OccursAt(s, key, i) && w < |s| && s[w] == '"' && GreedyTo(s, w + 1, '"').Some? then
        GreedyTo(s, w + 1, '"')
      else if i < |s| then QuotedFrom(s, key, i + 1)
      else None
  }

  /** `line.match(/<key>\s*(\w+)/)?.[1]`, searched from position `i`. */
  function WordFrom(s: string, key: string, i: nat): (r: Option<string>)
    requires i <= |s|
    decreases |s| - i
  {
    if i + |key| > |s| then None
    else
      var w := i + |key| + SpaceRun(s, i + |key|);
      if OccursAt(s, key, i) && WordRun(s, w) > 0 then Some(s[w..w + WordRun(s, w)])
      else if i < |s| then WordFrom(s, key, i + 1)
      else None
  }

  // ---------------------------------------------------------------------
  // inline arrays
  // ---------------------------------------------------------------------

  /** Where the run of white space that ends just before `end` starts, not going below `low`. */
  function BackSpaces(p: string, end: nat, low: nat): (k: nat)
    requires low <= end <= |p|
    ensures low <= k <= end
    decreases end
  {
    if end > low && IsSpace(p[end - 1]) then BackSpaces(p, end - 1, low) else end
  }

  /** `p.replace(/^\s*"|\s*"$/g, '')`: a quote after leading white space, and a quote at the
    * end with the white space before it, are removed; the second never reaches into the first. */
  function StripSpacedQuotes(p: string): string
  {
    var n := SpaceRun(p, 0);
    var e := if n < |p| && p[n] == '"' then n + 1 else 0;
    if e < |p| && p[|p| - 1] == '"' then p[e..BackSpaces(p, |p| - 1, e)] else p[e..]
  }

  /** `q.replace(/^"|"$/g, '')`. */
  function StripPlainQuotes(q: string): string
  {
    var a := if |q| > 0 && q[0] == '"' then q[1..] else q;
    if |a| > 0 && a[|a| - 1] == '"' then a[..|a| - 1] else a
  }

  /** One entry of an inline array, cleaned. */
  function CleanEntry(p: string): string
  {
    StripPlainQuotes(Trim(StripSpacedQuotes(p)))
  }

  /** Every entry cleaned (`map`). */
  function CleanAll(parts: seq<string>): (r: seq<string>)
    ensures |r| == |parts|
    ensures forall k :: 0 <= k < |r| ==> r[k] == CleanEntry(parts[k])
  {
    seq(|parts|, k requires 0 <= k < |parts| => CleanEntry(parts[k]))
  }

  /** The entries that are not empty, in order (`filter(Boolean)`). */
  function NonEmpty(es: seq<string>): (r: seq<string>)
    ensures forall k :: 0 <= k < |r| ==> r[k] != ""
  {
    if es == [] then []
    else if es[0] == "" then NonEmpty(es[1..])
    else [es[0]] + NonEmpty(es[1..])
  }

  /** The cleaned entries, without the empty ones. */
  function CleanEntries(parts: seq<string>): seq<string>
  {
    NonEmpty(CleanAll(parts))
  }

  /** `parseInlineArray(line)`: the comma-separated entries between the brackets. */
  function ParseInlineArray(line: string): (r: seq<string>)
    ensures BracketFrom(line, 0).None? ==> r == []
    ensures forall k :: 0 <= k < |r| ==> r[k] != ""
  {
    match BracketFrom(line, 0)
    case None => []
    case Some(inner) => CleanEntries(Split(inner, ','))
  }

  // ---------------------------------------------------------------------
  // properties of the inline arrays
  // ---------------------------------------------------------------------

  /** An entry as the rule file writes it. */
  predicate PlainEntry(e: string)
  {
    && e != [] && !IsSpace(e[0]) && !IsSpace(e[|e| - 1])
    && ',' !in e && '"' !in e
    && forall i :: 0 <= i < |e| ==> !IsLineTerminator(e[i])
  }

  function Quoted(es: seq<string>): (r: seq<string>)
    ensures |r| == |es|
    ensures forall k :: 0 <= k < |r| ==> r[k] == "\"" + es[k] + "\""
  {
    if es == [] then [] else ["\"" + es[0] + "\""] + Quoted(es[1..])
  }

  /** Writing plain entries as `key: ["a","b"]` and parsing the line gives the entries back. */
  lemma InlineArrayRoundTrip(key: string, es: seq<string>)
    requires es != []
    requires '[' !in key
    requires forall k :: 0 <= k < |es| ==> PlainEntry(es[k])
    ensures ParseInlineArray(key + "[" + Join(Quoted(es), ",") + "]") == es
  {
    var inner := Join(Quoted(es), ",");
    QuotedNoTerminator(es);
    BracketAfterKey(key, inner);
    SplitQuoted(es);
    CleanQuoted(es);
  }

  lemma QuotedNoTerminator(es: seq<string>)
    requires forall k :: 0 <= k < |es| ==> PlainEntry(es[k])
    ensures forall i :: 0 <= i < |Join(Quoted(es), ",")| ==> !IsLineTerminator(Join(Quoted(es), ",")[i])
  {
    var qs := Quoted(es);
    forall k | 0 <= k < |qs| ensures forall i :: 0 <= i < |qs[k]| ==> !IsLineTerminator(qs[k][i]) {
      var q := qs[k];
      assert q == "\"" + es[k] + "\"";
      forall i | 0 <= i < |q| ensures !IsLineTerminator(q[i]) {
        if 0 < i < |q| - 1 {
          assert q[i] == es[k][i - 1];
        }
      }
    }
    JoinedNoTerminator(qs);
  }

  /** Splitting the joined entries on commas gives the quoted entries back. */
  lemma SplitQuoted(es: seq<string>)
    requires es != []
    requires forall k :: 0 <= k < |es| ==> PlainEntry(es[k])
    ensures Split(Join(Quoted(es), ","), ',') == Quoted(es)
  {
    var qs := Quoted(es);
    forall k | 0 <= k < |qs| ensures ',' !in qs[k] {
      QuotedNoComma(es[k]);
    }
    assert [','] == ",";
    SplitJoin(qs, ',');
  }

  lemma QuotedNoComma(e: string)
    requires ',' !in e
    ensures ',' !in "\"" + e + "\""
  {
  }

  /** A join of quoted plain entries holds no line terminator. */
  lemma {:induction false} JoinedNoTerminator(qs: seq<string>)
    requires forall k :: 0 <= k < |qs| ==> forall i :: 0 <= i < |qs[k]| ==> !IsLineTerminator(qs[k][i])
    ensures forall i :: 0 <= i < |Join(qs, ",")| ==> !IsLineTerminator(Join(qs, ",")[i])
    decreases |qs|
  {
    if |qs| > 1 {
      JoinedNoTerminator(qs[1..]);
      var rest := Join(qs[1..], ",");
      var all := Join(qs, ",");
      assert all == qs[0] + "," + rest;
      forall i | 0 <= i < |all| ensures !IsLineTerminator(all[i]) {
        if i < |qs[0]| {
          assert all[i] == qs[0][i];
        } else if i > |qs[0]| {
          assert all[i] == rest[i - |qs[0]| - 1];
        }
      }
    }
  }

  /** The bracket after a key without `[` captures everything up to the final `]`. */
  lemma BracketAfterKey(key: string, inner: string)
    requires '[' !in key
    requires forall i :: 0 <= i < |inner| ==> !IsLineTerminator(inner[i])
    ensures BracketFrom(key + "[" + inner + "]", 0) == Some(inner)
  {
    var line := key + "[" + inner + "]";
    var from := |key| + 1;
    forall i | from <= i < |line| ensures !IsLineTerminator(line[i]) {
      if i < |line| - 1 {
        assert line[i] == inner[i - from];
      }
    }
    DotRunToEnd(line, from);
    assert LastIn(line, from, |line| - from, ']') == Some(|line| - 1);
    assert line[from..|line| - 1] == inner;
    assert line[|key|] == '[';
    forall i | 0 <= i < |key| ensures line[i] != '[' {
      assert line[i] == key[i];
    }
    BracketSkips(line, 0, |key|);
  }

  /** `.*` reaches the end when no line terminator follows. */
  lemma {:induction false} DotRunToEnd(s: string, from: nat)
    requires from <= |s|
    requires forall i :: from <= i < |s| ==> !IsLineTerminator(s[i])
    ensures DotRun(s, from) == |s| - from
    decreases |s| - from
  {
    if from < |s| {
      DotRunToEnd(s, from + 1);
    }
  }

  /** Positions without `[` are passed over. */
  lemma {:induction false} BracketSkips(s: string, i: nat, j: nat)
    requires i <= j <= |s|
    requires forall k :: i <= k < j ==> s[k] != '['
    ensures BracketFrom(s, i) == BracketFrom(s, j)
    decreases j - i
  {
    if i < j {
      BracketSkips(s, i + 1, j);
    }
  }

  /** Each quoted plain entry cleans back to the entry. */
  lemma CleanQuoted(es: seq<string>)
    requires forall k :: 0 <= k < |es| ==> PlainEntry(es[k])
    ensures CleanEntries(Quoted(es)) == es
  {
    CleanAllQuoted(es);
    NonEmptyKeepsAll(es);
  }

  lemma CleanAllQuoted(es: seq<string>)
    requires forall k :: 0 <= k < |es| ==> PlainEntry(es[k])
    ensures CleanAll(Quoted(es)) == es
  {
    var cleaned := CleanAll(Quoted(es));
    forall k | 0 <= k < |es|
      ensures cleaned[k] == es[k]
    {
      CleanOne(es[k]);
    }
  }

  /** Filtering entries none of which is empty keeps them all. */
  lemma {:induction false} NonEmptyKeepsAll(es: seq<string>)
    requires forall k :: 0 <= k < |es| ==> es[k] != ""
    ensures NonEmpty(es) == es
    decreases |es|
  {
    if es != [] {
      assert forall k :: 0 <= k < |es[1..]| ==> es[1..][k] == es[k + 1];
      NonEmptyKeepsAll(es[1..]);
      HeadTail(es);
    }
  }

  lemma HeadTail<T>(s: seq<T>)
    requires s != []
    ensures [s[0]] + s[1..] == s
  {
  }

  lemma CleanOne(e: string)
    requires PlainEntry(e)
    ensures CleanEntry("\"" + e + "\"") == e
  {
    var p := "\"" + e + "\"";
    assert SpaceRun(p, 0) == 0;
    assert p[|p| - 2] == e[|e| - 1];
    assert BackSpaces(p, |p| - 1, 1) == |p| - 1;
    assert p[1..|p| - 1] == e;
    assert StripSpacedQuotes(p) == e;
    TrimKeepsTrimmed(e);
    assert e[0] != '"' && e[|e| - 1] != '"';
  }

  // ---------------------------------------------------------------------
  // rules, sections and the parsed configuration
  // ---------------------------------------------------------------------

  /** A regular-expression rule's `target`, normalised. */
  datatype Target = ComposeTarget | ReplyTarget | Gen

  /** A rule object. Every kind of rule starts from `NewRule` and gains whatever property
    * lines follow it; the detector reads only the fields its kind uses. */
  datatype Rule = Rule(
    id: string, weight: real, phrases: seq<string>, terms: seq<string>,
    pattern: string, flags: string, target: Target, block: bool)

  function NewRule(id: string): (r: Rule)
    ensures r.id == id && r.weight == 0.0 && r.phrases == [] && r.terms == []
    ensures r.pattern == "" && r.flags == "" && r.target == Gen && !r.block
  {
    Rule(id, 0.0, [], [], "", "", Gen, false)
  }

  datatype Section =
    | NoSection | Triggers | ReplyTriggers | ToMarkers | SubjectMarkers | BodyMarkers | Regexes | Blockers

  datatype Config = Config(
    composeMin: real, replyMin: real,
    triggers: seq<Rule>, replyTriggers: seq<Rule>,
    toMarkers: seq<Rule>, subjectMarkers: seq<Rule>, bodyMarkers: seq<Rule>,
    regexes: seq<Rule>, blockers: seq<Rule>)
  {
    /** The list a section's rules are pushed onto. */
    function RulesOf(sec: Section): seq<Rule>
      requires sec != NoSection
    {
      match sec
      case Triggers => triggers
      case ReplyTriggers => replyTriggers
      case ToMarkers => toMarkers
      case SubjectMarkers => subjectMarkers
      case BodyMarkers => bodyMarkers
      case Regexes => regexes
      case Blockers => blockers
    }

    /** The configuration with a section's list replaced and every other part kept. */
    function WithRules(sec: Section, rs: seq<Rule>): (c: Config)
      requires sec != NoSection
      ensures c.RulesOf(sec) == rs
      ensures forall t :: t != NoSection && t != sec ==> c.RulesOf(t) == RulesOf(t)
      ensures c.composeMin == composeMin && c.replyMin == replyMin
    {
      match sec
      case Triggers => this.(triggers := rs)
      case ReplyTriggers => this.(replyTriggers := rs)
      case ToMarkers => this.(toMarkers := rs)
      case SubjectMarkers => this.(subjectMarkers := rs)
      case BodyMarkers => this.(bodyMarkers := rs)
      case Regexes => this.(regexes := rs)
      case Blockers => this.(blockers := rs)
    }
  }

  /** The thresholds start at 2.0 and every list empty. */
  const Initial: Config := Config(2.0, 2.0, [], [], [], [], [], [], [])

  /** `section`, whether `cur` is set, and the lists built so far. The rule `cur` refers to
    * is always the last one of the current section's list. */
  datatype ParseState = ParseState(section: Section, hasCur: bool, cfg: Config)

  predicate Good(st: ParseState)
  {
    st.hasCur ==> st.section != NoSection && |st.cfg.RulesOf(st.section)| > 0
  }

  const Start: ParseState := ParseState(NoSection, false, Initial)

  /** The section an exact header line opens (`markers:` closes the current one). */
  function HeaderSection(line: string): Option<Section>
  {
    if line == "triggers:" then Some(Triggers)
    else if line == "reply_triggers:" then Some(ReplyTriggers)
    else if line == "regexes:" then Some(Regexes)
    else if line == "blockers:" then Some(Blockers)
    else if line == "markers:" then Some(NoSection)
    else if line == "to_markers:" then Some(ToMarkers)
    else if line == "subject_markers:" then Some(SubjectMarkers)
    else if line == "body_markers:" then Some(BodyMarkers)
    else None
  }

  /** `line.split(':')[1]` for a line holding a colon. */
  function Field1(line: string): string
    requires ':' in line
  {
    var parts := Split(line, ':');
    assert |parts| >= 2;
    parts[1]
  }

  /** `n` when it is a number, else the value kept. */
  function IfNumber(kept: real, n: JsNum): (r: real)
    ensures n.Finite? ==> r == n.v
    ensures !n.Finite? ==> r == kept
  {
    if n.Finite? then n.v else kept
  }

  /** `target:`'s word lower-cased; anything but `compose` or `reply` is `gen`. */
  function NormalizeTarget(word: string): (t: Target)
    ensures t == ComposeTarget <==> Lower(word) == "compose"
    ensures t == ReplyTarget <==> Lower(word) == "reply"
  {
    var w := Lower(word);
    if w == "compose" then ComposeTarget else if w == "reply" then ReplyTarget else Gen
  }

  /** The property lines, by their key. */
  datatype Property = Weight | Phrases | Terms | Pattern | Flags | TargetKey | Block

  function PropertyOf(line: string): (p: Option<Property>)
    ensures p == Some(Weight) || p == Some(Block) ==> ':' in line
  {
    if StartsWith(line, "weight:") then
      assert line[6] == ':';
      Some(Weight)
    else if StartsWith(line, "phrases:") then Some(Phrases)
    else if StartsWith(line, "terms:") then Some(Terms)
    else if StartsWith(line, "pattern:") then Some(Pattern)
    else if StartsWith(line, "flags:") then Some(Flags)
    else if StartsWith(line, "target:") then Some(TargetKey)
    else if StartsWith(line, "block:") then
      assert line[5] == ':';
      Some(Block)
    else None
  }

  /** What a property line sets on the current rule. */
  datatype Change =
    | SetWeight(n: JsNum) | SetPhrases(phrases: seq<string>) | SetTerms(terms: seq<string>)
    | SetPattern(pattern: string) | SetFlags(flags: string) | SetTarget(target: Target) | SetBlock(block: bool)

  /** The change a line makes to the current rule, if it is a property line. A missing
    * `pattern`, `flags` or `target` match gives the empty text. */
  function ChangeOf(line: string): Option<Change>
  {
    match PropertyOf(line)
    case None => None
    case Some(Weight) => Some(SetWeight(Number(Field1(line))))
    case Some(Phrases) => Some(SetPhrases(ParseInlineArray(line)))
    case Some(Terms) => Some(SetTerms(ParseInlineArray(line)))
    case Some(Pattern) => Some(SetPattern(QuotedFrom(line, "pattern:", 0).UnwrapOr("")))
    case Some(Flags) => Some(SetFlags(QuotedFrom(line, "flags:", 0).UnwrapOr("")))
    case Some(TargetKey) => Some(SetTarget(NormalizeTarget(WordFrom(line, "target:", 0).UnwrapOr(""))))
    case Some(Block) => Some(SetBlock(Contains(Lower(Field1(line)), "true")))
  }

  /** The rule with one property set; a weight that is not a number leaves the weight. */
  function Changed(r: Rule, c: Change): (r': Rule)
    ensures r'.id == r.id
  {
    match c
    case SetWeight(n) => r.(weight := IfNumber(r.weight, n))
    case SetPhrases(ps) => r.(phrases := ps)
    case SetTerms(ts) => r.(terms := ts)
    case SetPattern(pt) => r.(pattern := pt)
    case SetFlags(f) => r.(flags := f)
    case SetTarget(t) => r.(target := t)
    case SetBlock(bl) => r.(block := bl)
  }

  /** The kinds of trimmed line, tested in the parser's order. */
  datatype LineKind = Skipped | ComposeMinLine | ReplyMinLine | HeaderLine(sec: Section) | RuleIdLine | OtherLine

  function Classify(line: string): (k: LineKind)
    ensures k == ComposeMinLine || k == ReplyMinLine || k == RuleIdLine ==> ':' in line
  {
    if StartsWith(line, "#") || |line| == 0 then Skipped
    else if StartsWith(line, "compose_min_score:") then
      assert line[17] == ':';
      ComposeMinLine
    else if StartsWith(line, "reply_min_score:") then
      assert line[15] == ':';
      ReplyMinLine
    else if HeaderSection(line).Some? then HeaderLine(HeaderSection(line).value)
    else if StartsWith(line, "- rule_id:") then
      assert line[9] == ':';
      RuleIdLine
    else OtherLine
  }

  /** What a trimmed line asks of the parser. A `- rule_id:` line carries the change it
    * would make as a property line, for the case where no section is open. */
  datatype Action =
    | Skip | SetComposeMin(n: JsNum) | SetReplyMin(n: JsNum) | Open(sec: Section)
    | StartRule(id: string, fallthrough: Option<Change>) | ChangeCur(change: Option<Change>)

  /** The tests the parser makes on a trimmed line, in its order. */
  function ActionOf(line: string): (a: Action)
    ensures a.SetComposeMin? <==> Classify(line) == ComposeMinLine
    ensures a.SetReplyMin? <==> Classify(line) == ReplyMinLine
  {
    match Classify(line)
    case Skipped => Skip
    case ComposeMinLine => SetComposeMin(Number(Field1(line)))
    case ReplyMinLine => SetReplyMin(Number(Field1(line)))
    case HeaderLine(sec) => Open(sec)
    case RuleIdLine => StartRule(Trim(Field1(line)), ChangeOf(line))
    case OtherLine => ChangeCur(ChangeOf(line))
  }

  /** `if (cur) { ... }`: a property line changes the current rule, the last of its list. */
  function AtCur(st: ParseState, c: Option<Change>): (r: ParseState)
    requires Good(st)
    ensures Good(r) && r.section == st.section && r.hasCur == st.hasCur
  {
    if st.hasCur && c.Some? then
      var rs := st.cfg.RulesOf(st.section);
      st.(cfg := st.cfg.WithRules(st.section, rs[..|rs| - 1] + [Changed(rs[|rs| - 1], c.value)]))
    else st
  }

  /** What an action does to the parser's state. A `- rule_id:` line outside a section falls
    * through to the property lines. A number that is NaN leaves a threshold as it was. */
  function Apply(st: ParseState, a: Action): (r: ParseState)
    requires Good(st)
    ensures Good(r)
  {
    match a
    case Skip => st
    case SetComposeMin(n) => st.(cfg := st.cfg.(composeMin := IfNumber(st.cfg.composeMin, n)))
    case SetReplyMin(n) => st.(cfg := st.cfg.(replyMin := IfNumber(st.cfg.replyMin, n)))
    case Open(sec) => ParseState(sec, false, st.cfg)
    case StartRule(id, fallthrough) =>
      if st.section != NoSection then
        ParseState(st.section, true, st.cfg.WithRules(st.section, st.cfg.RulesOf(st.section) + [NewRule(id)]))
      else AtCur(st, fallthrough)
    case ChangeCur(c) => AtCur(st, c)
  }

  /** What one trimmed line of the file does to the parser's state. */
  function Step(st: ParseState, line: string): (r: ParseState)
    requires Good(st)
  {
    Apply(st, ActionOf(line))
  }

  /** The state after the lines, in order. */
  function Parsed(lines: seq<string>): (r: ParseState)
    ensures Good(r)
  {
    if lines == [] then Start
    else
      Step(Parsed(lines[..|lines| - 1]), lines[|lines| - 1])
  }

  /** `text.split(/\r?\n/)`, each line then trimmed: the `\r` before a newline is white space
    * that the trim removes, so splitting on `\n` alone gives the same trimmed lines. */
  function Lines(text: string): (lines: seq<string>)
    ensures |lines| == |Split(text, '\n')|
    ensures forall i :: 0 <= i < |lines| ==> lines[i] == Trim(Split(text, '\n')[i])
  {
    var raws := Split(text, '\n');
    seq(|raws|, i requires 0 <= i < |raws| => Trim(raws[i]))
  }

  /** What `parseComposeYaml(text)` returns. */
  function ParsedConfig(text: string): Config
  {
    Parsed(Lines(text)).cfg
  }

  /** `parseComposeYaml(text)`: one pass over the lines with the section, `cur` and the
    * lists as local state. */
  method ParseComposeYaml(text: string) returns (cfg: Config)
    ensures cfg == ParsedConfig(text)
  {
    var raws := Split(text, '\n');
    ghost var lines := Lines(text);
    var section := NoSection;
    var hasCur := false;
    cfg := Initial;
    for i := 0 to |raws|
      invariant ParseState(section, hasCur, cfg) == Parsed(lines[..i])
    {
      var line := Trim(raws[i]);
      ParsedSnoc(lines, i);
      section, hasCur, cfg := Perform(section, hasCur, cfg, ActionOf(line));
    }
    assert lines[..|lines|] == lines;
  }

  lemma ParsedSnoc(lines: seq<string>, i: nat)
    requires i < |lines|
    ensures Parsed(lines[..i + 1]) == Step(Parsed(lines[..i]), lines[i])
  {
    assert lines[..i + 1][..i] == lines[..i];
  }

  /** The body of the loop, once the line's tests have picked its action. */
  method Perform(section: Section, hasCur: bool, cfg: Config, a: Action)
    returns (section': Section, hasCur': bool, cfg': Config)
    requires Good(ParseState(section, hasCur, cfg))
    ensures ParseState(section', hasCur', cfg') == Apply(ParseState(section, hasCur, cfg), a)
  {
    section', hasCur', cfg' := section, hasCur, cfg;
    match a
    case Skip =>
    case SetComposeMin(n) =>
      if n.Finite? {
        cfg' := cfg.(composeMin := n.v);
      }
    case SetReplyMin(n) =>
      if n.Finite? {
        cfg' := cfg.(replyMin := n.v);
      }
    case Open(sec) =>
      section' := sec;
      hasCur' := false;
    case StartRule(id, fallthrough) =>
      if section != NoSection {
        cfg' := cfg.WithRules(section, cfg.RulesOf(section) + [NewRule(id)]);
        hasCur' := true;
      } else {
        cfg' := SetOnCur(ParseState(section, hasCur, cfg), fallthrough);
      }
    case ChangeCur(c) =>
      cfg' := SetOnCur(ParseState(section, hasCur, cfg), c);
  }

  /** The property a line sets on the rule `cur` refers to, with the lists that hold it. */
  method SetOnCur(st: ParseState, c: Option<Change>) returns (cfg: Config)
    requires Good(st)
    ensures cfg == AtCur(st, c).cfg
  {
    cfg := st.cfg;
    if !st.hasCur || c.None? {
      return;
    }
    var rs := cfg.RulesOf(st.section);
    // `cur` is the object the list holds, so the change shows in the list
    cfg := cfg.WithRules(st.section, rs[..|rs| - 1] + [Changed(rs[|rs| - 1], c.value)]);
  }

  // ---------------------------------------------------------------------
  // properties of the parser
  // ---------------------------------------------------------------------


  /** Blank lines and comments change nothing. */
  lemma SkippedLines(st: ParseState, line: string)
    requires Good(st)
    requires line == [] || StartsWith(line, "#")
    ensures Step(st, line) == st
  {
    assert Classify(line) == Skipped;
  }

  /** A header line opens its section, clears `cur` and keeps every list. */
  lemma HeaderLines(st: ParseState, line: string, sec: Section)
    requires Good(st)
    requires HeaderSection(line) == Some(sec)
    ensures Step(st, line) == ParseState(sec, false, st.cfg)
  {
    ClassifyHeader(line, sec);
  }

  lemma ClassifyHeader(line: string, sec: Section)
    requires HeaderSection(line) == Some(sec)
    ensures Classify(line) == HeaderLine(sec)
  {
    assert |line| > 0 && line[0] != '#';
    assert line[0] != 'c' && line[0] != 'r' ==> !StartsWith(line, "compose_min_score:") && !StartsWith(line, "reply_min_score:");
    assert line == "reply_triggers:" || line == "regexes:" || line[0] != 'r';
  }

  /** The field after the first colon, when no second colon follows. */
  lemma FieldAfterColon(line: string, i: nat)
    requires i < |line| && line[i] == ':'
    requires forall j :: 0 <= j < i ==> line[j] != ':'
    requires ':' !in line[i + 1..]
    ensures ':' in line && Field1(line) == line[i + 1..]
  {
    assert ':' !in line[..i];
    assert IndexOfChar(line, ':') == Some(i);
    assert Split(line[i + 1..], ':') == [line[i + 1..]];
  }

  /** The field of `<key>: <v>`, for a key with its colon at index `i`, is ` <v>`. */
  lemma FieldOfKey(key: string, v: string)
    requires |key| > 0 && key[|key| - 1] == ':' && ':' !in key[..|key| - 1] && ':' !in v
    ensures ':' in key + " " + v && Field1(key + " " + v) == " " + v
  {
    var line := key + " " + v;
    var i := |key| - 1;
    assert line[i] == ':';
    assert forall j :: 0 <= j < i ==> line[j] == key[..|key| - 1][j];
    assert line[i + 1..] == " " + v;
    FieldAfterColon(line, i);
  }

  /** A space and a number written in decimal read back as the number. */
  lemma NumberAfterSpace(n: nat)
    ensures Number(" " + NatToString(n)) == Finite(n as real)
  {
    var d := NatToString(n);
    var s := " " + d;
    assert !IsSpace(d[0]) && !IsSpace(d[|d| - 1]);
    assert TrimStart(s) == TrimStart(d) by {
      assert s[1..] == d;
    }
    TrimKeepsTrimmed(d);
    assert Trim(s) == d;
    NumberIgnoresTrim(s);
    NumberOfNatText(n);
  }

  lemma DigitsHaveNoColon(d: string)
    requires AllDigits(d)
    ensures ':' !in d
  {
    assert forall i :: 0 <= i < |d| ==> IsDigit(d[i]);
  }

  /** `compose_min_score: <n>` sets the compose threshold to `n` and keeps everything else. */
  lemma ComposeMinLineSets(st: ParseState, n: nat)
    requires Good(st)
    ensures Step(st, "compose_min_score: " + NatToString(n)) == st.(cfg := st.cfg.(composeMin := n as real))
  {
    var d := NatToString(n);
    var line := "compose_min_score: " + d;
    DigitsHaveNoColon(d);
    assert line == "compose_min_score:" + " " + d;
    FieldOfKey("compose_min_score:", d);
    ClassifyComposeMin(d);
    NumberAfterSpace(n);
    StepOnComposeMin(st, line);
  }

  lemma ClassifyComposeMin(d: string)
    ensures Classify("compose_min_score: " + d) == ComposeMinLine
  {
    var line := "compose_min_score: " + d;
    assert line[..18] == "compose_min_score:";
    assert line[0] == 'c';
  }

  lemma StepOnComposeMin(st: ParseState, line: string)
    requires Good(st) && Classify(line) == ComposeMinLine
    ensures Step(st, line) == st.(cfg := st.cfg.(composeMin := IfNumber(st.cfg.composeMin, Number(Field1(line)))))
  {
  }

  /** `reply_min_score: <n>` sets the reply threshold to `n` and keeps everything else. */
  lemma ReplyMinLineSets(st: ParseState, n: nat)
    requires Good(st)
    ensures Step(st, "reply_min_score: " + NatToString(n)) == st.(cfg := st.cfg.(replyMin := n as real))
  {
    var d := NatToString(n);
    var line := "reply_min_score: " + d;
    DigitsHaveNoColon(d);
    assert line == "reply_min_score:" + " " + d;
    FieldOfKey("reply_min_score:", d);
    ClassifyReplyMin(d);
    NumberAfterSpace(n);
    StepOnReplyMin(st, line);
  }

  lemma ClassifyReplyMin(d: string)
    ensures Classify("reply_min_score: " + d) == ReplyMinLine
  {
    var line := "reply_min_score: " + d;
    assert line[..16] == "reply_min_score:";
    assert line[0] == 'r' && line[1] == 'e' && line[2] == 'p';
  }

  lemma StepOnReplyMin(st: ParseState, line: string)
    requires Good(st) && Classify(line) == ReplyMinLine
    ensures Step(st, line) == st.(cfg := st.cfg.(replyMin := IfNumber(st.cfg.replyMin, Number(Field1(line)))))
  {
  }

  /** A threshold value that is not a number leaves the threshold as it was. */
  lemma NonNumericMinIgnored(st: ParseState, line: string)
    requires Good(st)
    requires Classify(line) == ComposeMinLine || Classify(line) == ReplyMinLine
    requires Number(Field1(line)).NaN?
    ensures Step(st, line) == st
  {
  }

  /** Only a threshold line changes a threshold. */
  lemma StepKeepsThresholds(st: ParseState, line: string)
    requires Good(st)
    ensures Classify(line) != ComposeMinLine ==> Step(st, line).cfg.composeMin == st.cfg.composeMin
    ensures Classify(line) != ReplyMinLine ==> Step(st, line).cfg.replyMin == st.cfg.replyMin
  {
    ApplyKeepsThresholds(st, ActionOf(line));
  }

  lemma ApplyKeepsThresholds(st: ParseState, a: Action)
    requires Good(st)
    ensures !a.SetComposeMin? ==> Apply(st, a).cfg.composeMin == st.cfg.composeMin
    ensures !a.SetReplyMin? ==> Apply(st, a).cfg.replyMin == st.cfg.replyMin
  {
  }

  predicate NoComposeMinLine(lines: seq<string>)
  {
    forall k :: 0 <= k < |lines| ==> Classify(lines[k]) != ComposeMinLine
  }

  /** Without a `compose_min_score:` line the compose threshold stays at its default 2.0. */
  lemma {:induction false} ComposeMinDefault(lines: seq<string>)
    requires NoComposeMinLine(lines)
    ensures Parsed(lines).cfg.composeMin == 2.0
    decreases |lines|
  {
    if lines != [] {
      var init := lines[..|lines| - 1];
      assert NoComposeMinLine(init) by {
        forall k | 0 <= k < |init| ensures Classify(init[k]) != ComposeMinLine {
          assert init[k] == lines[k];
        }
      }
      ComposeMinDefault(init);
      assert Classify(lines[|lines| - 1]) != ComposeMinLine;
      StepKeepsThresholds(Parsed(init), lines[|lines| - 1]);
    }
  }

  /** A `- rule_id: <id>` line inside a section appends a fresh rule with the trimmed id to
    * the section's list, makes it the current rule, and keeps every other list. */
  lemma RuleIdLineAppends(st: ParseState, id: string)
    requires Good(st) && st.section != NoSection && ':' !in id
    ensures var r := Step(st, "- rule_id: " + id);
            && r.section == st.section && r.hasCur
            && r.cfg.RulesOf(st.section) == st.cfg.RulesOf(st.section) + [NewRule(Trim(id))]
            && (forall t :: t != NoSection && t != st.section ==> r.cfg.RulesOf(t) == st.cfg.RulesOf(t))
            && r.cfg.composeMin == st.cfg.composeMin && r.cfg.replyMin == st.cfg.replyMin
  {
    var line := "- rule_id: " + id;
    assert line == "- rule_id:" + " " + id;
    FieldOfKey("- rule_id:", id);
    TrimAfterSpace(id);
    ClassifyRuleId(id);
    StepOnRuleId(st, line);
  }

  lemma TrimAfterSpace(s: string)
    ensures Trim(" " + s) == Trim(s)
  {
    assert (" " + s)[1..] == s;
    assert TrimStart(" " + s) == TrimStart(s);
  }

  lemma ClassifyRuleId(id: string)
    ensures Classify("- rule_id: " + id) == RuleIdLine
  {
    var line := "- rule_id: " + id;
    assert line[..10] == "- rule_id:";
    assert line[0] == '-';
  }

  lemma StepOnRuleId(st: ParseState, line: string)
    requires Good(st) && st.section != NoSection && Classify(line) == RuleIdLine
    ensures Step(st, line) == ParseState(st.section, true,
      st.cfg.WithRules(st.section, st.cfg.RulesOf(st.section) + [NewRule(Trim(Field1(line)))]))
  {
  }

  /** A property line changes only the current rule, the last of the current section's
    * list, and keeps its id; every other rule and list is kept. */
  lemma ChangeTouchesOnlyCurrent(st: ParseState, c: Option<Change>)
    requires Good(st) && st.hasCur
    ensures var rs := st.cfg.RulesOf(st.section);
            var r := Apply(st, ChangeCur(c));
            && |r.cfg.RulesOf(st.section)| == |rs|
            && r.cfg.RulesOf(st.section)[..|rs| - 1] == rs[..|rs| - 1]
            && r.cfg.RulesOf(st.section)[|rs| - 1].id == rs[|rs| - 1].id
            && (forall t :: t != NoSection && t != st.section ==> r.cfg.RulesOf(t) == st.cfg.RulesOf(t))
            && r.cfg.composeMin == st.cfg.composeMin && r.cfg.replyMin == st.cfg.replyMin
  {
    var rs := st.cfg.RulesOf(st.section);
    if c.Some? {
      var rs' := rs[..|rs| - 1] + [Changed(rs[|rs| - 1], c.value)];
      assert rs'[..|rs| - 1] == rs[..|rs| - 1];
    }
  }

  /** The rules of `before` are still in `after`, at the same places and with the same ids. */
  predicate IdsKept(before: Config, after: Config)
  {
    forall t :: t != NoSection ==> ListIdsKept(before.RulesOf(t), after.RulesOf(t))
  }

  /** `after` starts with rules having the ids of `before`'s, in order. */
  predicate ListIdsKept(before: seq<Rule>, after: seq<Rule>)
  {
    |before| <= |after| && forall k :: 0 <= k < |before| ==> after[k].id == before[k].id
  }

  lemma IdsKeptTransitive(a: Config, b: Config, c: Config)
    requires IdsKept(a, b) && IdsKept(b, c)
    ensures IdsKept(a, c)
  {
    forall t | t != NoSection ensures ListIdsKept(a.RulesOf(t), c.RulesOf(t)) {
      assert ListIdsKept(a.RulesOf(t), b.RulesOf(t)) && ListIdsKept(b.RulesOf(t), c.RulesOf(t));
    }
  }

  /** No line removes a rule or changes the id of one. */
  lemma ApplyKeepsIds(st: ParseState, a: Action)
    requires Good(st)
    ensures IdsKept(st.cfg, Apply(st, a).cfg)
  {
    match a
    case StartRule(id, fallthrough) =>
      if st.section != NoSection {
        var rs := st.cfg.RulesOf(st.section);
        ListChanged(st.cfg, st.section, rs + [NewRule(id)]);
      } else {
        AtCurKeepsIds(st, fallthrough);
      }
    case ChangeCur(c) =>
      AtCurKeepsIds(st, c);
    case _ =>
      SameRulesKeepIds(st.cfg, Apply(st, a).cfg);
  }

  lemma SameRulesKeepIds(a: Config, b: Config)
    requires forall t :: t != NoSection ==> a.RulesOf(t) == b.RulesOf(t)
    ensures IdsKept(a, b)
  {
    forall t | t != NoSection ensures ListIdsKept(a.RulesOf(t), b.RulesOf(t)) {
      assert a.RulesOf(t) == b.RulesOf(t);
    }
  }

  /** Replacing one list by one that keeps its ids keeps every id. */
  lemma ListChanged(c: Config, sec: Section, rs: seq<Rule>)
    requires sec != NoSection && ListIdsKept(c.RulesOf(sec), rs)
    ensures IdsKept(c, c.WithRules(sec, rs))
  {
    var d := c.WithRules(sec, rs);
    forall t | t != NoSection ensures ListIdsKept(c.RulesOf(t), d.RulesOf(t)) {
      if t != sec {
        assert d.RulesOf(t) == c.RulesOf(t);
      }
    }
  }

  lemma AtCurKeepsIds(st: ParseState, c: Option<Change>)
    requires Good(st)
    ensures IdsKept(st.cfg, AtCur(st, c).cfg)
  {
    if st.hasCur && c.Some? {
      var rs := st.cfg.RulesOf(st.section);
      var rs' := rs[..|rs| - 1] + [Changed(rs[|rs| - 1], c.value)];
      assert forall k :: 0 <= k < |rs| - 1 ==> rs'[k] == rs[k];
      ListChanged(st.cfg, st.section, rs');
    } else {
      SameRulesKeepIds(st.cfg, st.cfg);
    }
  }

  /** Reading more lines never loses a rule that earlier lines defined: the lists only grow,
    * and every rule keeps its place and its id. */
  lemma {:induction false} ParsedKeepsIds(lines: seq<string>, i: nat)
    requires i <= |lines|
    ensures IdsKept(Parsed(lines[..i]).cfg, Parsed(lines).cfg)
    decreases |lines| - i
  {
    if i == |lines| {
      assert lines[..i] == lines;
    } else {
      ParsedSnoc(lines, i);
      ApplyKeepsIds(Parsed(lines[..i]), ActionOf(lines[i]));
      ParsedKeepsIds(lines, i + 1);
      IdsKeptTransitive(Parsed(lines[..i]).cfg, Parsed(lines[..i + 1]).cfg, Parsed(lines).cfg);
    }
  }

  /** `weight: <n>` under a rule sets that rule's weight to `n`. */
  lemma WeightLineSets(st: ParseState, n: nat)
    requires Good(st) && st.hasCur
    ensures var rs := st.cfg.RulesOf(st.section);
            Step(st, "weight: " + NatToString(n))
              == st.(cfg := st.cfg.WithRules(st.section, rs[..|rs| - 1] + [rs[|rs| - 1].(weight := n as real)]))
  {
    ActionOfWeight(n);
  }

  lemma ActionOfWeight(n: nat)
    ensures ActionOf("weight: " + NatToString(n)) == ChangeCur(Some(SetWeight(Finite(n as real))))
  {
    ClassifyWeight(NatToString(n));
    ChangeOfWeight(n);
  }

  lemma ChangeOfWeight(n: nat)
    ensures ChangeOf("weight: " + NatToString(n)) == Some(SetWeight(Finite(n as real)))
  {
    var d := NatToString(n);
    var line := "weight: " + d;
    DigitsHaveNoColon(d);
    assert line == "weight:" + " " + d;
    FieldOfKey("weight:", d);
    NumberAfterSpace(n);
    PropertyOfWeight(d);
  }

  lemma PropertyOfWeight(d: string)
    ensures PropertyOf("weight: " + d) == Some(Weight)
  {
    assert ("weight: " + d)[..7] == "weight:";
  }

  lemma ClassifyWeight(d: string)
    ensures Classify("weight: " + d) == OtherLine
  {
    var line := "weight: " + d;
    assert line[0] == 'w';
    assert HeaderSection(line) == None;
  }

  /** A file that cannot be read is read as empty text, which leaves every default. */
  lemma EmptyFileDefaults()
    ensures ParsedConfig("") == Initial
  {
    assert Split("", '\n') == [""];
    assert Lines("") == [""];
    assert Lines("")[..0] == [];
    assert Classify("") == Skipped;
  }
}
