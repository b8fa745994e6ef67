/**
 * Recognising a mail list in the assistant's answer and keeping it for numbered
 * replies (services/emailDetectionService.ts): code fences are stripped, the list
 * patterns are tried in order, a JSON block is the fallback, and a list of at least
 * two mails is written to the list cache under its Gmail list key.
 *
 * The list patterns live in a file that is not part of this model: `parsePattern(k, t)`
 * stands for the mails parsed from every match of the k-th pattern on `t` (empty when the
 * pattern does not match), and `parseJson` for `JSON.parse` (None when it throws).
 */
module EmailDetection {
  import opened Wrappers
  import opened Strings
  import opened Seqs
  import opened EmailTypes
  import opened ListCache
  import opened CacheKey
  import NumberedReply
  import OpenEmail

  // ---------------------------------------------------------------------
  // fenced blocks
  // ---------------------------------------------------------------------

  const Ticks := "```"

  /** The three opening lines the service looks for: ```` ```<letters or digits> ````, a
    * ```` ```json ```` line in any letter case, and a bare ```` ``` ```` line. */
  datatype FenceKind = AnyLang | JsonLang | BareFence

  /** A fenced block: where its opener starts, where its content starts and where the
    * closing backquotes start. */
  datatype Fence = Fence(start: nat, contentStart: nat, close: nat)

  /** Three backquotes start at `p`. */
  predicate TicksAt(s: string, p: nat)
  {
    p + 3 <= |s| && s[p] == '`' && s[p + 1] == '`' && s[p + 2] == '`'
  }

  /** `s.indexOf('```', c)`: the first three backquotes at or after `c`. */
  function NextTicks(s: string, c: nat): (e: Option<nat>)
    ensures e.Some? ==> c <= e.value && TicksAt(s, e.value)
    decreases |s| - c
  {
    if c + 3 > |s| then None
    else if TicksAt(s, c) then Some(c)
    else NextTicks(s, c + 1)
  }

  predicate IsAlnum(c: char)
  {
    IsAsciiLetter(c) || IsDigit(c)
  }

  /** The end of the run of ASCII letters and digits from `i`: `[a-zA-Z0-9]*`. */
  function AlnumRunEnd(s: string, i: nat): (j: nat)
    requires i <= |s|
    ensures i <= j <= |s|
    decreases |s| - i
  {
    if i < |s| && IsAlnum(s[i]) then AlnumRunEnd(s, i + 1) else i
  }

  /** `c` matches the lower-case ASCII letter `lower` under the `i` flag. */
  predicate SameLetter(c: char, lower: char)
  {
    c == lower || c as int == lower as int - 32
  }

  /** The four letters `json` in any letter case. */
  predicate IsJsonTag(tag: string)
  {
    |tag| == 4 && SameLetter(tag[0], 'j') && SameLetter(tag[1], 's')
    && SameLetter(tag[2], 'o') && SameLetter(tag[3], 'n')
  }

  /** The four letters `json`, in any letter case, start at `i`. */
  predicate JsonTagAt(s: string, i: nat)
  {
    i + 4 <= |s| && SameLetter(s[i], 'j') && SameLetter(s[i + 1], 's')
    && SameLetter(s[i + 2], 'o') && SameLetter(s[i + 3], 'n')
  }

  /** Where the content begins when an opening line of the given kind starts at `p`: the
    * position after its line break. */
  function OpenerEnd(s: string, p: nat, kind: FenceKind): (c: Option<nat>)
    ensures c.Some? ==> TicksAt(s, p) && p + 4 <= c.value <= |s| && s[c.value - 1] == '\n'
    ensures c.Some? && kind == JsonLang ==> c.value == p + 8 && JsonTagAt(s, p + 3)
    ensures c.Some? && kind == BareFence ==> c.value == p + 4
  {
    if !TicksAt(s, p) then None
    else match kind
      case AnyLang =>
        var j := AlnumRunEnd(s, p + 3);
        if j < |s| && s[j] == '\n' then Some(j + 1) else None
      case JsonLang =>
        if p + 8 <= |s| && JsonTagAt(s, p + 3) && s[p + 7] == '\n' then Some(p + 8) else None
      case BareFence =>
        if p + 4 <= |s| && s[p + 3] == '\n' then Some(p + 4) else None
  }

  /** The fenced block that starts at `p`: the opening line, then the shortest content up to
    * the next three backquotes (`([\s\S]*?)```). */
  function FenceAt(s: string, p: nat, kind: FenceKind): (f: Option<Fence>)
    ensures f.Some? ==> TicksAt(s, p) && f.value.start == p
    ensures f.Some? ==> p + 4 <= f.value.contentStart <= f.value.close && TicksAt(s, f.value.close)
  {
    match OpenerEnd(s, p, kind)
    case None => None
    case Some(c) =>
      match NextTicks(s, c)
      case None => None
      case Some(e) => Some(Fence(p, c, e))
  }

  /** `s.match(re)` for a fence pattern, searching from `p`: the leftmost position where a
    * fenced block starts. */
  function FirstFence(s: string, kind: FenceKind, p: nat): (f: Option<Fence>)
    ensures f.None? ==> forall i :: p <= i ==> FenceAt(s, i, kind).None?
    ensures f.Some? ==> p <= f.value.start && FenceAt(s, f.value.start, kind) == f
    ensures f.Some? ==> forall i :: p <= i < f.value.start ==> FenceAt(s, i, kind).None?
    decreases |s| - p
  {
    if p >= |s| then
      assert forall i :: p <= i ==> !TicksAt(s, i);
      None
    else if FenceAt(s, p, kind).Some? then FenceAt(s, p, kind)
    else FirstFence(s, kind, p + 1)
  }

  /** `s.replace(/```[a-zA-Z0-9]*\n([\s\S]*?)```/g, '$1')`, scanning from `p`: a fenced
    * block starting at `p` is replaced by its content and the scan resumes after its closing
    * backquotes; any other character is kept. */
  function StripFrom(s: string, p: nat): string
    requires p <= |s|
    decreases |s| - p, 1
  {
    if p == |s| then []
    else
      var f := FenceAt(s, p, AnyLang);
      if f.Some? then CopyThenStrip(s, f.value.contentStart, f.value.close)
      else [s[p]] + StripFrom(s, p + 1)
  }

  /** The content of a fenced block from `i` up to its closing backquotes at `e`, followed
    * by the rest of the scan. */
  function CopyThenStrip(s: string, i: nat, e: nat): string
    requires i <= e && e + 3 <= |s|
    decreases |s| - i, 0
  {
    if i == e then StripFrom(s, e + 3) else [s[i]] + CopyThenStrip(s, i + 1, e)
  }

  /** `stripCodeFences`: every fenced block, scanning from the left, is replaced by its
    * content. */
  function StripCodeFences(s: string): string
  {
    StripFrom(s, 0)
  }

  /** Stripping never lengthens the text: a fenced block loses at least its seven
    * backquotes and line break. */
  lemma {:induction false} StripNoLonger(s: string, p: nat)
    requires p <= |s|
    ensures |StripFrom(s, p)| <= |s| - p
    decreases |s| - p, 1
  {
    if p < |s| {
      var f := FenceAt(s, p, AnyLang);
      if f.Some? {
        CopyNoLonger(s, f.value.contentStart, f.value.close);
      } else {
        StripNoLonger(s, p + 1);
      }
    }
  }

  lemma {:induction false} CopyNoLonger(s: string, i: nat, e: nat)
    requires i <= e && e + 3 <= |s|
    ensures |CopyThenStrip(s, i, e)| <= |s| - i - 3
    decreases |s| - i, 0
  {
    if i == e {
      StripNoLonger(s, e + 3);
    } else {
      CopyNoLonger(s, i + 1, e);
    }
  }

  /** A character other than a backquote is copied by the scan. */
  lemma StripPlainStep(s: string, p: nat)
    requires p < |s| && s[p] != '`'
    ensures StripFrom(s, p) == [s[p]] + StripFrom(s, p + 1)
  {
    assert !TicksAt(s, p);
  }

  lemma PrependSlice(s: string, p: nat, q: nat, rest: string, tail: string)
    requires p < q <= |s| && tail == s[p + 1..q] + rest
    ensures [s[p]] + tail == s[p..q] + rest
  {
    assert s[p..q] == [s[p]] + s[p + 1..q];
  }

  /** Stretches without backquotes come through stripping unchanged. */
  lemma {:induction false} PlainStretchKept(s: string, p: nat, q: nat)
    requires p <= q <= |s|
    requires forall k :: p <= k < q ==> s[k] != '`'
    ensures StripFrom(s, p) == s[p..q] + StripFrom(s, q)
    decreases q - p
  {
    if p == q {
      assert s[p..q] == [];
    } else {
      StripPlainStep(s, p);
      PlainStretchKept(s, p + 1, q);
      PrependSlice(s, p, q, StripFrom(s, q), StripFrom(s, p + 1));
    }
  }

  /** A text without backquotes comes through stripping unchanged. */
  lemma UnfencedTextUnchanged(s: string)
    requires '`' !in s
    ensures StripCodeFences(s) == s
  {
    PlainStretchKept(s, 0, |s|);
  }

  /** `NextTicks` finds the first three backquotes: none start between `c` and the position
    * found, and none start at or after `c` when nothing is found. */
  lemma {:induction false} NextTicksFirst(s: string, c: nat)
    ensures var e := NextTicks(s, c);
            && (e.Some? ==> forall j :: c <= j < e.value ==> !TicksAt(s, j))
            && (e.None? ==> forall j :: c <= j ==> !TicksAt(s, j))
    decreases |s| - c
  {
    if c + 3 <= |s| && !TicksAt(s, c) {
      NextTicksFirst(s, c + 1);
    }
  }

  /** Three backquotes at `e` with no backquote between `c` and `e` are the next ones. */
  lemma {:induction false} NextTicksIs(s: string, c: nat, e: nat)
    requires c <= e && TicksAt(s, e)
    requires forall k :: c <= k < e ==> s[k] != '`'
    ensures NextTicks(s, c) == Some(e)
    decreases e - c
  {
    if c < e {
      NextTicksIs(s, c + 1, e);
    }
  }

  /** `AlnumRunEnd` stops at the first character that is not a letter or digit. */
  lemma {:induction false} AlnumRunEndSpan(s: string, i: nat)
    requires i <= |s|
    ensures var j := AlnumRunEnd(s, i);
            && (forall k :: i <= k < j ==> IsAlnum(s[k]))
            && (j == |s| || !IsAlnum(s[j]))
    decreases |s| - i
  {
    if i < |s| && IsAlnum(s[i]) {
      AlnumRunEndSpan(s, i + 1);
    }
  }

  /** The run of letters and digits from `i` ends at `j`. */
  lemma {:induction false} AlnumRunEndIs(s: string, i: nat, j: nat)
    requires i <= j <= |s|
    requires forall k :: i <= k < j ==> IsAlnum(s[k])
    requires j == |s| || !IsAlnum(s[j])
    ensures AlnumRunEnd(s, i) == j
    decreases j - i
  {
    if i < j {
      AlnumRunEndIs(s, i + 1, j);
    }
  }

  /** A fence is made of its opening line, a stretch without backquotes and three backquotes. */
  lemma FenceFromParts(s: string, p: nat, kind: FenceKind, c: nat, e: nat)
    requires OpenerEnd(s, p, kind) == Some(c) && c <= e && TicksAt(s, e)
    requires forall k :: c <= k < e ==> s[k] != '`'
    ensures FenceAt(s, p, kind) == Some(Fence(p, c, e))
  {
    NextTicksIs(s, c, e);
  }

  /** A fenced block: an opening line with the tag `lang`, the content `body` and the
    * closing backquotes. */
  function Block(lang: string, body: string): (b: string)
    ensures |b| == |lang| + |body| + 7
  {
    Ticks + lang + "\n" + body + Ticks
  }

  /** The tag suits the kind of opening line: letters and digits for any fence, `json` in any
    * letter case for a JSON fence, nothing for a bare fence. */
  predicate LangFits(kind: FenceKind, lang: string)
  {
    match kind
    case AnyLang => forall k :: 0 <= k < |lang| ==> IsAlnum(lang[k])
    case JsonLang => IsJsonTag(lang)
    case BareFence => lang == []
  }

  lemma BlockChars(lang: string, body: string)
    ensures var b := Block(lang, body);
            && |b| == |lang| + |body| + 7
            && b[0] == '`' && b[1] == '`' && b[2] == '`'
            && (forall k :: 0 <= k < |lang| ==> b[3 + k] == lang[k])
            && b[|lang| + 3] == '\n'
            && (forall k :: 0 <= k < |body| ==> b[|lang| + 4 + k] == body[k])
            && b[|lang| + |body| + 4] == '`' && b[|lang| + |body| + 5] == '`'
            && b[|lang| + |body| + 6] == '`'
  {
  }

  /** The opening line of a block placed at `p` ends where its content starts. */
  lemma OpenerOfBlock(s: string, p: nat, kind: FenceKind, lang: string, body: string)
    requires p + |Block(lang, body)| <= |s|
    requires forall k :: 0 <= k < |Block(lang, body)| ==> s[p + k] == Block(lang, body)[k]
    requires LangFits(kind, lang)
    ensures OpenerEnd(s, p, kind) == Some(p + |lang| + 4)
  {
    var b := Block(lang, body);
    BlockChars(lang, body);
    assert s[p] == b[0] && s[p + 1] == b[1] && s[p + 2] == b[2];
    assert s[p + |lang| + 3] == b[|lang| + 3];
    match kind
    case AnyLang =>
      assert forall k :: p + 3 <= k < p + 3 + |lang| ==> s[k] == b[k - p];
      AlnumRunEndIs(s, p + 3, p + 3 + |lang|);
    case JsonLang =>
      assert s[p + 3] == b[3] && s[p + 4] == b[4] && s[p + 5] == b[5] && s[p + 6] == b[6];
    case BareFence =>
  }

  /** The content of a block placed at `p` has no backquote and is followed by three. */
  lemma BlockClose(s: string, p: nat, lang: string, body: string)
    requires p + |Block(lang, body)| <= |s|
    requires forall k :: 0 <= k < |Block(lang, body)| ==> s[p + k] == Block(lang, body)[k]
    requires '`' !in body
    ensures TicksAt(s, p + |lang| + 4 + |body|)
    ensures forall k :: p + |lang| + 4 <= k < p + |lang| + 4 + |body| ==> s[k] != '`'
  {
    var b := Block(lang, body);
    var c := p + |lang| + 4;
    var e := c + |body|;
    BlockChars(lang, body);
    assert s[e] == b[e - p] && s[e + 1] == b[e + 1 - p] && s[e + 2] == b[e + 2 - p];
    forall k | c <= k < e
      ensures s[k] != '`'
    {
      assert s[p + (k - p)] == b[k - p];
      assert b[|lang| + 4 + (k - c)] == body[k - c];
    }
  }

  /** A block placed at `p` is the fenced block found there. */
  lemma BlockAt(s: string, p: nat, kind: FenceKind, lang: string, body: string)
    requires p + |Block(lang, body)| <= |s|
    requires forall k :: 0 <= k < |Block(lang, body)| ==> s[p + k] == Block(lang, body)[k]
    requires LangFits(kind, lang) && '`' !in body
    ensures FenceAt(s, p, kind) == Some(Fence(p, p + |lang| + 4, p + |lang| + 4 + |body|))
  {
    OpenerOfBlock(s, p, kind, lang, body);
    BlockClose(s, p, lang, body);
    FenceFromParts(s, p, kind, p + |lang| + 4, p + |lang| + 4 + |body|);
  }

  /** The content of a block placed at `p`. */
  lemma BlockContent(s: string, p: nat, lang: string, body: string)
    requires p + |Block(lang, body)| <= |s|
    requires forall k :: 0 <= k < |Block(lang, body)| ==> s[p + k] == Block(lang, body)[k]
    ensures s[p + |lang| + 4..p + |lang| + 4 + |body|] == body
  {
    BlockChars(lang, body);
    var c := p + |lang| + 4;
    forall k | 0 <= k < |body|
      ensures s[c..c + |body|][k] == body[k]
    {
      assert s[p + (|lang| + 4 + k)] == Block(lang, body)[|lang| + 4 + k];
    }
  }

  /** `a + b + c` split back into its parts. */
  lemma ThreeParts(s: string, a: string, b: string, c: string)
    requires s == a + b + c
    ensures s[..|a|] == a && s[|a| + |b|..] == c
    ensures forall k :: 0 <= k < |b| ==> s[|a| + k] == b[k]
  {
    forall k | 0 <= k < |b|
      ensures s[|a| + k] == b[k]
    {
      assert s[|a| + k] == (a + b)[|a| + k];
    }
  }

  /** The content of a fenced block is copied as it stands. */
  lemma {:induction false} CopyKept(s: string, i: nat, e: nat)
    requires i <= e && e + 3 <= |s|
    ensures CopyThenStrip(s, i, e) == s[i..e] + StripFrom(s, e + 3)
    decreases e - i
  {
    if i == e {
      assert s[i..e] == [];
    } else {
      CopyKept(s, i + 1, e);
      PrependSlice(s, i, e, StripFrom(s, e + 3), CopyThenStrip(s, i + 1, e));
    }
  }

  /** Stripping at a fenced block. */
  lemma StripAtFence(s: string, p: nat, c: nat, e: nat)
    requires p < c <= e && e + 3 <= |s|
    requires FenceAt(s, p, AnyLang) == Some(Fence(p, c, e))
    ensures StripFrom(s, p) == s[c..e] + StripFrom(s, e + 3)
  {
    CopyKept(s, c, e);
  }

  lemma NoTickInPrefix(s: string, p: nat)
    requires p <= |s| && '`' !in s[..p]
    ensures forall k :: 0 <= k < p ==> s[k] != '`'
  {
    assert forall k :: 0 <= k < p ==> s[k] == s[..p][k];
  }

  lemma NoTickInSuffix(s: string, p: nat)
    requires p <= |s| && '`' !in s[p..]
    ensures forall k :: p <= k < |s| ==> s[k] != '`'
  {
    assert forall k :: p <= k < |s| ==> s[k] == s[p..][k - p];
  }

  /** A leading stretch without backquotes is kept. */
  lemma PlainPrefixKept(s: string, p: nat)
    requires p <= |s| && '`' !in s[..p]
    ensures StripFrom(s, 0) == s[..p] + StripFrom(s, p)
  {
    NoTickInPrefix(s, p);
    PlainStretchKept(s, 0, p);
    assert s[0..p] == s[..p];
  }

  /** A trailing stretch without backquotes is kept. */
  lemma PlainSuffixKept(s: string, q: nat)
    requires q <= |s| && '`' !in s[q..]
    ensures StripFrom(s, q) == s[q..]
  {
    NoTickInSuffix(s, q);
    PlainStretchKept(s, q, |s|);
    assert s[q..|s|] + StripFrom(s, |s|) == s[q..];
  }

  /** Stripping a text whose only backquotes lie in `s[p..q]`, which strips to `mid`. */
  lemma StripAroundFence(s: string, p: nat, q: nat, mid: string)
    requires p <= q <= |s|
    requires StripFrom(s, p) == mid + StripFrom(s, q)
    requires '`' !in s[..p] && '`' !in s[q..]
    ensures StripFrom(s, 0) == s[..p] + mid + s[q..]
  {
    PlainPrefixKept(s, p);
    PlainSuffixKept(s, q);
    JoinParts(StripFrom(s, 0), s[..p], StripFrom(s, p), mid, StripFrom(s, q), s[q..]);
  }

  lemma JoinParts(x: string, a: string, y: string, b: string, z: string, w: string)
    requires x == a + y && y == b + z && z == w
    ensures x == a + b + w
  {
  }

  /** Stripping a text whose only backquotes are those of one block placed at `p`. */
  lemma StripOneBlock(s: string, p: nat, lang: string, body: string)
    requires p + |Block(lang, body)| <= |s|
    requires forall k :: 0 <= k < |Block(lang, body)| ==> s[p + k] == Block(lang, body)[k]
    requires LangFits(AnyLang, lang) && '`' !in body
    requires '`' !in s[..p] && '`' !in s[p + |Block(lang, body)|..]
    ensures StripFrom(s, 0) == s[..p] + body + s[p + |Block(lang, body)|..]
  {
    StripAtBlock(s, p, lang, body);
    StripAroundFence(s, p, p + |Block(lang, body)|, body);
  }

  /** Stripping at a block placed at `p` emits its content and resumes after it. */
  lemma StripAtBlock(s: string, p: nat, lang: string, body: string)
    requires p + |Block(lang, body)| <= |s|
    requires forall k :: 0 <= k < |Block(lang, body)| ==> s[p + k] == Block(lang, body)[k]
    requires LangFits(AnyLang, lang) && '`' !in body
    ensures StripFrom(s, p) == body + StripFrom(s, p + |Block(lang, body)|)
  {
    BlockAt(s, p, AnyLang, lang, body);
    BlockContent(s, p, lang, body);
    StripAtFence(s, p, p + |lang| + 4, p + |lang| + 4 + |body|);
  }

  /** A fenced block is replaced by its content and the text around it is kept, when
    * neither that text nor the content has a backquote. */
  lemma FencedBlockStripped(pre: string, lang: string, body: string, rest: string)
    requires LangFits(AnyLang, lang)
    requires '`' !in pre && '`' !in body && '`' !in rest
    ensures StripCodeFences(pre + Block(lang, body) + rest) == pre + body + rest
  {
    var s := pre + Block(lang, body) + rest;
    ThreeParts(s, pre, Block(lang, body), rest);
    StripOneBlock(s, |pre|, lang, body);
  }

  // ---------------------------------------------------------------------
  // extractJsonCandidate
  // ---------------------------------------------------------------------

  /** The longest text the first-`{`-to-last-`}` fallback accepts is this many characters
    * plus one. */
  const MaxSpan := 20000

  /** `key`, then `\s*:\s*\[`, at position `i` of `t`. */
  predicate KeyThenList(t: string, key: string, i: nat)
  {
    OccursAt(t, key, i)
    && var j := SkipSpaces(t, i + |key|);
       j < |t| && t[j] == ':'
       && var k := SkipSpaces(t, j + 1);
          k < |t| && t[k] == '['
  }

  /** `/"(items|messages)"\s*:\s*\[/.test(t)`. */
  predicate HasListKey(t: string)
  {
    exists i: nat :: i < |t| && (KeyThenList(t, "\"items\"", i) || KeyThenList(t, "\"messages\"", i))
  }

  /** The span from the first `{` to the last `}`, when the last comes after the first, the
    * two are at most `MaxSpan` apart and the span names an `items` or `messages` list. */
  function BraceSpan(s: string): (r: Option<string>)
    ensures r.Some? ==> HasListKey(r.value) && 2 <= |r.value| <= MaxSpan + 1
    ensures r.Some? ==> r.value[0] == '{' && r.value[|r.value| - 1] == '}'
  {
    var first := IndexOfChar(s, '{');
    var last := LastIndexOfChar(s, '}');
    if first.Some? && last.Some? && last.value > first.value && last.value - first.value <= MaxSpan then
      var candidate := s[first.value..last.value + 1];
      assert candidate[0] == s[first.value] && candidate[|candidate| - 1] == s[last.value];
      if HasListKey(candidate) then Some(candidate) else None
    else None
  }

  /** The content of a fence found in `s`. */
  function ContentOf(s: string, f: Fence): string
    requires f.contentStart <= f.close <= |s|
  {
    s[f.contentStart..f.close]
  }

  predicate HasOpenBracket(t: string)
  {
    '{' in t || '[' in t
  }

  /** `extractJsonCandidate`: the trimmed content of the first ```` ```json ```` block when
    * that content is not empty; else the trimmed content of the first bare fenced block
    * when it holds `{` or `[`; else the brace span. */
  function ExtractJsonCandidate(s: string): Option<string>
  {
    var json := FirstFence(s, JsonLang, 0);
    if json.Some? && json.value.contentStart < json.value.close then
      Some(Trim(ContentOf(s, json.value)))
    else
      var bare := FirstFence(s, BareFence, 0);
      if bare.Some? && bare.value.contentStart < bare.value.close && HasOpenBracket(ContentOf(s, bare.value)) then
        Some(Trim(ContentOf(s, bare.value)))
      else
        BraceSpan(s)
  }

  /** The leftmost fence from `p` on is the one at `at` when no backquote comes between. */
  lemma {:induction false} FirstFenceIs(s: string, kind: FenceKind, p: nat, at: nat)
    requires p <= at <= |s|
    requires forall k :: p <= k < at ==> s[k] != '`'
    requires FenceAt(s, at, kind).Some?
    ensures FirstFence(s, kind, p) == FenceAt(s, at, kind)
    decreases at - p
  {
    if p < at {
      assert !TicksAt(s, p);
      FirstFenceIs(s, kind, p + 1, at);
    }
  }

  /** The first ```` ```json ```` block, when it has content, supplies the candidate. */
  lemma JsonFenceChosen(s: string, f: Fence)
    requires FirstFence(s, JsonLang, 0) == Some(f) && f.contentStart < f.close
    ensures ExtractJsonCandidate(s) == Some(Trim(ContentOf(s, f)))
  {
  }

  /** A ```` ```json ```` block placed at `p`, with no backquote before it, is the first
    * JSON fence. */
  lemma JsonBlockFirst(s: string, p: nat, tag: string, body: string)
    requires p + |Block(tag, body)| <= |s|
    requires forall k :: 0 <= k < |Block(tag, body)| ==> s[p + k] == Block(tag, body)[k]
    requires forall k :: 0 <= k < p ==> s[k] != '`'
    requires '`' !in body && IsJsonTag(tag)
    ensures FirstFence(s, JsonLang, 0) == Some(Fence(p, p + 8, p + 8 + |body|))
    ensures ContentOf(s, Fence(p, p + 8, p + 8 + |body|)) == body
  {
    BlockAt(s, p, JsonLang, tag, body);
    BlockContent(s, p, tag, body);
    FirstFenceIs(s, JsonLang, 0, p);
  }

  /** A ```` ```json ```` block (any letter case) with content, after text without
    * backquotes, is the candidate, trimmed, whatever follows it. */
  lemma JsonBlockPreferred(pre: string, tag: string, body: string, post: string)
    requires '`' !in pre && '`' !in body && body != []
    requires IsJsonTag(tag)
    ensures ExtractJsonCandidate(pre + Block(tag, body) + post) == Some(Trim(body))
  {
    var s := pre + Block(tag, body) + post;
    ThreeParts(s, pre, Block(tag, body), post);
    JsonBlockCandidate(s, |pre|, tag, body);
  }

  /** A ```` ```json ```` block with content placed at `p`, with no backquote before it,
    * supplies the candidate. */
  lemma JsonBlockCandidate(s: string, p: nat, tag: string, body: string)
    requires p + |Block(tag, body)| <= |s|
    requires forall k :: 0 <= k < |Block(tag, body)| ==> s[p + k] == Block(tag, body)[k]
    requires '`' !in s[..p] && '`' !in body && body != [] && IsJsonTag(tag)
    ensures ExtractJsonCandidate(s) == Some(Trim(body))
  {
    NoTickInPrefix(s, p);
    JsonBlockFirst(s, p, tag, body);
    JsonFenceChosen(s, Fence(p, p + 8, p + 8 + |body|));
  }

  /** Without any backquote in the text, only the brace span can supply the candidate. */
  lemma UnfencedUsesBraceSpan(s: string)
    requires '`' !in s
    ensures ExtractJsonCandidate(s) == BraceSpan(s)
  {
    assert forall i :: !TicksAt(s, i);
  }

  lemma FirstCharAt(s: string, c: char, i: nat)
    requires i < |s| && s[i] == c && c !in s[..i]
    ensures IndexOfChar(s, c) == Some(i)
  {
  }

  lemma LastCharAt(s: string, c: char, i: nat)
    requires i < |s| && s[i] == c && c !in s[i + 1..]
    ensures LastIndexOfChar(s, c) == Some(i)
  {
  }

  /** The brace span of `pre + "{" + mid + "}" + post`, when `pre` has no `{` and `post` no
    * `}`, is exactly `"{" + mid + "}"`, kept when it is short enough and names a list. */
  lemma BraceSpanOf(pre: string, mid: string, post: string)
    requires '{' !in pre && '}' !in post
    ensures var span := "{" + mid + "}";
            BraceSpan(pre + span + post) == if |span| <= MaxSpan + 1 && HasListKey(span) then Some(span) else None
  {
    var span := "{" + mid + "}";
    var s := pre + span + post;
    var first := |pre|;
    var last := |pre| + |mid| + 1;
    assert s[first] == '{' && s[last] == '}';
    assert s[..first] == pre;
    FirstCharAt(s, '{', first);
    assert s[last + 1..] == post;
    LastCharAt(s, '}', last);
    assert s[first..last + 1] == span;
  }

  // ---------------------------------------------------------------------
  // detectEmailPatterns
  // ---------------------------------------------------------------------

  /** A parsed JSON entry: `null` (or `undefined`), or a value whose string-valued fields are
    * given (a string or number entry has none). */
  datatype JsonEntry = NullEntry | Entry(fields: map<string, string>)

  /** A parsed JSON document: an array, an object whose `items` and `messages` are given when
    * they are arrays, or any other value. */
  datatype JsonDoc =
    | JArray(entries: seq<JsonEntry>)
    | JObject(items: Option<seq<JsonEntry>>, messages: Option<seq<JsonEntry>>)
    | JOther

  /** The fallback reads at most this many entries. */
  const MaxFallbackItems := 50

  /** The array itself, else its `items` array, else its `messages` array, else nothing. */
  function ListEntries(doc: JsonDoc): seq<JsonEntry>
  {
    match doc
    case JArray(es) => es
    case JObject(items, messages) =>
      if items.Some? then items.value else if messages.Some? then messages.value else []
    case JOther => []
  }

  /** `m.a || m.b || ...`: the first of `keys` whose field is a non-empty string. */
  function FirstTruthy(fields: map<string, string>, keys: seq<string>): (v: Option<string>)
    ensures v.Some? ==> v.value != "" && exists k :: k in keys && k in fields && fields[k] == v.value
    ensures v.None? <==> forall k :: k in keys ==> k !in fields || fields[k] == ""
  {
    if keys == [] then None
    else if keys[0] in fields && fields[keys[0]] != "" then Some(fields[keys[0]])
    else FirstTruthy(fields, keys[1..])
  }

  function FieldsOf(e: JsonEntry): map<string, string>
  {
    if e.Entry? then e.fields else map[]
  }

  const IdKeys := ["id", "messageId", "threadId"]
  const SubjectKeys := ["subject", "snippet", "title"]
  const SenderKeys := ["from", "sender", "author", "email"]

  /** The entry's id, or the made-up id of its position when it has none. */
  function FallbackId(m: map<string, string>, position: nat, nowMs: nat): (id: string)
    ensures FirstTruthy(m, IdKeys).None? ==> id == MadeUpId(nowMs, position)
    ensures FirstTruthy(m, IdKeys).Some? ==> id == FirstTruthy(m, IdKeys).value
  {
    FirstTruthy(m, IdKeys).UnwrapOr(MadeUpId(nowMs, position))
  }

  /** `String(m.a || m.b || ... || '').trim()`. */
  function FallbackText(m: map<string, string>, keys: seq<string>): string
  {
    Trim(FirstTruthy(m, keys).UnwrapOr(""))
  }

  /** The mail made from the entry at `position` (counted from 0) of the JSON list. */
  function FallbackEmail(e: JsonEntry, position: nat, nowMs: nat): (m: EmailItem)
    ensures m.index == position + 1
  {
    var m := FieldsOf(e);
    EmailItem(FallbackId(m, position, nowMs), FallbackText(m, SubjectKeys), FallbackText(m, SenderKeys),
              None, position + 1, None, FirstTruthy(m, ["date"]))
  }

  predicate HasSubjectOrSender(e: EmailItem)
  {
    e.subject != "" || e.from != ""
  }

  /** `items.slice(0, 50)`. */
  function FirstFifty(entries: seq<JsonEntry>): (r: seq<JsonEntry>)
    ensures |r| <= MaxFallbackItems && |r| <= |entries|
    ensures forall i :: 0 <= i < |r| ==> r[i] == entries[i]
  {
    if |entries| <= MaxFallbackItems then entries else entries[..MaxFallbackItems]
  }

  /** The mail made from each entry, numbered by position from 1. */
  function Numbered(entries: seq<JsonEntry>, nowMs: nat): (r: seq<EmailItem>)
    ensures |r| == |entries|
    ensures forall i :: 0 <= i < |r| ==> r[i] == FallbackEmail(entries[i], i, nowMs)
  {
    seq(|entries|, i requires 0 <= i < |entries| => FallbackEmail(entries[i], i, nowMs))
  }

  /** The first fifty entries, numbered from 1, those with neither subject nor sender dropped.
    * A `null` among them makes the field access throw, and the fallback then finds nothing. */
  function FallbackEmails(entries: seq<JsonEntry>, nowMs: nat): seq<EmailItem>
  {
    var firstFifty := FirstFifty(entries);
    if NullEntry in firstFifty then [] else Keep(Numbered(firstFifty, nowMs), HasSubjectOrSender)
  }

  /** The JSON fallback on the original (unstripped) text. An empty candidate counts as none. */
  function JsonFallback(text: string, parseJson: string -> Option<JsonDoc>, nowMs: nat): seq<EmailItem>
  {
    var candidate := ExtractJsonCandidate(text);
    if candidate.None? || candidate.value == "" then []
    else
      match parseJson(candidate.value)
      case None => []
      case Some(doc) => FallbackEmails(ListEntries(doc), nowMs)
  }

  /** The mails of the first pattern, from the `k`-th on, that matches `t`. */
  function FirstPatternMatch(t: string, patternCount: nat, parsePattern: (nat, string) -> seq<EmailItem>, k: nat)
    : seq<EmailItem>
    decreases patternCount - k
  {
    if k >= patternCount then []
    else if parsePattern(k, t) != [] then parsePattern(k, t)
    else FirstPatternMatch(t, patternCount, parsePattern, k + 1)
  }

  /** What `detectEmailPatterns` finds: the first matching pattern on the stripped text, else
    * the JSON fallback on the original text. */
  function DetectedEmails(text: string, patternCount: nat, parsePattern: (nat, string) -> seq<EmailItem>,
                          parseJson: string -> Option<JsonDoc>, nowMs: nat): seq<EmailItem>
  {
    var byPattern := FirstPatternMatch(StripCodeFences(text), patternCount, parsePattern, 0);
    if byPattern != [] then byPattern else JsonFallback(text, parseJson, nowMs)
  }

  /** `detectEmailPatterns`: the patterns are tried in order and the loop stops at the first
    * one that matches. */
  method DetectEmailPatterns(text: string, patternCount: nat, parsePattern: (nat, string) -> seq<EmailItem>,
                             parseJson: string -> Option<JsonDoc>, nowMs: nat)
    returns (emails: seq<EmailItem>)
    ensures emails == DetectedEmails(text, patternCount, parsePattern, parseJson, nowMs)
  {
    emails := [];
    var stripped := StripCodeFences(text);
    var k := 0;
    while k < patternCount
      invariant k <= patternCount && emails == []
      invariant FirstPatternMatch(stripped, patternCount, parsePattern, 0)
                == FirstPatternMatch(stripped, patternCount, parsePattern, k)
    {
      var parsed := parsePattern(k, stripped);
      if parsed != [] {
        emails := parsed;
        break;
      }
      k := k + 1;
    }
    if emails == [] {
      emails := JsonFallback(text, parseJson, nowMs);
    }
  }

  /** The first pattern that matches decides the list; later patterns are never consulted. */
  lemma {:induction false} FirstPatternDecides(t: string, patternCount: nat,
                                               parsePattern: (nat, string) -> seq<EmailItem>, from: nat, k: nat)
    requires from <= k < patternCount && parsePattern(k, t) != []
    requires forall j :: from <= j < k ==> parsePattern(j, t) == []
    ensures FirstPatternMatch(t, patternCount, parsePattern, from) == parsePattern(k, t)
    decreases k - from
  {
    if from < k {
      FirstPatternDecides(t, patternCount, parsePattern, from + 1, k);
    }
  }

  /** The numbers of a list increase strictly from one mail to the next. */
  predicate NumbersIncrease(s: seq<EmailItem>)
  {
    forall i, j :: 0 <= i < j < |s| ==> s[i].index < s[j].index
  }

  /** Filtering keeps a strictly increasing numbering strictly increasing. */
  lemma {:induction false} KeepIncreasing(s: seq<EmailItem>, f: EmailItem -> bool)
    requires NumbersIncrease(s)
    ensures NumbersIncrease(Keep(s, f))
    decreases |s|
  {
    if s != [] {
      var init := s[..|s| - 1];
      KeepIncreasing(init, f);
      var r0 := Keep(init, f);
      var last := s[|s| - 1];
      forall x | x in r0 ensures x.index < last.index {
        var i :| 0 <= i < |init| && init[i] == x;
        assert init[i] == s[i];
      }
      var r := Keep(s, f);
      assert r == r0 + (if f(last) then [last] else []);
      forall i, j | 0 <= i < j < |r| ensures r[i].index < r[j].index {
        if j < |r0| {
          assert r[i] == r0[i] && r[j] == r0[j];
          assert r0[i].index < r0[j].index;
        } else {
          assert j == |r0| && f(last);
          assert r[i] == r0[i] && r0[i] in r0 && r[j] == last;
        }
      }
    }
  }

  /** Each numbered mail is the one made from the entry at the position its number shows. */
  lemma NumberedAt(entries: seq<JsonEntry>, nowMs: nat, e: EmailItem)
    requires e in Numbered(entries, nowMs)
    ensures 1 <= e.index <= |entries| && e == FallbackEmail(entries[e.index - 1], e.index - 1, nowMs)
  {
    var numbered := Numbered(entries, nowMs);
    var i :| 0 <= i < |numbered| && numbered[i] == e;
  }

  /** The fallback list has at most fifty mails, each with a subject or a sender and each
    * the mail made from the entry at the position its number shows. */
  lemma FallbackFromPositions(entries: seq<JsonEntry>, nowMs: nat)
    ensures var r := FallbackEmails(entries, nowMs);
      && |r| <= MaxFallbackItems
      && forall e :: e in r ==> && HasSubjectOrSender(e) && 1 <= e.index <= MaxFallbackItems
                                && e.index <= |entries| && e == FallbackEmail(entries[e.index - 1], e.index - 1, nowMs)
  {
    var firstFifty := FirstFifty(entries);
    if NullEntry !in firstFifty {
      var numbered := Numbered(firstFifty, nowMs);
      forall e | e in Keep(numbered, HasSubjectOrSender)
        ensures 1 <= e.index <= |firstFifty| && e == FallbackEmail(entries[e.index - 1], e.index - 1, nowMs)
      {
        NumberedAt(firstFifty, nowMs, e);
      }
    }
  }

  /** The numbers of the fallback list increase strictly, and can skip where entries were
    * dropped. */
  lemma FallbackNumbersIncrease(entries: seq<JsonEntry>, nowMs: nat)
    ensures NumbersIncrease(FallbackEmails(entries, nowMs))
  {
    var firstFifty := FirstFifty(entries);
    if NullEntry !in firstFifty {
      var numbered := Numbered(firstFifty, nowMs);
      KeepIncreasing(numbered, HasSubjectOrSender);
      assert FallbackEmails(entries, nowMs) == Keep(numbered, HasSubjectOrSender);
    }
  }

  /** A `null` among the first fifty entries leaves the fallback empty. */
  lemma NullEntryEmptiesFallback(entries: seq<JsonEntry>, nowMs: nat, i: nat)
    requires i < |entries| && i < MaxFallbackItems && entries[i] == NullEntry
    ensures FallbackEmails(entries, nowMs) == []
  {
    assert FirstFifty(entries)[i] == NullEntry;
  }

  /** An entry without `id`, `messageId` or `threadId` gets the made-up id of its position,
    * which opening the mail later recognises, so it searches by subject and sender instead. */
  lemma FallbackMadeUpId(e: JsonEntry, position: nat, nowMs: nat)
    requires forall k :: k in IdKeys ==> k !in FieldsOf(e) || FieldsOf(e)[k] == ""
    ensures OpenEmail.IsPseudoMessageId(Some(FallbackEmail(e, position, nowMs).id))
  {
    OpenEmail.MadeUpIdsArePseudo(nowMs, position);
  }

  // ---------------------------------------------------------------------
  // detectAndSaveEmailList
  // ---------------------------------------------------------------------

  /** The optional arguments: where the list was posted and the Gmail query it answers. */
  datatype ListOptions = ListOptions(channel: Option<string>, threadTs: Option<string>,
                                     workspaceId: Option<string>, mailbox: Option<string>,
                                     query: Option<string>, pageToken: Option<string>, page: Option<int>)

  /** The returned list record; `generatedAt` is the clock's ISO time. */
  datatype EmailListData = EmailListData(generatedAt: string, userId: string, sessionId: string,
                                         emails: seq<EmailItem>, tags: seq<string>)

  /** One upsert of the list cache. */
  datatype CacheWrite = CacheWrite(key: string, items: ItemsJson, expiresAt: int, meta: UpsertMeta)

  /** The environment switches read by the save step. */
  datatype SaveSettings = SaveSettings(ttlMin: int, memosEnabled: Option<string>, saveEmailList: Option<string>)

  /** A list this short is returned but not saved. */
  const MinSavedItems := 2

  /** `${userId}_${Date.now()}`. */
  function SessionId(userId: string, nowMs: nat): string
  {
    userId + "_" + NatToString(nowMs)
  }

  /** The returned record: none for no mails, a record tagged as not saved for one mail,
    * and a record tagged as an operation target otherwise. */
  function ListData(emails: seq<EmailItem>, userId: string, nowMs: nat, nowIso: string): (r: Option<EmailListData>)
    ensures r.None? <==> emails == []
    ensures r.Some? ==> r.value.emails == emails && r.value.userId == userId
    ensures r.Some? ==> r.value.tags == ["email_list", if |emails| < MinSavedItems then "skip_save_items_lt_2" else "操作対象"]
  {
    if emails == [] then None
    else if |emails| < MinSavedItems then
      Some(EmailListData(nowIso, userId, SessionId(userId, nowMs), emails, ["email_list", "skip_save_items_lt_2"]))
    else
      Some(EmailListData(nowIso, userId, SessionId(userId, nowMs), emails, ["email_list", "操作対象"]))
  }

  function ToCacheItem(e: EmailItem): CacheItem
  {
    CacheItem(e.index, e.id, e.subject, e.from, e.date)
  }

  /** `items_json`: index, id (as `messageId`), subject, sender and date of every mail, in
    * detection order. */
  function CachedItems(emails: seq<EmailItem>): (items: seq<CacheItem>)
    ensures |items| == |emails|
    ensures forall i :: 0 <= i < |emails| ==> items[i] == ToCacheItem(emails[i])
  {
    seq(|emails|, i requires 0 <= i < |emails| => ToCacheItem(emails[i]))
  }

  function KeyParams(userId: string, opts: ListOptions): GmailListKeyParams
  {
    GmailListKeyParams(userId, opts.workspaceId, opts.mailbox, opts.query, opts.pageToken, opts.page)
  }

  /** The cache write of a detected list: none below two mails; otherwise the list under its
    * Gmail list key, expiring `ttlMin` minutes from now, created now. */
  function PlannedWrite(emails: seq<EmailItem>, userId: string, opts: ListOptions, sha1Hex: string -> string,
                        ttlMin: int, nowSec: int): Option<CacheWrite>
  {
    if |emails| < MinSavedItems then None
    else Some(CacheWrite(BuildGmailListCacheKey(KeyParams(userId, opts), sha1Hex), Items(CachedItems(emails)),
                         nowSec + ttlMin * 60, UpsertMeta(opts.channel, opts.threadTs, Some(nowSec))))
  }

  /** `「subject」` for each of the first three items, joined by spaces. */
  function SampleSubjects(items: seq<CacheItem>): string
  {
    var firstThree := if |items| <= 3 then items else items[..3];
    Join(seq(|firstThree|, i requires 0 <= i < |firstThree| => "「" + firstThree[i].subject + "」"), " ")
  }

  /** The lines of the memory summary: a heading with the day and the count, sample subjects
    * when there are any, the cache key, the expiry and the tags. The raw list is not in it. */
  function SummaryLines(today: string, items: seq<CacheItem>, key: string, expiresIso: string): (lines: seq<string>)
    ensures |lines| == if SampleSubjects(items) == "" then 4 else 5
    ensures lines[|lines| - 3] == "cache_key: " + key
    ensures lines[|lines| - 1] == "#email_list #cache_ref"
  {
    var sample := SampleSubjects(items);
    [today + "のメール一覧（" + NatToString(|items|) + "件）"]
    + (if sample != "" then ["- 件名例: " + sample] else [])
    + ["cache_key: " + key, "expires_at: " + expiresIso, "#email_list #cache_ref"]
  }

  /** The summary goes to memory unless either switch is exactly `false`. */
  predicate SavesSummary(settings: SaveSettings)
  {
    settings.memosEnabled != Some("false") && settings.saveEmailList != Some("false")
  }

  /** The summary sent to memory for a cache write, if any. `isoOf` renders a time in ms. */
  function PlannedSummary(w: Option<CacheWrite>, settings: SaveSettings, today: string, isoOf: int -> string)
    : Option<string>
  {
    if w.None? || !SavesSummary(settings) || !w.value.items.Items? then None
    else Some(Join(SummaryLines(today, w.value.items.items, w.value.key, isoOf(w.value.expiresAt * 1000)), "\n"))
  }

  /** `detectAndSaveEmailList`: detect, return nothing for no mails, return without saving for
    * one mail, and otherwise upsert the list into the cache and send the summary to memory. */
  method DetectAndSaveEmailList(cache: EmailListCache, text: string, userId: string, opts: ListOptions,
                                patternCount: nat, parsePattern: (nat, string) -> seq<EmailItem>,
                                parseJson: string -> Option<JsonDoc>, sha1Hex: string -> string,
                                settings: SaveSettings, nowMs: nat, nowIso: string, today: string,
                                isoOf: int -> string)
    returns (r: Option<EmailListData>, summary: Option<string>)
    modifies cache`rows
    ensures var emails := DetectedEmails(text, patternCount, parsePattern, parseJson, nowMs);
            var w := PlannedWrite(emails, userId, opts, sha1Hex, settings.ttlMin, nowMs / 1000);
            && r == ListData(emails, userId, nowMs, nowIso)
            && cache.rows == (if w.Some? && cache.ready
                              then Upserted(old(cache.rows), w.value.key, w.value.items, w.value.expiresAt,
                                            w.value.meta, nowMs / 1000)
                              else old(cache.rows))
            && summary == PlannedSummary(w, settings, today, isoOf)
  {
    var emails := DetectEmailPatterns(text, patternCount, parsePattern, parseJson, nowMs);
    r := ListData(emails, userId, nowMs, nowIso);
    summary := None;
    if |emails| < MinSavedItems {
      return;
    }
    var nowSec := nowMs / 1000;
    var w := PlannedWrite(emails, userId, opts, sha1Hex, settings.ttlMin, nowSec).value;
    cache.UpsertEmailListCache(w.key, w.items, w.expiresAt, w.meta, nowSec);
    summary := PlannedSummary(Some(w), settings, today, isoOf);
  }

  // ---------------------------------------------------------------------
  // properties of the save step
  // ---------------------------------------------------------------------

  /** A list is written iff it has at least two mails, under the key of its query, with the
    * expiry `ttlMin` minutes ahead and the creation time now. */
  lemma SaveThreshold(emails: seq<EmailItem>, userId: string, opts: ListOptions, sha1Hex: string -> string,
                      ttlMin: int, nowSec: int)
    ensures var w := PlannedWrite(emails, userId, opts, sha1Hex, ttlMin, nowSec);
      && (w.Some? <==> |emails| >= 2)
      && (w.Some? ==> w.value.key == BuildGmailListCacheKey(KeyParams(userId, opts), sha1Hex)
                      && w.value.expiresAt - nowSec == 60 * ttlMin
                      && w.value.meta.createdAt == Some(nowSec)
                      && w.value.items == Items(CachedItems(emails)))
  {
  }

  /** A saved list whose numbers strictly increase can be opened by number: the numbered-reply
    * lookup finds each mail's own cache item. */
  lemma SavedListOpensByNumber(emails: seq<EmailItem>, i: nat)
    requires i < |emails|
    requires NumbersIncrease(emails)
    ensures NumberedReply.FindByIndex(CachedItems(emails), emails[i].index) == Some(ToCacheItem(emails[i]))
  {
    var items := CachedItems(emails);
    var r := NumberedReply.FindByIndex(items, emails[i].index);
    assert items[i].index == emails[i].index;
    var k :| 0 <= k < |items| && items[k] == r.value
             && forall j :: 0 <= j < k ==> items[j].index != emails[i].index;
    if k < i {
      assert emails[k].index < emails[i].index;
    }
  }

  /** A list found by the JSON fallback, once saved, opens by every number shown. */
  lemma FallbackListOpensByNumber(entries: seq<JsonEntry>, nowMs: nat, i: nat)
    requires i < |FallbackEmails(entries, nowMs)|
    ensures var emails := FallbackEmails(entries, nowMs);
            NumberedReply.FindByIndex(CachedItems(emails), emails[i].index) == Some(ToCacheItem(emails[i]))
  {
    FallbackNumbersIncrease(entries, nowMs);
    SavedListOpensByNumber(FallbackEmails(entries, nowMs), i);
  }

  /** The summary names the cache key on its own line and is sent only for a saved list with
    * both switches on. */
  lemma SummaryOnlyForSavedLists(w: Option<CacheWrite>, settings: SaveSettings, today: string, isoOf: int -> string)
    ensures PlannedSummary(w, settings, today, isoOf).Some? <==>
              w.Some? && w.value.items.Items? && SavesSummary(settings)
    ensures PlannedSummary(w, settings, today, isoOf).Some? ==>
              var lines := SummaryLines(today, w.value.items.items, w.value.key, isoOf(w.value.expiresAt * 1000));
              "cache_key: " + w.value.key in lines
  {
  }
}
