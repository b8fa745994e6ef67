/**
 * The text the auto-draft run gives the language model and what it makes of the
 * answer: the conversation log of the last messages of a thread, the user
 * prompt rendered from a line template with `{{THREAD_TEXT}}` and
 * `{{GREETING_INSTRUCTION}}` placeholders, the prompt templates cached per key,
 * and the draft body (greeting first, signature last).
 *
 * The model itself, the prompt files and the clock are outside: the model's
 * answer and the file contents are parameters.
 */
module AutoDraftPrompt {
  import opened Wrappers
  import opened Strings
  import opened JsNumber
  import opened DraftText

  /** One message of a fetched thread, as far as the log reads it. */
  datatype ThreadMessage = ThreadMessage(from: Option<string>, to: Option<string>, date: Option<string>,
                                         subject: Option<string>, text: Option<string>)

  /** `value || ''`. */
  function OrEmpty(v: Option<string>): string
  {
    if v.Some? then v.value else ""
  }

  /** `replace(/\r\n/g, '\n')`. */
  function UnixLines(s: string): string
  {
    ReplaceAll(s, "\r\n", "\n")
  }

  // ---------------------------------------------------------------------
  // buildConversationText
  // ---------------------------------------------------------------------

  const MaxBodyLines: nat := 80
  const BlockSeparator: string := "\n\n---\n\n"

  /** `From: … | To: … | Date: … | Subject: …`. */
  function MessageHead(m: ThreadMessage): string
  {
    Join(["From: " + OrEmpty(m.from), "To: " + OrEmpty(m.to), "Date: " + OrEmpty(m.date),
          "Subject: " + OrEmpty(m.subject)], " | ")
  }

  /** The lines of the message text, CRLF made LF. */
  function TextLines(m: ThreadMessage): (lines: seq<string>)
    ensures |lines| >= 1
  {
    Split(UnixLines(OrEmpty(m.text)), '\n')
  }

  /** The first 80 lines of the text. */
  function MessageBody(m: ThreadMessage): string
  {
    var lines := TextLines(m);
    Join(lines[..if |lines| < MaxBodyLines then |lines| else MaxBodyLines], "\n")
  }

  function MessageBlock(m: ThreadMessage): string
  {
    MessageHead(m) + "\n" + MessageBody(m)
  }

  function Blocks(ms: seq<ThreadMessage>): (r: seq<string>)
    ensures |r| == |ms| && forall i :: 0 <= i < |ms| ==> r[i] == MessageBlock(ms[i])
  {
    seq(|ms|, i requires 0 <= i < |ms| => MessageBlock(ms[i]))
  }

  /** `Math.max(0, len - limit)` as `slice` reads it: a limit that is not a number keeps the
    * whole thread, an infinite one all or nothing, a finite one drops all but the last
    * `limit` messages (the fraction of `len - limit` cut off). */
  function HistoryStart(len: nat, limit: JsNum): (start: nat)
    ensures start <= len
  {
    match limit
    case NaN => 0
    case Infinite(negative) => if negative then len else 0
    case Finite(v) =>
      var x := len as real - v;
      if x <= 0.0 then 0 else if x.Floor < len then x.Floor else len
  }

  /** `buildConversationText` with `AUTODRAFT_HISTORY_LIMIT` read as `limit`: the blocks of
    * the last messages joined by a `---` line between blank lines. */
  function ConversationText(messages: seq<ThreadMessage>, limit: JsNum): string
  {
    Join(Blocks(messages[HistoryStart(|messages|, limit)..]), BlockSeparator)
  }

  method BuildConversationText(messages: seq<ThreadMessage>, limit: JsNum) returns (text: string)
    ensures text == ConversationText(messages, limit)
  {
    var parts: seq<string> := [];
    var last := HistoryStart(|messages|, limit);
    var slice := messages[last..];
    for i := 0 to |slice|
      invariant parts == Blocks(slice[..i])
    {
      var m := slice[i];
      parts := parts + [MessageHead(m) + "\n" + MessageBody(m)];
    }
    assert slice[..|slice|] == slice;
    text := Join(parts, BlockSeparator);
  }

  /** With a whole-number limit `n` the log holds the last `min(n, len)` messages. */
  lemma HistoryCount(messages: seq<ThreadMessage>, n: nat)
    ensures var len := |messages|; var k := if n < len then n else len;
      ConversationText(messages, Finite(n as real)) == Join(Blocks(messages[len - k..]), BlockSeparator)
  {
    var len := |messages|;
    HistoryStartOfNat(len, n);
  }

  lemma HistoryStartOfNat(len: nat, n: nat)
    ensures HistoryStart(len, Finite(n as real)) == if n < len then len - n else 0
  {
    var x := len as real - n as real;
    if n < len {
      assert x == (len - n) as real;
      assert x.Floor == len - n;
    }
  }

  /** A limit that is not a number keeps the whole thread. */
  lemma HistoryWithoutNumber(messages: seq<ThreadMessage>)
    ensures ConversationText(messages, NaN) == Join(Blocks(messages), BlockSeparator)
  {
    assert messages[0..] == messages;
  }

  /** A message's body is the first lines of its text, at most 80 of them. */
  lemma BodyLines(m: ThreadMessage)
    ensures var lines := TextLines(m);
      Split(MessageBody(m), '\n') == lines[..if |lines| < MaxBodyLines then |lines| else MaxBodyLines]
    ensures |Split(MessageBody(m), '\n')| <= MaxBodyLines
  {
    var lines := TextLines(m);
    var kept := lines[..if |lines| < MaxBodyLines then |lines| else MaxBodyLines];
    forall k | 0 <= k < |kept| ensures '\n' !in kept[k] {
      assert kept[k] == lines[k];
    }
    SplitJoin(kept, '\n');
  }

  // ---------------------------------------------------------------------
  // collapsing blank lines: replace(/\n{3,}/g, '\n\n')
  // ---------------------------------------------------------------------

  /** The number of newlines `s` starts with. */
  function LeadNewlines(s: string): (k: nat)
    ensures k <= |s| && forall i :: 0 <= i < k ==> s[i] == '\n'
    ensures k < |s| ==> s[k] != '\n'
    decreases |s|
  {
    if s != [] && s[0] == '\n' then 1 + LeadNewlines(s[1..]) else 0
  }

  /** Every run of three or more newlines becomes one blank line, left to right. */
  function Collapse(s: string): string
    decreases |s|
  {
    if s == [] then []
    else
      var k := LeadNewlines(s);
      if k >= 3 then "\n\n" + Collapse(s[k..]) else [s[0]] + Collapse(s[1..])
  }

  /** Three newlines in a row from `i` on. */
  predicate TripleAt(s: string, i: nat)
    requires i + 2 < |s|
  {
    s[i] == '\n' && s[i + 1] == '\n' && s[i + 2] == '\n'
  }

  /** No three newlines in a row. */
  predicate NoTriple(s: string)
  {
    forall i: nat :: i + 2 < |s| ==> !TripleAt(s, i)
  }

  /** The collapsed text has no three newlines in a row, and starts with the newlines of the
    * original, at most two. */
  lemma {:induction false} CollapseShape(s: string)
    ensures NoTriple(Collapse(s))
    ensures LeadNewlines(Collapse(s)) == if LeadNewlines(s) >= 3 then 2 else LeadNewlines(s)
    decreases |s|
  {
    if s != [] {
      var k := LeadNewlines(s);
      if k >= 3 {
        CollapseShape(s[k..]);
        assert LeadNewlines(s[k..]) == 0 by {
          assert k < |s| ==> s[k..][0] == s[k];
        }
        BlankLineShape(Collapse(s[k..]));
      } else {
        CollapseShape(s[1..]);
        assert s[0] == '\n' ==> LeadNewlines(s[1..]) == k - 1;
        ConsShape(s[0], Collapse(s[1..]), k);
      }
    }
  }

  /** One blank line before text that starts with no newline. */
  lemma BlankLineShape(rest: string)
    requires NoTriple(rest) && LeadNewlines(rest) == 0
    ensures NoTriple("\n\n" + rest) && LeadNewlines("\n\n" + rest) == 2
  {
    var r := "\n\n" + rest;
    assert rest == [] || rest[0] != '\n';
    forall i: nat | i + 2 < |r| ensures !TripleAt(r, i) {
      if i >= 2 {
        assert !TripleAt(rest, i - 2);
        assert r[i] == rest[i - 2] && r[i + 1] == rest[i - 1] && r[i + 2] == rest[i];
      } else {
        assert r[2] == rest[0];
      }
    }
    assert r[1..] == "\n" + rest;
    assert r[1..][1..] == rest;
  }

  /** A character before collapsed text that starts with fewer than two newlines, or with
    * at most two when the character is not a newline. */
  lemma ConsShape(c: char, rest: string, k: nat)
    requires NoTriple(rest) && k < 3
    requires c == '\n' ==> LeadNewlines(rest) == k - 1
    requires c != '\n' ==> k == 0 && LeadNewlines(rest) <= 2
    ensures NoTriple([c] + rest) && LeadNewlines([c] + rest) == k
  {
    var r := [c] + rest;
    forall i: nat | i + 2 < |r| ensures !TripleAt(r, i) {
      if i >= 1 {
        assert !TripleAt(rest, i - 1);
        assert r[i] == rest[i - 1] && r[i + 1] == rest[i] && r[i + 2] == rest[i + 1];
      } else if c == '\n' {
        assert r[1] == rest[0] && r[2] == rest[1];
      }
    }
    assert r[1..] == rest;
  }

  /** Text with no three newlines in a row is left as it is. */
  lemma {:induction false} CollapseKeeps(s: string)
    requires NoTriple(s)
    ensures Collapse(s) == s
    decreases |s|
  {
    if s != [] {
      assert |s| >= 3 ==> !TripleAt(s, 0);
      assert LeadNewlines(s) < 3;
      assert NoTriple(s[1..]) by {
        forall i: nat | i + 2 < |s[1..]| ensures !TripleAt(s[1..], i) {
          assert !TripleAt(s, i + 1);
          assert s[1..][i] == s[i + 1] && s[1..][i + 1] == s[i + 2] && s[1..][i + 2] == s[i + 3];
        }
      }
      CollapseKeeps(s[1..]);
    }
  }

  /** Collapsing changes the text exactly when it has three newlines in a row. */
  lemma CollapseFixedIff(s: string)
    ensures Collapse(s) == s <==> NoTriple(s)
  {
    CollapseShape(s);
    if NoTriple(s) {
      CollapseKeeps(s);
    }
  }

  /** A slice of text with no three newlines in a row has none either. */
  lemma NoTripleSlice(s: string, i: nat, j: nat)
    requires NoTriple(s) && i <= j <= |s|
    ensures NoTriple(s[i..j])
  {
    var t := s[i..j];
    forall p: nat | p + 2 < |t| ensures !TripleAt(t, p) {
      assert !TripleAt(s, i + p);
      assert t[p] == s[i + p] && t[p + 1] == s[i + p + 1] && t[p + 2] == s[i + p + 2];
    }
  }

  // ---------------------------------------------------------------------
  // buildUserPrompt
  // ---------------------------------------------------------------------

  const ThreadMarker: string := "{{THREAD_TEXT}}"
  const GreetingMarker: string := "{{GREETING_INSTRUCTION}}"
  const GreetingLead: string := "返信冒頭に次の宛名を一行で配置し、本文との間に空行を1行挟んでください: "

  /** The instruction for a greeting, empty without one. */
  function Instruction(greeting: Option<string>): (r: string)
    ensures r == "" <==> !Truthy(greeting)
  {
    if Truthy(greeting) then GreetingLead + greeting.value else ""
  }

  /** What one template line becomes: a thread line is cut at the placeholder and the
    * thread put between the non-empty pieces (text after a second placeholder is dropped);
    * a greeting line gets the instruction in place of the placeholder, or disappears when
    * there is no instruction or nothing but white space is left; any other line is kept. */
  function LineOut(raw: string, thread: string, instr: string): seq<string>
  {
    match IndexOf(raw, ThreadMarker)
    case Some(i) => ThreadPieces(raw[..i], SecondPiece(raw[i + |ThreadMarker|..]), thread)
    case None =>
      match IndexOf(raw, GreetingMarker)
      case Some(i) =>
        var replaced := raw[..i] + instr + raw[i + |GreetingMarker|..];
        if instr != "" && Trim(replaced) != "" then [replaced] else []
      case None => [raw]
  }

  /** The piece after the first placeholder, up to a second one. */
  function SecondPiece(rest: string): string
  {
    match IndexOf(rest, ThreadMarker) case Some(j) => rest[..j] case None => rest
  }

  /** The thread between the non-empty pieces around it. */
  function ThreadPieces(before: string, after: string, thread: string): seq<string>
  {
    (if before != "" then [before] else []) + [thread] + (if after != "" then [after] else [])
  }

  function PromptLines(raws: seq<string>, thread: string, instr: string): seq<string>
    decreases |raws|
  {
    if raws == [] then []
    else PromptLines(raws[..|raws| - 1], thread, instr) + LineOut(raws[|raws| - 1], thread, instr)
  }

  /** `buildUserPrompt` from the template's text. */
  function UserPrompt(template: string, threadText: string, greeting: Option<string>): string
  {
    var lines := PromptLines(Split(template, '\n'), UnixLines(threadText), Instruction(greeting));
    Trim(Collapse(Join(lines, "\n")))
  }

  lemma PromptLinesStep(raws: seq<string>, i: nat, thread: string, instr: string)
    requires i < |raws|
    ensures PromptLines(raws[..i + 1], thread, instr) == PromptLines(raws[..i], thread, instr) + LineOut(raws[i], thread, instr)
  {
    assert raws[..i + 1][..i] == raws[..i];
  }

  method RenderUserPrompt(template: string, threadText: string, greeting: Option<string>) returns (prompt: string)
    ensures prompt == UserPrompt(template, threadText, greeting)
  {
    var normalizedThread := UnixLines(threadText);
    var instr := Instruction(greeting);
    var raws := Split(template, '\n');
    var lines: seq<string> := [];
    for i := 0 to |raws|
      invariant lines == PromptLines(raws[..i], normalizedThread, instr)
    {
      PromptLinesStep(raws, i, normalizedThread, instr);
      lines := PushLine(lines, raws[i], normalizedThread, instr);
    }
    assert raws[..|raws|] == raws;
    prompt := Trim(Collapse(Join(lines, "\n")));
  }

  /** One turn of the template loop: the lines the template line stands for are pushed. */
  method PushLine(lines: seq<string>, rawLine: string, normalizedThread: string, instr: string)
    returns (lines': seq<string>)
    ensures lines' == lines + LineOut(rawLine, normalizedThread, instr)
  {
    lines' := lines;
    var t := IndexOf(rawLine, ThreadMarker);
    if t.Some? {
      var before := rawLine[..t.value];
      var rest := rawLine[t.value + |ThreadMarker|..];
      var after := match IndexOf(rest, ThreadMarker) case Some(j) => rest[..j] case None => rest;
      ghost var head := if before != "" then [before] else [];
      ghost var tail := if after != "" then [after] else [];
      if before != "" {
        lines' := lines' + [before];
      }
      assert lines' == lines + head;
      lines' := lines' + [normalizedThread];
      assert lines' == lines + (head + [normalizedThread]);
      if after != "" {
        lines' := lines' + [after];
      }
      assert lines' == lines + (head + [normalizedThread] + tail);
      return;
    }
    var g := IndexOf(rawLine, GreetingMarker);
    if g.Some? {
      if instr != "" {
        var replaced := rawLine[..g.value] + instr + rawLine[g.value + |GreetingMarker|..];
        if Trim(replaced) != "" {
          lines' := lines' + [replaced];
        }
      }
      return;
    }
    lines' := lines' + [rawLine];
  }

  /** Collapsed and trimmed text never holds three newlines in a row and has no white
    * space around it. */
  lemma CollapsedTrimmedClean(s: string)
    ensures NoTriple(Trim(Collapse(s))) && Trim(Trim(Collapse(s))) == Trim(Collapse(s))
  {
    CollapseShape(s);
    TrimKeepsNoTriple(Collapse(s));
    TrimIdempotent(Collapse(s));
  }

  lemma TrimKeepsNoTriple(c: string)
    requires NoTriple(c)
    ensures NoTriple(Trim(c))
  {
    TrimIsSlice(c);
    var o := TrimOffset(c);
    var t := Trim(c);
    assert t == c[o..o + |t|];
    NoTripleSlice(c, o, o + |t|);
  }

  /** The prompt never holds three newlines in a row and has no white space around it. */
  lemma UserPromptClean(template: string, threadText: string, greeting: Option<string>)
    ensures var p := UserPrompt(template, threadText, greeting);
      NoTriple(p) && Trim(p) == p
  {
    var lines := PromptLines(Split(template, '\n'), UnixLines(threadText), Instruction(greeting));
    CollapsedTrimmedClean(Join(lines, "\n"));
  }

  /** No line holds a placeholder. */
  predicate NoPlaceholders(raws: seq<string>)
  {
    forall k :: 0 <= k < |raws| ==> !Contains(raws[k], ThreadMarker) && !Contains(raws[k], GreetingMarker)
  }

  /** Lines without placeholders are kept as they are. */
  lemma {:induction false} PlainLinesKept(raws: seq<string>, thread: string, instr: string)
    requires NoPlaceholders(raws)
    ensures PromptLines(raws, thread, instr) == raws
    decreases |raws|
  {
    if raws != [] {
      var init := raws[..|raws| - 1];
      PlainLinesKept(init, thread, instr);
      assert raws == init + [raws[|raws| - 1]];
    }
  }

  /** A template without placeholders and without three newlines in a row is the prompt,
    * trimmed, whatever the thread and the greeting. */
  lemma PlainTemplate(template: string, threadText: string, greeting: Option<string>)
    requires NoPlaceholders(Split(template, '\n')) && NoTriple(template)
    ensures UserPrompt(template, threadText, greeting) == Trim(template)
  {
    PlainLinesKept(Split(template, '\n'), UnixLines(threadText), Instruction(greeting));
    CollapseKeeps(template);
  }

  /** A greeting line without a greeting disappears. */
  lemma GreetingLineDropped(raw: string, thread: string)
    requires !Contains(raw, ThreadMarker) && Contains(raw, GreetingMarker)
    ensures LineOut(raw, thread, Instruction(None)) == []
  {
  }

  /** A greeting line with a greeting holds the instruction where the placeholder was. */
  lemma GreetingLineFilled(raw: string, thread: string, greeting: Option<string>)
    requires !Contains(raw, ThreadMarker) && Contains(raw, GreetingMarker) && Truthy(greeting)
    ensures var i := IndexOf(raw, GreetingMarker).value;
      LineOut(raw, thread, Instruction(greeting)) == [raw[..i] + Instruction(greeting) + raw[i + |GreetingMarker|..]]
  {
    var i := IndexOf(raw, GreetingMarker).value;
    var instr := Instruction(greeting);
    var replaced := raw[..i] + instr + raw[i + |GreetingMarker|..];
    assert instr[0] == GreetingLead[0] == '返';
    assert replaced[i] == instr[0];
    assert !AllSpace(replaced);
  }

  // ---------------------------------------------------------------------
  // the prompt templates
  // ---------------------------------------------------------------------

  datatype PromptKey = SystemKey | UserKey

  /** The `promptCache`: a template per key once one has been loaded. */
  class PromptCache {
    var system: Option<string>
    var user: Option<string>

    constructor ()
      ensures system == None && user == None
    {
      system := None;
      user := None;
    }

    function Cached(key: PromptKey): Option<string>
      reads this
    {
      if key == SystemKey then system else user
    }

    /** `loadPromptTemplate`: a cached template wins; otherwise the file (`None` when it is
      * missing or unreadable) with CRLF made LF, unless it is blank, else the fallback; what
      * is returned is cached. */
    method LoadPromptTemplate(key: PromptKey, fallback: string, file: Option<string>) returns (t: string)
      modifies this
      ensures Truthy(old(Cached(key))) ==> t == old(Cached(key)).value && Cached(key) == old(Cached(key))
      ensures !Truthy(old(Cached(key))) ==>
        t == (if file.Some? && Trim(UnixLines(file.value)) != "" then UnixLines(file.value) else fallback)
        && Cached(key) == Some(t)
      ensures key == SystemKey ==> user == old(user)
      ensures key == UserKey ==> system == old(system)
    {
      var cached := if key == SystemKey then system else user;
      if cached.Some? && cached.value != "" {
        return cached.value;
      }
      t := fallback;
      if file.Some? {
        var raw := UnixLines(file.value);
        if Trim(raw) != "" {
          t := raw;
        }
      }
      if key == SystemKey {
        system := Some(t);
      } else {
        user := Some(t);
      }
    }
  }

  // ---------------------------------------------------------------------
  // generateDraftBody
  // ---------------------------------------------------------------------

  /** The draft body made of the model's answer: trimmed, the greeting made to lead, the
    * signature appended. */
  function DraftBody(answer: string, greeting: Option<string>, signatureOverride: Option<string>,
                     envSignature: Option<string>): (r: string)
    ensures var withGreeting := EnsureGreeting(Trim(answer), greeting);
      var raw := SignatureSource(signatureOverride, envSignature);
      (!Truthy(raw) ==> r == withGreeting)
      && (Truthy(raw) ==> StartsWith(r, TrimEnd(withGreeting)) && EndsWith(r, NormalizeSignature(raw.value)))
  {
    var withGreeting := EnsureGreeting(Trim(answer), greeting);
    var raw := SignatureSource(signatureOverride, envSignature);
    ConcatEnds(TrimEnd(withGreeting), if TrimEnd(withGreeting) == "" then "" else "\n\n",
               if Truthy(raw) then NormalizeSignature(raw.value) else "");
    AppendSignature(withGreeting, signatureOverride, envSignature)
  }

  lemma ConcatEnds(a: string, sep: string, b: string)
    ensures StartsWith(a + sep + b, a) && EndsWith(a + sep + b, b)
  {
    var r := a + sep + b;
    assert r[..|a|] == a;
    assert r[|r| - |b|..] == b;
  }

  /** Without a signature, a draft written with a one-line greeting starts with it. */
  lemma DraftLeadsWithGreeting(answer: string, greeting: Option<string>, signatureOverride: Option<string>,
                               envSignature: Option<string>)
    requires Truthy(greeting) && Trim(greeting.value) != "" && '\n' !in greeting.value
    requires !Truthy(SignatureSource(signatureOverride, envSignature))
    ensures LeadsWith(DraftBody(answer, greeting, signatureOverride, envSignature), Trim(greeting.value))
  {
    GreetingLeads(Trim(answer), greeting);
  }
}
