/**
 * The text-level rules of the chat message handler: the environment flag
 * test, the clean-up of an incoming message (mentions removed, white space
 * normalised), the inspection of a model response for tool calls and for
 * Gmail listing tools, whether a message starts a new conversation, the
 * per-user conversation history, and the one-time warning about missing
 * read-only Gmail tools.
 */
module SlackMessageHandler {
  import opened Wrappers
  import opened Strings
  import opened MailActionsConfig
  import opened Greeting

  // ---------------------------------------------------------------------
  // isTruthyEnv
  // ---------------------------------------------------------------------

  /** `isTruthyEnv`: a set, non-empty value that, trimmed, is one of the accepted words in
    * any letter case. */
  function IsTruthyEnv(value: Option<string>): (b: bool)
    ensures !Truthy(value) ==> !b
  {
    Truthy(value) && TruthyWord(Trim(value.value))
  }

  /** A set value is the flag exactly when `boolEnv`'s word test accepts it trimmed; the
    * empty value is no word. */
  lemma TruthyEnvAsBoolEnv(s: string)
    ensures IsTruthyEnv(Some(s)) <==> BoolEnv(Some(Trim(s)), false)
  {
    if s == "" {
      assert Trim(s) == "" && Lower("") == "";
    }
  }

  /** Padding never changes the flag. */
  lemma TruthyEnvIgnoresPadding(s: string)
    ensures IsTruthyEnv(Some(s)) == IsTruthyEnv(Some(Trim(s)))
  {
    TrimIdempotent(s);
  }

  // ---------------------------------------------------------------------
  // preprocessMessage
  // ---------------------------------------------------------------------

  /** `[A-Z0-9]`: a character of a user id in a mention. */
  predicate MentionIdChar(c: char)
  {
    'A' <= c <= 'Z' || '0' <= c <= '9'
  }

  /** The end of the run of user-id characters from `j`. */
  function IdRunEnd(s: string, j: nat): (k: nat)
    requires j <= |s|
    ensures j <= k <= |s| && (k == |s| || !MentionIdChar(s[k]))
    ensures forall m :: j <= m < k ==> MentionIdChar(s[m])
    decreases |s| - j
  {
    if j < |s| && MentionIdChar(s[j]) then IdRunEnd(s, j + 1) else j
  }

  /** Where a mention `<@[A-Z0-9]+>` starting at `i` ends, if one does. */
  function MentionEnd(s: string, i: nat): (e: Option<nat>)
    requires i <= |s|
    ensures e.Some? ==> i + 4 <= e.value <= |s| && s[i] == '<'
  {
    if i + 1 < |s| && s[i] == '<' && s[i + 1] == '@' then
      var k := IdRunEnd(s, i + 2);
      if k > i + 2 && k < |s| && s[k] == '>' then Some(k + 1) else None
    else None
  }

  /** `replace(/<@[A-Z0-9]+>/g, '')`: mentions removed in one left-to-right pass. */
  function RemoveMentions(s: string): (r: string)
    ensures |r| <= |s|
    decreases |s|
  {
    if s == [] then []
    else
      match MentionEnd(s, 0)
      case Some(e) => RemoveMentions(s[e..])
      case None => [s[0]] + RemoveMentions(s[1..])
  }

  /** `preprocessMessage`: mentions removed, trimmed, white-space runs made one space. */
  function PreprocessMessage(text: string): (r: string)
    ensures Normal(r)
  {
    var t := Trim(RemoveMentions(text));
    CollapseTrimmedNormal(t);
    CollapseSpaces(t)
  }

  /** Collapsing trimmed text gives normal text. */
  lemma CollapseTrimmedNormal(t: string)
    requires t == [] || (!IsSpace(t[0]) && !IsSpace(t[|t| - 1]))
    ensures Normal(CollapseSpaces(t))
  {
    CollapseEnds(t);
  }

  /** Collapsing keeps white space at the ends exactly where it was. */
  lemma {:induction false} CollapseEnds(s: string)
    ensures var r := CollapseSpaces(s);
      r != [] ==> (IsSpace(r[0]) <==> IsSpace(s[0])) && (IsSpace(r[|r| - 1]) <==> IsSpace(s[|s| - 1]))
    decreases |s|
  {
    if s != [] {
      if IsSpace(s[0]) {
        var k := SkipSpaces(s, 0);
        CollapseEnds(s[k..]);
        if k == |s| {
          assert IsSpace(s[|s| - 1]);
        } else {
          assert s[k..][|s[k..]| - 1] == s[|s| - 1];
        }
      } else {
        CollapseEnds(s[1..]);
        if |s| > 1 {
          assert s[1..][|s[1..]| - 1] == s[|s| - 1];
        }
      }
    }
  }

  /** Text without `<` has no mention and is kept whole. */
  lemma {:induction false} NoMentionKept(s: string)
    requires '<' !in s
    ensures RemoveMentions(s) == s
    decreases |s|
  {
    if s != [] {
      assert s[0] in s;
      assert forall c :: c in s[1..] ==> c in s;
      NoMentionKept(s[1..]);
      assert [s[0]] + s[1..] == s;
    }
  }

  /** A leading mention is removed and the rest is treated as if it were alone. */
  lemma LeadingMentionRemoved(id: string, rest: string)
    requires id != [] && forall i :: 0 <= i < |id| ==> MentionIdChar(id[i])
    ensures RemoveMentions("<@" + id + ">" + rest) == RemoveMentions(rest)
  {
    var s := "<@" + id + ">" + rest;
    assert forall i :: 2 <= i < 2 + |id| ==> s[i] == id[i - 2];
    IdRunAt(s, 2, 2 + |id|);
    assert s[2 + |id|..] == ">" + rest;
    assert MentionEnd(s, 0) == Some(3 + |id|);
    assert s[3 + |id|..] == rest;
  }

  lemma {:induction false} IdRunAt(s: string, j: nat, k: nat)
    requires j <= k < |s| && !MentionIdChar(s[k])
    requires forall m :: j <= m < k ==> MentionIdChar(s[m])
    ensures IdRunEnd(s, j) == k
    decreases k - j
  {
    if j < k {
      IdRunAt(s, j + 1, k);
    }
  }

  /** A message already clean (no mention sign, normal white space) comes out as it went in. */
  lemma CleanMessageKept(text: string)
    requires '<' !in text && Normal(text)
    ensures PreprocessMessage(text) == text
  {
    NoMentionKept(text);
    assert text == [] || (!IsSpace(text[0]) && !IsSpace(text[|text| - 1]));
    TrimKeepsTrimmed(text);
    assert forall i :: 0 <= i < |text| && IsSpace(text[i]) ==> text[i] == ' ';
    assert forall i :: 0 <= i < |text| - 1 ==> !RepeatAt(text, ' ', i);
    CollapseKeepsSpaced(text);
    PreprocessFixed(text, text);
  }

  lemma PreprocessFixed(text: string, m: string)
    requires RemoveMentions(text) == m && Trim(m) == m && CollapseSpaces(m) == m
    ensures PreprocessMessage(text) == m
  {
  }

  /** Preprocessing a clean result again changes nothing. */
  lemma PreprocessIdempotent(text: string)
    requires '<' !in PreprocessMessage(text)
    ensures PreprocessMessage(PreprocessMessage(text)) == PreprocessMessage(text)
  {
    CleanMessageKept(PreprocessMessage(text));
  }

  // ---------------------------------------------------------------------
  // didUseTool, pickGmailListTools
  // ---------------------------------------------------------------------

  /** An entry of a `tools` list. */
  datatype ToolInfo = ToolInfo(name: Option<string>)

  /** An entry of a model response's `output`. */
  datatype OutputEntry = OutputEntry(kind: Option<string>, serverLabel: Option<string>, tools: seq<ToolInfo>)

  /** `entry?.type || ''` is neither `message` nor `mcp_list_tools`: an entry without a type
    * counts too. */
  predicate CallsTool(e: OutputEntry)
  {
    var t := e.kind.UnwrapOr("");
    t != "message" && t != "mcp_list_tools"
  }

  /** `didUseTool`: some output entry is a tool call. */
  method DidUseTool(output: seq<OutputEntry>) returns (used: bool)
    ensures used <==> exists k :: 0 <= k < |output| && CallsTool(output[k])
  {
    for i := 0 to |output|
      invariant forall k :: 0 <= k < i ==> !CallsTool(output[k])
    {
      var t := output[i].kind.UnwrapOr("");
      if t != "message" && t != "mcp_list_tools" {
        return true;
      }
    }
    return false;
  }

  /** `entry.type === 'mcp_list_tools' && /gmail/i.test(entry.server_label || '')`. */
  predicate GmailToolList(e: OutputEntry)
  {
    e.kind == Some("mcp_list_tools") && Contains(Lower(e.serverLabel.UnwrapOr("")), "gmail")
  }

  const ListWords: seq<string> := ["list", "search", "messages", "threads", "get_thread", "getthread",
                                   "get_message", "getmessage", "find"]

  /** `/(list|search|messages|threads|get_?thread|get_?message|find)/i`. */
  predicate ListToolName(name: string)
  {
    ContainsAny(Lower(name), ListWords)
  }

  /** The listing tools of one tool list, in order. */
  function ListNames(tools: seq<ToolInfo>): seq<string>
    decreases |tools|
  {
    if tools == [] then []
    else
      var n := |tools| - 1;
      var name := tools[n].name.UnwrapOr("");
      ListNames(tools[..n]) + (if ListToolName(name) then [name] else [])
  }

  /** The listing tools of every Gmail tool list, in order, with repeats. */
  function Candidates(output: seq<OutputEntry>): seq<string>
    decreases |output|
  {
    if output == [] then []
    else
      var n := |output| - 1;
      Candidates(output[..n]) + (if GmailToolList(output[n]) then ListNames(output[n].tools) else [])
  }

  /** Only listing tools are collected. */
  lemma {:induction false} ListNamesAreListTools(tools: seq<ToolInfo>)
    ensures forall k :: 0 <= k < |ListNames(tools)| ==> ListToolName(ListNames(tools)[k])
    decreases |tools|
  {
    if tools != [] {
      ListNamesAreListTools(tools[..|tools| - 1]);
    }
  }

  lemma {:induction false} CandidatesAreListTools(output: seq<OutputEntry>)
    ensures forall k :: 0 <= k < |Candidates(output)| ==> ListToolName(Candidates(output)[k])
    decreases |output|
  {
    if output != [] {
      var n := |output| - 1;
      CandidatesAreListTools(output[..n]);
      ListNamesAreListTools(output[n].tools);
    }
  }

  /** `Array.from(new Set(names))`: each name once, at its first position. */
  function Dedupe(names: seq<string>): seq<string>
    decreases |names|
  {
    if names == [] then []
    else
      var n := |names| - 1;
      var prev := Dedupe(names[..n]);
      if names[n] in prev then prev else prev + [names[n]]
  }

  /** The names kept are the names given. */
  lemma {:induction false} DedupeSameNames(names: seq<string>)
    ensures forall x :: x in Dedupe(names) <==> x in names
    decreases |names|
  {
    if names != [] {
      var n := |names| - 1;
      DedupeSameNames(names[..n]);
      assert names == names[..n] + [names[n]];
    }
  }

  /** No name is kept twice. */
  lemma {:induction false} DedupeDistinct(names: seq<string>)
    ensures forall i, j :: 0 <= i < j < |Dedupe(names)| ==> Dedupe(names)[i] != Dedupe(names)[j]
    decreases |names|
  {
    if names != [] {
      var n := |names| - 1;
      DedupeDistinct(names[..n]);
    }
  }

  /** Names already without repeats are kept as they are. */
  lemma {:induction false} DedupeKeepsDistinct(names: seq<string>)
    requires forall i, j :: 0 <= i < j < |names| ==> names[i] != names[j]
    ensures Dedupe(names) == names
    decreases |names|
  {
    if names != [] {
      var n := |names| - 1;
      DedupeKeepsDistinct(names[..n]);
      assert names[n] !in names[..n] by {
        forall i | 0 <= i < n ensures names[..n][i] != names[n] {
        }
      }
      assert names[..n] + [names[n]] == names;
    }
  }

  /** `pickGmailListTools`: the listing tools offered by Gmail tool lists, each once. */
  method PickGmailListTools(output: seq<OutputEntry>) returns (picked: seq<string>)
    ensures picked == Dedupe(Candidates(output))
  {
    var names: seq<string> := [];
    for i := 0 to |output|
      invariant names == Candidates(output[..i])
    {
      assert output[..i + 1][..i] == output[..i];
      if GmailToolList(output[i]) {
        var listed := PushListNames(names, output[i].tools);
        names := listed;
      }
    }
    assert output[..|output|] == output;
    picked := [];
    for k := 0 to |names|
      invariant picked == Dedupe(names[..k])
    {
      assert names[..k + 1][..k] == names[..k];
      if names[k] !in picked {
        picked := picked + [names[k]];
      }
    }
    assert names[..|names|] == names;
  }

  /** The inner loop: the listing tools of one tool list pushed onto `names`. */
  method PushListNames(names: seq<string>, tools: seq<ToolInfo>) returns (names': seq<string>)
    ensures names' == names + ListNames(tools)
  {
    names' := names;
    for j := 0 to |tools|
      invariant names' == names + ListNames(tools[..j])
    {
      assert tools[..j + 1][..j] == tools[..j];
      var name := tools[j].name.UnwrapOr("");
      if ListToolName(name) {
        names' := names' + [name];
      }
    }
    assert tools[..|tools|] == tools;
  }

  /** Every picked tool is a listing tool, each appears once, and every listing tool of a
    * Gmail tool list is picked. */
  lemma PickedTools(output: seq<OutputEntry>)
    ensures var p := Dedupe(Candidates(output));
      (forall k :: 0 <= k < |p| ==> ListToolName(p[k]))
      && (forall i, j :: 0 <= i < j < |p| ==> p[i] != p[j])
      && (forall x :: x in p <==> x in Candidates(output))
  {
    var c := Candidates(output);
    CandidatesAreListTools(output);
    DedupeSameNames(c);
    DedupeDistinct(c);
    forall k | 0 <= k < |Dedupe(c)| ensures ListToolName(Dedupe(c)[k]) {
      assert Dedupe(c)[k] in c;
    }
  }

  // ---------------------------------------------------------------------
  // isStartMessage and the conversation history
  // ---------------------------------------------------------------------

  const MailKeywords: seq<string> := ["下書き", "送信", "ラベル", "メール"]

  /** `/(下書き|送信|ラベル|メール)/.test(text)`. */
  predicate HasMailKeyword(text: string)
  {
    ContainsAny(text, MailKeywords)
  }

  /** `isStartMessage`: a message about mail, or the user's first one. */
  predicate IsStartMessage(text: string, history: Option<seq<string>>)
  {
    HasMailKeyword(text) || history.None? || history.value == []
  }

  /** The entry a follow-up message adds to the history. */
  function FollowUp(text: string): string
  {
    "\n---\n" + text + "\n---"
  }

  /** The per-user conversation history (the store's own source is not part of this
    * model; it is taken to be a map from user id to that user's entries). */
  class ConversationHistory {
    var histories: map<string, seq<string>>

    constructor ()
      ensures histories == map[]
    {
      histories := map[];
    }

    function GetHistory(userId: string): (r: Option<seq<string>>)
      reads this
      ensures r.Some? <==> userId in histories
      ensures r.Some? ==> r.value == histories[userId]
    {
      if userId in histories then Some(histories[userId]) else None
    }

    /** A starting message resets the user's history to the system prompt built for it; any
      * other is appended, between separators. */
    method Record(userId: string, text: string, systemPrompt: string) returns (start: bool)
      modifies this
      ensures start == IsStartMessage(text, old(GetHistory(userId)))
      ensures histories == old(histories)[userId :=
        if start then [systemPrompt]
        else old(GetHistory(userId)).UnwrapOr([]) + [FollowUp(text)]]
    {
      start := IsStartMessage(text, GetHistory(userId));
      if start {
        histories := histories[userId := [systemPrompt]];
      } else {
        var mine := if userId in histories then histories[userId] else [];
        histories := histories[userId := mine + [FollowUp(text)]];
      }
    }
  }

  /** After any message the user has a history, so the next message starts a new
    * conversation exactly when it is about mail. */
  lemma NextStartsOnlyOnKeyword(history: Option<seq<string>>, text: string, systemPrompt: string, next: string)
    ensures var after := if IsStartMessage(text, history) then [systemPrompt]
                         else history.UnwrapOr([]) + [FollowUp(text)];
      IsStartMessage(next, Some(after)) <==> HasMailKeyword(next)
  {
  }

  // ---------------------------------------------------------------------
  // maybeWarnMissingGmailTools
  // ---------------------------------------------------------------------

  /** The cached tool status, as far as the warning reads it. */
  datatype ToolsStatus = ToolsStatus(gmailHasReadOnly: bool)

  /** The users already warned (`warnedUsers`). */
  class ToolWarnings {
    var warned: set<string>

    constructor ()
      ensures warned == {}
    {
      warned := {};
    }

    /** `maybeWarnMissingGmailTools`: with a known status lacking read-only Gmail tools, a
      * message in a channel warns its user, once. */
    method MaybeWarn(status: Option<ToolsStatus>, userId: string, channel: Option<string>) returns (warnedNow: bool)
      modifies this
      ensures warnedNow <==> status.Some? && !status.value.gmailHasReadOnly && Truthy(channel) && userId !in old(warned)
      ensures warned == if warnedNow then old(warned) + {userId} else old(warned)
    {
      if status.None? || status.value.gmailHasReadOnly {
        return false;
      }
      if !Truthy(channel) || userId in warned {
        return false;
      }
      warned := warned + {userId};
      return true;
    }
  }
}
