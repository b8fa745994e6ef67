/**
 * The text helpers of the auto-draft worker: the reply subject, the recipient
 * address and display name taken from a `From` header, the greeting line at the
 * top of the generated body, the signature at its foot, and the heuristics that
 * skip automatic or bounced mail.
 */
module DraftText {
  import opened Wrappers
  import opened Strings
  import opened TextUtils
  import Mime

  // ---------------------------------------------------------------------
  // ensureReplySubject
  // ---------------------------------------------------------------------

  /** `/^\s*Re:/i`: after leading white space, `re:` in any letter case. */
  predicate HasReplyPrefix(s: string)
  {
    var k := SkipSpaces(s, 0);
    k + 3 <= |s| && Lower(s[k..k + 3]) == "re:"
  }

  /** `ensureReplySubject`: a subject already marked as a reply is kept, any other
    * (a missing one counting as empty) gets `Re: ` in front. */
  function EnsureReplySubject(subject: Option<string>): (r: string)
    ensures HasReplyPrefix(r)
    ensures EndsWith(r, subject.UnwrapOr(""))
    ensures r == subject.UnwrapOr("") <==> HasReplyPrefix(subject.UnwrapOr(""))
  {
    var s := subject.UnwrapOr("");
    if HasReplyPrefix(s) then s
    else
      var r := "Re: " + s;
      assert SkipSpaces(r, 0) == 0;
      assert Lower(r[0..3]) == "re:";
      assert r[|r| - |s|..] == s;
      r
  }

  /** Marking a subject as a reply twice marks it once. */
  lemma ReplySubjectIdempotent(subject: Option<string>)
    ensures EnsureReplySubject(Some(EnsureReplySubject(subject))) == EnsureReplySubject(subject)
  {
  }

  // ---------------------------------------------------------------------
  // isValidEmail, extractEmail
  // ---------------------------------------------------------------------

  /** `isValidEmail`: the trimmed value is non-empty and the anchored pattern
    * `^[a-zA-Z0-9._%+-]+@[a-zA-Z0-9.-]+\.[a-zA-Z]{2,}$` accepts it whole. */
  predicate IsValidEmail(value: string)
  {
    var t := Trim(value);
    t != "" && MatchAt(t, 0).Some? && MatchAt(t, 0).value.Text() == t
  }

  /** A value is valid exactly when its trimmed text is a well-formed address. */
  lemma ValidIffAddress(value: string)
    ensures IsValidEmail(value) <==> exists a: Address :: a.WellFormed() && a.Text() == Trim(value)
  {
    var t := Trim(value);
    if IsValidEmail(value) {
      MatchAtSound(t, 0);
    }
    if exists a: Address :: a.WellFormed() && a.Text() == t {
      var a: Address :| a.WellFormed() && a.Text() == t;
      MatchWholeAddress(a);
    }
  }

  /** The characters an address is made of. */
  predicate AddressChar(c: char)
  {
    InClass(c, LocalPart) || c == '@'
  }

  lemma AddressChars(a: Address)
    requires a.WellFormed()
    ensures forall i :: 0 <= i < |a.Text()| ==> AddressChar(a.Text()[i])
  {
    var e := a.Text();
    var l := |a.local|;
    var d := |a.domain|;
    forall i | 0 <= i < |e| ensures AddressChar(e[i]) {
      if i < l {
        assert e[i] == a.local[i];
      } else if l < i < l + 1 + d {
        assert e[i] == a.domain[i - l - 1];
      } else if l + 1 + d < i {
        assert e[i] == a.tld[i - l - 2 - d];
      }
    }
  }

  /** None of the characters that delimit a header occurs in an address. */
  lemma AddressAvoids(a: Address)
    requires a.WellFormed()
    ensures '<' !in a.Text() && '>' !in a.Text() && ',' !in a.Text()
    ensures '=' !in a.Text() && '"' !in a.Text()
  {
    var e := a.Text();
    AddressChars(a);
    forall i | 0 <= i < |e| ensures e[i] != '<' && e[i] != '>' && e[i] != ',' && e[i] != '=' && e[i] != '"' {
      assert AddressChar(e[i]);
    }
  }

  /** A well-formed address is valid on its own, and it is already trimmed. */
  lemma AddressIsValid(a: Address)
    requires a.WellFormed()
    ensures Trim(a.Text()) == a.Text() && IsValidEmail(a.Text())
  {
    var e := a.Text();
    assert e[0] == a.local[0];
    assert e[|e| - 1] == a.tld[|a.tld| - 1];
    TrimKeepsTrimmed(e);
    MatchWholeAddress(a);
  }

  /** `extractEmail`: the `<…>` address when it is valid (as captured, untrimmed), else
    * the whole trimmed text when it is valid, else the first address found inside the
    * text; nothing for a missing or blank header. */
  function ExtractEmail(addr: Option<string>): (r: Option<string>)
    ensures r.Some? ==> IsValidEmail(r.value)
    ensures !Truthy(addr) || Trim(addr.value) == "" ==> r.None?
  {
    if !Truthy(addr) then None
    else
      var text := Trim(addr.value);
      if text == "" then None
      else
        var angle := EnclosedFrom(text, '<', '>', 0);
        if angle.Some? && IsValidEmail(angle.value) then angle
        else if IsValidEmail(text) then Some(text)
        else FirstAddressIn(text)
  }

  /** A header in which an address can be found yields one. */
  lemma ExtractFindsAddress(addr: Option<string>)
    requires Truthy(addr) && Trim(addr.value) != "" && FirstMatch(Trim(addr.value), 0).Some?
    ensures ExtractEmail(addr).Some?
  {
    var text := Trim(addr.value);
    var angle := EnclosedFrom(text, '<', '>', 0);
    if !(angle.Some? && IsValidEmail(angle.value)) && !IsValidEmail(text) {
      assert ExtractEmail(addr) == FirstAddressIn(text);
    }
  }

  /** The last resort of `extractEmail`: the first address found inside the text, when
    * it is valid. */
  function FirstAddressIn(text: string): (r: Option<string>)
    ensures r.Some? ==> IsValidEmail(r.value)
    ensures FirstMatch(text, 0).Some? ==> r.Some?
  {
    match FirstMatch(text, 0)
    case Some((p, a)) =>
      MatchAtSound(text, p);
      AddressIsValid(a);
      if IsValidEmail(a.Text()) then Some(a.Text()) else None
    case None => None
  }

  /** A valid `<…>` capture in the trimmed header is what is extracted. */
  lemma ExtractTakesAngle(addr: string, x: string)
    requires Trim(addr) != "" && EnclosedFrom(Trim(addr), '<', '>', 0) == Some(x) && IsValidEmail(x)
    ensures ExtractEmail(Some(addr)) == Some(x)
  {
  }

  /** Without a `<…>` capture, a valid trimmed header is extracted whole. */
  lemma ExtractTakesText(addr: string)
    requires Trim(addr) != "" && EnclosedFrom(Trim(addr), '<', '>', 0).None? && IsValidEmail(Trim(addr))
    ensures ExtractEmail(Some(addr)) == Some(Trim(addr))
  {
  }

  /** A trimmed header whose `<…>` capture is a valid address yields that address. */
  lemma ExtractFromAngled(s: string, e: string)
    requires s != "" && Trim(s) == s && EnclosedFrom(s, '<', '>', 0) == Some(e) && IsValidEmail(e)
    ensures ExtractEmail(Some(s)) == Some(e)
  {
    ExtractTakesAngle(s, e);
  }

  /** `Name <address>` yields the address. */
  lemma ExtractFromNameAddr(name: string, a: Address)
    requires a.WellFormed() && '<' !in name && (name == [] || !IsSpace(name[0]))
    ensures ExtractEmail(Some(name + "<" + a.Text() + ">")) == Some(a.Text())
  {
    var e := a.Text();
    AddressAvoids(a);
    AddressIsValid(a);
    EnclosedAfterPrefix(name, e, '<', '>', 0);
    var s := name + ['<'] + e + ['>'];
    assert s == name + "<" + e + ">";
    assert s[0] == (if name == [] then '<' else name[0]);
    assert s[|s| - 1] == '>';
    TrimKeepsTrimmed(s);
    ExtractFromAngled(s, e);
  }

  /** A bare address yields itself. */
  lemma ExtractBareAddress(a: Address)
    requires a.WellFormed()
    ensures ExtractEmail(Some(a.Text())) == Some(a.Text())
  {
    AddressIsValid(a);
    AddressAvoids(a);
    ExtractTakesText(a.Text());
  }

  // ---------------------------------------------------------------------
  // extractDisplayName
  // ---------------------------------------------------------------------

  /** `replace(/<[^>]+>/g, '')`: every `<…>` with at least one character inside is
    * removed, scanning left to right. */
  function RemoveTags(s: string): (r: string)
    ensures |r| <= |s|
    decreases |s|
  {
    if s == [] then []
    else if s[0] == '<' then
      match IndexOfChar(s[1..], '>')
      case Some(k) => if k > 0 then RemoveTags(s[k + 2..]) else [s[0]] + RemoveTags(s[1..])
      case None => [s[0]] + RemoveTags(s[1..])
    else [s[0]] + RemoveTags(s[1..])
  }

  /** `replace(/["']/g, '')`. */
  function RemoveQuotes(s: string): (r: string)
    ensures '"' !in r && '\'' !in r
    ensures '"' !in s && '\'' !in s ==> r == s
    decreases |s|
  {
    if s == [] then []
    else (if s[0] == '"' || s[0] == '\'' then [] else [s[0]]) + RemoveQuotes(s[1..])
  }

  /** `/^[^@<>]+@[^@<>]+$/`: exactly one `@`, with text on both sides and no angle
    * bracket anywhere. */
  predicate AddressShaped(s: string)
  {
    match IndexOfChar(s, '@')
    case None => false
    case Some(i) => 0 < i < |s| - 1 && '@' !in s[i + 1..] && '<' !in s && '>' !in s
  }

  /** Trimming keeps only characters of the text. */
  lemma TrimKeepsOut(s: string, c: char)
    requires c !in s
    ensures c !in Trim(s)
  {
    TrimIsSlice(s);
    var o := TrimOffset(s);
    assert forall i :: 0 <= i < |Trim(s)| ==> Trim(s)[i] == s[o + i];
  }

  /** `extractDisplayName`: from the first comma-separated address, MIME words decoded
    * and trimmed, the first `"…"` part when there is one, `<…>` parts removed, then
    * every quote; nothing when that leaves no text or only an address. */
  function ExtractDisplayName(addr: Option<string>, codec: Mime.Codec): (r: Option<string>)
    ensures r.Some? ==> r.value != "" && Trim(r.value) == r.value
    ensures r.Some? ==> '"' !in r.value && '\'' !in r.value && !AddressShaped(r.value)
    ensures !Truthy(addr) ==> r.None?
  {
    if !Truthy(addr) then None
    else
      var primary := Split(addr.value, ',')[0];
      var decoded := Trim(Mime.DecodeMimeWords(Some(primary), codec));
      var named := match EnclosedFrom(decoded, '"', '"', 0) case Some(q) => q case None => decoded;
      var untagged := if '<' in named then Trim(RemoveTags(named)) else named;
      var bare := Trim(RemoveQuotes(untagged));
      TrimIdempotent(RemoveQuotes(untagged));
      TrimKeepsOut(RemoveQuotes(untagged), '"');
      TrimKeepsOut(RemoveQuotes(untagged), '\'');
      if bare == "" || AddressShaped(bare) then None else Some(bare)
  }

  /** `RemoveTags` copies text without `<` and goes on after it. */
  lemma {:induction false} RemoveTagsAfterPlain(s: string, k: nat)
    requires k <= |s| && '<' !in s[..k]
    ensures RemoveTags(s) == s[..k] + RemoveTags(s[k..])
    decreases k
  {
    if k > 0 {
      assert s[0] == s[..k][0];
      assert RemoveTags(s) == [s[0]] + RemoveTags(s[1..]);
      assert s[1..][..k - 1] == s[1..k];
      assert '<' !in s[1..][..k - 1];
      RemoveTagsAfterPlain(s[1..], k - 1);
      assert s[1..][k - 1..] == s[k..];
      assert s[..k] == [s[0]] + s[1..k];
    }
  }

  /** One tag is removed whole. */
  lemma RemoveOneTag(inner: string)
    requires inner != [] && '>' !in inner
    ensures RemoveTags("<" + inner + ">") == ""
  {
    var s := "<" + inner + ">";
    var after := s[1..];
    assert after == inner + ">";
    assert after[|inner|] == '>';
    forall j | 0 <= j < |inner| ensures after[j] != '>' {
      assert after[j] == inner[j];
    }
    var k := IndexOfChar(after, '>');
    assert k.Some?;
    forall j | 0 <= j < k.value ensures after[j] != '>' {
      assert after[..k.value][j] == after[j];
    }
    assert k == Some(|inner|);
    assert s[|inner| + 2..] == [];
  }

  /** Trimming a trimmed name followed by a space gives the name back. */
  lemma TrimNameSpace(n: string)
    requires n != [] && !IsSpace(n[0]) && !IsSpace(n[|n| - 1])
    ensures Trim(n + " ") == n
  {
    var s := n + " ";
    assert TrimStart(s) == s;
    assert s[..|s| - 1] == n;
    assert TrimEnd(n) == n;
  }

  /** Plain text of one address header: no comma, quote, angle bracket or `=`. */
  predicate PlainName(n: string)
  {
    n != [] && !IsSpace(n[0]) && !IsSpace(n[|n| - 1])
    && forall i :: 0 <= i < |n| ==> n[i] !in ",<>\"'@="
  }

  /** The header `Name <address>` as a mail client writes it. */
  function NameAddr(n: string, a: Address): string
  {
    n + " <" + a.Text() + ">"
  }

  /** The header text reaches the tag removal unchanged. */
  lemma NameAddrDecodes(n: string, a: Address, codec: Mime.Codec)
    requires PlainName(n) && a.WellFormed()
    ensures var s := NameAddr(n, a);
      Split(s, ',')[0] == s && Trim(Mime.DecodeMimeWords(Some(s), codec)) == s
      && EnclosedFrom(s, '"', '"', 0).None? && '<' in s
  {
    var e := a.Text();
    var s := NameAddr(n, a);
    AddressAvoids(a);
    forall i | 0 <= i < |s| ensures s[i] != ',' && s[i] != '=' && s[i] != '"' {
      if i < |n| {
        assert s[i] == n[i];
      } else if |n| + 2 <= i < |n| + 2 + |e| {
        assert s[i] == e[i - |n| - 2];
      }
    }
    assert IndexOfChar(s, ',').None?;
    Mime.NoWordsUnchanged(s, codec);
    assert s[0] == n[0];
    TrimKeepsTrimmed(s);
    assert s[|n| + 1] == '<';
  }

  /** The last steps of `extractDisplayName` for a header that decodes to itself, has no
    * quoted part and holds a `<`. */
  lemma DisplayNameOfTagged(s: string, codec: Mime.Codec)
    requires s != [] && Split(s, ',')[0] == s && Trim(Mime.DecodeMimeWords(Some(s), codec)) == s
    requires EnclosedFrom(s, '"', '"', 0).None? && '<' in s
    ensures var bare := Trim(RemoveQuotes(Trim(RemoveTags(s))));
      ExtractDisplayName(Some(s), codec) == if bare == "" || AddressShaped(bare) then None else Some(bare)
  {
  }

  /** Text without `<` followed by one tag loses just the tag. */
  lemma UntaggedAfterPlain(s: string, pre: string, inner: string)
    requires |pre| <= |s| && s[..|pre|] == pre && s[|pre|..] == "<" + inner + ">"
    requires '<' !in pre && inner != [] && '>' !in inner
    ensures RemoveTags(s) == pre
  {
    RemoveTagsAfterPlain(s, |pre|);
    RemoveOneTag(inner);
  }

  /** Removing the tag of `Name <address>` leaves the name and its space. */
  lemma NameAddrUntagged(n: string, a: Address)
    requires PlainName(n) && a.WellFormed()
    ensures RemoveTags(NameAddr(n, a)) == n + " "
  {
    var e := a.Text();
    var s := NameAddr(n, a);
    AddressAvoids(a);
    assert s[..|n| + 1] == n + " ";
    assert s[|n| + 1..] == "<" + e + ">";
    assert '<' !in n + " ";
    UntaggedAfterPlain(s, n + " ", e);
  }

  /** A plain name survives the quote removal and trimming, and is no address. */
  lemma PlainNameKept(n: string)
    requires PlainName(n)
    ensures Trim(RemoveQuotes(Trim(n + " "))) == n && !AddressShaped(n)
  {
    TrimNameSpace(n);
    assert RemoveQuotes(n) == n;
    TrimKeepsTrimmed(n);
    assert IndexOfChar(n, '@').None?;
  }

  /** `Name <address>` yields the name. */
  lemma DisplayNameOfNameAddr(n: string, a: Address, codec: Mime.Codec)
    requires PlainName(n) && a.WellFormed()
    ensures ExtractDisplayName(Some(NameAddr(n, a)), codec) == Some(n)
  {
    var s := NameAddr(n, a);
    NameAddrDecodes(n, a, codec);
    DisplayNameOfTagged(s, codec);
    NameAddrUntagged(n, a);
    PlainNameKept(n);
  }

  // ---------------------------------------------------------------------
  // ensureGreeting
  // ---------------------------------------------------------------------

  /** `replace(/[\s　]+/g, '')`. */
  function RemoveSpaces(s: string): (r: string)
    ensures forall i :: 0 <= i < |r| ==> !IsSpace(r[i])
    decreases |s|
  {
    if s == [] then []
    else (if IsSpace(s[0]) then [] else [s[0]]) + RemoveSpaces(s[1..])
  }

  /** `t.split('\n')[0]?.trim() || ''`. */
  function FirstLine(t: string): string
  {
    Trim(Split(t, '\n')[0])
  }

  /** `ensureGreeting`: with a non-blank greeting, the body loses its leading white space
    * and, unless its first line already is the greeting (white space aside), gets the
    * greeting and a blank line in front; an empty body becomes the greeting alone. */
  function EnsureGreeting(body: string, greeting: Option<string>): (r: string)
    ensures !Truthy(greeting) || Trim(greeting.value) == "" ==> r == body
  {
    if !Truthy(greeting) then body
    else
      var g := Trim(greeting.value);
      if g == "" then body
      else
        var stripped := TrimStart(body);
        if RemoveSpaces(FirstLine(stripped)) == RemoveSpaces(g) then stripped
        else if stripped == "" then g
        else g + "\n\n" + stripped
  }

  /** The first line of text that starts with a separator-free piece is that piece. */
  lemma SplitHead(s: string, a: string, sep: char)
    requires sep !in a && |a| < |s| && s[..|a|] == a && s[|a|] == sep
    ensures Split(s, sep)[0] == a
  {
    var k := IndexOfChar(s, sep);
    assert k.Some?;
    forall j | 0 <= j < |a| ensures s[j] != sep {
      assert s[j] == a[j];
    }
    assert k == Some(|a|);
    assert s[..|a|] == a;
  }

  /** Text that does not start with white space is its own `trimStart`. */
  lemma TrimStartKeeps(t: string)
    requires t == [] || !IsSpace(t[0])
    ensures TrimStart(t) == t
  {
  }

  /** A one-line trimmed greeting is its own first line. */
  lemma FirstLineOfGreeting(g: string)
    requires '\n' !in g && Trim(g) == g
    ensures FirstLine(g) == g
  {
    assert IndexOfChar(g, '\n').None?;
  }

  /** Text that starts with a one-line trimmed greeting and a newline has the greeting
    * as its first line. */
  lemma FirstLineIs(s: string, g: string)
    requires '\n' !in g && Trim(g) == g
    requires |g| < |s| && s[..|g|] == g && s[|g|] == '\n'
    ensures FirstLine(s) == g
  {
    SplitHead(s, g, '\n');
  }

  lemma GreetedShape(g: string, stripped: string)
    ensures var s := g + "\n\n" + stripped; |g| < |s| && s[..|g|] == g && s[|g|] == '\n'
  {
  }

  /** `r` opens with the greeting `g` as its first line (white space aside) and has no
    * white space before it. */
  predicate LeadsWith(r: string, g: string)
  {
    RemoveSpaces(FirstLine(r)) == RemoveSpaces(g) && TrimStart(r) == r
  }

  lemma GreetedLeads(g: string, stripped: string)
    requires '\n' !in g && Trim(g) == g && g != ""
    ensures LeadsWith(g + "\n\n" + stripped, g)
  {
    var r := g + "\n\n" + stripped;
    GreetedShape(g, stripped);
    FirstLineIs(r, g);
    assert r[0] == g[0];
  }

  lemma GreetingAloneLeads(g: string)
    requires '\n' !in g && Trim(g) == g && g != ""
    ensures LeadsWith(g, g)
  {
    FirstLineOfGreeting(g);
  }

  /** The three outcomes of `EnsureGreeting` with a non-blank greeting. */
  lemma EnsureGreetingCases(body: string, greeting: Option<string>)
    requires Truthy(greeting) && Trim(greeting.value) != ""
    ensures var g := Trim(greeting.value); var stripped := TrimStart(body);
      var r := EnsureGreeting(body, greeting);
      (RemoveSpaces(FirstLine(stripped)) == RemoveSpaces(g) && r == stripped)
      || (stripped == "" && r == g) || (stripped != "" && r == g + "\n\n" + stripped)
  {
  }

  /** With a one-line greeting, the result starts with the greeting as its first line
    * (white space aside) and with no white space before it. */
  lemma GreetingLeads(body: string, greeting: Option<string>)
    requires Truthy(greeting) && Trim(greeting.value) != "" && '\n' !in greeting.value
    ensures LeadsWith(EnsureGreeting(body, greeting), Trim(greeting.value))
  {
    var g := Trim(greeting.value);
    TrimKeepsOut(greeting.value, '\n');
    TrimIdempotent(greeting.value);
    var stripped := TrimStart(body);
    TrimStartKeeps(stripped);
    EnsureGreetingCases(body, greeting);
    var r := EnsureGreeting(body, greeting);
    if r == stripped && RemoveSpaces(FirstLine(stripped)) == RemoveSpaces(g) {
    } else if stripped == "" {
      GreetingAloneLeads(g);
    } else {
      GreetedLeads(g, stripped);
    }
  }

  /** Greeting a greeted body again changes nothing. */
  lemma EnsureGreetingIdempotent(body: string, greeting: Option<string>)
    requires Truthy(greeting) && '\n' !in greeting.value
    ensures EnsureGreeting(EnsureGreeting(body, greeting), greeting) == EnsureGreeting(body, greeting)
  {
    if Trim(greeting.value) != "" {
      GreetingLeads(body, greeting);
    }
  }

  // ---------------------------------------------------------------------
  // appendSignature
  // ---------------------------------------------------------------------

  /** The signature with CRLF line ends and literal `\n` escapes turned into newlines. */
  function NormalizeSignature(raw: string): string
  {
    ReplaceAll(ReplaceAll(raw, "\r\n", "\n"), "\\n", "\n")
  }

  /** The signature `signatureOverride ?? AUTODRAFT_SIGNATURE`. */
  function SignatureSource(signatureOverride: Option<string>, envSignature: Option<string>): Option<string>
  {
    if signatureOverride.Some? then signatureOverride else envSignature
  }

  /** `appendSignature`: without a signature the body is unchanged; otherwise the body
    * loses its trailing white space, and a non-empty body is followed by one blank
    * line before the normalised signature. */
  function AppendSignature(body: string, signatureOverride: Option<string>, envSignature: Option<string>): (r: string)
    ensures var raw := SignatureSource(signatureOverride, envSignature);
      !Truthy(raw) ==> r == body
    ensures var raw := SignatureSource(signatureOverride, envSignature);
      Truthy(raw) ==>
        r == TrimEnd(body) + (if TrimEnd(body) == "" then "" else "\n\n") + NormalizeSignature(raw.value)
  {
    var raw := SignatureSource(signatureOverride, envSignature);
    if !Truthy(raw) then body
    else
      var signature := NormalizeSignature(raw.value);
      var trimmedBody := TrimEnd(body);
      var needsBlankLine := trimmedBody != "" && !EndsWith(trimmedBody, "\n\n");
      var separator := if needsBlankLine then (if EndsWith(trimmedBody, "\n") then "" else "\n\n") else "";
      assert trimmedBody != "" ==> !EndsWith(trimmedBody, "\n") && !EndsWith(trimmedBody, "\n\n") by {
        if trimmedBody != "" {
          var n := |trimmedBody|;
          assert !IsSpace(trimmedBody[n - 1]);
          assert trimmedBody[n - 1..] == [trimmedBody[n - 1]];
          assert n >= 2 ==> trimmedBody[n - 2..] == [trimmedBody[n - 2], trimmedBody[n - 1]];
        }
      }
      trimmedBody + separator + signature
  }

  /** Replacing every `\n` escape leaves none behind, and tells what the result starts with. */
  lemma {:induction false} EscapesReplaced(t: string)
    ensures var r := ReplaceAll(t, "\\n", "\n");
      (r == [] <==> t == [])
      && (r != [] ==> r[0] == if StartsWith(t, "\\n") then '\n' else t[0])
      && forall i :: 0 <= i < |r| - 1 ==> r[i] != '\\' || r[i + 1] != 'n'
    decreases |t|
  {
    if t != [] {
      var r := ReplaceAll(t, "\\n", "\n");
      if StartsWith(t, "\\n") {
        EscapesReplaced(t[2..]);
        assert r == "\n" + ReplaceAll(t[2..], "\\n", "\n");
      } else {
        EscapesReplaced(t[1..]);
        var rest := ReplaceAll(t[1..], "\\n", "\n");
        assert r == [t[0]] + rest;
        if t[0] == '\\' && rest != [] && !StartsWith(t[1..], "\\n") {
          assert t[..2] == [t[0], t[1]];
        }
      }
    }
  }

  /** No literal `\n` escape survives into the signature. */
  lemma SignatureHasNoEscapes(raw: string)
    ensures !Contains(NormalizeSignature(raw), "\\n")
  {
    EscapesReplaced(ReplaceAll(raw, "\r\n", "\n"));
    Absent(NormalizeSignature(raw), "\\n");
  }

  // ---------------------------------------------------------------------
  // shouldSkipByHeuristics
  // ---------------------------------------------------------------------

  /** The characters `.` does not match. */
  predicate LineTerminator(c: char)
  {
    c == '\n' || c == '\r' || c == '\U{2028}' || c == '\U{2029}'
  }

  /** `w0.?w1.?…` matches at `i`: the words in order, each pair separated by nothing or
    * by one character other than a line terminator. */
  predicate GappedAt(s: string, words: seq<string>, i: nat)
    decreases |words|
  {
    |words| > 0 && OccursAt(s, words[0], i)
    && (|words| == 1
        || GappedAt(s, words[1..], i + |words[0]|)
        || (i + |words[0]| < |s| && !LineTerminator(s[i + |words[0]|])
            && GappedAt(s, words[1..], i + |words[0]| + 1)))
  }

  predicate Gapped(s: string, words: seq<string>)
  {
    exists i: nat :: i <= |s| && GappedAt(s, words, i)
  }

  /** `/auto.?reply|out.?of.?office|休暇|自動.?応答/`. */
  predicate AutoReplySubject(s: string)
  {
    Gapped(s, ["auto", "reply"]) || Gapped(s, ["out", "of", "office"]) || Contains(s, "休暇")
    || Gapped(s, ["自動", "応答"])
  }

  /** `shouldSkipByHeuristics`: skip mail with no sender, from the account itself, from a
    * no-reply or bounce address, or whose subject reads as an automatic reply. */
  function ShouldSkipByHeuristics(from: Option<string>, subject: Option<string>, selfEmail: Option<string>): (skip: bool)
    ensures !Truthy(from) ==> skip
    ensures !skip ==> !AutoReplySubject(Lower(subject.UnwrapOr("")))
  {
    var f := Lower(from.UnwrapOr(""));
    var s := Lower(subject.UnwrapOr(""));
    var self := Lower(selfEmail.UnwrapOr(""));
    if !Truthy(from) then true
    else if self != "" && Contains(f, self) then true
    else if Contains(f, "no-reply") || Contains(f, "noreply") then true
    else if Contains(f, "mailer-daemon") || Contains(f, "postmaster") then true
    else AutoReplySubject(s)
  }

  lemma LowerOfUpper(s: string)
    ensures Lower(Upper(s)) == Lower(s)
  {
  }

  /** Letter case in the sender and the subject never changes the decision. */
  lemma SkipIgnoresCase(from: string, subject: string, selfEmail: Option<string>)
    ensures ShouldSkipByHeuristics(Some(Upper(from)), Some(Upper(subject)), selfEmail)
         == ShouldSkipByHeuristics(Some(from), Some(subject), selfEmail)
  {
    LowerOfUpper(from);
    LowerOfUpper(subject);
  }

  /** An out-of-office subject is skipped, whatever the sender. */
  lemma OutOfOfficeSkipped(from: Option<string>, subject: string, selfEmail: Option<string>)
    requires StartsWith(Lower(subject), "out of office")
    ensures ShouldSkipByHeuristics(from, Some(subject), selfEmail)
  {
    var s := Lower(subject);
    assert s[..13] == "out of office";
    assert OccursAt(s, "office", 7) by { assert s[7..13] == s[..13][7..13]; }
    assert OccursAt(s, "of", 4) by { assert s[4..6] == s[..13][4..6]; }
    assert OccursAt(s, "out", 0) by { assert s[0..3] == s[..13][0..3]; }
    var words := ["out", "of", "office"];
    assert words[1..] == ["of", "office"] && words[1..][1..] == ["office"];
    GappedLast(s, "office", 7);
    GappedCons(s, words[1..], 4);
    GappedCons(s, words, 0);
    assert Gapped(s, words);
  }

  lemma GappedLast(s: string, w: string, i: nat)
    requires OccursAt(s, w, i)
    ensures GappedAt(s, [w], i)
  {
  }

  /** A word, one character that ends no line, and the words after it. */
  lemma GappedCons(s: string, words: seq<string>, i: nat)
    requires |words| > 1 && OccursAt(s, words[0], i)
    requires i + |words[0]| < |s| && !LineTerminator(s[i + |words[0]|])
    requires GappedAt(s, words[1..], i + |words[0]| + 1)
    ensures GappedAt(s, words, i)
  {
  }
}
