/**
 * The recipient restriction of the dry-run send: an address is read from
 * `Name <address>` or taken whole, trimmed, lowercased and checked against the
 * loose shape `x@y.z`; then either only the user's own address is allowed (the
 * allow list holds `self`) or only the listed domains are.
 */
module Recipients {
  import opened Wrappers
  import opened Strings

  /** The capture of `/<([^>]+)>/`. */
  function AngleMatch(s: string): (r: Option<string>)
    ensures r.Some? ==> r.value != "" && '>' !in r.value
  {
    EnclosedFrom(s, '<', '>', 0)
  }

  predicate NoSpace(s: string)
  {
    forall i :: 0 <= i < |s| ==> !IsSpace(s[i])
  }

  /** A `.` with at least one character on each side. */
  predicate InnerDot(d: string)
  {
    exists j :: 0 < j < |d| - 1 && d[j] == '.'
  }

  /** `/^[^@\s]+@[^@\s]+\.[^@\s]+$/`: one `@` with something before it, no white space,
    * and a `.` inside the part after the `@`. */
  predicate LooseEmail(s: string)
  {
    NoSpace(s) &&
    match IndexOfChar(s, '@')
    case None => false
    case Some(k) => k > 0 && '@' !in s[k + 1..] && InnerDot(s[k + 1..])
  }

  /** The text the address is read from: the `<…>` part of the trimmed input if it has
    * one, else the whole input; trimmed. */
  function AddressText(addr: string): string
  {
    var m := AngleMatch(Trim(addr));
    Trim(if m.Some? then m.value else addr)
  }

  /** The final shape check of `normalizeEmail`. */
  function IfLooseEmail(raw: string): (r: Option<string>)
    ensures r.Some? <==> LooseEmail(raw)
    ensures r.Some? ==> r.value == raw
  {
    if LooseEmail(raw) then Some(raw) else None
  }

  /** `normalizeEmail`. */
  function NormalizeEmail(addr: Option<string>): (r: Option<string>)
    ensures addr.None? || addr.value == "" ==> r.None?
    ensures r.Some? ==> LooseEmail(r.value) && Lower(r.value) == r.value
  {
    if addr.None? || addr.value == "" then None
    else
      LowerIdempotent(AddressText(addr.value));
      IfLooseEmail(Lower(AddressText(addr.value)))
  }

  /** A plain address (no `<`) is trimmed and lowercased, and kept when it has the shape. */
  lemma NormalizePlainAddress(s: string)
    requires s != "" && '<' !in s
    ensures NormalizeEmail(Some(s)) == IfLooseEmail(Lower(Trim(s)))
  {
    assert '<' !in Trim(s) by {
      assert Trim(s) == TrimEnd(TrimStart(s));
      forall c | c in Trim(s) ensures c != '<' {
        var j :| 0 <= j < |Trim(s)| && Trim(s)[j] == c;
        assert Trim(s)[j] == TrimStart(s)[j];
        assert TrimStart(s)[j] == s[|s| - |TrimStart(s)| + j];
      }
    }
    assert AddressText(s) == Trim(s);
  }

  /** `Name <address>` yields the address, trimmed and lowercased, when it has the shape. */
  lemma NormalizeNameAddr(name: string, addr: string)
    requires '<' !in name && addr != "" && '>' !in addr
    requires name == "" || !IsSpace(name[0])
    ensures NormalizeEmail(Some(name + "<" + addr + ">")) == IfLooseEmail(Lower(Trim(addr)))
  {
    NameAddrTrimmed(name, addr);
    AngleMatchNameAddr(name, addr);
    NormalizeOfMatch(name + "<" + addr + ">", addr);
  }

  lemma AngleMatchNameAddr(name: string, addr: string)
    requires '<' !in name && addr != "" && '>' !in addr
    ensures AngleMatch(name + "<" + addr + ">") == Some(addr)
  {
    NotAt(name, '<');
    EnclosedAfterPrefix(name, addr, '<', '>', 0);
  }

  lemma NormalizeOfMatch(s: string, addr: string)
    requires s != "" && Trim(s) == s && AngleMatch(s) == Some(addr)
    ensures NormalizeEmail(Some(s)) == IfLooseEmail(Lower(Trim(addr)))
  {
    AddressTextOfMatch(s, addr);
  }

  lemma AddressTextOfMatch(s: string, addr: string)
    requires Trim(s) == s && AngleMatch(s) == Some(addr)
    ensures AddressText(s) == Trim(addr)
  {
  }

  lemma NameAddrTrimmed(name: string, addr: string)
    requires name == "" || !IsSpace(name[0])
    ensures Trim(name + "<" + addr + ">") == name + "<" + addr + ">"
  {
    var s := name + "<" + addr + ">";
    assert s[|s| - 1] == '>';
    assert s[0] == (if name == "" then '<' else name[0]);
    TrimKeepsTrimmed(s);
  }

  lemma NotAt(s: string, c: char)
    requires c !in s
    ensures forall j :: 0 <= j < |s| ==> s[j] != c
  {
  }

  /** A normalized address without `<` normalizes to itself. */
  lemma NormalizeIdempotent(addr: Option<string>)
    requires NormalizeEmail(addr).Some? && '<' !in NormalizeEmail(addr).value
    ensures NormalizeEmail(NormalizeEmail(addr)) == NormalizeEmail(addr)
  {
    var r := NormalizeEmail(addr).value;
    assert r != "" by {
      assert IndexOfChar(r, '@').Some?;
    }
    TrimKeepsTrimmed(r);
    NormalizePlainAddress(r);
  }

  /** `parsed.split('@')[1] || ''`. */
  function DomainOf(parsed: string): string
  {
    var parts := Split(parsed, '@');
    if |parts| >= 2 then parts[1] else ""
  }

  /** For an address of the loose shape, the domain is what follows its one `@`. */
  lemma DomainOfLooseEmail(s: string)
    requires LooseEmail(s)
    ensures IndexOfChar(s, '@').Some?
    ensures DomainOf(s) == s[IndexOfChar(s, '@').value + 1..]
    ensures InnerDot(DomainOf(s))
  {
    var k := IndexOfChar(s, '@').value;
    var a := s[..k];
    var b := s[k + 1..];
    assert s == Join([a, b], "@");
    SplitJoin([a, b], '@');
  }

  const BadFormat: string := "宛先メールアドレスの形式が不正です。"
  const NoSelfEmail: string := "自己メールアドレスが未取得のため許可できません。"
  const SelfOnly: string := "現在は「自分宛て」のみ許可されています。"
  const NoDomain: string := "宛先ドメインが判定できません。"
  const DomainRefusedPrefix: string := "許可されていないドメインです: "

  datatype RecipientCheck = Allowed | Refused(reason: string)

  /** Some non-empty entry of the list equals the domain, ignoring case. */
  predicate DomainListed(domain: string, allowed: seq<string>)
  {
    exists i :: 0 <= i < |allowed| && allowed[i] != "" && Lower(domain) == Lower(allowed[i])
  }

  /** `isRecipientAllowed`. */
  function IsRecipientAllowed(toAddr: string, allowed: seq<string>, selfEmail: Option<string>): (r: RecipientCheck)
    ensures NormalizeEmail(Some(toAddr)).None? ==> r == Refused(BadFormat)
    ensures "self" in allowed ==>
      (r.Allowed? <==> selfEmail.Some? && selfEmail.value != "" && NormalizeEmail(Some(toAddr)) == selfEmail)
    ensures "self" !in allowed ==>
      (r.Allowed? <==> NormalizeEmail(Some(toAddr)).Some? && DomainListed(DomainOf(NormalizeEmail(Some(toAddr)).value), allowed))
    ensures "self" !in allowed && r.Refused? && NormalizeEmail(Some(toAddr)).Some? ==>
      r.reason == DomainRefusedPrefix + DomainOf(NormalizeEmail(Some(toAddr)).value)
  {
    match NormalizeEmail(Some(toAddr))
    case None => Refused(BadFormat)
    case Some(parsed) =>
      if "self" in allowed then
        if selfEmail.None? || selfEmail.value == "" then Refused(NoSelfEmail)
        else if parsed == selfEmail.value then Allowed else Refused(SelfOnly)
      else
        var domain := DomainOf(parsed);
        DomainOfLooseEmail(parsed);
        if domain == "" then Refused(NoDomain)
        else if DomainListed(domain, allowed) then Allowed
        else Refused(DomainRefusedPrefix + domain)
  }

  /** In domain mode an allowed address ends with `@` and a listed domain (lowercased). */
  lemma AllowedAddressEndsWithListedDomain(toAddr: string, allowed: seq<string>, selfEmail: Option<string>)
    requires "self" !in allowed
    requires IsRecipientAllowed(toAddr, allowed, selfEmail).Allowed?
    ensures exists i :: (0 <= i < |allowed| && allowed[i] != "" &&
      EndsWith(NormalizeEmail(Some(toAddr)).value, "@" + Lower(allowed[i])))
  {
    var parsed := NormalizeEmail(Some(toAddr)).value;
    DomainOfLooseEmail(parsed);
    var k := IndexOfChar(parsed, '@').value;
    var d := DomainOf(parsed);
    assert DomainListed(d, allowed);
    var i :| 0 <= i < |allowed| && allowed[i] != "" && Lower(d) == Lower(allowed[i]);
    LowerSuffix(parsed, k + 1);
    assert Lower(allowed[i]) == d;
    SuffixAfterAt(parsed, k, d);
  }

  lemma SuffixAfterAt(s: string, k: nat, d: string)
    requires k < |s| && s[k] == '@' && d == s[k + 1..]
    ensures EndsWith(s, "@" + d)
  {
    assert s[k..] == [s[k]] + s[k + 1..];
  }

  /** A suffix of a lowercase string is lowercase. */
  lemma LowerSuffix(s: string, k: nat)
    requires k <= |s| && Lower(s) == s
    ensures Lower(s[k..]) == s[k..]
  {
    forall j | 0 <= j < |s| - k ensures Lower(s[k..])[j] == s[k..][j] {
      assert Lower(s)[k + j] == s[k + j];
    }
  }

  /** In `self` mode the listed domains play no part. */
  lemma SelfModeIgnoresDomains(toAddr: string, allowed: seq<string>, more: seq<string>, selfEmail: Option<string>)
    requires "self" in allowed
    ensures IsRecipientAllowed(toAddr, allowed + more, selfEmail).Allowed? == IsRecipientAllowed(toAddr, allowed, selfEmail).Allowed?
  {
    assert "self" in allowed + more;
  }
}
