/**
 * Address extraction from free text (utils/text.ts): the first match of
 * `/[A-Z0-9._%+-]+@[A-Z0-9.-]+\.[A-Z]{2,}/i`, written out as the leftmost,
 * greedy-then-backtracking match a regular-expression engine finds.
 */
module TextUtils {
  import opened Wrappers
  import opened Strings

  /** The three character classes of the pattern (the `i` flag admits both letter cases). */
  datatype CharClass = LocalPart | DomainPart | Letters

  predicate InClass(c: char, k: CharClass)
  {
    match k
    case LocalPart => IsAsciiLetter(c) || IsDigit(c) || c == '.' || c == '_' || c == '%' || c == '+' || c == '-'
    case DomainPart => IsAsciiLetter(c) || IsDigit(c) || c == '.' || c == '-'
    case Letters => IsAsciiLetter(c)
  }

  predicate AllIn(s: string, k: CharClass)
  {
    forall i :: 0 <= i < |s| ==> InClass(s[i], k)
  }

  /** The length of the longest run of `k` characters starting at `from`. */
  function Run(s: string, from: nat, k: CharClass): (n: nat)
    requires from <= |s|
    ensures from + n <= |s|
    decreases |s| - from
  {
    if from < |s| && InClass(s[from], k) then 1 + Run(s, from + 1, k) else 0
  }

  /** Every character of the run is in the class, and the one after it is not. */
  lemma {:induction false} RunFacts(s: string, from: nat, k: CharClass)
    requires from <= |s|
    ensures forall i :: from <= i < from + Run(s, from, k) ==> InClass(s[i], k)
    ensures from + Run(s, from, k) == |s| || !InClass(s[from + Run(s, from, k)], k)
    decreases |s| - from
  {
    if from < |s| && InClass(s[from], k) {
      RunFacts(s, from + 1, k);
    }
  }

  /** A run that is followed by the end or by a character outside the class is the whole run. */
  lemma {:induction false} RunIs(s: string, from: nat, k: CharClass, m: nat)
    requires from + m <= |s|
    requires forall i :: from <= i < from + m ==> InClass(s[i], k)
    requires from + m == |s| || !InClass(s[from + m], k)
    ensures Run(s, from, k) == m
    decreases m
  {
    if m > 0 {
      RunIs(s, from + 1, k, m - 1);
    }
  }

  /** `\.[A-Z]{2}` at offset `k` of the domain starting at `a`. */
  predicate DotAt(s: string, a: nat, k: nat)
  {
    a + k + 2 < |s| && s[a + k] == '.' && IsAsciiLetter(s[a + k + 1]) && IsAsciiLetter(s[a + k + 2])
  }

  /** The longest domain part `[A-Z0-9.-]+` (at most `k` long) after which `\.[A-Z]{2}` follows:
    * the greedy domain class gives characters back one at a time. */
  function TldDot(s: string, a: nat, k: nat): (r: Option<nat>)
    ensures r.Some? ==> 1 <= r.value <= k && DotAt(s, a, r.value)
    decreases k
  {
    if k == 0 then None else if DotAt(s, a, k) then Some(k) else TldDot(s, a, k - 1)
  }

  /** An address as the pattern reads it. */
  datatype Address = Address(local: string, domain: string, tld: string)
  {
    function Text(): string
    {
      local + "@" + domain + "." + tld
    }

    predicate WellFormed()
    {
      local != [] && AllIn(local, LocalPart) && domain != [] && AllIn(domain, DomainPart)
      && |tld| >= 2 && AllIn(tld, Letters)
    }
  }

  /** The length of the local part at `p`, when an `@` follows it. */
  function LocalLength(s: string, p: nat): (l: Option<nat>)
    requires p <= |s|
    ensures l.Some? ==> l.value > 0 && p + l.value < |s| && s[p + l.value] == '@'
    ensures l.Some? ==> l.value == Run(s, p, LocalPart)
  {
    var l := Run(s, p, LocalPart);
    if l == 0 || p + l >= |s| || s[p + l] != '@' then None else Some(l)
  }

  /** The length of the domain part starting at `a`: the longest one after which a dot
    * and two letters follow. */
  function DomainLength(s: string, a: nat): (k: Option<nat>)
    requires a <= |s|
    ensures k.Some? ==> k.value >= 1 && DotAt(s, a, k.value)
  {
    var n := Run(s, a, DomainPart);
    TldDot(s, a, if n == 0 then 0 else n - 1)
  }

  /** The address made of the local part of length `l` at `p`, the domain part of length
    * `k` after the `@`, and every letter after the dot that follows it. */
  function Assemble(s: string, p: nat, l: nat, k: nat): Address
    requires p + l + 1 + k < |s|
  {
    var a := p + l + 1;
    var t := Run(s, a + k + 1, Letters);
    Address(s[p..p + l], s[a..a + k], s[a + k + 1..a + k + 1 + t])
  }

  /** The match starting exactly at `p`, if any: the local part, the `@`, the domain part,
    * the dot and every letter after it. */
  function MatchAt(s: string, p: nat): (r: Option<Address>)
    requires p <= |s|
  {
    match LocalLength(s, p)
    case None => None
    case Some(l) =>
      match DomainLength(s, p + l + 1)
      case None => None
      case Some(k) => Some(Assemble(s, p, l, k))
  }

  /** What is matched is a well-formed address, and it is the text found at `p`. */
  lemma MatchAtSound(s: string, p: nat)
    requires p <= |s| && MatchAt(s, p).Some?
    ensures MatchAt(s, p).value.WellFormed()
    ensures p + |MatchAt(s, p).value.Text()| <= |s|
    ensures s[p..p + |MatchAt(s, p).value.Text()|] == MatchAt(s, p).value.Text()
  {
    var l := LocalLength(s, p).value;
    var k := DomainLength(s, p + l + 1).value;
    assert MatchAt(s, p) == Some(Assemble(s, p, l, k));
    AssembleSound(s, p, l, k);
  }

  /** An assembled address is well formed and is the text it was cut from. */
  lemma AssembleSound(s: string, p: nat, l: nat, k: nat)
    requires p <= |s| && LocalLength(s, p) == Some(l)
    requires DomainLength(s, p + l + 1) == Some(k)
    ensures Assemble(s, p, l, k).WellFormed()
    ensures p + |Assemble(s, p, l, k).Text()| <= |s|
    ensures s[p..p + |Assemble(s, p, l, k).Text()|] == Assemble(s, p, l, k).Text()
  {
    AssembleWellFormed(s, p, l, k);
    AssembleText(s, p, l, k);
  }

  lemma AssembleWellFormed(s: string, p: nat, l: nat, k: nat)
    requires p <= |s| && LocalLength(s, p) == Some(l)
    requires DomainLength(s, p + l + 1) == Some(k)
    ensures Assemble(s, p, l, k).WellFormed()
  {
    var a := p + l + 1;
    var t := Run(s, a + k + 1, Letters);
    var x, y, z := s[p..p + l], s[a..a + k], s[a + k + 1..a + k + 1 + t];
    LocalPiece(s, p, l);
    DomainFacts(s, a, k);
    TldPiece(s, a, k);
    PiecesWellFormed(x, y, z);
    AssembleIs(s, p, l, k, a);
  }

  lemma PiecesWellFormed(x: string, y: string, z: string)
    requires x != [] && AllIn(x, LocalPart) && y != [] && AllIn(y, DomainPart)
    requires |z| >= 2 && AllIn(z, Letters)
    ensures Address(x, y, z).WellFormed()
  {
  }

  /** The local part is a non-empty run of local-part characters. */
  lemma LocalPiece(s: string, p: nat, l: nat)
    requires p <= |s| && LocalLength(s, p) == Some(l)
    ensures p + l <= |s| && s[p..p + l] != [] && AllIn(s[p..p + l], LocalPart)
  {
    RunFacts(s, p, LocalPart);
    SliceAllIn(s, p, l, LocalPart);
  }

  /** The letters after the dot that follows the domain part number at least two. */
  lemma TldPiece(s: string, a: nat, k: nat)
    requires a <= |s| && DomainLength(s, a) == Some(k)
    ensures var t := Run(s, a + k + 1, Letters);
      a + k + 1 + t <= |s| && t >= 2 && AllIn(s[a + k + 1..a + k + 1 + t], Letters)
  {
    var t := Run(s, a + k + 1, Letters);
    RunFacts(s, a + k + 1, Letters);
    SliceAllIn(s, a + k + 1, t, Letters);
    TwoLetters(s, a + k + 1);
  }

  /** The two letters the dot is followed by start a run of at least two letters. */
  lemma TwoLetters(s: string, from: nat)
    requires from + 1 < |s| && IsAsciiLetter(s[from]) && IsAsciiLetter(s[from + 1])
    ensures Run(s, from, Letters) >= 2
  {
    assert InClass(s[from], Letters) && InClass(s[from + 1], Letters);
    assert Run(s, from + 1, Letters) >= 1;
  }

  lemma AssembleText(s: string, p: nat, l: nat, k: nat)
    requires p <= |s| && LocalLength(s, p) == Some(l)
    requires DomainLength(s, p + l + 1) == Some(k)
    ensures p + |Assemble(s, p, l, k).Text()| <= |s|
    ensures s[p..p + |Assemble(s, p, l, k).Text()|] == Assemble(s, p, l, k).Text()
  {
    var a := p + l + 1;
    var t := Run(s, a + k + 1, Letters);
    RunFacts(s, a + k + 1, Letters);
    DomainFacts(s, a, k);
    var e := a + k + 1 + t;
    var r := Assemble(s, p, l, k);
    AssembleIs(s, p, l, k, a);
    TextLength(r);
    AddressAt(s, p, l, a, k, e);
    TextAt(s, p, r, e);
  }

  lemma TextAt(s: string, p: nat, r: Address, e: nat)
    requires e == p + |r.Text()| && e <= |s| && s[p..e] == r.Text()
    ensures p + |r.Text()| <= |s| && s[p..p + |r.Text()|] == r.Text()
  {
  }

  lemma AssembleIs(s: string, p: nat, l: nat, k: nat, a: nat)
    requires a == p + l + 1 && a + k < |s|
    ensures var e := a + k + 1 + Run(s, a + k + 1, Letters);
      Assemble(s, p, l, k) == Address(s[p..p + l], s[a..a + k], s[a + k + 1..e])
  {
  }

  lemma TextLength(x: Address)
    ensures |x.Text()| == |x.local| + |x.domain| + |x.tld| + 2
  {
  }

  /** The pieces around the `@` and the dot put back together are the matched text. */
  lemma AddressAt(s: string, p: nat, l: nat, a: nat, k: nat, e: nat)
    requires a == p + l + 1 && a + k + 1 <= e <= |s|
    requires s[p + l] == '@' && s[a + k] == '.'
    ensures s[p..e] == Address(s[p..p + l], s[a..a + k], s[a + k + 1..e]).Text()
  {
    var i1 := p + l;
    var i3 := a + k;
    var i4 := i3 + 1;
    var x, y, z := s[p..i1], s[a..i3], s[i4..e];
    assert s[i3..e] == "." + z by {
      SliceSplit(s, i3, i4, e);
      assert s[i3..i4] == ".";
    }
    assert s[a..e] == y + ("." + z) by {
      SliceSplit(s, a, i3, e);
    }
    assert s[i1..e] == "@" + (y + ("." + z)) by {
      SliceSplit(s, i1, a, e);
      assert s[i1..a] == "@";
    }
    SliceSplit(s, p, i1, e);
    Concat5(x, "@", y, ".", z);
  }

  lemma Concat5<T>(a: seq<T>, b: seq<T>, c: seq<T>, d: seq<T>, e: seq<T>)
    ensures a + b + c + d + e == a + (b + (c + (d + e)))
  {
  }

  /** The domain part consists of domain characters. */
  lemma DomainFacts(s: string, a: nat, k: nat)
    requires a <= |s| && DomainLength(s, a) == Some(k)
    ensures a + k < |s| && k >= 1 && AllIn(s[a..a + k], DomainPart)
  {
    RunFacts(s, a, DomainPart);
    SliceAllIn(s, a, k, DomainPart);
  }

  lemma SliceAllIn(s: string, from: nat, n: nat, k: CharClass)
    requires from + n <= |s|
    requires forall i :: from <= i < from + n ==> InClass(s[i], k)
    ensures AllIn(s[from..from + n], k)
  {
    var piece := s[from..from + n];
    forall i | 0 <= i < n ensures InClass(piece[i], k) {
      assert piece[i] == s[from + i];
    }
  }

  lemma SliceSplit(s: string, i: nat, j: nat, k: nat)
    requires i <= j <= k <= |s|
    ensures s[i..k] == s[i..j] + s[j..k]
  {
  }

  /** The leftmost match at or after `p`, with its position. */
  function FirstMatch(s: string, p: nat): (r: Option<(nat, Address)>)
    requires p <= |s|
    ensures r.Some? ==> p <= r.value.0 <= |s| && MatchAt(s, r.value.0) == Some(r.value.1)
    decreases |s| - p
  {
    match MatchAt(s, p)
    case Some(a) => Some((p, a))
    case None => if p == |s| then None else FirstMatch(s, p + 1)
  }

  /** No match starts before the one found, and none at all when nothing is found. */
  lemma {:induction false} FirstMatchIsLeftmost(s: string, p: nat, q: nat)
    requires p <= q <= |s| && MatchAt(s, q).Some?
    ensures FirstMatch(s, p).Some? && FirstMatch(s, p).value.0 <= q
    decreases |s| - p
  {
    var m := MatchAt(s, p);
    if m.Some? {
      assert FirstMatch(s, p) == Some((p, m.value));
    } else {
      assert p < q;
      FirstMatchIsLeftmost(s, p + 1, q);
      assert FirstMatch(s, p) == FirstMatch(s, p + 1);
    }
  }

  /** `extractFirstEmail(s)`: nothing for missing or empty text, else the first address in it. */
  function ExtractFirstEmail(s: Option<string>): (r: Option<string>)
    ensures s.None? || s.value == "" ==> r.None?
  {
    if s.None? || s.value == "" then None
    else
      match FirstMatch(s.value, 0)
      case None => None
      case Some((p, a)) => Some(a.Text())
  }

  /** What is extracted is a piece of the text, and a well-formed address. */
  lemma ExtractIsSubstring(s: Option<string>)
    requires ExtractFirstEmail(s).Some?
    ensures Contains(s.value, ExtractFirstEmail(s).value)
    ensures exists a: Address :: a.WellFormed() && a.Text() == ExtractFirstEmail(s).value
  {
    var (p, a) := FirstMatch(s.value, 0).value;
    MatchAtSound(s.value, p);
    ContainsAt(s.value, a.Text(), p);
  }

  /** `cleanEmailLike(s)`: the first address when there is one, else the text itself. */
  function CleanEmailLike(s: Option<string>): (r: Option<string>)
    ensures s.None? || s.value == "" ==> r.None?
    ensures s.Some? && s.value != "" ==> r.Some?
    ensures ExtractFirstEmail(s).Some? ==> r == ExtractFirstEmail(s)
    ensures ExtractFirstEmail(s).None? ==> r == s || r.None?
  {
    if s.None? || s.value == "" then None
    else
      var email := ExtractFirstEmail(s);
      if email.Some? then email else s
  }

  // ---------------------------------------------------------------------
  // properties
  // ---------------------------------------------------------------------

  /** A well-formed address on its own is found whole: the greedy classes neither stop
    * short of its end nor run past it. */
  lemma ExtractWholeAddress(a: Address)
    requires a.WellFormed()
    ensures ExtractFirstEmail(Some(a.Text())) == Some(a.Text())
    ensures CleanEmailLike(Some(a.Text())) == Some(a.Text())
  {
    MatchWholeAddress(a);
  }

  lemma MatchWholeAddress(a: Address)
    requires a.WellFormed()
    ensures MatchAt(a.Text(), 0) == Some(a)
  {
    var e := a.Text();
    var l := |a.local|;
    var d := |a.domain|;
    LocalOfAddress(a);
    DomainOfAddress(a);
    assert MatchAt(e, 0) == Some(Assemble(e, 0, l, d));
    PartsOfAddress(a);
  }

  /** The local part is found up to the `@`. */
  lemma LocalOfAddress(a: Address)
    requires a.WellFormed()
    ensures LocalLength(a.Text(), 0) == Some(|a.local|)
  {
    var e := a.Text();
    var l := |a.local|;
    assert e[l] == '@';
    forall i | 0 <= i < l ensures InClass(e[i], LocalPart) {
      assert e[i] == a.local[i];
    }
    RunIs(e, 0, LocalPart, l);
  }

  /** The domain part is found up to the last dot that two letters follow. */
  lemma DomainOfAddress(a: Address)
    requires a.WellFormed()
    ensures DomainLength(a.Text(), |a.local| + 1) == Some(|a.domain|)
  {
    DomainRun(a);
    TldAt(a);
  }

  /** The top-level domain runs to the end. */
  lemma TldRunOfAddress(a: Address)
    requires a.WellFormed()
    ensures Run(a.Text(), |a.local| + 1 + |a.domain| + 1, Letters) == |a.tld|
  {
    var e := a.Text();
    var start := |a.local| + 1 + |a.domain| + 1;
    forall i | start <= i < |e| ensures InClass(e[i], Letters) {
      assert e[i] == a.tld[i - start];
    }
    RunIs(e, start, Letters, |a.tld|);
  }

  /** The three parts are the slices of the text between the separators. */
  lemma PartsOfAddress(a: Address)
    requires a.WellFormed()
    ensures Assemble(a.Text(), 0, |a.local|, |a.domain|) == a
  {
    var e := a.Text();
    var at := |a.local| + 1;
    var d := |a.domain|;
    TldRunOfAddress(a);
    assert e[0..|a.local|] == a.local;
    assert e[at..at + d] == a.domain;
    assert e[at + d + 1..at + d + 1 + |a.tld|] == a.tld;
  }

  /** Everything after the `@` is a domain character. */
  lemma DomainRun(a: Address)
    requires a.WellFormed()
    ensures Run(a.Text(), |a.local| + 1, DomainPart) == |a.domain| + 1 + |a.tld|
  {
    var e := a.Text();
    var at := |a.local| + 1;
    forall i | at <= i < |e| ensures InClass(e[i], DomainPart) {
      if i < at + |a.domain| {
        assert e[i] == a.domain[i - at];
      } else if i > at + |a.domain| {
        assert e[i] == a.tld[i - at - |a.domain| - 1];
      }
    }
    RunIs(e, at, DomainPart, |e| - at);
  }

  /** The dot before the top-level domain is the last one followed by two letters. */
  lemma TldAt(a: Address)
    requires a.WellFormed()
    ensures TldDot(a.Text(), |a.local| + 1, |a.domain| + |a.tld|) == Some(|a.domain|)
  {
    var e := a.Text();
    var at := |a.local| + 1;
    var d := |a.domain|;
    assert e[at + d] == '.' && e[at + d + 1] == a.tld[0] && e[at + d + 2] == a.tld[1];
    assert DotAt(e, at, d);
    forall j | d < j <= d + |a.tld| ensures !DotAt(e, at, j) {
      if at + j < |e| {
        assert e[at + j] == a.tld[j - d - 1];
      }
    }
    TldSearch(e, at, d, d + |a.tld|);
  }

  lemma {:induction false} TldSearch(s: string, a: nat, k0: nat, k: nat)
    requires 1 <= k0 <= k && DotAt(s, a, k0)
    requires forall j :: k0 < j <= k ==> !DotAt(s, a, j)
    ensures TldDot(s, a, k) == Some(k0)
    decreases k
  {
    if k > k0 {
      TldSearch(s, a, k0, k - 1);
    }
  }

  /** Whenever some address occurs in the text, one is extracted, and none that starts
    * earlier is passed over. */
  lemma ExtractIsLeftmost(s: string, q: nat)
    requires s != [] && q <= |s| && MatchAt(s, q).Some?
    ensures ExtractFirstEmail(Some(s)).Some?
    ensures FirstMatch(s, 0).value.0 <= q
  {
    FirstMatchIsLeftmost(s, 0, q);
  }
}
