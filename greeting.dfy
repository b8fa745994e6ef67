/**
 * The salutation an auto-drafted reply opens with: the sender's display name,
 * its white space normalised, followed by 様 for a person or 御中 for an
 * organisation, unless the name already carries an honorific.
 */
module Greeting {
  import opened Wrappers
  import opened Strings
  import opened Seqs

  /** `replace(/[\s ]+/g, ' ')`: every run of white space becomes one space. */
  function CollapseSpaces(s: string): (r: string)
    ensures forall i :: 0 <= i < |r| && IsSpace(r[i]) ==> r[i] == ' '
    ensures forall i :: 0 <= i < |r| - 1 ==> !RepeatAt(r, ' ', i)
    ensures r == [] <==> s == []
    ensures r != [] ==> (IsSpace(r[0]) <==> IsSpace(s[0]))
    decreases |s|
  {
    if s == [] then []
    else if IsSpace(s[0]) then
      var rest := CollapseSpaces(s[SkipSpaces(s, 0)..]);
      assert rest != [] ==> !IsSpace(rest[0]);
      ConsSingleSpaced(' ', rest);
      [' '] + rest
    else
      var rest := CollapseSpaces(s[1..]);
      ConsSingleSpaced(s[0], rest);
      [s[0]] + rest
  }

  /** Putting a character before text without double spaces makes none, unless both
    * it and the text's first character are spaces. */
  lemma ConsSingleSpaced(c: char, rest: string)
    requires forall i :: 0 <= i < |rest| - 1 ==> !RepeatAt(rest, ' ', i)
    requires c == ' ' ==> rest == [] || rest[0] != ' '
    ensures forall i :: 0 <= i < |[c] + rest| - 1 ==> !RepeatAt([c] + rest, ' ', i)
  {
    var r := [c] + rest;
    forall i | 0 <= i < |r| - 1 ensures !RepeatAt(r, ' ', i) {
      if i > 0 {
        assert r[i] == rest[i - 1] && r[i + 1] == rest[i];
        assert !RepeatAt(rest, ' ', i - 1);
      }
    }
  }

  /** Text in normal form: no white space at either end, single plain spaces inside. */
  predicate Normal(t: string)
  {
    (t == [] || (!IsSpace(t[0]) && !IsSpace(t[|t| - 1])))
    && (forall i :: 0 <= i < |t| && IsSpace(t[i]) ==> t[i] == ' ')
    && (forall i :: 0 <= i < |t| - 1 ==> !RepeatAt(t, ' ', i))
  }

  /** The name as the greeting uses it: white space collapsed, then trimmed. */
  function Normalize(name: string): (r: string)
    ensures Normal(r)
  {
    var c := CollapseSpaces(name);
    TrimSpacedNormal(c);
    Trim(c)
  }

  /** Trimming text with single plain spaces gives text in normal form. */
  lemma TrimSpacedNormal(c: string)
    requires forall i :: 0 <= i < |c| && IsSpace(c[i]) ==> c[i] == ' '
    requires forall i :: 0 <= i < |c| - 1 ==> !RepeatAt(c, ' ', i)
    ensures Normal(Trim(c))
  {
    TrimIsSlice(c);
    var o := TrimOffset(c);
    SliceChars(c, o, Trim(c));
    SpacesOfSlice(c, o, Trim(c));
    PairsOfSlice(c, o, Trim(c));
  }

  lemma SliceChars(c: string, o: nat, r: string)
    requires o + |r| <= |c| && r == c[o..o + |r|]
    ensures forall i :: 0 <= i < |r| ==> r[i] == c[o + i]
  {
  }

  lemma SpacesOfSlice(c: string, o: nat, r: string)
    requires o + |r| <= |c| && forall i :: 0 <= i < |r| ==> r[i] == c[o + i]
    requires forall i :: 0 <= i < |c| && IsSpace(c[i]) ==> c[i] == ' '
    ensures forall i :: 0 <= i < |r| && IsSpace(r[i]) ==> r[i] == ' '
  {
  }

  lemma PairsOfSlice(c: string, o: nat, r: string)
    requires o + |r| <= |c| && forall i :: 0 <= i < |r| ==> r[i] == c[o + i]
    requires forall i :: 0 <= i < |c| - 1 ==> !RepeatAt(c, ' ', i)
    ensures forall i :: 0 <= i < |r| - 1 ==> !RepeatAt(r, ' ', i)
  {
    forall i | 0 <= i < |r| - 1 ensures !RepeatAt(r, ' ', i) {
      assert !RepeatAt(c, ' ', o + i);
    }
  }

  /** Collapsing leaves text with single plain spaces as it is. */
  lemma {:induction false} CollapseKeepsSpaced(t: string)
    requires forall i :: 0 <= i < |t| && IsSpace(t[i]) ==> t[i] == ' '
    requires forall i :: 0 <= i < |t| - 1 ==> !RepeatAt(t, ' ', i)
    ensures CollapseSpaces(t) == t
    decreases |t|
  {
    if t != [] {
      if IsSpace(t[0]) {
        if |t| > 1 {
          assert !RepeatAt(t, ' ', 0);
        }
        assert SkipSpaces(t, 0) == 1;
      }
      forall i | 0 <= i < |t[1..]| - 1 ensures !RepeatAt(t[1..], ' ', i) {
        assert !RepeatAt(t, ' ', i + 1);
      }
      CollapseKeepsSpaced(t[1..]);
      assert [t[0]] + t[1..] == t;
    }
  }

  /** Normalising text in normal form changes nothing. */
  lemma NormalizeNormal(t: string)
    requires Normal(t)
    ensures Normalize(t) == t
  {
    CollapseKeepsSpaced(t);
    TrimKeepsTrimmed(t);
  }

  // ---------------------------------------------------------------------
  // corporate names
  // ---------------------------------------------------------------------

  /** `CORPORATE_HINTS`: fragments that mark a company, school, hospital or department. */
  const CorporateHints: seq<string> := [
    "株式会社", "有限会社", "合同会社", "inc", "co.,", "co ", "company", "corp", "llc", "ltd",
    "大学", "病院", "支店", "本社", "部", "課", "局"]

  /** Some piece of `hints` occurs in `s`. */
  predicate ContainsAny(s: string, hints: seq<string>)
    decreases |hints|
  {
    |hints| > 0 && (Contains(s, hints[0]) || ContainsAny(s, hints[1..]))
  }

  /** `hasCorporateHint`: the lower-cased text contains one of the hints. */
  predicate HasCorporateHint(value: string)
  {
    ContainsAny(Lower(value), CorporateHints)
  }

  /** `value.split(/[\s　]+/)`: the pieces between runs of white space. */
  function RawTokens(value: string): (r: seq<string>)
    ensures |r| >= 1
  {
    Split(CollapseSpaces(value), ' ')
  }

  predicate NonEmpty(t: string)
  {
    t != []
  }

  /** `endsWithCorporateToken`: the last non-empty token carries a hint. */
  predicate EndsWithCorporateToken(value: string)
  {
    var tokens := Keep(RawTokens(value), NonEmpty);
    |tokens| > 0 && HasCorporateHint(tokens[|tokens| - 1])
  }

  /** No token lacks a hint (`!tokens.some((token) => !hasCorporateHint(token))`). */
  predicate AllTokensCorporate(value: string)
  {
    forall t :: t in RawTokens(value) ==> HasCorporateHint(t)
  }

  /** 御中 for an organisation, 様 otherwise. */
  function Honorific(name: string): (h: string)
    ensures h == "御中" || h == "様"
  {
    if HasCorporateHint(name) && AllTokensCorporate(name) && EndsWithCorporateToken(name) then "御中"
    else "様"
  }

  // ---------------------------------------------------------------------
  // buildRecipientGreeting
  // ---------------------------------------------------------------------

  /** `/[様御中殿]$/`: the last character is one of the four. */
  predicate EndsInHonorificChar(name: string)
  {
    name != [] && name[|name| - 1] in "様御中殿"
  }

  /** `buildRecipientGreeting` as written: a name whose last character is 様, 御, 中 or
    * 殿 is taken to carry its honorific already. */
  function RecipientGreetingAsWritten(displayName: Option<string>): (r: Option<string>)
    ensures r.None? <==> !Truthy(displayName) || Normalize(displayName.value) == ""
    ensures r.Some? ==> StartsWith(r.value, Normalize(displayName.value)) && Normal(r.value)
    ensures r.Some? ==> EndsInHonorificChar(r.value)
  {
    if !Truthy(displayName) then None
    else
      var n := Normalize(displayName.value);
      if n == "" then None
      else if EndsInHonorificChar(n) then
        assert n[..|n|] == n;
        Some(n)
      else
        NormalWithHonorific(n, Honorific(n));
        Some(n + Honorific(n))
  }

  /** The name already ends in one of the honorifics 様, 御中 or 殿. */
  predicate HasHonorific(name: string)
  {
    var n := |name|;
    n > 0 && (name[n - 1] == '様' || name[n - 1] == '殿' || (n > 1 && name[n - 2] == '御' && name[n - 1] == '中'))
  }

  /** `buildRecipientGreeting` as intended: nothing for a missing or blank name; the
    * normalised name when it already ends in an honorific; else the name followed by
    * its honorific. */
  function BuildRecipientGreeting(displayName: Option<string>): (r: Option<string>)
    ensures r.None? <==> !Truthy(displayName) || Normalize(displayName.value) == ""
    ensures r.Some? ==> StartsWith(r.value, Normalize(displayName.value))
    ensures r.Some? ==> HasHonorific(r.value) && Normal(r.value)
  {
    if !Truthy(displayName) then None
    else
      var n := Normalize(displayName.value);
      if n == "" then None
      else
        WithHonorificShape(n);
        Some(WithHonorific(n))
  }

  /** The name as it is when it ends in an honorific, else followed by its honorific. */
  function WithHonorific(n: string): string
  {
    if HasHonorific(n) then n else n + Honorific(n)
  }

  lemma WithHonorificShape(n: string)
    requires Normal(n) && n != []
    ensures var g := WithHonorific(n); StartsWith(g, n) && HasHonorific(g) && Normal(g)
  {
    if HasHonorific(n) {
      assert n[..|n|] == n;
    } else {
      NormalWithHonorific(n, Honorific(n));
    }
  }

  /** Appending an honorific to a name in normal form gives a greeting in normal form
    * that starts with the name and ends in the honorific. */
  lemma NormalWithHonorific(n: string, h: string)
    requires Normal(n) && n != [] && (h == "御中" || h == "様")
    ensures Normal(n + h) && StartsWith(n + h, n) && HasHonorific(n + h)
  {
    var g := n + h;
    assert g[..|n|] == n;
    assert forall i :: 0 <= i < |n| ==> g[i] == n[i];
    assert forall i :: |n| <= i < |g| ==> g[i] == h[i - |n|];
    forall i | 0 <= i < |g| - 1 ensures !RepeatAt(g, ' ', i) {
      if i + 1 < |n| {
        assert !RepeatAt(n, ' ', i);
      }
    }
  }

  // ---------------------------------------------------------------------
  // properties
  // ---------------------------------------------------------------------

  /** No piece of `hints` occurs in `s` when each one is absent. */
  lemma {:induction false} NoneContained(s: string, hints: seq<string>)
    requires forall k :: 0 <= k < |hints| ==> !Contains(s, hints[k])
    ensures !ContainsAny(s, hints)
    decreases |hints|
  {
    if |hints| > 0 {
      NoneContained(s, hints[1..]);
    }
  }

  /** A piece whose first character is missing from `s` does not occur in it. */
  lemma FirstCharAbsent(s: string, h: string)
    requires h != [] && h[0] !in s
    ensures !Contains(s, h)
  {
    forall j: nat | j + |h| <= |s| ensures !OccursAt(s, h, j) {
      assert s[j..j + |h|][0] == s[j];
    }
  }

  lemma TanakaHasNoHint(n: string)
    requires n == "田中"
    ensures !HasCorporateHint(n)
  {
    LowerOfLowerCase(n);
    forall k | 0 <= k < |CorporateHints| ensures !Contains(n, CorporateHints[k]) {
      FirstCharAbsent(n, CorporateHints[k]);
    }
    NoneContained(n, CorporateHints);
  }

  lemma TanakaIsNormal(n: string)
    requires n == "田中"
    ensures Normalize(n) == n
  {
    assert !IsSpace(n[0]) && !IsSpace(n[1]);
    NormalizeNormal(n);
  }

  /** The common surname 田中 ends in 中, so the code as written greets it bare. */
  lemma TanakaAsWritten(n: string)
    requires n == "田中"
    ensures RecipientGreetingAsWritten(Some(n)) == Some(n)
  {
    TanakaIsNormal(n);
    assert EndsInHonorificChar(n);
  }

  /** A name in normal form without an honorific gets one appended. */
  lemma GreetingOfBareName(n: string)
    requires Normal(n) && n != [] && !HasHonorific(n)
    ensures BuildRecipientGreeting(Some(n)) == Some(n + Honorific(n))
  {
    NormalizeNormal(n);
  }

  /** The intended greeting for 田中 is 田中様. */
  lemma TanakaGetsSama(n: string)
    requires n == "田中"
    ensures BuildRecipientGreeting(Some(n)) == Some(n + "様")
  {
    assert !IsSpace(n[0]) && !IsSpace(n[1]);
    assert Normal(n) && !HasHonorific(n);
    GreetingOfBareName(n);
    TanakaHasNoHint(n);
  }

  /** Both versions agree on every name that does not end in 御 or 中. */
  lemma AsWrittenAgreesElsewhere(displayName: Option<string>)
    requires Truthy(displayName)
    requires var n := Normalize(displayName.value); n == [] || n[|n| - 1] !in "御中"
    ensures RecipientGreetingAsWritten(displayName) == BuildRecipientGreeting(displayName)
  {
    var n := Normalize(displayName.value);
    if n != [] {
      HonorificEndings(n);
    }
  }

  lemma HonorificEndings(n: string)
    requires n != [] && n[|n| - 1] !in "御中"
    ensures EndsInHonorificChar(n) <==> HasHonorific(n)
  {
    var c := n[|n| - 1];
    assert c in "様御中殿" <==> c == '様' || c == '御' || c == '中' || c == '殿';
  }

  /** A greeting is its own greeting: building it again changes nothing. */
  lemma GreetingIdempotent(displayName: Option<string>)
    requires BuildRecipientGreeting(displayName).Some?
    ensures var g := BuildRecipientGreeting(displayName).value;
      BuildRecipientGreeting(Some(g)) == Some(g)
  {
    var g := BuildRecipientGreeting(displayName).value;
    NormalizeNormal(g);
  }

  /** A piece that occurs in a token occurs in any text the token occurs in. */
  lemma ContainedInContext(s: string, t: string, i: nat, h: string)
    requires OccursAt(s, t, i) && Contains(t, h)
    ensures Contains(s, h)
  {
    var j := IndexOf(t, h).value;
    SliceInSlice(s, t, i, j, |h|);
    ContainsAt(s, h, i + j);
  }

  lemma SliceInSlice(s: string, t: string, i: nat, j: nat, n: nat)
    requires i + |t| <= |s| && t == s[i..i + |t|] && j + n <= |t|
    ensures i + j + n <= |s| && s[i + j..i + j + n] == t[j..j + n]
  {
    var a, b := s[i + j..i + j + n], t[j..j + n];
    forall m | 0 <= m < n ensures a[m] == b[m] {
      assert t[j + m] == s[i..i + |t|][j + m];
    }
  }

  lemma {:induction false} AnyInContext(s: string, t: string, i: nat, hints: seq<string>)
    requires OccursAt(s, t, i) && ContainsAny(t, hints)
    ensures ContainsAny(s, hints)
    decreases |hints|
  {
    if Contains(t, hints[0]) {
      ContainedInContext(s, t, i, hints[0]);
    } else {
      AnyInContext(s, t, i, hints[1..]);
    }
  }

  /** A hint inside a token is a hint inside any text the token occurs in. */
  lemma HintInContext(s: string, t: string, i: nat)
    requires OccursAt(s, t, i) && HasCorporateHint(t)
    ensures HasCorporateHint(s)
  {
    assert Lower(s)[i..i + |t|] == Lower(t);
    AnyInContext(Lower(s), Lower(t), i, CorporateHints);
  }

  /** When every token carries a hint, so does the whole name. */
  lemma EveryTokenHintsName(name: string)
    requires Normal(name) && AllTokensCorporate(name)
    ensures HasCorporateHint(name)
  {
    CollapseKeepsSpaced(name);
    var parts := Split(name, ' ');
    assert parts[0] in RawTokens(name);
    PartOccurs(parts, " ", 0);
    var i: nat :| OccursAt(name, parts[0], i);
    HintInContext(name, parts[0], i);
  }

  /** When every token carries a hint, so does the last non-empty one. */
  lemma EveryTokenHintsLast(name: string)
    requires Normal(name) && name != [] && AllTokensCorporate(name)
    ensures EndsWithCorporateToken(name)
  {
    CollapseKeepsSpaced(name);
    var parts := Split(name, ' ');
    SplitPartsNonEmpty(name, ' ');
    KeepEverything(parts, NonEmpty);
    assert parts[|parts| - 1] in RawTokens(name);
  }

  /** For a name in normal form, the organisational honorific is chosen exactly when
    * every space-separated token carries a corporate hint. */
  lemma CorporateIffEveryToken(name: string)
    requires Normal(name) && name != []
    ensures Honorific(name) == "御中" <==> AllTokensCorporate(name)
  {
    if AllTokensCorporate(name) {
      EveryTokenHintsName(name);
      EveryTokenHintsLast(name);
    }
  }
}
