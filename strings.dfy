/**
 * The JavaScript string operations the service relies on, over `seq<char>`:
 * `trim`, ASCII `toLowerCase`, `startsWith`, `indexOf`, `includes`,
 * `split` on one character, `join`, `slice(0, n)` and number-to-text
 * conversion in base 10 and base 36.
 */
module Strings {
  import opened Wrappers

  /** Code points removed by `String.prototype.trim` and matched by `\s`
    * (ECMAScript WhiteSpace and LineTerminator). */
  predicate IsSpace(c: char)
  {
    c == '\t' || c == '\n' || c == '\U{000B}' || c == '\U{000C}' || c == '\r' || c == ' '
    || c == '\U{00A0}' || c == '\U{1680}' || ('\U{2000}' <= c <= '\U{200A}')
    || c == '\U{2028}' || c == '\U{2029}' || c == '\U{202F}' || c == '\U{205F}'
    || c == '\U{3000}' || c == '\U{FEFF}'
  }

  predicate IsDigit(c: char)
  {
    '0' <= c <= '9'
  }

  predicate IsAsciiLetter(c: char)
  {
    'a' <= c <= 'z' || 'A' <= c <= 'Z'
  }

  /** The regular-expression class `\w`. */
  predicate IsWordChar(c: char)
  {
    IsAsciiLetter(c) || IsDigit(c) || c == '_'
  }

  predicate AllSpace(s: string)
  {
    forall i :: 0 <= i < |s| ==> IsSpace(s[i])
  }

  predicate AllDigits(s: string)
  {
    forall i :: 0 <= i < |s| ==> IsDigit(s[i])
  }

  // ---------------------------------------------------------------------
  // trim
  // ---------------------------------------------------------------------

  function TrimStart(s: string): (r: string)
    ensures |r| <= |s| && r == s[|s| - |r|..]
    ensures AllSpace(s[..|s| - |r|])
    ensures r == [] || !IsSpace(r[0])
  {
    if |s| > 0 && IsSpace(s[0]) then
      var r := TrimStart(s[1..]);
      TrimStartStep(s, r);
      r
    else
      s
  }

  lemma TrimStartStep(s: string, r: string)
    requires |s| > 0 && IsSpace(s[0])
    requires |r| <= |s| - 1 && r == s[1..][|s| - 1 - |r|..]
    requires AllSpace(s[1..][..|s| - 1 - |r|])
    ensures r == s[|s| - |r|..]
    ensures AllSpace(s[..|s| - |r|])
  {
    assert s[1..][|s| - 1 - |r|..] == s[|s| - |r|..];
    forall i | 1 <= i < |s| - |r| ensures IsSpace(s[i]) {
      assert s[i] == s[1..][..|s| - 1 - |r|][i - 1];
    }
  }

  function TrimEnd(s: string): (r: string)
    ensures |r| <= |s| && r == s[..|r|]
    ensures AllSpace(s[|r|..])
    ensures r == [] || !IsSpace(r[|r| - 1])
  {
    if |s| > 0 && IsSpace(s[|s| - 1]) then
      var r := TrimEnd(s[..|s| - 1]);
      assert s[..|s| - 1][..|r|] == s[..|r|];
      assert forall i :: 0 <= i < |s| - 1 - |r| ==> s[|r|..][i] == s[..|s| - 1][|r|..][i];
      r
    else
      s
  }

  /** `String.prototype.trim`: the longest slice without leading or trailing white space. */
  function Trim(s: string): (r: string)
    ensures |r| <= |s|
    ensures r == [] || (!IsSpace(r[0]) && !IsSpace(r[|r| - 1]))
    ensures r == [] <==> AllSpace(s)
  {
    var t := TrimStart(s);
    var r := TrimEnd(t);
    assert AllSpace(s) ==> t == [];
    assert r == [] ==> AllSpace(s) by {
      if r == [] {
        assert t == [];
        assert s[..|s|] == s;
      }
    }
    r
  }

  lemma TrimKeepsTrimmed(s: string)
    requires s == [] || (!IsSpace(s[0]) && !IsSpace(s[|s| - 1]))
    ensures Trim(s) == s
  {
  }

  /** Trimming twice is trimming once. */
  lemma TrimIdempotent(s: string)
    ensures Trim(Trim(s)) == Trim(s)
  {
    TrimKeepsTrimmed(Trim(s));
  }

  /** Where the trimmed text starts in the original. */
  function TrimOffset(s: string): nat
  {
    |s| - |TrimStart(s)|
  }

  /** Trimming cuts a slice, starting at `TrimOffset`. */
  lemma TrimIsSlice(s: string)
    ensures TrimOffset(s) + |Trim(s)| <= |s| && Trim(s) == s[TrimOffset(s)..TrimOffset(s) + |Trim(s)|]
  {
    var t := TrimStart(s);
    TrimParts(s);
    PrefixAt(s, t, Trim(s), TrimOffset(s));
  }

  /** A prefix of a suffix is a slice. */
  lemma PrefixAt<T>(s: seq<T>, t: seq<T>, r: seq<T>, k: nat)
    requires |t| <= |s| && k == |s| - |t| && t == s[k..] && |r| <= |t| && r == t[..|r|]
    ensures k + |r| <= |s| && r == s[k..k + |r|]
  {
  }

  lemma TrimParts(s: string)
    ensures Trim(s) == TrimEnd(TrimStart(s))
  {
  }

  /** `\s*` from `j`: the first position at or after `j` that is not white space. */
  function SkipSpaces(t: string, j: nat): (k: nat)
    requires j <= |t|
    ensures j <= k <= |t| && (k == |t| || !IsSpace(t[k]))
    ensures forall m :: j <= m < k ==> IsSpace(t[m])
    decreases |t| - j
  {
    if j < |t| && IsSpace(t[j]) then SkipSpaces(t, j + 1) else j
  }

  /** `\d*` from `j`: the first position at or after `j` that is not a decimal digit. */
  function DigitRunEnd(t: string, j: nat): (k: nat)
    requires j <= |t|
    ensures j <= k <= |t| && (k == |t| || !IsDigit(t[k]))
    decreases |t| - j
  {
    if j < |t| && IsDigit(t[j]) then DigitRunEnd(t, j + 1) else j
  }

  /** Every character of the run is a digit. */
  lemma {:induction false} DigitRunAllDigits(t: string, j: nat)
    requires j <= |t|
    ensures AllDigits(t[j..DigitRunEnd(t, j)])
    decreases |t| - j
  {
    if j < |t| && IsDigit(t[j]) {
      DigitRunAllDigits(t, j + 1);
      assert t[j..DigitRunEnd(t, j)] == [t[j]] + t[j + 1..DigitRunEnd(t, j + 1)];
    }
  }

  // ---------------------------------------------------------------------
  // case
  // ---------------------------------------------------------------------

  /** `toLowerCase` restricted to ASCII letters; every other character is kept. */
  function LowerChar(c: char): char
  {
    if 'A' <= c <= 'Z' then (c as int + 32) as char else c
  }

  function Lower(s: string): (r: string)
    ensures |r| == |s|
    ensures forall i :: 0 <= i < |s| ==> r[i] == LowerChar(s[i])
  {
    seq(|s|, i requires 0 <= i < |s| => LowerChar(s[i]))
  }

  /** Lower-casing twice is lower-casing once. */
  lemma LowerIdempotent(s: string)
    ensures Lower(Lower(s)) == Lower(s)
  {
  }

  /** Text without upper-case ASCII letters is its own lower case. */
  lemma LowerOfLowerCase(s: string)
    requires forall i :: 0 <= i < |s| ==> !('A' <= s[i] <= 'Z')
    ensures Lower(s) == s
  {
  }

  /** `toUpperCase` restricted to ASCII letters; every other character is kept. */
  function UpperChar(c: char): char
  {
    if 'a' <= c <= 'z' then (c as int - 32) as char else c
  }

  function Upper(s: string): (r: string)
    ensures |r| == |s|
    ensures forall i :: 0 <= i < |s| ==> r[i] == UpperChar(s[i])
  {
    seq(|s|, i requires 0 <= i < |s| => UpperChar(s[i]))
  }

  predicate EqualsIgnoreCase(a: string, b: string)
  {
    Lower(a) == Lower(b)
  }

  // ---------------------------------------------------------------------
  // searching
  // ---------------------------------------------------------------------

  predicate StartsWith(s: string, p: string)
  {
    |p| <= |s| && s[..|p|] == p
  }

  predicate EndsWith(s: string, p: string)
  {
    |p| <= |s| && s[|s| - |p|..] == p
  }

  predicate OccursAt(s: string, p: string, i: nat)
  {
    i + |p| <= |s| && s[i..i + |p|] == p
  }

  /** `s.indexOf(p, from)`: the first occurrence of `p` at or after `from`. */
  function IndexOfFrom(s: string, p: string, from: nat): (r: Option<nat>)
    ensures r.Some? ==> from <= r.value && OccursAt(s, p, r.value)
    ensures r.Some? ==> forall j :: from <= j < r.value ==> !OccursAt(s, p, j)
    ensures r.None? ==> forall j :: from <= j ==> !OccursAt(s, p, j)
    decreases |s| - from
  {
    if from + |p| > |s| then None
    else if OccursAt(s, p, from) then Some(from)
    else IndexOfFrom(s, p, from + 1)
  }

  function IndexOf(s: string, p: string): Option<nat>
  {
    IndexOfFrom(s, p, 0)
  }

  /** `s.includes(p)`. */
  predicate Contains(s: string, p: string)
  {
    IndexOf(s, p).Some?
  }

  lemma ContainsAt(s: string, p: string, i: nat)
    requires OccursAt(s, p, i)
    ensures Contains(s, p)
  {
  }

  /** A word does not occur where its first two letters do not. */
  lemma Absent(s: string, w: string)
    requires |w| >= 2
    requires forall i :: 0 <= i && i + |w| <= |s| ==> s[i] != w[0] || s[i + 1] != w[1]
    ensures !Contains(s, w)
  {
    forall j: nat | j + |w| <= |s| ensures !OccursAt(s, w, j) {
      assert s[j..j + |w|][0] == s[j] && s[j..j + |w|][1] == s[j + 1];
    }
  }

  /** The first position holding `c`. */
  function IndexOfChar(s: string, c: char): (r: Option<nat>)
    ensures r.Some? ==> r.value < |s| && s[r.value] == c && c !in s[..r.value]
    ensures r.None? <==> c !in s
  {
    if |s| == 0 then None
    else if s[0] == c then Some(0)
    else
      var t := IndexOfChar(s[1..], c);
      if t.None? then None
      else
        assert s[..t.value + 1] == [s[0]] + s[1..][..t.value];
        Some(t.value + 1)
  }

  /** The last position holding `c`. */
  function LastIndexOfChar(s: string, c: char): (r: Option<nat>)
    ensures r.Some? ==> r.value < |s| && s[r.value] == c && c !in s[r.value + 1..]
    ensures r.None? <==> c !in s
  {
    if |s| == 0 then None
    else if s[|s| - 1] == c then Some(|s| - 1)
    else
      var t := LastIndexOfChar(s[..|s| - 1], c);
      if t.None? then
        assert s == s[..|s| - 1] + [s[|s| - 1]];
        None
      else
        assert s[t.value + 1..] == s[..|s| - 1][t.value + 1..] + [s[|s| - 1]];
        Some(t.value)
  }

  /** The capture of `/<([^>]+)>/`, with `open` for `<` and `close` for `>`, searched from
    * position `from`: the text between the first `open` that is followed, after at least
    * one character, by a `close`, and that `close`. */
  function EnclosedFrom(s: string, open: char, close: char, from: nat): (r: Option<string>)
    ensures r.Some? ==> r.value != "" && close !in r.value
    ensures r.Some? ==> exists i :: from <= i && OccursAt(s, [open] + r.value + [close], i)
    ensures open !in s ==> r.None?
    decreases |s| - from
  {
    if from >= |s| then None
    else if s[from] == open && CaptureAt(s, close, from).Some? then
      var m := CaptureAt(s, close, from).value;
      CaptureFacts(s, close, from);
      assert s[from..from + |[open] + m + [close]|] == [open] + m + [close];
      assert OccursAt(s, [open] + m + [close], from);
      Some(m)
    else EnclosedFrom(s, open, close, from + 1)
  }

  /** The text after position `from` up to the first `close`, when it is not empty. */
  function CaptureAt(s: string, close: char, from: nat): (r: Option<string>)
    requires from < |s|
    ensures r.Some? ==> r.value != "" && close !in r.value && from + 1 + |r.value| < |s|
  {
    match IndexOfChar(s[from + 1..], close)
    case Some(k) => if k > 0 then Some(s[from + 1..from + 1 + k]) else None
    case None => None
  }

  /** The capture is the text right after `from`, and the `close` follows it. */
  lemma CaptureFacts(s: string, close: char, from: nat)
    requires from < |s| && CaptureAt(s, close, from).Some?
    ensures var m := CaptureAt(s, close, from).value;
      s[from + 1..from + 1 + |m|] == m && s[from + 1 + |m|] == close
  {
  }

  /** After a prefix without `open`, the capture is the enclosed text. */
  lemma {:induction false} EnclosedAfterPrefix(name: string, inner: string, open: char, close: char, from: nat)
    requires from <= |name| && forall j :: from <= j < |name| ==> name[j] != open
    requires inner != "" && close !in inner
    ensures EnclosedFrom(name + [open] + inner + [close], open, close, from) == Some(inner)
    decreases |name| - from
  {
    if from < |name| {
      EnclosedSkip(name + [open] + inner + [close], open, close, from);
      EnclosedAfterPrefix(name, inner, open, close, from + 1);
    } else {
      EnclosedAtEnd(name, inner, open, close);
    }
  }

  lemma EnclosedSkip(s: string, open: char, close: char, from: nat)
    requires from < |s| && s[from] != open
    ensures EnclosedFrom(s, open, close, from) == EnclosedFrom(s, open, close, from + 1)
  {
  }

  lemma EnclosedAtEnd(name: string, inner: string, open: char, close: char)
    requires inner != "" && close !in inner
    ensures EnclosedFrom(name + [open] + inner + [close], open, close, |name|) == Some(inner)
  {
    var s := name + [open] + inner + [close];
    assert s[|name|] == open;
    assert s[|name| + 1..] == inner + [close];
    EnclosedHere(s, inner, open, close, |name|);
  }

  lemma EnclosedHere(s: string, inner: string, open: char, close: char, from: nat)
    requires from < |s| && s[from] == open && s[from + 1..] == inner + [close]
    requires inner != "" && close !in inner
    ensures EnclosedFrom(s, open, close, from) == Some(inner)
  {
    CaptureHere(s, inner, close, from);
  }

  lemma CaptureHere(s: string, inner: string, close: char, from: nat)
    requires from < |s| && s[from + 1..] == inner + [close]
    requires inner != "" && close !in inner
    ensures CaptureAt(s, close, from) == Some(inner)
  {
    var after := s[from + 1..];
    FirstCloseAfter(after, inner, close);
    assert s[from + 1..from + 1 + |inner|] == inner by {
      assert after[..|inner|] == inner;
      PrefixAt(s, after, inner, from + 1);
    }
  }

  lemma FirstCloseAfter(after: string, inner: string, close: char)
    requires after == inner + [close] && close !in inner
    ensures IndexOfChar(after, close) == Some(|inner|)
  {
    assert after[|inner|] == close;
    forall j | 0 <= j < |inner| ensures after[j] != close {
      assert after[j] == inner[j];
    }
  }

  /** `t.replace(/pat/g, rep)` for a literal pattern: non-overlapping
    * occurrences, left to right, each replaced once. */
  function ReplaceAll(t: string, pat: string, rep: string): string
    requires pat != ""
    decreases |t|
  {
    if t == [] then []
    else if StartsWith(t, pat) then rep + ReplaceAll(t[|pat|..], pat, rep)
    else [t[0]] + ReplaceAll(t[1..], pat, rep)
  }

  // ---------------------------------------------------------------------
  // split and join
  // ---------------------------------------------------------------------

  /** `parts.join(sep)`. */
  function Join(parts: seq<string>, sep: string): string
  {
    if |parts| == 0 then ""
    else if |parts| == 1 then parts[0]
    else parts[0] + sep + Join(parts[1..], sep)
  }

  /** `s.split(sep)` for a one-character separator: the pieces between separators,
    * always at least one, none containing the separator, and joining them back gives `s`. */
  function Split(s: string, sep: char): (parts: seq<string>)
    ensures |parts| >= 1
    ensures forall k :: 0 <= k < |parts| ==> sep !in parts[k]
    ensures Join(parts, [sep]) == s
    decreases |s|
  {
    match IndexOfChar(s, sep)
    case None => [s]
    case Some(i) =>
      var rest := Split(s[i + 1..], sep);
      assert s == s[..i] + [sep] + s[i + 1..];
      [s[..i]] + rest
  }

  /** Splitting a join whose pieces avoid the separator gives the pieces back. */
  lemma {:induction false} SplitJoin(parts: seq<string>, sep: char)
    requires |parts| >= 1
    requires forall k :: 0 <= k < |parts| ==> sep !in parts[k]
    ensures Split(Join(parts, [sep]), sep) == parts
    decreases |parts|
  {
    if |parts| > 1 {
      var s := Join(parts, [sep]);
      var tail := Join(parts[1..], [sep]);
      assert s == parts[0] + [sep] + tail;
      assert s[..|parts[0]|] == parts[0];
      assert IndexOfChar(s, sep) == Some(|parts[0]|) by {
        var r := IndexOfChar(s, sep);
        assert s[|parts[0]|] == sep;
        assert r.Some?;
      }
      assert s[|parts[0]| + 1..] == tail;
      SplitJoin(parts[1..], sep);
    } else {
      assert IndexOfChar(parts[0], sep).None?;
    }
  }

  /** Every piece of a join occurs in it. */
  lemma {:induction false} PartOccurs(parts: seq<string>, sep: string, k: nat)
    requires k < |parts|
    ensures exists i: nat :: OccursAt(Join(parts, sep), parts[k], i)
    decreases |parts|
  {
    var s := Join(parts, sep);
    if |parts| == 1 {
      assert OccursAt(s, parts[k], 0);
    } else if k == 0 {
      assert s == parts[0] + sep + Join(parts[1..], sep);
      assert s[..|parts[0]|] == parts[0];
      assert OccursAt(s, parts[k], 0);
    } else {
      var rest := Join(parts[1..], sep);
      assert s == parts[0] + sep + rest;
      PartOccurs(parts[1..], sep, k - 1);
      var i: nat :| OccursAt(rest, parts[1..][k - 1], i);
      var o := |parts[0]| + |sep|;
      assert parts[1..][k - 1] == parts[k];
      assert s[o..] == rest;
      assert s[o + i..o + i + |parts[k]|] == s[o..][i..i + |parts[k]|];
      assert OccursAt(s, parts[k], o + i);
    }
  }

  /** `c` twice in a row, starting at `i`. */
  predicate RepeatAt(s: string, c: char, i: nat)
    requires i + 1 < |s|
  {
    s[i] == c && s[i + 1] == c
  }

  /** Text that neither starts nor ends with the separator, nor holds it twice in a row,
    * splits into non-empty pieces. */

  lemma {:induction false} SplitPartsNonEmpty(s: string, sep: char)
    requires s != [] && s[0] != sep && s[|s| - 1] != sep
    requires forall i :: 0 <= i < |s| - 1 ==> !RepeatAt(s, sep, i)
    ensures forall k :: 0 <= k < |Split(s, sep)| ==> Split(s, sep)[k] != []
    decreases |s|
  {
    match IndexOfChar(s, sep)
    case None =>
    case Some(i) =>
      var rest := s[i + 1..];
      assert i > 0 && i < |s| - 1;
      assert !RepeatAt(s, sep, i);
      assert rest[0] == s[i + 1] != sep;
      forall m | 0 <= m < |rest| - 1 ensures !RepeatAt(rest, sep, m) {
        assert !RepeatAt(s, sep, i + 1 + m);
      }
      SplitPartsNonEmpty(rest, sep);
      assert Split(s, sep) == [s[..i]] + Split(rest, sep);
  }

  /** `s.slice(0, n)`. */
  function Take(s: string, n: nat): (r: string)
    ensures |r| == if n < |s| then n else |s|
    ensures StartsWith(s, r)
  {
    if n < |s| then s[..n] else s
  }

  /** `s.slice(-n)` for positive `n`. */
  function TakeLast(s: string, n: nat): (r: string)
    ensures |r| == if n < |s| then n else |s|
    ensures EndsWith(s, r)
  {
    if n < |s| then s[|s| - n..] else s
  }

  // ---------------------------------------------------------------------
  // numbers as text
  // ---------------------------------------------------------------------

  function DigitChar(d: nat): (c: char)
    requires d < 10
    ensures IsDigit(c)
  {
    ('0' as int + d) as char
  }

  function DigitValue(c: char): (d: nat)
    requires IsDigit(c)
    ensures d < 10 && DigitChar(d) == c
  {
    (c as int - '0' as int)
  }

  /** Decimal rendering of a natural number, as `String(n)` produces it. */
  function NatToString(n: nat): (r: string)
    ensures |r| >= 1 && AllDigits(r)
    ensures r[0] == '0' ==> n == 0 && r == "0"
    decreases n
  {
    if n < 10 then [DigitChar(n)] else NatToString(n / 10) + [DigitChar(n % 10)]
  }

  /** The value of a non-empty run of decimal digits. */
  function DigitsValue(s: string): nat
    requires AllDigits(s)
  {
    if s == [] then 0 else DigitsValue(s[..|s| - 1]) * 10 + DigitValue(s[|s| - 1])
  }

  /** Reading back a rendered natural number gives the number. */
  lemma {:induction false} NatToStringRoundTrip(n: nat)
    ensures DigitsValue(NatToString(n)) == n
    decreases n
  {
    if n >= 10 {
      var r := NatToString(n);
      assert r[..|r| - 1] == NatToString(n / 10);
      NatToStringRoundTrip(n / 10);
    } else {
      assert NatToString(n)[..0] == [];
    }
  }

  /** Distinct numbers render to distinct text. */
  lemma NatToStringInjective(m: nat, n: nat)
    requires NatToString(m) == NatToString(n)
    ensures m == n
  {
    NatToStringRoundTrip(m);
    NatToStringRoundTrip(n);
  }

  /** Decimal rendering of an integer with a leading `-` for negatives. */
  function IntToString(i: int): (r: string)
    ensures |r| >= 1
    ensures r[0] == '-' <==> i < 0
  {
    if i < 0 then "-" + NatToString(-i) else NatToString(i)
  }

  function Base36Char(d: nat): (c: char)
    requires d < 36
    ensures IsDigit(c) || 'a' <= c <= 'z'
  {
    if d < 10 then DigitChar(d) else ('a' as int + d - 10) as char
  }

  /** `n.toString(36)` for a natural number: lower-case base-36 digits. */
  function NatToBase36(n: nat): (r: string)
    ensures |r| >= 1
    ensures forall i :: 0 <= i < |r| ==> IsDigit(r[i]) || 'a' <= r[i] <= 'z'
    decreases n
  {
    if n < 36 then [Base36Char(n)] else NatToBase36(n / 36) + [Base36Char(n % 36)]
  }
}
