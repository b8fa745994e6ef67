/**
 * Order-preserving filtering of sequences (`Array.prototype.filter` and the
 * push-in-a-loop pattern that builds the same list).
 */
module Seqs {

  /** The elements of `s` that satisfy `f`, in their original order. */
  function Keep<T>(s: seq<T>, f: T -> bool): (r: seq<T>)
    ensures |r| <= |s|
    ensures forall x :: x in r ==> x in s && f(x)
  {
    if s == [] then []
    else Keep(s[..|s| - 1], f) + (if f(s[|s| - 1]) then [s[|s| - 1]] else [])
  }

  /** Filtering distributes over concatenation: relative order is preserved. */
  lemma {:induction false} KeepAppend<T>(a: seq<T>, b: seq<T>, f: T -> bool)
    ensures Keep(a + b, f) == Keep(a, f) + Keep(b, f)
    decreases |b|
  {
    if b == [] {
      assert a + b == a;
    } else {
      var b', y := b[..|b| - 1], b[|b| - 1];
      var tail := if f(y) then [y] else [];
      assert (a + b)[..|a + b| - 1] == a + b';
      assert (a + b)[|a + b| - 1] == y;
      assert Keep(a + b, f) == Keep(a + b', f) + tail;
      assert Keep(b, f) == Keep(b', f) + tail;
      KeepAppend(a, b', f);
    }
  }

  /** Every element satisfying `f` is kept. */
  lemma {:induction false} KeepComplete<T>(s: seq<T>, f: T -> bool, x: T)
    requires x in s && f(x)
    ensures x in Keep(s, f)
    decreases |s|
  {
    if s[|s| - 1] != x {
      assert s == s[..|s| - 1] + [s[|s| - 1]];
      KeepComplete(s[..|s| - 1], f, x);
    }
  }

  /** Filtering by a predicate and by its negation splits `s` into two parts that together are a permutation of `s`. */
  lemma {:induction false} KeepComplement<T>(s: seq<T>, f: T -> bool, g: T -> bool)
    requires forall x :: g(x) == !f(x)
    ensures multiset(Keep(s, f)) + multiset(Keep(s, g)) == multiset(s)
    decreases |s|
  {
    if s != [] {
      var init, y := s[..|s| - 1], s[|s| - 1];
      KeepComplement(init, f, g);
      KeepLastCount(s, f);
      KeepLastCount(s, g);
      MultisetOfLast(s);
      if f(y) {
        assert !g(y);
      } else {
        assert g(y);
      }
    }
  }

  lemma KeepLastCount<T>(s: seq<T>, f: T -> bool)
    requires s != []
    ensures var y := s[|s| - 1];
      multiset(Keep(s, f)) == multiset(Keep(s[..|s| - 1], f)) + (if f(y) then multiset{y} else multiset{})
  {
  }

  lemma MultisetOfLast<T>(s: seq<T>)
    requires s != []
    ensures multiset(s) == multiset(s[..|s| - 1]) + multiset{s[|s| - 1]}
  {
    assert s == s[..|s| - 1] + [s[|s| - 1]];
  }

  /** A predicate that holds for every element keeps everything. */
  lemma {:induction false} KeepEverything<T>(s: seq<T>, f: T -> bool)
    requires forall i :: 0 <= i < |s| ==> f(s[i])
    ensures Keep(s, f) == s
    decreases |s|
  {
    if s != [] {
      var init := s[..|s| - 1];
      assert forall i :: 0 <= i < |init| ==> init[i] == s[i];
      KeepEverything(init, f);
      assert s == s[..|s| - 1] + [s[|s| - 1]];
    }
  }

  /** A predicate that holds nowhere keeps nothing. */
  lemma {:induction false} KeepNothing<T>(s: seq<T>, f: T -> bool)
    requires forall x :: !f(x)
    ensures Keep(s, f) == []
    decreases |s|
  {
    if s != [] {
      KeepNothing(s[..|s| - 1], f);
    }
  }

  // ---------------------------------------------------------------------
  // de-duplication
  // ---------------------------------------------------------------------

  /** `Array.from(new Set(s))`: the elements of `s` without repeats, each at its first occurrence. */
  function Dedup<T(==)>(s: seq<T>): seq<T>
  {
    DedupAfter(s, {})
  }

  /** The first occurrences in `s` of the elements that are not in `seen`. */
  function DedupAfter<T(==)>(s: seq<T>, seen: set<T>): seq<T>
    decreases |s|
  {
    if s == [] then []
    else if s[0] in seen then DedupAfter(s[1..], seen)
    else [s[0]] + DedupAfter(s[1..], seen + {s[0]})
  }

  predicate NoRepeats<T(==)>(s: seq<T>)
  {
    forall i, j :: 0 <= i < j < |s| ==> s[i] != s[j]
  }

  /** De-duplication keeps exactly the elements not yet seen. */
  lemma {:induction false} DedupAfterElements<T>(s: seq<T>, seen: set<T>, x: T)
    ensures x in DedupAfter(s, seen) <==> x in s && x !in seen
    decreases |s|
  {
    if s != [] {
      if s[0] in seen {
        DedupAfterElements(s[1..], seen, x);
      } else {
        DedupAfterElements(s[1..], seen + {s[0]}, x);
      }
      assert s == [s[0]] + s[1..];
    }
  }

  /** De-duplication leaves no element twice. */
  lemma {:induction false} DedupAfterNoRepeats<T>(s: seq<T>, seen: set<T>)
    ensures NoRepeats(DedupAfter(s, seen))
    decreases |s|
  {
    if s != [] {
      if s[0] in seen {
        DedupAfterNoRepeats(s[1..], seen);
      } else {
        var rest := DedupAfter(s[1..], seen + {s[0]});
        DedupAfterNoRepeats(s[1..], seen + {s[0]});
        DedupAfterElements(s[1..], seen + {s[0]}, s[0]);
        var r := [s[0]] + rest;
        forall i, j | 0 <= i < j < |r|
          ensures r[i] != r[j]
        {
          if i == 0 {
            assert r[j] == rest[j - 1];
          } else {
            assert r[i] == rest[i - 1] && r[j] == rest[j - 1];
          }
        }
      }
    }
  }

  /** A sequence without repeats, none of whose elements was seen, is kept whole. */
  lemma {:induction false} DedupAfterKeepsNoRepeats<T>(s: seq<T>, seen: set<T>)
    requires NoRepeats(s)
    requires forall i :: 0 <= i < |s| ==> s[i] !in seen
    ensures DedupAfter(s, seen) == s
    decreases |s|
  {
    if s != [] {
      var t := s[1..];
      forall i | 0 <= i < |t|
        ensures t[i] !in seen + {s[0]}
      {
        assert t[i] == s[i + 1];
      }
      assert NoRepeats(t) by {
        forall i, j | 0 <= i < j < |t|
          ensures t[i] != t[j]
        {
          assert t[i] == s[i + 1] && t[j] == s[j + 1];
        }
      }
      DedupAfterKeepsNoRepeats(t, seen + {s[0]});
      assert s == [s[0]] + t;
    }
  }

  /** `Array.from(new Set(s))` has the elements of `s`, once each, starting with `s[0]`. */
  lemma DedupFacts<T>(s: seq<T>)
    ensures forall x :: x in Dedup(s) <==> x in s
    ensures NoRepeats(Dedup(s))
    ensures s != [] ==> Dedup(s) != [] && Dedup(s)[0] == s[0]
    ensures NoRepeats(s) ==> Dedup(s) == s
  {
    forall x
      ensures x in Dedup(s) <==> x in s
    {
      DedupAfterElements(s, {}, x);
    }
    DedupAfterNoRepeats(s, {});
    if NoRepeats(s) {
      DedupAfterKeepsNoRepeats(s, {});
    }
  }
}
