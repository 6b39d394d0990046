/** Subsequences selected by a set, and sequences without repetition. */
module Sequences {

  datatype Option<+T> = None | Some(value: T)

  type byte = b: int | 0 <= b < 256

  function Max(a: int, b: int): int {
    if a < b then b else a
  }

  /** Subtraction that stops at zero. */
  function SaturatingSub(a: nat, b: nat): nat {
    if a < b then 0 else a - b
  }

  function Min(a: int, b: int): int {
    if a < b then a else b
  }

  /** The elements of `s` that belong to `kept`, in order. */
  function Keep<T(==)>(s: seq<T>, kept: set<T>): (r: seq<T>)
    ensures |r| <= |s|
  {
    if s == [] then []
    else (if s[0] in kept then [s[0]] else []) + Keep(s[1..], kept)
  }

  ghost predicate Distinct<T>(s: seq<T>) {
    forall i, j :: 0 <= i < j < |s| ==> s[i] != s[j]
  }

  lemma {:induction false} KeepMember<T>(s: seq<T>, kept: set<T>, x: T)
    ensures x in Keep(s, kept) <==> x in s && x in kept
  {
    if s == [] {
    } else {
      KeepMember(s[1..], kept, x);
      assert s == [s[0]] + s[1..];
    }
  }

  lemma KeepMembers<T>(s: seq<T>, kept: set<T>)
    ensures forall x :: x in Keep(s, kept) <==> x in s && x in kept
  {
    forall x ensures x in Keep(s, kept) <==> x in s && x in kept { KeepMember(s, kept, x); }
  }

  lemma {:induction false} KeepAppend<T>(s: seq<T>, t: seq<T>, kept: set<T>)
    ensures Keep(s + t, kept) == Keep(s, kept) + Keep(t, kept)
  {
    if s == [] {
      assert s + t == t;
    } else {
      var head := if s[0] in kept then [s[0]] else [];
      var joined := s + t;
      assert joined[0] == s[0] && joined[1..] == s[1..] + t;
      KeepAppend(s[1..], t, kept);
      assert Keep(joined, kept) == head + Keep(s[1..] + t, kept);
      assert head + (Keep(s[1..], kept) + Keep(t, kept)) == (head + Keep(s[1..], kept)) + Keep(t, kept);
    }
  }

  lemma {:induction false} KeepKeep<T>(s: seq<T>, a: set<T>, b: set<T>)
    ensures Keep(Keep(s, a), b) == Keep(s, a * b)
  {
    if s == [] {
    } else {
      KeepKeep(s[1..], a, b);
      if s[0] in a {
        assert Keep(s, a)[1..] == Keep(s[1..], a);
      } else {
        assert Keep(s, a) == Keep(s[1..], a);
      }
    }
  }

  lemma {:induction false} KeepCongruent<T>(s: seq<T>, a: set<T>, b: set<T>)
    requires forall x :: x in s ==> (x in a <==> x in b)
    ensures Keep(s, a) == Keep(s, b)
  {
    if s == [] {
    } else {
      KeepCongruent(s[1..], a, b);
    }
  }

  lemma {:induction false} KeepAll<T>(s: seq<T>, kept: set<T>)
    requires forall x :: x in s ==> x in kept
    ensures Keep(s, kept) == s
  {
    if s == [] {
    } else {
      KeepAll(s[1..], kept);
    }
  }

  lemma {:induction false} KeepDistinct<T>(s: seq<T>, kept: set<T>)
    requires Distinct(s)
    ensures Distinct(Keep(s, kept))
  {
    if s == [] {
    } else {
      KeepDistinct(s[1..], kept);
      KeepMember(s[1..], kept, s[0]);
    }
  }

  lemma DistinctAppend<T>(s: seq<T>, x: T)
    requires Distinct(s) && x !in s
    ensures Distinct(s + [x])
  {
    forall i, j | 0 <= i < j < |s + [x]| ensures (s + [x])[i] != (s + [x])[j] {
      assert s[i] in s;
    }
  }

  /** A sequence without repetition is no longer than a set that holds its elements. */
  lemma {:induction false} DistinctLength<T>(s: seq<T>, all: set<T>)
    requires Distinct(s)
    requires forall x :: x in s ==> x in all
    ensures |s| <= |all|
  {
    if s == [] {
    } else {
      assert s[0] in all;
      DistinctLength(s[1..], all - {s[0]});
    }
  }

  lemma SubsetSize<T>(a: set<T>, b: set<T>)
    requires a <= b
    ensures |a| <= |b|
  {
    assert b == a + (b - a);
  }
}
