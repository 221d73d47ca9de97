/** Subsequences: what is left of a sequence when elements are dropped. */
module Sequences {
  predicate IsSubsequence<T(==)>(a: seq<T>, b: seq<T>) {
    if a == [] then true
    else if b == [] then false
    else
      (a[|a| - 1] == b[|b| - 1] && IsSubsequence(a[..|a| - 1], b[..|b| - 1])) || IsSubsequence(a, b[..|b| - 1])
  }

  lemma SkipLast<T>(a: seq<T>, b: seq<T>, x: T)
    requires IsSubsequence(a, b)
    ensures IsSubsequence(a, b + [x])
  {
    assert (b + [x])[..|b|] == b;
  }

  lemma KeepLast<T>(a: seq<T>, b: seq<T>, x: T)
    requires IsSubsequence(a, b)
    ensures IsSubsequence(a + [x], b + [x])
  {
    assert (a + [x])[..|a|] == a && (b + [x])[..|b|] == b;
  }

  lemma {:induction false} Reflexive<T>(a: seq<T>)
    ensures IsSubsequence(a, a)
  {
    if a != [] {
      Reflexive(a[..|a| - 1]);
    }
  }

  lemma {:induction false} Transitive<T>(a: seq<T>, b: seq<T>, c: seq<T>)
    requires IsSubsequence(a, b) && IsSubsequence(b, c)
    ensures IsSubsequence(a, c)
    decreases |b| + |c|
  {
    if a != [] {
      if b[|b| - 1] == c[|c| - 1] && IsSubsequence(b[..|b| - 1], c[..|c| - 1]) {
        if a[|a| - 1] == b[|b| - 1] && IsSubsequence(a[..|a| - 1], b[..|b| - 1]) {
          Transitive(a[..|a| - 1], b[..|b| - 1], c[..|c| - 1]);
        } else {
          Transitive(a, b[..|b| - 1], c[..|c| - 1]);
        }
      } else {
        Transitive(a, b, c[..|c| - 1]);
      }
    }
  }

  lemma {:induction false} PrefixIsSubsequence<T>(a: seq<T>, b: seq<T>)
    ensures IsSubsequence(a, a + b)
  {
    if b == [] {
      Reflexive(a);
      assert a + b == a;
    } else {
      PrefixIsSubsequence(a, b[..|b| - 1]);
      SkipLast(a, a + b[..|b| - 1], b[|b| - 1]);
      assert a + b[..|b| - 1] + [b[|b| - 1]] == a + b;
    }
  }

  /** Elements of a subsequence come from the sequence, in the same order. */
  lemma {:induction false} PlacesOf<T>(a: seq<T>, b: seq<T>, i: nat, j: nat) returns (i': nat, j': nat)
    requires IsSubsequence(a, b) && i < j < |a|
    ensures i' < j' < |b| && b[i'] == a[i] && b[j'] == a[j]
  {
    if a[|a| - 1] == b[|b| - 1] && IsSubsequence(a[..|a| - 1], b[..|b| - 1]) {
      if j < |a| - 1 {
        i', j' := PlacesOf(a[..|a| - 1], b[..|b| - 1], i, j);
      } else {
        i' := PlaceOf(a[..|a| - 1], b[..|b| - 1], i);
        j' := |b| - 1;
      }
    } else {
      i', j' := PlacesOf(a, b[..|b| - 1], i, j);
    }
  }

  /** Dropping elements keeps them pairwise different. */
  lemma StayDistinct<T>(a: seq<T>, b: seq<T>)
    requires IsSubsequence(a, b) && forall i, j | 0 <= i < j < |b| :: b[i] != b[j]
    ensures forall i, j | 0 <= i < j < |a| :: a[i] != a[j]
  {
    forall i, j | 0 <= i < j < |a| ensures a[i] != a[j] {
      var i', j' := PlacesOf(a, b, i, j);
    }
  }

  lemma {:induction false} PlaceOf<T>(a: seq<T>, b: seq<T>, i: nat) returns (i': nat)
    requires IsSubsequence(a, b) && i < |a|
    ensures i' < |b| && b[i'] == a[i]
  {
    if a[|a| - 1] == b[|b| - 1] && IsSubsequence(a[..|a| - 1], b[..|b| - 1]) {
      if i < |a| - 1 {
        i' := PlaceOf(a[..|a| - 1], b[..|b| - 1], i);
      } else {
        i' := |b| - 1;
      }
    } else {
      i' := PlaceOf(a, b[..|b| - 1], i);
    }
  }
}
