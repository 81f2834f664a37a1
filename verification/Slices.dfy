/** Slice helpers: membership, deletion in place, and Go's unstable `sort.Slice`. */
module Slices {
  /** `s` without the first occurrence of `x`. */
  function RemoveFirst<T(==)>(s: seq<T>, x: T): (r: seq<T>)
    ensures x !in s ==> r == s
    ensures x in s ==> |r| == |s| - 1
  {
    if s == [] then [] else if s[0] == x then s[1..] else [s[0]] + RemoveFirst(s[1..], x)
  }

  /** How often `x` occurs in `s`. */
  function Count<T(==)>(s: seq<T>, x: T): (n: nat)
    ensures n == multiset(s)[x]
  {
    if s == [] then 0
    else
      assert s == [s[0]] + s[1..];
      Count(s[1..], x) + if s[0] == x then 1 else 0
  }

  /** Deleting takes away one occurrence of the element and nothing else. */
  lemma {:induction false} RemoveFirstCounts<T>(s: seq<T>, x: T)
    ensures multiset(RemoveFirst(s, x)) == multiset(s) - multiset{x}
  {
    if s != [] {
      assert s == [s[0]] + s[1..];
      if s[0] != x { RemoveFirstCounts(s[1..], x); }
    }
  }

  lemma {:induction false} RemoveFirstAt<T>(s: seq<T>, i: nat)
    requires i < |s| && s[i] !in s[..i]
    ensures RemoveFirst(s, s[i]) == s[..i] + s[i + 1..]
  {
    if i == 0 {
    } else {
      assert s[1..][..i - 1] == s[..i][1..];
      assert s[0] == s[..i][0];
      RemoveFirstAt(s[1..], i - 1);
      assert s[..i] + s[i + 1..] == [s[0]] + (s[1..][..i - 1] + s[1..][i..]);
    }
  }

  ghost predicate Distinct<T>(s: seq<T>) {
    forall i, j :: 0 <= i < j < |s| ==> s[i] != s[j]
  }

  /** One step through a list whose rest is still as it was. */
  lemma NextElement<T>(s: seq<T>, was: seq<T>, i: nat, x: T)
    requires |s| == |was| && i < |s| && s[i..] == was[i..]
    ensures s[i] == was[i..][0] && was[i..][1..] == was[i + 1..] && s == s[..i] + was[i..]
    ensures s[i := x][..i + 1] == s[..i] + [x] && s[i := x][i + 1..] == was[i + 1..]
  {
    assert s[i] == s[i..][0];
    assert s[i + 1..] == s[i..][1..];
  }

  method Contains<T(==)>(elements: seq<T>, element: T) returns (found: bool)
    ensures found <==> element in elements
  {
    for i := 0 to |elements|
      invariant element !in elements[..i]
    {
      if elements[i] == element { return true; }
    }
    return false;
  }

  /** Shifts `a[i + 1..n]` one place to the left, over `a[i]`. */
  method ShiftLeft<T>(a: array<T>, i: nat, n: nat)
    requires i < n <= a.Length
    modifies a
    ensures forall k :: 0 <= k < i || n <= k < a.Length ==> a[k] == old(a[k])
    ensures forall k :: i <= k < n - 1 ==> a[k] == old(a[k + 1])
  {
    for j := i + 1 to n
      invariant forall k :: 0 <= k < i || j <= k < a.Length ==> a[k] == old(a[k])
      invariant forall k :: i <= k < j - 1 ==> a[k] == old(a[k + 1])
    {
      a[j - 1] := a[j];
    }
  }

  /**
   * Deletes the first occurrence of `element` from the slice `a[..n]` by shifting the tail left in
   * the backing array; the slice that remains is `a[..m]`.
   */
  method Delete<T(==)>(a: array<T>, n: nat, element: T) returns (m: nat)
    requires n <= a.Length
    modifies a
    ensures m <= n && a[..m] == RemoveFirst(old(a[..n]), element)
    ensures a[n..] == old(a[n..])
  {
    for i := 0 to n
      invariant element !in a[..i]
      invariant a[..] == old(a[..])
    {
      if a[i] == element {
        ghost var was := a[..n];
        assert was[..i] == a[..i];
        RemoveFirstAt(was, i);
        ShiftLeft(a, i, n);
        assert a[..n - 1] == was[..i] + was[i + 1..];
        return n - 1;
      }
    }
    return n;
  }

  ghost predicate SortedBy<T(!new)>(s: seq<T>, rank: T -> int) {
    forall i, j :: 0 <= i < j < |s| ==> rank(s[i]) <= rank(s[j])
  }

  lemma SwapKeepsElements<T>(s: seq<T>, i: nat, j: nat)
    requires i <= j < |s|
    ensures multiset(s[i := s[j]][j := s[i]]) == multiset(s)
  {
  }

  method Swap<T>(a: array<T>, i: nat, j: nat)
    requires i <= j < a.Length
    modifies a
    ensures a[..] == old(a[..])[i := old(a[j])][j := old(a[i])]
  {
    a[i], a[j] := a[j], a[i];
  }

  /**
   * `sort.Slice`: a sorted permutation of the slice, in place. Nothing is promised about elements
   * of equal rank; callers rely on this contract alone.
   */
  method SortSlice<T(!new)>(a: array<T>, rank: T -> int)
    modifies a
    ensures multiset(a[..]) == multiset(old(a[..]))
    ensures SortedBy(a[..], rank)
  {
    for k := 0 to a.Length
      invariant multiset(a[..]) == multiset(old(a[..]))
      invariant forall i, j :: 0 <= i < k && i < j < a.Length ==> rank(a[i]) <= rank(a[j])
    {
      var least := k;
      for j := k to a.Length
        invariant k <= least < a.Length
        invariant forall i :: k <= i < j ==> rank(a[least]) <= rank(a[i])
      {
        if rank(a[j]) < rank(a[least]) { least := j; }
      }
      SwapKeepsElements(a[..], k, least);
      Swap(a, k, least);
    }
    assert forall i, j :: 0 <= i < j < |a[..]| ==> rank(a[..][i]) <= rank(a[..][j]);
  }

  ghost predicate StrictlyRanked<T(!new)>(s: seq<T>, rank: T -> int) {
    forall i, j :: 0 <= i < j < |s| ==> rank(s[i]) < rank(s[j])
  }

  /** A sorted permutation of a strictly ranked sequence is that sequence, however ties are broken. */
  lemma {:induction false} SortedPermutationIsUnique<T(!new)>(xs: seq<T>, ys: seq<T>, rank: T -> int)
    requires multiset(xs) == multiset(ys)
    requires SortedBy(xs, rank) && StrictlyRanked(ys, rank)
    ensures xs == ys
  {
    assert |xs| == |multiset(xs)| == |multiset(ys)| == |ys|;
    if ys != [] {
      assert ys[0] in multiset(ys) && xs[0] in multiset(xs);
      assert ys[0] in xs && xs[0] in ys;
      assert xs[0] == ys[0];
      assert xs == [xs[0]] + xs[1..] && ys == [ys[0]] + ys[1..];
      assert multiset(xs[1..]) == multiset(xs) - multiset{xs[0]};
      assert multiset(ys[1..]) == multiset(ys) - multiset{ys[0]};
      SortedPermutationIsUnique(xs[1..], ys[1..], rank);
    }
  }
}
