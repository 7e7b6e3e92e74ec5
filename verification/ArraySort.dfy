/** Sorting a vector in place. */
module ArraySort {
  import opened Orders

  method ToArray<T>(s: seq<T>) returns (a: array<T>)
    ensures fresh(a) && a[..] == s
  {
    a := new T[|s|](i requires 0 <= i < |s| => s[i]);
  }

  /** In order up to `i`, but for the element at `j` against those before it. */
  ghost predicate SortedBut<T>(s: seq<T>, le: (T, T) -> bool, i: nat, j: nat) {
    j <= i < |s| && forall p, q :: 0 <= p < q <= i && q != j ==> le(s[p], s[q])
  }

  function Swapped<T>(s: seq<T>, j: nat): (r: seq<T>)
    requires 0 < j < |s|
  {
    s[j - 1 := s[j]][j := s[j - 1]]
  }

  lemma SwapKeepsMembers<T>(s: seq<T>, j: nat)
    requires 0 < j < |s|
    ensures multiset(Swapped(s, j)) == multiset(s)
  {
  }

  lemma SwapMovesGap<T(!new)>(s: seq<T>, le: (T, T) -> bool, i: nat, j: nat)
    requires Total(le) && 0 < j && SortedBut(s, le, i, j) && !le(s[j - 1], s[j])
    ensures SortedBut(Swapped(s, j), le, i, j - 1)
  {
  }

  lemma GapCloses<T(!new)>(s: seq<T>, le: (T, T) -> bool, i: nat, j: nat)
    requires Transitive(le) && SortedBut(s, le, i, j) && (j == 0 || le(s[j - 1], s[j]))
    ensures SortedBy(s[..i + 1], le)
  {
  }

  /** Moves the element at `i` down to its place among the sorted ones before it. */
  method Sink<T(!new)>(a: array<T>, le: (T, T) -> bool, i: nat)
    requires Total(le) && Transitive(le) && i < a.Length && SortedBy(a[..i], le)
    modifies a
    ensures multiset(a[..]) == multiset(old(a[..])) && SortedBy(a[..i + 1], le)
  {
    var j: nat := i;
    assert forall p :: 0 <= p < i ==> a[..i][p] == a[..][p];
    while j > 0 && !le(a[j - 1], a[j])
      invariant SortedBut(a[..], le, i, j)
      invariant multiset(a[..]) == multiset(old(a[..]))
    {
      ghost var before := a[..];
      a[j - 1], a[j] := a[j], a[j - 1];
      assert a[..] == Swapped(before, j);
      SwapKeepsMembers(before, j);
      SwapMovesGap(before, le, i, j);
      j := j - 1;
    }
    GapCloses(a[..], le, i, j);
    assert a[..][..i + 1] == a[..i + 1];
  }

  method SortInPlace<T(!new)>(a: array<T>, le: (T, T) -> bool)
    requires Total(le) && Transitive(le)
    modifies a
    ensures multiset(a[..]) == multiset(old(a[..])) && SortedBy(a[..], le)
  {
    for i := 0 to a.Length
      invariant SortedBy(a[..i], le)
      invariant multiset(a[..]) == multiset(old(a[..]))
    {
      Sink(a, le, i);
    }
    assert a[..a.Length] == a[..];
  }
}
