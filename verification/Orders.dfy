/** Byte-wise text order, stable sorting, and the uniqueness of sorted permutations. */
module Orders {

  /** Strict lexicographic order on text, byte by byte. */
  predicate LexLess(a: string, b: string) {
    b != [] && (a == [] || a[0] < b[0] || (a[0] == b[0] && LexLess(a[1..], b[1..])))
  }

  predicate LexAtMost(a: string, b: string) {
    a == b || LexLess(a, b)
  }

  ghost predicate Total<T(!new)>(le: (T, T) -> bool) {
    forall x, y :: le(x, y) || le(y, x)
  }

  ghost predicate Transitive<T(!new)>(le: (T, T) -> bool) {
    forall x, y, z :: le(x, y) && le(y, z) ==> le(x, z)
  }

  ghost predicate Antisymmetric<T(!new)>(le: (T, T) -> bool) {
    forall x, y :: le(x, y) && le(y, x) ==> x == y
  }

  ghost predicate TotalOrder<T(!new)>(le: (T, T) -> bool) {
    Total(le) && Transitive(le) && Antisymmetric(le)
  }

  /** Equivalent elements of `s` are equal, even if `le` only compares a key. */
  ghost predicate AntisymmetricOn<T(!new)>(s: seq<T>, le: (T, T) -> bool) {
    forall x, y :: x in s && y in s && le(x, y) && le(y, x) ==> x == y
  }

  ghost predicate SortedBy<T>(s: seq<T>, le: (T, T) -> bool) {
    forall i, j :: 0 <= i < j < |s| ==> le(s[i], s[j])
  }

  predicate NoDuplicates<T(==)>(s: seq<T>) {
    forall i, j :: 0 <= i < j < |s| ==> s[i] != s[j]
  }

  lemma {:induction false} LexLessConnects(a: string, b: string)
    ensures a == b || LexLess(a, b) || LexLess(b, a)
  {
    if a != [] && b != [] && a[0] == b[0] {
      LexLessConnects(a[1..], b[1..]);
      if a[1..] == b[1..] {
        assert a == [a[0]] + a[1..] == [b[0]] + b[1..] == b;
      }
    }
  }

  lemma {:induction false} LexLessIsAsymmetric(a: string, b: string)
    requires LexLess(a, b)
    ensures a != b && !LexLess(b, a)
  {
    if a != [] && a[0] == b[0] {
      LexLessIsAsymmetric(a[1..], b[1..]);
    }
  }

  lemma {:induction false} LexLessIsTransitive(a: string, b: string, c: string)
    requires LexLess(a, b) && LexLess(b, c)
    ensures LexLess(a, c)
  {
    if a != [] && a[0] == b[0] == c[0] {
      LexLessIsTransitive(a[1..], b[1..], c[1..]);
    }
  }

  lemma LexAtMostIsTotalOrder()
    ensures TotalOrder(LexAtMost)
  {
    forall a, b ensures LexAtMost(a, b) || LexAtMost(b, a) {
      LexLessConnects(a, b);
    }
    forall a, b | LexAtMost(a, b) && LexAtMost(b, a) ensures a == b {
      if a != b {
        LexLessIsAsymmetric(a, b);
      }
    }
    forall a, b, c | LexAtMost(a, b) && LexAtMost(b, c) ensures LexAtMost(a, c) {
      if a != b && b != c {
        LexLessIsTransitive(a, b, c);
      }
    }
  }

  function Insert<T>(x: T, s: seq<T>, le: (T, T) -> bool): (r: seq<T>)
    ensures multiset(r) == multiset{x} + multiset(s)
    ensures |r| == |s| + 1
  {
    if s == [] || le(x, s[0]) then
      assert multiset([x] + s) == multiset{x} + multiset(s);
      [x] + s
    else
      var tail := Insert(x, s[1..], le);
      assert s == [s[0]] + s[1..];
      assert multiset([s[0]] + tail) == multiset{s[0]} + multiset(tail);
      [s[0]] + tail
  }

  /** Stable sort: an element stays ahead of the equivalent ones that followed it. */
  function SortBy<T>(s: seq<T>, le: (T, T) -> bool): (r: seq<T>)
    ensures multiset(r) == multiset(s)
    ensures |r| == |s|
  {
    if s == [] then []
    else
      assert s == [s[0]] + s[1..];
      Insert(s[0], SortBy(s[1..], le), le)
  }

  lemma {:induction false} InsertKeepsOrder<T(!new)>(x: T, s: seq<T>, le: (T, T) -> bool)
    requires Total(le) && Transitive(le) && SortedBy(s, le)
    ensures SortedBy(Insert(x, s, le), le)
  {
    if s != [] && !le(x, s[0]) {
      var tail := Insert(x, s[1..], le);
      InsertKeepsOrder(x, s[1..], le);
      forall j | 0 <= j < |tail| ensures le(s[0], tail[j]) {
        assert tail[j] in multiset(tail);
        assert tail[j] == x || tail[j] in s[1..];
      }
    } else if s != [] {
      forall j | 0 <= j < |s| ensures le(x, s[j]) {
        assert j == 0 || le(s[0], s[j]);
      }
    }
  }

  lemma {:induction false} SortByIsSorted<T(!new)>(s: seq<T>, le: (T, T) -> bool)
    requires Total(le) && Transitive(le)
    ensures SortedBy(SortBy(s, le), le)
  {
    if s != [] {
      SortByIsSorted(s[1..], le);
      InsertKeepsOrder(s[0], SortBy(s[1..], le), le);
    }
  }

  lemma SameMembers<T>(a: seq<T>, b: seq<T>, x: T)
    requires multiset(a) == multiset(b)
    ensures x in a <==> x in b
  {
    assert x in a <==> x in multiset(a);
    assert x in b <==> x in multiset(b);
  }

  lemma SortedHeadsAgree<T(!new)>(a: seq<T>, b: seq<T>, le: (T, T) -> bool)
    requires SortedBy(a, le) && SortedBy(b, le) && AntisymmetricOn(a, le)
    requires multiset(a) == multiset(b) && a != [] && b != []
    ensures a[0] == b[0]
  {
    SameMembers(a, b, a[0]);
    SameMembers(a, b, b[0]);
    var i :| 0 <= i < |b| && b[i] == a[0];
    var j :| 0 <= j < |a| && a[j] == b[0];
    if i != 0 && j != 0 {
      assert le(b[0], b[i]) && le(a[0], a[j]);
    }
  }

  lemma TailMultiset<T>(s: seq<T>)
    requires s != []
    ensures multiset(s[1..]) == multiset(s) - multiset{s[0]}
  {
    assert s == [s[0]] + s[1..];
  }

  lemma TailStaysSorted<T(!new)>(s: seq<T>, le: (T, T) -> bool)
    requires s != [] && SortedBy(s, le)
    ensures SortedBy(s[1..], le)
    ensures AntisymmetricOn(s, le) ==> AntisymmetricOn(s[1..], le)
  {
    assert forall x :: x in s[1..] ==> x in s;
  }

  lemma SortedTailsAgree<T(!new)>(a: seq<T>, b: seq<T>, le: (T, T) -> bool)
    requires SortedBy(a, le) && SortedBy(b, le) && AntisymmetricOn(a, le)
    requires multiset(a) == multiset(b) && a != [] && b != []
    ensures a[0] == b[0] && multiset(a[1..]) == multiset(b[1..])
    ensures SortedBy(a[1..], le) && SortedBy(b[1..], le) && AntisymmetricOn(a[1..], le)
  {
    SortedHeadsAgree(a, b, le);
    TailMultiset(a);
    TailMultiset(b);
    TailStaysSorted(a, le);
    TailStaysSorted(b, le);
  }

  /** A list has one sorted arrangement when equivalent members are equal. */
  lemma {:induction false} SortedPermutationIsUnique<T(!new)>(a: seq<T>, b: seq<T>, le: (T, T) -> bool)
    requires SortedBy(a, le) && SortedBy(b, le) && AntisymmetricOn(a, le)
    requires multiset(a) == multiset(b)
    ensures a == b
  {
    assert |a| == |multiset(a)| == |multiset(b)| == |b|;
    if a != [] {
      SortedTailsAgree(a, b, le);
      SortedPermutationIsUnique(a[1..], b[1..], le);
      assert a == [a[0]] + a[1..] && b == [b[0]] + b[1..];
    }
  }

  /** Sorting forgets exactly the order in which the members were declared. */
  lemma SortForgetsOrder<T(!new)>(a: seq<T>, b: seq<T>, le: (T, T) -> bool)
    requires Total(le) && Transitive(le) && AntisymmetricOn(a, le)
    ensures SortBy(a, le) == SortBy(b, le) <==> multiset(a) == multiset(b)
  {
    if multiset(a) == multiset(b) {
      SortByIsSorted(a, le);
      SortByIsSorted(b, le);
      forall x | x in SortBy(a, le) ensures x in a {
        SameMembers(SortBy(a, le), a, x);
      }
      SortedPermutationIsUnique(SortBy(a, le), SortBy(b, le), le);
    }
  }

  function MapSeq<T, U>(f: T -> U, s: seq<T>): (r: seq<U>)
    ensures |r| == |s|
    ensures forall i :: 0 <= i < |s| ==> r[i] == f(s[i])
  {
    seq(|s|, i requires 0 <= i < |s| => f(s[i]))
  }

  /** An injective relabelling keeps multiplicities. */
  lemma {:induction false} MapKeepsMultiplicity<T(!new), U>(f: T -> U, s: seq<T>, x: T)
    requires forall a, b :: f(a) == f(b) ==> a == b
    ensures multiset(MapSeq(f, s))[f(x)] == multiset(s)[x]
  {
    if s != [] {
      MapKeepsMultiplicity(f, s[1..], x);
      assert s == [s[0]] + s[1..];
      assert MapSeq(f, s) == [f(s[0])] + MapSeq(f, s[1..]);
    }
  }

  lemma MapReflectsMultiset<T(!new), U(!new)>(f: T -> U, a: seq<T>, b: seq<T>)
    requires forall x, y :: f(x) == f(y) ==> x == y
    ensures multiset(MapSeq(f, a)) == multiset(MapSeq(f, b)) <==> multiset(a) == multiset(b)
  {
    if multiset(MapSeq(f, a)) == multiset(MapSeq(f, b)) {
      forall x ensures multiset(a)[x] == multiset(b)[x] {
        MapKeepsMultiplicity(f, a, x);
        MapKeepsMultiplicity(f, b, x);
      }
      assert multiset(a) == multiset(b);
    }
    if multiset(a) == multiset(b) {
      forall y ensures multiset(MapSeq(f, a))[y] == multiset(MapSeq(f, b))[y] {
        if exists x :: f(x) == y {
          var x :| f(x) == y;
          MapKeepsMultiplicity(f, a, x);
          MapKeepsMultiplicity(f, b, x);
        } else {
          assert y !in MapSeq(f, a) && y !in MapSeq(f, b);
          assert multiset(MapSeq(f, a))[y] == 0 && multiset(MapSeq(f, b))[y] == 0;
        }
      }
      assert multiset(MapSeq(f, a)) == multiset(MapSeq(f, b));
    }
  }

  // ---- Sorted lists without repetition ----------------------------------------------------

  function InsertUnique<T(==,!new)>(x: T, s: seq<T>, le: (T, T) -> bool): (r: seq<T>)
    ensures forall y :: y in r <==> y == x || y in s
  {
    if s == [] then [x]
    else if x == s[0] then s
    else if le(x, s[0]) then [x] + s
    else
      assert s == [s[0]] + s[1..];
      [s[0]] + InsertUnique(x, s[1..], le)
  }

  /** The members of a list, each once, in order. */
  function SortedUnique<T(==,!new)>(s: seq<T>, le: (T, T) -> bool): (r: seq<T>)
    ensures forall y :: y in r <==> y in s
  {
    if s == [] then []
    else
      assert s == [s[0]] + s[1..];
      InsertUnique(s[0], SortedUnique(s[1..], le), le)
  }

  ghost predicate StrictlySortedBy<T>(s: seq<T>, le: (T, T) -> bool) {
    SortedBy(s, le) && NoDuplicates(s)
  }

  lemma {:induction false} InsertUniqueKeepsOrder<T(!new)>(x: T, s: seq<T>, le: (T, T) -> bool)
    requires TotalOrder(le) && StrictlySortedBy(s, le)
    ensures StrictlySortedBy(InsertUnique(x, s, le), le)
  {
    if s != [] && x != s[0] {
      if le(x, s[0]) {
        forall j | 0 <= j < |s| ensures le(x, s[j]) && x != s[j] {
          assert j == 0 || le(s[0], s[j]);
        }
      } else {
        var tail := InsertUnique(x, s[1..], le);
        InsertUniqueKeepsOrder(x, s[1..], le);
        forall j | 0 <= j < |tail| ensures le(s[0], tail[j]) && s[0] != tail[j] {
          assert tail[j] in tail;
          assert tail[j] == x || tail[j] in s[1..];
        }
      }
    }
  }

  lemma {:induction false} SortedUniqueIsStrict<T(!new)>(s: seq<T>, le: (T, T) -> bool)
    requires TotalOrder(le)
    ensures StrictlySortedBy(SortedUnique(s, le), le)
  {
    if s != [] {
      SortedUniqueIsStrict(s[1..], le);
      InsertUniqueKeepsOrder(s[0], SortedUnique(s[1..], le), le);
    }
  }

  /** A set of members has one strictly sorted list. */
  lemma {:induction false} StrictListIsUnique<T(!new)>(a: seq<T>, b: seq<T>, le: (T, T) -> bool)
    requires TotalOrder(le) && StrictlySortedBy(a, le) && StrictlySortedBy(b, le)
    requires forall x :: x in a <==> x in b
    ensures a == b
  {
    if a != [] && b != [] {
      StrictHeadsAgree(a, b, le);
      forall x ensures x in a[1..] <==> x in b[1..] {
        StrictTailMembers(a, x);
        StrictTailMembers(b, x);
      }
      StrictListIsUnique(a[1..], b[1..], le);
      assert a == [a[0]] + a[1..] && b == [b[0]] + b[1..];
    } else {
      NonEmptyHasMember(a);
      NonEmptyHasMember(b);
    }
  }

  lemma NonEmptyHasMember<T>(s: seq<T>)
    ensures s == [] || exists x :: x in s
  {
    assert s == [] || s[0] in s;
  }

  lemma StrictHeadsAgree<T(!new)>(a: seq<T>, b: seq<T>, le: (T, T) -> bool)
    requires TotalOrder(le) && SortedBy(a, le) && SortedBy(b, le) && a != [] && b != []
    requires forall x :: x in a <==> x in b
    ensures a[0] == b[0]
  {
    assert a[0] in b && b[0] in a;
    var i :| 0 <= i < |b| && b[i] == a[0];
    var j :| 0 <= j < |a| && a[j] == b[0];
    if i != 0 && j != 0 {
      assert le(b[0], b[i]) && le(a[0], a[j]);
    }
  }

  lemma StrictTailMembers<T>(s: seq<T>, x: T)
    requires s != [] && NoDuplicates(s)
    ensures x in s[1..] <==> x in s && x != s[0]
  {
    assert s == [s[0]] + s[1..];
  }

  // ---- What a list says in any order --------------------------------------------------------

  /** No two members share a key. */
  ghost predicate DistinctKeys<T, K>(s: seq<T>, key: T -> K) {
    forall i, j :: 0 <= i < j < |s| ==> key(s[i]) != key(s[j])
  }

  lemma {:induction false} DistinctKeysOccurOnce<T, K>(s: seq<T>, key: T -> K, x: T)
    requires DistinctKeys(s, key)
    ensures multiset(s)[x] <= 1
  {
    if s != [] {
      var front, last := s[..|s| - 1], s[|s| - 1];
      assert s == front + [last];
      DistinctKeysOccurOnce(front, key, x);
    }
  }

  lemma RepeatedMemberOccursTwice<T>(s: seq<T>, i: nat, j: nat)
    requires i < j < |s| && s[i] == s[j]
    ensures multiset(s)[s[i]] >= 2
  {
    assert s == s[..j] + [s[j]] + s[j + 1..];
    assert s[i] in s[..j];
  }

  lemma DistinctKeysForgetOrder<T, K>(a: seq<T>, b: seq<T>, key: T -> K)
    requires multiset(a) == multiset(b) && DistinctKeys(a, key)
    ensures DistinctKeys(b, key)
  {
    forall i, j | 0 <= i < j < |b| ensures key(b[i]) != key(b[j]) {
      SameMembers(a, b, b[i]);
      SameMembers(a, b, b[j]);
      if b[i] == b[j] {
        RepeatedMemberOccursTwice(b, i, j);
        DistinctKeysOccurOnce(a, key, b[i]);
      }
    }
  }

  function Sum<T>(s: seq<T>, weight: T -> nat): nat {
    if s == [] then 0 else Sum(s[..|s| - 1], weight) + weight(s[|s| - 1])
  }

  lemma {:induction false} SumSplits<T>(a: seq<T>, b: seq<T>, weight: T -> nat)
    ensures Sum(a + b, weight) == Sum(a, weight) + Sum(b, weight)
  {
    if b == [] {
      assert a + b == a;
    } else {
      SumSplits(a, b[..|b| - 1], weight);
      assert (a + b)[..|a + b| - 1] == a + b[..|b| - 1];
    }
  }

  lemma {:induction false} SumForgetsOrder<T>(a: seq<T>, b: seq<T>, weight: T -> nat)
    requires multiset(a) == multiset(b)
    ensures Sum(a, weight) == Sum(b, weight)
  {
    assert |a| == |multiset(a)| == |multiset(b)| == |b|;
    if a != [] {
      var front, last := a[..|a| - 1], a[|a| - 1];
      assert a == front + [last];
      SameMembers(a, b, last);
      var j :| 0 <= j < |b| && b[j] == last;
      SumWithout(b, j, weight);
      MultisetWithout(b, j);
      SumForgetsOrder(front, Without(b, j), weight);
    }
  }

  function Without<T>(s: seq<T>, j: nat): (rest: seq<T>)
    requires j < |s|
    ensures |rest| == |s| - 1
  {
    s[..j] + s[j + 1..]
  }

  lemma SumWithout<T>(s: seq<T>, j: nat, weight: T -> nat)
    requires j < |s|
    ensures Sum(s, weight) == Sum(Without(s, j), weight) + weight(s[j])
  {
    SplitsAround(s, j);
    SumInserts(s[..j], s[j], s[j + 1..], weight);
  }

  lemma SplitsAround<T>(s: seq<T>, j: nat)
    requires j < |s|
    ensures s == s[..j] + ([s[j]] + s[j + 1..]) && Without(s, j) == s[..j] + s[j + 1..]
  {
  }

  lemma MultisetWithout<T>(s: seq<T>, j: nat)
    requires j < |s|
    ensures multiset(Without(s, j)) == multiset(s) - multiset{s[j]}
  {
    assert s == s[..j] + [s[j]] + s[j + 1..];
  }

  lemma SumInserts<T>(before: seq<T>, x: T, after: seq<T>, weight: T -> nat)
    ensures Sum(before + ([x] + after), weight) == Sum(before + after, weight) + weight(x)
  {
    SumSplits(before, [x] + after, weight);
    SumSplits([x], after, weight);
    SumSplits(before, after, weight);
    assert [x][..0] == [];
  }

  lemma InsertedHead<T(!new)>(x: T, s: seq<T>, le: (T, T) -> bool)
    ensures Insert(x, s, le)[0] == if s == [] || le(x, s[0]) then x else s[0]
  {
  }

  /** The first of the least members. */
  ghost predicate FirstLeast<T>(s: seq<T>, le: (T, T) -> bool, i: nat) {
    && i < |s|
    && (forall j :: 0 <= j < |s| ==> le(s[i], s[j]))
    && (forall j :: 0 <= j < i ==> !le(s[j], s[i]))
  }

  lemma FirstLeastExtends<T(!new)>(x: T, s: seq<T>, le: (T, T) -> bool, k: nat)
    requires Total(le) && Transitive(le) && FirstLeast(s, le, k)
    ensures FirstLeast([x] + s, le, if le(x, s[k]) then 0 else k + 1)
  {
    var all := [x] + s;
    assert forall j :: 0 < j < |all| ==> all[j] == s[j - 1];
    if le(x, s[k]) {
      forall j | 0 <= j < |all| ensures le(x, all[j]) {
        assert j > 0 ==> le(s[k], s[j - 1]);
        assert le(x, x);
      }
    }
  }

  /** A stable sort puts the first of the least members in front. */
  lemma {:induction false} SortPutsFirstLeastInFront<T(!new)>(s: seq<T>, le: (T, T) -> bool) returns (i: nat)
    requires s != [] && Total(le) && Transitive(le)
    ensures FirstLeast(s, le, i) && SortBy(s, le)[0] == s[i]
  {
    var tail := s[1..];
    InsertedHead(s[0], SortBy(tail, le), le);
    if tail == [] {
      assert le(s[0], s[0]);
      i := 0;
    } else {
      var k := SortPutsFirstLeastInFront(tail, le);
      FirstLeastExtends(s[0], tail, le, k);
      assert s == [s[0]] + tail;
      i := if le(s[0], tail[k]) then 0 else k + 1;
    }
  }
}
