/** Sorting by a total order, and the uniqueness of its result. */
module Ordering {

  ghost predicate TotalOrder<T(!new)>(le: (T, T) -> bool) {
    && (forall x, y :: le(x, y) || le(y, x))
    && (forall x, y :: le(x, y) && le(y, x) ==> x == y)
    && (forall x, y, z :: le(x, y) && le(y, z) ==> le(x, z))
  }

  ghost predicate SortedBy<T>(s: seq<T>, le: (T, T) -> bool) {
    forall i, j :: 0 <= i < j < |s| ==> le(s[i], s[j])
  }

  function Insert<T>(x: T, s: seq<T>, le: (T, T) -> bool): (r: seq<T>)
    ensures multiset(r) == multiset(s) + multiset{x}
  {
    if s == [] || le(x, s[0]) then [x] + s
    else
      assert s == [s[0]] + s[1..];
      [s[0]] + Insert(x, s[1..], le)
  }

  /** The library sort; by `SortedUnique` any other would give the same result. */
  function Sort<T>(s: seq<T>, le: (T, T) -> bool): (r: seq<T>)
    ensures multiset(r) == multiset(s)
  {
    if s == [] then []
    else
      assert s == [s[0]] + s[1..];
      Insert(s[0], Sort(s[1..], le), le)
  }

  lemma {:induction false} InsertSorts<T(!new)>(x: T, s: seq<T>, le: (T, T) -> bool)
    requires TotalOrder(le) && SortedBy(s, le)
    ensures SortedBy(Insert(x, s, le), le)
  {
    if s != [] && !le(x, s[0]) {
      var rest := Insert(x, s[1..], le);
      InsertSorts(x, s[1..], le);
      forall j | 0 <= j < |rest| ensures le(s[0], rest[j]) {
        assert rest[j] in multiset(rest);
        assert rest[j] == x || rest[j] in s[1..];
      }
    }
  }

  lemma {:induction false} SortSorts<T(!new)>(s: seq<T>, le: (T, T) -> bool)
    requires TotalOrder(le)
    ensures SortedBy(Sort(s, le), le)
  {
    if s != [] {
      SortSorts(s[1..], le);
      InsertSorts(s[0], Sort(s[1..], le), le);
    }
  }

  lemma TailMultiset<T>(s: seq<T>)
    requires s != []
    ensures multiset(s[1..]) == multiset(s) - multiset{s[0]} && s[0] in multiset(s)
  {
    assert s == [s[0]] + s[1..];
  }

  lemma SameHead<T(!new)>(a: seq<T>, b: seq<T>, le: (T, T) -> bool)
    requires TotalOrder(le) && SortedBy(a, le) && SortedBy(b, le) && a != [] && b != []
    requires a[0] in multiset(b) && b[0] in multiset(a)
    ensures a[0] == b[0]
  {
  }

  /** Two sorted arrangements of the same elements are the same sequence. */
  lemma {:induction false} SortedUnique<T(!new)>(a: seq<T>, b: seq<T>, le: (T, T) -> bool)
    requires TotalOrder(le) && SortedBy(a, le) && SortedBy(b, le) && multiset(a) == multiset(b)
    ensures a == b
  {
    assert |a| == |multiset(a)| && |b| == |multiset(b)|;
    if a != [] {
      TailMultiset(a);
      TailMultiset(b);
      SameHead(a, b, le);
      SortedUnique(a[1..], b[1..], le);
      assert a == [a[0]] + a[1..] && b == [b[0]] + b[1..];
    }
  }

  /** Sorting gives the same sequence whatever order the elements arrive in. */
  lemma SortOfPermutation<T(!new)>(a: seq<T>, b: seq<T>, le: (T, T) -> bool)
    requires TotalOrder(le) && multiset(a) == multiset(b)
    ensures Sort(a, le) == Sort(b, le)
  {
    SortSorts(a, le);
    SortSorts(b, le);
    SortedUnique(Sort(a, le), Sort(b, le), le);
  }

  ghost predicate Distinct<T>(s: seq<T>) {
    forall i, j :: 0 <= i < j < |s| ==> s[i] != s[j]
  }

  lemma {:induction false} DistinctCounts<T>(s: seq<T>, x: T)
    requires Distinct(s)
    ensures multiset(s)[x] <= 1
  {
    if s != [] {
      var n := |s| - 1;
      assert s == s[..n] + [s[n]];
      DistinctCounts(s[..n], x);
      assert s[n] !in s[..n];
    }
  }

  lemma RepeatedCounts<T>(s: seq<T>, i: nat, j: nat)
    requires i < j < |s| && s[i] == s[j]
    ensures multiset(s)[s[i]] >= 2
  {
    assert s == s[..i] + [s[i]] + s[i + 1..j] + [s[j]] + s[j + 1..];
  }

  lemma PermutationFacts<T>(a: seq<T>, b: seq<T>)
    requires multiset(a) == multiset(b)
    ensures |a| == |b|
    ensures forall x :: x in a <==> x in b
    ensures Distinct(a) ==> Distinct(b)
  {
    assert |a| == |multiset(a)| && |b| == |multiset(b)|;
    assert forall x :: (x in a <==> x in multiset(a)) && (x in b <==> x in multiset(b));
    if Distinct(a) {
      forall i, j | 0 <= i < j < |b| ensures b[i] != b[j] {
        if b[i] == b[j] {
          RepeatedCounts(b, i, j);
          DistinctCounts(a, b[i]);
        }
      }
    }
  }

  lemma RemoveAt<T>(s: seq<T>, j: nat)
    requires j < |s|
    ensures multiset(s[..j] + s[j + 1..]) == multiset(s) - multiset{s[j]}
  {
    assert s == s[..j] + [s[j]] + s[j + 1..];
  }

  function Mapped<T, U>(s: seq<T>, f: T -> U): (r: seq<U>)
    ensures |r| == |s| && forall i :: 0 <= i < |s| ==> r[i] == f(s[i])
  {
    seq(|s|, i requires 0 <= i < |s| => f(s[i]))
  }

  lemma MappedAround<T, U>(a: seq<T>, x: T, b: seq<T>, f: T -> U)
    ensures multiset(Mapped(a + [x] + b, f)) == multiset(Mapped(a + b, f)) + multiset{f(x)}
  {
    assert Mapped(a + [x] + b, f) == Mapped(a, f) + [f(x)] + Mapped(b, f);
    assert Mapped(a + b, f) == Mapped(a, f) + Mapped(b, f);
  }

  lemma SplitAt<T>(s: seq<T>, j: nat)
    requires j < |s|
    ensures s == s[..j] + [s[j]] + s[j + 1..]
  {
  }

  lemma Locate<T>(s: seq<T>, x: T) returns (j: nat)
    requires x in multiset(s)
    ensures j < |s| && s[j] == x
  {
    assert x in s;
    j :| 0 <= j < |s| && s[j] == x;
  }

  /** Mapping a permutation gives a permutation of the mapped sequence. */
  lemma {:induction false} MappedPermutes<T, U>(a: seq<T>, b: seq<T>, f: T -> U)
    requires multiset(a) == multiset(b)
    ensures multiset(Mapped(a, f)) == multiset(Mapped(b, f))
    decreases |a|
  {
    assert |a| == |multiset(a)| && |b| == |multiset(b)|;
    if a != [] {
      var x := a[0];
      assert x in multiset(a);
      var j := Locate(b, x);
      SplitAt(a, 0);
      SplitAt(b, j);
      RemoveAt(a, 0);
      RemoveAt(b, j);
      MappedPermutes(a[..0] + a[1..], b[..j] + b[j + 1..], f);
      MappedAround(a[..0], x, a[1..], f);
      MappedAround(b[..j], x, b[j + 1..], f);
    }
  }
}
