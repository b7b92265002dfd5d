/** Python's `sorted`: a stable sort by a total preorder. */
module Sorting {
  ghost predicate SortedBy<T>(s: seq<T>, le: (T, T) -> bool) {
    forall i, j :: 0 <= i < j < |s| ==> le(s[i], s[j])
  }

  ghost predicate TotalPreorder<T(!new)>(le: (T, T) -> bool) {
    && (forall x, y :: le(x, y) || le(y, x))
    && (forall x, y, z :: le(x, y) && le(y, z) ==> le(x, z))
  }

  /** Elements of `s` that compare equal both ways are the same element. */
  ghost predicate Antisymmetric<T(!new)>(s: seq<T>, le: (T, T) -> bool) {
    forall x, y :: x in s && y in s && le(x, y) && le(y, x) ==> x == y
  }

  function Insert<T>(x: T, s: seq<T>, le: (T, T) -> bool): seq<T> {
    if s == [] || le(x, s[0]) then [x] + s else [s[0]] + Insert(x, s[1..], le)
  }

  function Sort<T>(s: seq<T>, le: (T, T) -> bool): seq<T> {
    if s == [] then [] else Insert(s[0], Sort(s[1..], le), le)
  }

  lemma {:induction false} InsertPermutes<T>(x: T, s: seq<T>, le: (T, T) -> bool)
    ensures multiset(Insert(x, s, le)) == multiset(s) + multiset{x}
  {
    if s != [] && !le(x, s[0]) {
      InsertPermutes(x, s[1..], le);
      assert s == [s[0]] + s[1..];
    }
  }

  lemma {:induction false} InsertSorts<T(!new)>(x: T, s: seq<T>, le: (T, T) -> bool)
    requires TotalPreorder(le) && SortedBy(s, le)
    ensures SortedBy(Insert(x, s, le), le)
  {
    if s != [] && !le(x, s[0]) {
      var rest := Insert(x, s[1..], le);
      InsertSorts(x, s[1..], le);
      InsertPermutes(x, s[1..], le);
      forall y | y in rest ensures le(s[0], y) {
        assert y in multiset(rest);
        assert y == x || y in s[1..];
      }
    } else if s != [] {
      assert forall y :: y in s ==> le(s[0], y) || y == s[0];
      assert forall j :: 0 <= j < |s| ==> le(x, s[j]);
    }
  }

  lemma {:induction false} SortKeepsAll<T>(s: seq<T>, le: (T, T) -> bool)
    ensures multiset(Sort(s, le)) == multiset(s)
  {
    if s != [] {
      SortKeepsAll(s[1..], le);
      InsertPermutes(s[0], Sort(s[1..], le), le);
      assert s == [s[0]] + s[1..];
    }
  }

  lemma SameMultiset<T>(a: seq<T>, b: seq<T>)
    requires multiset(a) == multiset(b)
    ensures |a| == |b|
    ensures forall x :: x in a <==> x in b
  {
    assert |multiset(a)| == |multiset(b)|;
    assert forall x :: x in a <==> x in multiset(a);
  }

  lemma SortPermutes<T>(s: seq<T>, le: (T, T) -> bool)
    ensures multiset(Sort(s, le)) == multiset(s)
    ensures |Sort(s, le)| == |s|
    ensures forall x :: x in Sort(s, le) <==> x in s
  {
    SortKeepsAll(s, le);
    SameMultiset(Sort(s, le), s);
  }

  lemma {:induction false} SortSorts<T(!new)>(s: seq<T>, le: (T, T) -> bool)
    requires TotalPreorder(le)
    ensures SortedBy(Sort(s, le), le)
  {
    if s != [] {
      SortSorts(s[1..], le);
      InsertSorts(s[0], Sort(s[1..], le), le);
    }
  }

  /** A sorted permutation is unique when ties are impossible. */
  lemma {:induction false} SortedUnique<T(!new)>(a: seq<T>, b: seq<T>, le: (T, T) -> bool)
    requires SortedBy(a, le) && SortedBy(b, le) && Antisymmetric(a, le)
    requires multiset(a) == multiset(b)
    requires forall x :: le(x, x)
    ensures a == b
  {
    SameMultiset(a, b);
    if a != [] {
      HeadsAgree(a, b, le);
      TailMultiset(a);
      TailMultiset(b);
      TailAntisymmetric(a, le);
      SortedUnique(a[1..], b[1..], le);
      assert a == [a[0]] + a[1..] && b == [b[0]] + b[1..];
    }
  }

  lemma HeadsAgree<T(!new)>(a: seq<T>, b: seq<T>, le: (T, T) -> bool)
    requires a != [] && b != [] && SortedBy(a, le) && SortedBy(b, le) && Antisymmetric(a, le)
    requires (forall x :: x in a <==> x in b) && (forall x :: le(x, x))
    ensures a[0] == b[0]
  {
    assert a[0] in b && b[0] in a;
  }

  lemma TailAntisymmetric<T(!new)>(a: seq<T>, le: (T, T) -> bool)
    requires a != [] && Antisymmetric(a, le)
    ensures Antisymmetric(a[1..], le)
  {
    assert forall x :: x in a[1..] ==> x in a;
  }

  lemma TailMultiset<T>(a: seq<T>)
    requires a != []
    ensures multiset(a[1..]) == multiset(a) - multiset{a[0]}
  {
    assert a == [a[0]] + a[1..];
  }

  ghost predicate NoDuplicates<T>(s: seq<T>) {
    forall i, j :: 0 <= i < j < |s| ==> s[i] != s[j]
  }

  lemma {:induction false} NoDuplicatesCount<T>(s: seq<T>)
    ensures NoDuplicates(s) <==> forall x :: x in s ==> multiset(s)[x] == 1
  {
    if s != [] {
      var init, last := s[..|s| - 1], s[|s| - 1];
      assert s == init + [last];
      NoDuplicatesCount(init);
      if NoDuplicates(s) {
        forall x | x in s ensures multiset(s)[x] == 1 {
          if x == last {
            assert last !in init;
            assert last !in multiset(init);
          }
        }
      } else if NoDuplicates(init) {
        var i :| 0 <= i < |init| && init[i] == last;
        assert last in multiset(init);
        assert multiset(s)[last] >= 2;
      } else {
        var x :| x in init && multiset(init)[x] != 1;
        assert x in multiset(init);
        assert x in s && multiset(s)[x] >= 2;
      }
    }
  }

  lemma NoDuplicatesPermutes<T>(s: seq<T>, t: seq<T>)
    requires NoDuplicates(s) && multiset(s) == multiset(t)
    ensures NoDuplicates(t)
  {
    NoDuplicatesCount(s);
    NoDuplicatesCount(t);
    forall x | x in t ensures multiset(t)[x] == 1 {
      assert x in multiset(t);
      assert x in s;
    }
  }

  lemma SameElements<T>(a: seq<T>, b: seq<T>)
    requires NoDuplicates(a) && NoDuplicates(b) && forall x :: x in a <==> x in b
    ensures multiset(a) == multiset(b)
  {
    NoDuplicatesCount(a);
    NoDuplicatesCount(b);
    forall x ensures multiset(a)[x] == multiset(b)[x] {
      assert x in a <==> x in multiset(a);
      assert x in b <==> x in multiset(b);
    }
  }
}
