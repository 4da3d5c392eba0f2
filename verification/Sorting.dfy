/** Sorting distinct elements by a strict total order: the answer is one sequence,
    whatever order the elements were collected in. */
module Sorting {
  /** A strict total order on these elements. */
  ghost predicate Orders<T(!new)>(less: (T, T) -> bool, xs: set<T>) {
    && (forall x, y | x in xs && y in xs :: less(x, y) ==> !less(y, x))
    && (forall x, y | x in xs && y in xs && x != y :: less(x, y) || less(y, x))
    && (forall x, y, z | x in xs && y in xs && z in xs && less(x, y) && less(y, z) :: less(x, z))
  }

  predicate Ascending<T>(less: (T, T) -> bool, s: seq<T>) {
    forall i, j | 0 <= i < j < |s| :: less(s[i], s[j])
  }

  ghost predicate Lists<T(!new)>(s: seq<T>, xs: set<T>) {
    && (forall x :: x in s <==> x in xs)
    && (forall i, j | 0 <= i < j < |s| :: s[i] != s[j])
  }

  function Insert<T(!new)>(less: (T, T) -> bool, x: T, s: seq<T>): (r: seq<T>)
    ensures forall y :: y in r <==> y == x || y in s
  {
    if s == [] then [x]
    else if less(x, s[0]) then [x] + s
    else
      var rest := Insert(less, x, s[1..]);
      assert s == [s[0]] + s[1..];
      [s[0]] + rest
  }

  function Sorted<T(!new)>(less: (T, T) -> bool, s: seq<T>): (r: seq<T>)
    ensures forall y :: y in r <==> y in s
  {
    if s == [] then []
    else
      assert s == [s[0]] + s[1..];
      Insert(less, s[0], Sorted(less, s[1..]))
  }

  lemma {:induction false} InsertAscends<T(!new)>(less: (T, T) -> bool, x: T, s: seq<T>, xs: set<T>)
    requires Orders(less, xs) && x in xs && x !in s && (forall y | y in s :: y in xs)
    requires Ascending(less, s)
    ensures Ascending(less, Insert(less, x, s))
  {
    if s != [] && !less(x, s[0]) {
      assert s == [s[0]] + s[1..];
      InsertAscends(less, x, s[1..], xs);
      var rest := Insert(less, x, s[1..]);
      forall j | 0 <= j < |rest|
        ensures less(s[0], rest[j])
      {
        assert rest[j] in rest;
        if rest[j] != x {
          var k :| 0 <= k < |s[1..]| && s[1..][k] == rest[j];
          assert less(s[0], s[k + 1]);
        }
      }
    } else if s != [] {
      forall j | 0 <= j < |s|
        ensures less(x, s[j])
      {
        if j > 0 {
          assert less(s[0], s[j]);
        }
      }
    }
  }

  lemma {:induction false} SortedAscends<T(!new)>(less: (T, T) -> bool, s: seq<T>, xs: set<T>)
    requires Orders(less, xs) && Lists(s, xs)
    ensures Ascending(less, Sorted(less, s)) && Lists(Sorted(less, s), xs)
  {
    SuffixAscends(less, s, xs);
    forall i, j | 0 <= i < j < |Sorted(less, s)|
      ensures Sorted(less, s)[i] != Sorted(less, s)[j]
    {
      assert less(Sorted(less, s)[i], Sorted(less, s)[j]);
    }
  }

  lemma {:induction false} SuffixAscends<T(!new)>(less: (T, T) -> bool, s: seq<T>, xs: set<T>)
    requires Orders(less, xs) && (forall y | y in s :: y in xs) && (forall i, j | 0 <= i < j < |s| :: s[i] != s[j])
    ensures Ascending(less, Sorted(less, s))
  {
    if s != [] {
      assert s == [s[0]] + s[1..];
      SuffixAscends(less, s[1..], xs);
      InsertAscends(less, s[0], Sorted(less, s[1..]), xs);
    }
  }

  lemma FirstIsLeast<T(!new)>(less: (T, T) -> bool, s: seq<T>, xs: set<T>)
    requires Lists(s, xs) && Ascending(less, s) && s != []
    ensures s[0] in xs && forall x | x in xs && x != s[0] :: less(s[0], x)
  {
    forall x | x in xs && x != s[0]
      ensures less(s[0], x)
    {
      var i :| 0 <= i < |s| && s[i] == x;
    }
  }

  /** There is only one ascending listing of a set. */
  lemma {:induction false} AscendingIsUnique<T(!new)>(less: (T, T) -> bool, a: seq<T>, b: seq<T>, xs: set<T>)
    requires Orders(less, xs) && Lists(a, xs) && Lists(b, xs) && Ascending(less, a) && Ascending(less, b)
    ensures a == b
    decreases |a|
  {
    assert a == [] <==> b == [] by {
      assert a != [] ==> a[0] in b;
      assert b != [] ==> b[0] in a;
    }
    if a != [] {
      FirstIsLeast(less, a, xs);
      FirstIsLeast(less, b, xs);
      TailLists(a, xs);
      TailLists(b, xs);
      AscendingIsUnique(less, a[1..], b[1..], xs - {a[0]});
      assert a == [a[0]] + a[1..] && b == [b[0]] + b[1..];
    }
  }

  lemma TailLists<T(!new)>(s: seq<T>, xs: set<T>)
    requires Lists(s, xs) && s != []
    ensures Lists(s[1..], xs - {s[0]})
  {
    assert s == [s[0]] + s[1..];
  }
}
