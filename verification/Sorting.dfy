/** Sorting by a less function, as Go's sort package does. */
module Sorting {

  // less is a total preorder on the given elements; below and equal elements
  // may be told apart or not.
  ghost predicate Orders<T>(less: (T, T) -> bool, elements: set<T>) {
    && (forall a, b | a in elements && b in elements :: !(less(a, b) && less(b, a)))
    && (forall a, b, c | a in elements && b in elements && c in elements ::
          !less(b, a) && !less(c, b) ==> !less(c, a))
  }

  // And it tells any two of them apart.
  ghost predicate Separates<T>(less: (T, T) -> bool, elements: set<T>) {
    forall a, b | a in elements && b in elements :: less(a, b) || less(b, a) || a == b
  }

  predicate SortedBy<T>(s: seq<T>, less: (T, T) -> bool) {
    forall i, j | 0 <= i < j < |s| :: !less(s[j], s[i])
  }

  function Insert<T>(x: T, s: seq<T>, less: (T, T) -> bool): seq<T> {
    if s == [] || !less(s[0], x) then [x] + s else [s[0]] + Insert(x, s[1..], less)
  }

  function Sort<T>(s: seq<T>, less: (T, T) -> bool): seq<T> {
    if s == [] then [] else Insert(s[0], Sort(s[1..], less), less)
  }

  lemma {:induction false} InsertKeeps<T>(x: T, s: seq<T>, less: (T, T) -> bool)
    ensures multiset(Insert(x, s, less)) == multiset(s) + multiset{x}
  {
    if s != [] && less(s[0], x) {
      InsertKeeps(x, s[1..], less);
      assert s == [s[0]] + s[1..];
    }
  }

  lemma SameElements<T>(s: seq<T>, t: seq<T>)
    requires multiset(s) == multiset(t)
    ensures |s| == |t|
    ensures forall x | x in s :: x in t
    ensures forall x | x in t :: x in s
  {
    assert |multiset(s)| == |s| && |multiset(t)| == |t|;
    assert forall x | x in s :: x in multiset(s);
    assert forall x | x in t :: x in multiset(t);
  }

  lemma {:induction false} InsertSorts<T>(x: T, s: seq<T>, less: (T, T) -> bool, elements: set<T>)
    requires Orders(less, elements) && x in elements && (forall y | y in s :: y in elements)
    requires SortedBy(s, less)
    ensures SortedBy(Insert(x, s, less), less)
    ensures forall y | y in Insert(x, s, less) :: y == x || y in s
  {
    if s != [] {
      assert s[0] in s && s == [s[0]] + s[1..];
      if less(s[0], x) {
        InsertSorts(x, s[1..], less, elements);
        var rest := Insert(x, s[1..], less);
        forall j | 0 <= j < |rest|
          ensures !less(rest[j], s[0])
        {
          assert rest[j] in rest;
        }
      } else {
        assert forall j | 0 <= j < |s| :: s[j] in s && !less(s[j], s[0]) && !less(s[j], x);
      }
    }
  }

  lemma {:induction false} SortResult<T>(s: seq<T>, less: (T, T) -> bool, elements: set<T>)
    requires Orders(less, elements) && forall y | y in s :: y in elements
    ensures multiset(Sort(s, less)) == multiset(s) && SortedBy(Sort(s, less), less)
  {
    if s != [] {
      assert s == [s[0]] + s[1..];
      SortResult(s[1..], less, elements);
      SameElements(Sort(s[1..], less), s[1..]);
      assert forall y | y in Sort(s[1..], less) :: y in s[1..] && y in s;
      InsertSorts(s[0], Sort(s[1..], less), less, elements);
      InsertKeeps(s[0], Sort(s[1..], less), less);
    }
  }

  // The first of a sorted list is below or equal to every element.
  lemma FirstIsLeast<T>(s: seq<T>, x: T, less: (T, T) -> bool)
    requires SortedBy(s, less) && x in s
    ensures s[0] == x || !less(x, s[0])
  {
    var i :| 0 <= i < |s| && s[i] == x;
  }

  lemma WithoutFirst<T>(s: seq<T>)
    requires s != []
    ensures multiset(s[1..]) == multiset(s) - multiset{s[0]}
  {
    assert s == [s[0]] + s[1..];
  }

  lemma SameFirst<T>(s: seq<T>, t: seq<T>, less: (T, T) -> bool, elements: set<T>)
    requires Separates(less, elements) && forall y | y in s :: y in elements
    requires SortedBy(s, less) && SortedBy(t, less) && multiset(s) == multiset(t) && s != []
    ensures t != [] && s[0] == t[0]
    ensures multiset(s[1..]) == multiset(t[1..])
  {
    SameElements(s, t);
    var x, y := s[0], t[0];
    assert x in s && x in t && y in t && y in s;
    FirstIsLeast(t, x, less);
    FirstIsLeast(s, y, less);
    assert x in elements && y in elements;
    WithoutFirst(s);
    WithoutFirst(t);
  }

  // Two sorted arrangements of the same elements are the same.
  lemma {:induction false} SortedUnique<T>(s: seq<T>, t: seq<T>, less: (T, T) -> bool, elements: set<T>)
    requires Separates(less, elements) && forall y | y in s :: y in elements
    requires SortedBy(s, less) && SortedBy(t, less) && multiset(s) == multiset(t)
    ensures s == t
  {
    if s == [] {
      SameElements(s, t);
    } else {
      SameFirst(s, t, less, elements);
      SortedUnique(s[1..], t[1..], less, elements);
      assert s == [s[0]] + s[1..] && t == [t[0]] + t[1..];
    }
  }
}
