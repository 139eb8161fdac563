/**
 * Stable insertion sort by an arbitrary order, standing for the library sort the source
 * calls with a comparator.
 */
module Sorting {

  ghost predicate TotalOrder<T(!new)>(le: (T, T) -> bool) {
    && (forall a, b :: le(a, b) || le(b, a))
    && (forall a, b, c :: le(a, b) && le(b, c) ==> le(a, c))
  }

  ghost predicate SortedBy<T>(s: seq<T>, le: (T, T) -> bool) {
    forall i, j :: 0 <= i < j < |s| ==> le(s[i], s[j])
  }

  function Insert<T>(x: T, s: seq<T>, le: (T, T) -> bool): seq<T> {
    if s == [] then [x] else if le(x, s[0]) then [x] + s else [s[0]] + Insert(x, s[1..], le)
  }

  function Sort<T>(s: seq<T>, le: (T, T) -> bool): seq<T> {
    if s == [] then [] else Insert(s[0], Sort(s[1..], le), le)
  }

  lemma {:induction false} InsertMembers<T>(x: T, s: seq<T>, le: (T, T) -> bool, y: T)
    ensures y in Insert(x, s, le) <==> y == x || y in s
  {
    if s != [] && !le(x, s[0]) { InsertMembers(x, s[1..], le, y); }
  }

  lemma {:induction false} SortMembers<T>(s: seq<T>, le: (T, T) -> bool, y: T)
    ensures y in Sort(s, le) <==> y in s
  {
    if s != [] {
      SortMembers(s[1..], le, y);
      InsertMembers(s[0], Sort(s[1..], le), le, y);
    }
  }

  lemma {:induction false} InsertSorted<T(!new)>(x: T, s: seq<T>, le: (T, T) -> bool)
    requires TotalOrder(le) && SortedBy(s, le)
    ensures SortedBy(Insert(x, s, le), le)
  {
    if s != [] && !le(x, s[0]) {
      InsertSorted(x, s[1..], le);
      var r := Insert(x, s[1..], le);
      forall k | 0 <= k < |r| ensures le(s[0], r[k]) {
        InsertMembers(x, s[1..], le, r[k]);
      }
    }
  }

  lemma {:induction false} SortSorted<T(!new)>(s: seq<T>, le: (T, T) -> bool)
    requires TotalOrder(le)
    ensures SortedBy(Sort(s, le), le)
  {
    if s != [] {
      SortSorted(s[1..], le);
      InsertSorted(s[0], Sort(s[1..], le), le);
    }
  }

  /** No two elements have the same key. */
  ghost predicate KeysApart<T(!new), K>(s: seq<T>, key: T -> K) {
    forall i, j :: 0 <= i < j < |s| ==> key(s[i]) != key(s[j])
  }

  lemma {:induction false} InsertKeepsApart<T(!new), K>(x: T, s: seq<T>, le: (T, T) -> bool, key: T -> K)
    requires KeysApart(s, key) && forall y :: y in s ==> key(y) != key(x)
    ensures KeysApart(Insert(x, s, le), key)
  {
    if s != [] && !le(x, s[0]) {
      InsertKeepsApart(x, s[1..], le, key);
      forall y | y in Insert(x, s[1..], le) ensures key(y) != key(s[0]) {
        InsertMembers(x, s[1..], le, y);
      }
    }
  }

  lemma {:induction false} SortKeepsApart<T(!new), K>(s: seq<T>, le: (T, T) -> bool, key: T -> K)
    requires KeysApart(s, key)
    ensures KeysApart(Sort(s, le), key)
  {
    if s != [] {
      SortKeepsApart(s[1..], le, key);
      forall y | y in Sort(s[1..], le) ensures key(y) != key(s[0]) { SortMembers(s[1..], le, y); }
      InsertKeepsApart(s[0], Sort(s[1..], le), le, key);
    }
  }

  ghost predicate NoDuplicates<T>(s: seq<T>) {
    forall i, j :: 0 <= i < j < |s| ==> s[i] != s[j]
  }

  lemma SortKeepsDistinct<T(!new)>(s: seq<T>, le: (T, T) -> bool)
    requires NoDuplicates(s)
    ensures NoDuplicates(Sort(s, le))
  {
    var itself := (x: T) => x;
    assert KeysApart(s, itself);
    SortKeepsApart(s, le, itself);
    var r := Sort(s, le);
    assert forall i, j :: 0 <= i < j < |r| ==> itself(r[i]) != itself(r[j]);
  }

  // ----- Stability ---------------------------------------------------------------------------------

  /** The elements with a property, in their order. */
  function Chosen<T>(s: seq<T>, p: T -> bool): seq<T> {
    if s == [] then [] else (if p(s[0]) then [s[0]] else []) + Chosen(s[1..], p)
  }

  lemma {:induction false} InsertKeepsOrder<T(!new)>(x: T, s: seq<T>, le: (T, T) -> bool, p: T -> bool)
    requires forall a, b :: p(a) && p(b) ==> le(a, b)
    ensures Chosen(Insert(x, s, le), p) == (if p(x) then [x] else []) + Chosen(s, p)
  {
    hide Chosen;
    if s != [] && !le(x, s[0]) {
      assert !(p(x) && p(s[0]));
      InsertKeepsOrder(x, s[1..], le, p);
      ChosenInFront(s[0], Insert(x, s[1..], le), p);
      ChosenInFront(s[0], s[1..], p);
      assert [s[0]] + s[1..] == s;
    } else {
      ChosenInFront(x, s, p);
      assert Insert(x, s, le) == [x] + s;
    }
  }

  lemma ChosenInFront<T>(x: T, s: seq<T>, p: T -> bool)
    ensures Chosen([x] + s, p) == (if p(x) then [x] else []) + Chosen(s, p)
  {
    assert ([x] + s)[1..] == s;
  }

  /** Elements that rank alike keep their order. */
  lemma {:induction false} SortKeepsOrder<T(!new)>(s: seq<T>, le: (T, T) -> bool, p: T -> bool)
    requires forall a, b :: p(a) && p(b) ==> le(a, b)
    ensures Chosen(Sort(s, le), p) == Chosen(s, p)
  {
    if s != [] {
      SortKeepsOrder(s[1..], le, p);
      InsertKeepsOrder(s[0], Sort(s[1..], le), le, p);
    }
  }
}
