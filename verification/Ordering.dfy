/** Sorting by a strict order, and the uniqueness of what it gives. */
module Ordering {

  ghost predicate StrictOrder<T(!new)>(less: (T, T) -> bool) {
    && (forall x :: !less(x, x))
    && (forall x, y, z :: less(x, y) && less(y, z) ==> less(x, z))
  }

  ghost predicate Ascending<T>(less: (T, T) -> bool, s: seq<T>) {
    forall i, j :: 0 <= i < j < |s| ==> less(s[i], s[j])
  }

  /** Any two entries can be told apart by the order. */
  ghost predicate Comparable<T>(less: (T, T) -> bool, s: seq<T>) {
    forall i, j :: 0 <= i < j < |s| ==> less(s[i], s[j]) || less(s[j], s[i])
  }

  /** Puts x after the entries that are not above it. */
  function Insert<T>(less: (T, T) -> bool, x: T, s: seq<T>): seq<T> {
    if s == [] || less(x, s[0]) then [x] + s else [s[0]] + Insert(less, x, s[1..])
  }

  /** Stable insertion sort. */
  function Sort<T>(less: (T, T) -> bool, s: seq<T>): seq<T> {
    if s == [] then [] else Insert(less, s[|s| - 1], Sort(less, s[..|s| - 1]))
  }

  lemma {:induction false} InsertMembers<T>(less: (T, T) -> bool, x: T, s: seq<T>)
    ensures multiset(Insert(less, x, s)) == multiset(s) + multiset{x}
    decreases |s|
  {
    if s != [] && !less(x, s[0]) {
      InsertMembers(less, x, s[1..]);
      assert s == [s[0]] + s[1..];
    }
  }

  lemma {:induction false} InsertAscending<T(!new)>(less: (T, T) -> bool, x: T, s: seq<T>)
    requires StrictOrder(less) && Ascending(less, s)
    requires forall y <- s :: less(x, y) || less(y, x)
    ensures Ascending(less, Insert(less, x, s))
    decreases |s|
  {
    if s != [] {
      if less(x, s[0]) {
        assert forall i | 0 < i < |s| :: less(s[0], s[i]);
      } else {
        InsertAscending(less, x, s[1..]);
        InsertMembers(less, x, s[1..]);
        var t := Insert(less, x, s[1..]);
        forall i | 0 <= i < |t|
          ensures less(s[0], t[i])
        {
          assert t[i] in multiset(t);
          assert t[i] in s[1..] || t[i] == x;
        }
      }
    }
  }

  /** Sorting keeps the entries, and orders them when the order can. */
  lemma {:induction false} SortSorts<T(!new)>(less: (T, T) -> bool, s: seq<T>)
    requires StrictOrder(less) && Comparable(less, s)
    ensures multiset(Sort(less, s)) == multiset(s)
    ensures Ascending(less, Sort(less, s))
    decreases |s|
  {
    if s != [] {
      var front, x := s[..|s| - 1], s[|s| - 1];
      SortSorts(less, front);
      InsertMembers(less, x, Sort(less, front));
      assert s == front + [x];
      forall y | y in Sort(less, front)
        ensures less(x, y) || less(y, x)
      {
        assert y in multiset(Sort(less, front));
        assert y in front;
      }
      InsertAscending(less, x, Sort(less, front));
    }
  }

  lemma HasMember<T>(s: seq<T>)
    requires s != []
    ensures s[0] in s
  {
  }

  lemma Rest<T(!new)>(less: (T, T) -> bool, s: seq<T>, x: T)
    requires StrictOrder(less) && Ascending(less, s) && s != []
    ensures x in s[1..] <==> x in s && x != s[0]
  {
    assert s == [s[0]] + s[1..];
    assert forall i | 0 <= i < |s| - 1 :: s[1..][i] == s[i + 1];
  }

  /** Two ascending sequences with the same members are the same sequence. */
  lemma {:induction false} AscendingUnique<T(!new)>(less: (T, T) -> bool, a: seq<T>, b: seq<T>)
    requires StrictOrder(less) && Ascending(less, a) && Ascending(less, b)
    requires forall x :: x in a <==> x in b
    ensures a == b
    decreases |a|
  {
    if a == [] {
      if b != [] {
        HasMember(b);
        assert false;
      }
    } else {
      assert a[0] in b && b != [];
      assert b[0] in a;
      var i :| 0 <= i < |a| && a[i] == b[0];
      var j :| 0 <= j < |b| && b[j] == a[0];
      assert forall k | 0 < k < |a| :: less(a[0], a[k]);
      assert forall k | 0 < k < |b| :: less(b[0], b[k]);
      assert a[0] == b[0];
      forall x
        ensures x in a[1..] <==> x in b[1..]
      {
        Rest(less, a, x);
        Rest(less, b, x);
      }
      AscendingUnique(less, a[1..], b[1..]);
      assert a == [a[0]] + a[1..] && b == [b[0]] + b[1..];
    }
  }

  /** An ascending arrangement of a sequence is its sort. */
  lemma SortIs<T(!new)>(less: (T, T) -> bool, s: seq<T>, t: seq<T>)
    requires StrictOrder(less) && Comparable(less, s)
    requires Ascending(less, t) && forall x :: x in t <==> x in s
    ensures Sort(less, s) == t
  {
    SortSorts(less, s);
    forall x
      ensures x in Sort(less, s) <==> x in t
    {
      assert x in multiset(Sort(less, s)) <==> x in multiset(s);
    }
    AscendingUnique(less, Sort(less, s), t);
  }
}
