/**
 Orderings the scripts get from pandas and Python built-ins: sorting by a
 string key (`DataFrame.sort_values`, `sorted`) and the first-seen distinct
 values of a column (`Series.unique`).
 */
module Ordering {
  import opened Text

  predicate NoDup<T(==)>(s: seq<T>)
  {
    forall i, j | 0 <= i < j < |s| :: s[i] != s[j]
  }

  /** Ascending by `key` under Python's string order; equal keys may come in any order. */
  predicate SortedBy<T>(s: seq<T>, key: T -> string)
  {
    forall i, j | 0 <= i < j < |s| :: LexLe(key(s[i]), key(s[j]))
  }

  /** Placing x in front of a sorted sequence keeps it sorted when x's key is at most the first key. */
  lemma InsertInFront<T>(x: T, s: seq<T>, key: T -> string)
    requires SortedBy(s, key)
    requires s == [] || LexLe(key(x), key(s[0]))
    ensures SortedBy([x] + s, key)
  {
    forall j | 1 <= j < |s| + 1
      ensures LexLe(key(([x] + s)[0]), key(([x] + s)[j]))
    {
      if j > 1 {
        LexLeTrans(key(x), key(s[0]), key(s[j - 1]));
      }
    }
  }

  /** Insertion of one element into a sorted sequence. */
  function InsertBy<T>(x: T, s: seq<T>, key: T -> string): (r: seq<T>)
    requires SortedBy(s, key)
    ensures SortedBy(r, key)
    ensures multiset(r) == multiset(s) + multiset{x}
    ensures |r| == |s| + 1
  {
    if s == [] || LexLe(key(x), key(s[0])) then
      InsertInFront(x, s, key);
      [x] + s
    else
      var tail := InsertBy(x, s[1..], key);
      assert s == [s[0]] + s[1..];
      LexLeTotal(key(x), key(s[0]));
      HeadBound(x, s, tail, key);
      InsertInFront(s[0], tail, key);
      [s[0]] + tail
  }

  /** After inserting x into the tail, the head of a sorted s still comes first. */
  lemma HeadBound<T>(x: T, s: seq<T>, tail: seq<T>, key: T -> string)
    requires s != [] && SortedBy(s, key) && LexLe(key(s[0]), key(x))
    requires tail != [] && multiset(tail) == multiset(s[1..]) + multiset{x}
    ensures LexLe(key(s[0]), key(tail[0]))
  {
    assert tail[0] in multiset(tail);
    if tail[0] != x {
      assert tail[0] in s[1..];
      var j :| 0 <= j < |s| - 1 && s[1..][j] == tail[0];
      assert s[1..][j] == s[j + 1];
    }
  }

  /**
   A sort by key: the result is in ascending key order and is a permutation of
   the input. Nothing is promised about the order of equal keys (pandas'
   default sort is not stable).
   */
  function SortBy<T>(s: seq<T>, key: T -> string): (r: seq<T>)
    ensures SortedBy(r, key)
    ensures multiset(r) == multiset(s)
    ensures |r| == |s|
  {
    if s == [] then []
    else
      assert s == s[..|s| - 1] + [s[|s| - 1]];
      InsertBy(s[|s| - 1], SortBy(s[..|s| - 1], key), key)
  }

  /** The string itself, as a sort key. */
  function Self(s: string): string
  {
    s
  }

  /**
   Two sorted permutations of one sequence are equal when equal keys occur only
   on identical elements: then no tie order can be observed, and it does not
   matter whether the sort was stable.
   */
  lemma {:induction false} SortedTiesDetermined<T>(a: seq<T>, b: seq<T>, key: T -> string)
    requires SortedBy(a, key) && SortedBy(b, key) && multiset(a) == multiset(b)
    requires forall x, y | x in a && y in a && key(x) == key(y) :: x == y
    ensures a == b
  {
    if a != [] {
      SortedHeadsEqual(a, b, key);
      SortedTail(a, key);
      SortedTail(b, key);
      MultisetTails(a, b);
      TiesTail(a, key);
      SortedTiesDetermined(a[1..], b[1..], key);
      assert a == [a[0]] + a[1..] && b == [b[0]] + b[1..];
    }
  }

  /** Sorted permutations whose ties are identical elements start with the same element. */
  lemma SortedHeadsEqual<T>(a: seq<T>, b: seq<T>, key: T -> string)
    requires a != [] && SortedBy(a, key) && SortedBy(b, key) && multiset(a) == multiset(b)
    requires forall x, y | x in a && y in a && key(x) == key(y) :: x == y
    ensures b != [] && a[0] == b[0]
  {
    assert |b| == |multiset(b)| == |multiset(a)| == |a|;
    assert a[0] in multiset(b) && b[0] in multiset(a);
    var i :| 0 <= i < |b| && b[i] == a[0];
    var j :| 0 <= j < |a| && a[j] == b[0];
    LexLeRefl(key(a[0]));
    LexLeRefl(key(b[0]));
    assert LexLe(key(b[0]), key(a[0])) by {
      if i > 0 {
        assert LexLe(key(b[0]), key(b[i]));
      }
    }
    assert LexLe(key(a[0]), key(b[0])) by {
      if j > 0 {
        assert LexLe(key(a[0]), key(a[j]));
      }
    }
    LexLeAntisym(key(a[0]), key(b[0]));
    assert a[j] in a;
  }

  lemma MultisetTails<T>(a: seq<T>, b: seq<T>)
    requires a != [] && b != [] && a[0] == b[0] && multiset(a) == multiset(b)
    ensures multiset(a[1..]) == multiset(b[1..])
  {
    assert a == [a[0]] + a[1..] && b == [b[0]] + b[1..];
    assert multiset(a) == multiset{a[0]} + multiset(a[1..]);
    assert multiset(b) == multiset{b[0]} + multiset(b[1..]);
    assert multiset(a[1..]) == multiset(a) - multiset{a[0]};
    assert multiset(b[1..]) == multiset(b) - multiset{b[0]};
  }

  lemma TiesTail<T>(a: seq<T>, key: T -> string)
    requires a != [] && forall x, y | x in a && y in a && key(x) == key(y) :: x == y
    ensures forall x, y | x in a[1..] && y in a[1..] && key(x) == key(y) :: x == y
  {
    forall x, y | x in a[1..] && y in a[1..] && key(x) == key(y)
      ensures x == y
    {
      assert x in a && y in a;
    }
  }

  lemma SortedTail<T>(a: seq<T>, key: T -> string)
    requires a != [] && SortedBy(a, key)
    ensures SortedBy(a[1..], key)
  {
    forall i, j | 0 <= i < j < |a| - 1
      ensures LexLe(key(a[1..][i]), key(a[1..][j]))
    {
      assert a[1..][i] == a[i + 1] && a[1..][j] == a[j + 1];
    }
  }

  /** The members of a list, as a set. */
  function Elems(xs: seq<string>): (r: set<string>)
    ensures forall x :: x in r <==> x in xs
  {
    set x | x in xs
  }

  /**
   A duplicate-free sorted sequence is determined by its elements: this is why
   Python's `sorted(list(some_set))` does not depend on the set's iteration order.
   */
  lemma {:induction false} SortedDistinctUnique(a: seq<string>, b: seq<string>)
    requires SortedBy(a, Self) && SortedBy(b, Self) && NoDup(a) && NoDup(b)
    requires forall x :: x in a <==> x in b
    ensures a == b
  {
    assert a != [] ==> a[0] in b;
    assert b != [] ==> b[0] in a;
    if a != [] && b != [] {
      assert a[0] in b && b[0] in a;
      var i :| 0 <= i < |b| && b[i] == a[0];
      var j :| 0 <= j < |a| && a[j] == b[0];
      LexLeRefl(a[0]);
      LexLeRefl(b[0]);
      assert LexLe(b[0], a[0]) by {
        if i > 0 {
          assert LexLe(Self(b[0]), Self(b[i]));
        }
      }
      assert LexLe(a[0], b[0]) by {
        if j > 0 {
          assert LexLe(Self(a[0]), Self(a[j]));
        }
      }
      LexLeAntisym(a[0], b[0]);
      forall x
        ensures x in a[1..] <==> x in b[1..]
      {
        if x in a[1..] {
          var k :| 1 <= k < |a| && a[k] == x;
          assert x != a[0];
          assert x in b;
        }
        if x in b[1..] {
          var k :| 1 <= k < |b| && b[k] == x;
          assert x != b[0];
          assert x in a;
        }
      }
      SortedDistinctUnique(a[1..], b[1..]);
      assert a == [a[0]] + a[1..] && b == [b[0]] + b[1..];
    }
  }

  /** pandas' `Series.unique()`: the distinct values in order of first appearance. */
  function Unique(xs: seq<string>): (u: seq<string>)
    ensures forall x :: x in u <==> x in xs
    ensures NoDup(u)
  {
    if xs == [] then []
    else
      var prefix := xs[..|xs| - 1];
      var u := Unique(prefix);
      assert xs == prefix + [xs[|xs| - 1]];
      if xs[|xs| - 1] in u then u else u + [xs[|xs| - 1]]
  }

  /** A duplicate-free sequence holds each of its values exactly once. */
  lemma {:induction false} NoDupCount<T>(s: seq<T>)
    requires NoDup(s)
    ensures forall x | x in s :: multiset(s)[x] == 1
  {
    if s != [] {
      var t := s[1..];
      assert NoDup(t) by {
        forall i, j | 0 <= i < j < |t|
          ensures t[i] != t[j]
        {
          assert t[i] == s[i + 1] && t[j] == s[j + 1];
        }
      }
      NoDupCount(t);
      assert s == [s[0]] + t;
      assert s[0] !in t;
      forall x | x in s
        ensures multiset(s)[x] == 1
      {
        assert multiset(s) == multiset{s[0]} + multiset(t);
      }
    }
  }

  /** Two equal values at two positions are counted twice. */
  lemma RepeatCounted<T>(s: seq<T>, i: nat, j: nat)
    requires i < j < |s| && s[i] == s[j]
    ensures multiset(s)[s[i]] >= 2
  {
    assert s == s[..j] + s[j..];
    assert s[i] in s[..j];
    assert s[j] == s[j..][0];
    assert multiset(s) == multiset(s[..j]) + multiset(s[j..]);
  }

  /** Being duplicate-free survives any rearrangement. */
  lemma NoDupPermutation<T>(a: seq<T>, b: seq<T>)
    requires NoDup(a) && multiset(a) == multiset(b)
    ensures NoDup(b)
  {
    NoDupCount(a);
    forall i, j | 0 <= i < j < |b|
      ensures b[i] != b[j]
    {
      if b[i] == b[j] {
        RepeatCounted(b, i, j);
      }
    }
  }

  /**
   Python's `list(some_set)`: every element once, in an order the set's
   iteration chooses and nothing here fixes.
   */
  method ListOf<T>(s: set<T>) returns (xs: seq<T>)
    ensures NoDup(xs)
    ensures forall x :: x in xs <==> x in s
  {
    xs := [];
    var rest := s;
    while rest != {}
      invariant rest <= s
      invariant NoDup(xs)
      invariant forall x :: x in xs <==> x in s && x !in rest
      decreases |rest|
    {
      var x :| x in rest;
      xs := xs + [x];
      rest := rest - {x};
    }
  }

}
