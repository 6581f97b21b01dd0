/** Sorting by a strict order, as Python's `sorted` and `bisect.insort` do it. */
module Sorting {

  ghost predicate StrictTotal<T(!new)>(less: (T, T) -> bool) {
    && (forall x :: !less(x, x))
    && (forall x, y, z :: less(x, y) && less(y, z) ==> less(x, z))
    && (forall x, y :: less(x, y) || x == y || less(y, x))
  }

  predicate Sorted<T>(less: (T, T) -> bool, s: seq<T>) {
    forall i, j | 0 <= i < j < |s| :: !less(s[j], s[i])
  }

  /** Inserts `x` to the right of every element that is not greater, as `bisect.insort` does. */
  function Insert<T>(less: (T, T) -> bool, x: T, s: seq<T>): seq<T> {
    if s == [] then [x]
    else if less(x, s[0]) then [x] + s
    else [s[0]] + Insert(less, x, s[1..])
  }

  function Sort<T>(less: (T, T) -> bool, s: seq<T>): seq<T> {
    if s == [] then [] else Insert(less, s[|s| - 1], Sort(less, s[..|s| - 1]))
  }

  lemma {:induction false} InsertPermutes<T>(less: (T, T) -> bool, x: T, s: seq<T>)
    ensures multiset(Insert(less, x, s)) == multiset(s) + multiset{x}
    ensures |Insert(less, x, s)| == |s| + 1
  {
    if s != [] {
      assert s == [s[0]] + s[1..];
      if !less(x, s[0]) {
        InsertPermutes(less, x, s[1..]);
      }
    }
  }

  lemma {:induction false} InsertSorted<T(!new)>(less: (T, T) -> bool, x: T, s: seq<T>)
    requires StrictTotal(less) && Sorted(less, s)
    ensures Sorted(less, Insert(less, x, s))
  {
    if s != [] {
      if less(x, s[0]) {
        assert forall j | 0 <= j < |s| :: !less(s[j], x);
      } else {
        InsertSorted(less, x, s[1..]);
        var t := Insert(less, x, s[1..]);
        InsertPermutes(less, x, s[1..]);
        forall j | 0 <= j < |t| ensures !less(t[j], s[0]) {
          assert t[j] in multiset(t);
          assert t[j] == x || t[j] in s[1..];
        }
      }
    }
  }

  lemma {:induction false} SortPermutes<T>(less: (T, T) -> bool, s: seq<T>)
    ensures multiset(Sort(less, s)) == multiset(s)
    ensures |Sort(less, s)| == |s|
  {
    if s != [] {
      assert s == s[..|s| - 1] + [s[|s| - 1]];
      SortPermutes(less, s[..|s| - 1]);
      InsertPermutes(less, s[|s| - 1], Sort(less, s[..|s| - 1]));
    }
  }

  lemma {:induction false} SortSorted<T(!new)>(less: (T, T) -> bool, s: seq<T>)
    requires StrictTotal(less)
    ensures Sorted(less, Sort(less, s))
  {
    if s != [] {
      SortSorted(less, s[..|s| - 1]);
      InsertSorted(less, s[|s| - 1], Sort(less, s[..|s| - 1]));
    }
  }

  /** A sorted arrangement is unique: two sorted permutations of each other are equal. */
  lemma {:induction false} SortedUnique<T(!new)>(less: (T, T) -> bool, a: seq<T>, b: seq<T>)
    requires StrictTotal(less) && Sorted(less, a) && Sorted(less, b)
    requires multiset(a) == multiset(b)
    ensures a == b
  {
    assert |multiset(a)| == |a| && |multiset(b)| == |b|;
    if a != [] {
      SmallestFirst(less, a, b);
      WithoutFirst(a);
      WithoutFirst(b);
      SortedUnique(less, a[1..], b[1..]);
    }
  }

  lemma SmallestFirst<T(!new)>(less: (T, T) -> bool, a: seq<T>, b: seq<T>)
    requires StrictTotal(less) && Sorted(less, a) && Sorted(less, b)
    requires a != [] && b != [] && multiset(a) == multiset(b)
    ensures a[0] == b[0]
  {
    assert a[0] in multiset(b) && b[0] in multiset(a);
    assert !less(a[0], b[0]) && !less(b[0], a[0]);
  }

  lemma WithoutFirst<T>(s: seq<T>)
    requires s != []
    ensures multiset(s[1..]) == multiset(s) - multiset{s[0]}
  {
    assert s == [s[0]] + s[1..];
  }

  ghost predicate Distinct<T>(s: seq<T>) {
    forall i, j | 0 <= i < j < |s| :: s[i] != s[j]
  }

  lemma {:induction false} InsertDistinct<T>(less: (T, T) -> bool, x: T, s: seq<T>)
    requires Distinct(s) && x !in s
    ensures Distinct(Insert(less, x, s))
    ensures forall y :: y in Insert(less, x, s) <==> y == x || y in s
  {
    if s != [] {
      assert s == [s[0]] + s[1..];
      if !less(x, s[0]) {
        InsertDistinct(less, x, s[1..]);
        var t := Insert(less, x, s[1..]);
        forall j | 0 <= j < |t| ensures t[j] != s[0] {
          assert t[j] in t;
          if t[j] in s[1..] {
            var k :| 0 <= k < |s[1..]| && s[1..][k] == t[j];
            assert s[k + 1] != s[0];
          }
        }
      }
    }
  }

  /** Rearranging distinct elements keeps them distinct. */
  lemma SameElementsOnce<T(!new)>(a: seq<T>, b: seq<T>)
    requires multiset(a) == multiset(b) && Distinct(a)
    ensures Distinct(b) && |a| == |b| && forall x :: x in a <==> x in b
  {
    assert |multiset(a)| == |a| && |multiset(b)| == |b|;
    forall x ensures x in a <==> x in b {
      assert x in a <==> x in multiset(a);
      assert x in b <==> x in multiset(b);
    }
    forall i, j | 0 <= i < j < |b| ensures b[i] != b[j] {
      if b[i] == b[j] {
        assert b == b[..j] + [b[j]] + b[j + 1..];
        assert b[i] in b[..j];
        assert multiset(b)[b[i]] >= 2;
        AtMostOnce(a, b[i]);
        assert false;
      }
    }
  }

  lemma {:induction false} AtMostOnce<T(!new)>(a: seq<T>, x: T)
    requires Distinct(a)
    ensures multiset(a)[x] <= 1
  {
    if a != [] {
      var front := a[..|a| - 1];
      assert a == front + [a[|a| - 1]];
      AtMostOnce(front, x);
      if x == a[|a| - 1] {
        assert x !in front;
      }
    }
  }

  /** Sorting distinct elements puts each one strictly before the next. */
  lemma {:induction false} SortOfDistinct<T(!new)>(less: (T, T) -> bool, s: seq<T>)
    requires StrictTotal(less) && Distinct(s)
    ensures var r := Sort(less, s);
      && |r| == |s| && multiset(r) == multiset(s) && Distinct(r) && (forall x :: x in r <==> x in s)
      && (forall i, j | 0 <= i < j < |r| :: less(r[i], r[j]))
  {
    SortPermutes(less, s);
    SortSorted(less, s);
    SameElementsOnce(s, Sort(less, s));
  }

  /** The elements of a set in increasing order, as `sorted(the_set)`. */
  method SortedElements<T(!new,==)>(less: (T, T) -> bool, s: set<T>) returns (q: seq<T>)
    requires StrictTotal(less)
    ensures Sorted(less, q) && Distinct(q)
    ensures forall x :: x in q <==> x in s
  {
    q := [];
    var rest := s;
    while rest != {}
      invariant rest <= s
      invariant Sorted(less, q) && Distinct(q)
      invariant forall x :: x in q <==> x in s && x !in rest
      decreases rest
    {
      var x :| x in rest;
      InsertSorted(less, x, q);
      InsertDistinct(less, x, q);
      q := Insert(less, x, q);
      rest := rest - {x};
    }
  }
}

/** The order of Python strings: lexicographic by code point. */
module StringOrder {
  import Sorting

  predicate Less(a: string, b: string) {
    if b == [] then false
    else if a == [] then true
    else if a[0] != b[0] then a[0] < b[0]
    else Less(a[1..], b[1..])
  }

  /** The strings agree up to `k`, where `a` ends or has the smaller character. */
  ghost predicate LessAt(a: string, b: string, k: int) {
    0 <= k <= |a| && k < |b| && a[..k] == b[..k] && (k == |a| || a[k] < b[k])
  }

  lemma {:induction false} LessExactly(a: string, b: string)
    ensures Less(a, b) <==> exists k :: LessAt(a, b, k)
  {
    if b == [] {
    } else if a == [] {
      assert LessAt(a, b, 0);
    } else if a[0] != b[0] {
      assert a[0] < b[0] ==> LessAt(a, b, 0);
      forall k | 0 < k <= |a| && k < |b| ensures a[..k] != b[..k] {
        assert a[..k][0] != b[..k][0];
      }
    } else {
      LessExactly(a[1..], b[1..]);
      if k :| LessAt(a, b, k) {
        assert a[1..][..k - 1] == a[..k][1..] == b[..k][1..] == b[1..][..k - 1];
        assert LessAt(a[1..], b[1..], k - 1);
      }
      if k :| LessAt(a[1..], b[1..], k) {
        assert a[..k + 1] == [a[0]] + a[1..][..k] == [b[0]] + b[1..][..k] == b[..k + 1];
        assert LessAt(a, b, k + 1);
      }
    }
  }

  lemma LessIsStrictTotal()
    ensures Sorting.StrictTotal(Less)
  {
    forall x ensures !Less(x, x) { Irreflexive(x); }
    forall x, y, z | Less(x, y) && Less(y, z) ensures Less(x, z) { Transitive(x, y, z); }
    forall x, y ensures Less(x, y) || x == y || Less(y, x) { Connected(x, y); }
  }

  lemma Irreflexive(x: string)
    ensures !Less(x, x)
  {}

  lemma {:induction false} Asymmetric(x: string, y: string)
    requires Less(x, y)
    ensures !Less(y, x)
  {
    if x != [] && x[0] == y[0] {
      Asymmetric(x[1..], y[1..]);
    }
  }

  lemma {:induction false} Transitive(x: string, y: string, z: string)
    requires Less(x, y) && Less(y, z)
    ensures Less(x, z)
  {
    if x != [] && x[0] == y[0] == z[0] {
      Transitive(x[1..], y[1..], z[1..]);
    }
  }

  lemma {:induction false} Connected(x: string, y: string)
    ensures Less(x, y) || x == y || Less(y, x)
  {
    if x != [] && y != [] && x[0] == y[0] {
      Connected(x[1..], y[1..]);
      assert x == [x[0]] + x[1..] && y == [y[0]] + y[1..];
    }
  }
}
