/** The stable sort of the host language, over any strict weak order. */
module Sorting {
  ghost predicate WeakOrder<T(!new)>(less: (T, T) -> bool) {
    && (forall x :: !less(x, x))
    && (forall x, y, z :: less(x, y) && less(y, z) ==> less(x, z))
    && (forall x, y, z :: less(x, z) ==> less(x, y) || less(y, z))
  }

  /** No element is less than an earlier one. */
  ghost predicate Ordered<T>(s: seq<T>, less: (T, T) -> bool) {
    forall i, j :: 0 <= i < j < |s| ==> !less(s[j], s[i])
  }

  ghost predicate Increasing<T>(s: seq<T>, less: (T, T) -> bool) {
    forall i, j :: 0 <= i < j < |s| ==> less(s[i], s[j])
  }

  /** Puts `x` before the first strictly greater element. */
  function Insert<T>(s: seq<T>, x: T, less: (T, T) -> bool): (r: seq<T>)
    ensures |r| == |s| + 1
  {
    if s == [] || less(x, s[0]) then [x] + s else [s[0]] + Insert(s[1..], x, less)
  }

  function Sort<T>(s: seq<T>, less: (T, T) -> bool): (r: seq<T>)
    ensures |r| == |s|
  {
    if s == [] then [] else Insert(Sort(s[..|s| - 1], less), s[|s| - 1], less)
  }

  lemma {:induction false} InsertElements<T>(s: seq<T>, x: T, less: (T, T) -> bool)
    ensures multiset(Insert(s, x, less)) == multiset(s) + multiset{x}
  {
    if !(s == [] || less(x, s[0])) {
      InsertElements(s[1..], x, less);
      assert s == [s[0]] + s[1..];
    }
  }

  lemma {:induction false} InsertOrdered<T(!new)>(s: seq<T>, x: T, less: (T, T) -> bool)
    requires WeakOrder(less) && Ordered(s, less)
    ensures Ordered(Insert(s, x, less), less)
    ensures forall y :: y in Insert(s, x, less) <==> y == x || y in s
  {
    var r := Insert(s, x, less);
    if s == [] {
    } else if less(x, s[0]) {
      forall j | 0 <= j < |s| ensures !less(s[j], x) {
        assert j == 0 || !less(s[j], s[0]);
      }
    } else {
      InsertOrdered(s[1..], x, less);
      forall j | 1 <= j < |r| ensures !less(r[j], r[0]) {
        assert r[j] in Insert(s[1..], x, less);
      }
      forall y ensures y in r <==> y == x || y in s {
        assert y in s <==> y == s[0] || y in s[1..];
      }
    }
  }

  lemma {:induction false} SortOrdered<T(!new)>(s: seq<T>, less: (T, T) -> bool)
    requires WeakOrder(less)
    ensures Ordered(Sort(s, less), less)
    ensures multiset(Sort(s, less)) == multiset(s)
    ensures forall y :: y in Sort(s, less) <==> y in s
  {
    hide Insert, WeakOrder;
    if s != [] {
      var n := |s| - 1;
      SortOrdered(s[..n], less);
      InsertOrdered(Sort(s[..n], less), s[n], less);
      InsertElements(Sort(s[..n], less), s[n], less);
      assert s == s[..n] + [s[n]];
    }
  }

  /** Neither of two elements at different places ties with the other. */
  ghost predicate NoTies<T>(s: seq<T>, less: (T, T) -> bool) {
    forall i, j :: 0 <= i < j < |s| ==> less(s[i], s[j]) || less(s[j], s[i])
  }

  lemma {:induction false} InsertIncreasing<T(!new)>(s: seq<T>, x: T, less: (T, T) -> bool)
    requires WeakOrder(less) && Increasing(s, less)
    requires forall y :: y in s ==> less(x, y) || less(y, x)
    ensures Increasing(Insert(s, x, less), less)
  {
    var r := Insert(s, x, less);
    if s == [] {
    } else if less(x, s[0]) {
      forall j | 0 <= j < |s| ensures less(x, s[j]) {
        assert j > 0 ==> less(s[0], s[j]);
      }
    } else {
      InsertIncreasing(s[1..], x, less);
      InsertOrdered(s[1..], x, less) by { IncreasingOrdered(s[1..], less); }
      forall j | 1 <= j < |r| ensures less(r[0], r[j]) {
        assert r[j] in Insert(s[1..], x, less);
        if r[j] != x {
          var k :| 0 <= k < |s[1..]| && s[1..][k] == r[j];
        } else {
          assert s[0] in s;
        }
      }
    }
  }

  lemma IncreasingOrdered<T(!new)>(s: seq<T>, less: (T, T) -> bool)
    requires WeakOrder(less) && Increasing(s, less)
    ensures Ordered(s, less)
  {
  }

  lemma {:induction false} SortIncreasing<T(!new)>(s: seq<T>, less: (T, T) -> bool)
    requires WeakOrder(less) && NoTies(s, less)
    ensures Increasing(Sort(s, less), less)
    ensures forall y :: y in Sort(s, less) <==> y in s
  {
    SortOrdered(s, less);
    if s != [] {
      var n := |s| - 1;
      SortIncreasing(s[..n], less);
      InsertIncreasing(Sort(s[..n], less), s[n], less);
    }
  }

  /** An increasing sequence is determined by its elements. */
  lemma {:induction false} IncreasingUnique<T(!new)>(s: seq<T>, t: seq<T>, less: (T, T) -> bool)
    requires WeakOrder(less) && Increasing(s, less) && Increasing(t, less)
    requires forall x :: x in s <==> x in t
    ensures s == t
  {
    assert t != [] ==> t[0] in s;
    if s != [] {
      assert s[0] in t && t != [] && t[0] in s;
      HeadIsLeast(s, t[0], less);
      HeadIsLeast(t, s[0], less);
      assert s[0] == t[0];
      forall x ensures x in s[1..] <==> x in t[1..] {
        TailElements(s, x, less);
        TailElements(t, x, less);
      }
      IncreasingUnique(s[1..], t[1..], less);
    }
  }

  lemma HeadIsLeast<T(!new)>(s: seq<T>, x: T, less: (T, T) -> bool)
    requires Increasing(s, less) && x in s
    ensures s[0] == x || less(s[0], x)
  {
  }

  lemma TailElements<T(!new)>(s: seq<T>, x: T, less: (T, T) -> bool)
    requires WeakOrder(less) && Increasing(s, less) && s != []
    ensures x in s[1..] <==> x in s && x != s[0]
  {
    if x in s && x != s[0] {
      var k :| 0 <= k < |s| && s[k] == x;
      assert s[1..][k - 1] == x;
    }
  }
}
