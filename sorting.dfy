/**
 * Python's `list.sort()` (with or without a key) on a list the caller owns.
 * The list is a local variable in every caller, so the sort is modelled on
 * a sequence: the result is ordered by the comparison and holds the same
 * elements as the input.
 */
module Sorting {

  /** A comparison that orders every pair, consistently. */
  ghost predicate TotalPreorder<T(!new)>(le: (T, T) -> bool) {
    && (forall x, y :: le(x, y) || le(y, x))
    && (forall x, y, z :: le(x, y) && le(y, z) ==> le(x, z))
  }

  ghost predicate SortedBy<T>(s: seq<T>, le: (T, T) -> bool) {
    forall i, j :: 0 <= i < j < |s| ==> le(s[i], s[j])
  }

  /** Inserts x into a sorted sequence after every element not above it. */
  method Insert<T(!new)>(s: seq<T>, x: T, le: (T, T) -> bool) returns (r: seq<T>)
    requires TotalPreorder(le) && SortedBy(s, le)
    ensures SortedBy(r, le)
    ensures multiset(r) == multiset(s) + multiset{x}
  {
    var j := 0;
    while j < |s| && le(s[j], x)
      invariant 0 <= j <= |s|
      invariant forall k :: 0 <= k < j ==> le(s[k], x)
    {
      j := j + 1;
    }
    r := s[..j] + [x] + s[j..];
    assert s == s[..j] + s[j..];
    if j < |s| {
      BelowSuffix(s, j, x, le);
    }
    SpliceSorted(s, j, x, le);
  }

  /** x is below every element from j on when it is below the element at j. */
  lemma BelowSuffix<T(!new)>(s: seq<T>, j: nat, x: T, le: (T, T) -> bool)
    requires TotalPreorder(le) && SortedBy(s, le)
    requires j < |s| && !le(s[j], x)
    ensures forall k :: j <= k < |s| ==> le(x, s[k])
  {
    assert le(x, s[j]);
    forall k | j < k < |s| ensures le(x, s[k]) {
      assert le(s[j], s[k]);
    }
  }

  /** Placing x between the elements below it and the elements above it keeps a sequence sorted. */
  lemma SpliceSorted<T>(s: seq<T>, j: nat, x: T, le: (T, T) -> bool)
    requires SortedBy(s, le) && j <= |s|
    requires forall k :: 0 <= k < j ==> le(s[k], x)
    requires forall k :: j <= k < |s| ==> le(x, s[k])
    ensures SortedBy(s[..j] + [x] + s[j..], le)
  {
    var r := s[..j] + [x] + s[j..];
    forall a, b | 0 <= a < b < |r| ensures le(r[a], r[b]) {
      if b == j {
      } else if a == j {
        assert r[b] == s[b - 1];
      } else if a < j && b > j {
        assert r[a] == s[a] && r[b] == s[b - 1];
      }
    }
  }

  /** Sorts s by le by repeated insertion (Python's sort is stable; see README). */
  method Sort<T(!new)>(s: seq<T>, le: (T, T) -> bool) returns (r: seq<T>)
    requires TotalPreorder(le)
    ensures SortedBy(r, le)
    ensures multiset(r) == multiset(s)
  {
    r := [];
    for i := 0 to |s|
      invariant SortedBy(r, le)
      invariant multiset(r) == multiset(s[..i])
    {
      assert s[..i + 1] == s[..i] + [s[i]];
      r := Insert(r, s[i], le);
    }
    assert s[..|s|] == s;
  }

  ghost predicate Antisymmetric<T(!new)>(le: (T, T) -> bool) {
    forall x, y :: le(x, y) && le(y, x) ==> x == y
  }

  /** The first element of a sorted sequence is below every element. */
  lemma FirstIsLeast<T(!new)>(a: seq<T>, le: (T, T) -> bool, x: T)
    requires TotalPreorder(le) && SortedBy(a, le) && x in a
    ensures le(a[0], x)
  {
    var i :| 0 <= i < |a| && a[i] == x;
    if i == 0 {
      assert le(x, x) || le(x, x);
    }
  }

  /** Under an order that leaves no ties, a sorted permutation is unique. */
  lemma {:induction false} SortedUnique<T(!new)>(a: seq<T>, b: seq<T>, le: (T, T) -> bool)
    requires TotalPreorder(le) && Antisymmetric(le)
    requires SortedBy(a, le) && SortedBy(b, le) && multiset(a) == multiset(b)
    ensures a == b
    decreases |a|
  {
    if a != [] {
      assert b != [] by { assert |multiset(b)| == |multiset(a)| == |a|; }
      assert a[0] == b[0] by {
        assert a[0] in multiset(b) && b[0] in multiset(a);
        FirstIsLeast(a, le, b[0]);
        FirstIsLeast(b, le, a[0]);
      }
      assert multiset(a[1..]) == multiset(b[1..]) by {
        assert a == [a[0]] + a[1..] && b == [b[0]] + b[1..];
        assert multiset(a) == multiset{a[0]} + multiset(a[1..]);
        assert multiset(b) == multiset{b[0]} + multiset(b[1..]);
        forall x ensures multiset(a[1..])[x] == multiset(b[1..])[x] {
          assert multiset(a)[x] == multiset{a[0]}[x] + multiset(a[1..])[x];
          assert multiset(b)[x] == multiset{b[0]}[x] + multiset(b[1..])[x];
        }
      }
      SortedUnique(a[1..], b[1..], le);
      assert a == [a[0]] + a[1..] && b == [b[0]] + b[1..];
    }
  }
}
