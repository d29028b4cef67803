/** Ordering as SQL's ORDER BY leaves it: a result is any arrangement of the
    selected rows that is sorted by the key, ties in any order.  `InsertionSort`
    is one such arrangement (stable); `IsTopN` says what ORDER BY ... LIMIT n
    may return. */
module Sorting {

  /** `le(x, y)`: x may be listed before y. */
  ghost predicate TotalPreorder<T(!new)>(le: (T, T) -> bool) {
    && (forall x, y :: le(x, y) || le(y, x))
    && (forall x, y, z :: le(x, y) && le(y, z) ==> le(x, z))
  }

  ghost predicate SortedBy<T>(le: (T, T) -> bool, s: seq<T>) {
    forall i, j :: 0 <= i < j < |s| ==> le(s[i], s[j])
  }

  function Min(a: nat, b: nat): nat {
    if a <= b then a else b
  }

  /** Inserts `x` in front of the first element it may precede. */
  function Insert<T(!new)>(x: T, s: seq<T>, le: (T, T) -> bool): (r: seq<T>)
    requires TotalPreorder(le) && SortedBy(le, s)
    ensures multiset(r) == multiset(s) + multiset{x}
    ensures SortedBy(le, r)
  {
    if s == [] || le(x, s[0]) then
      InsertFrontSorted(x, s, le);
      [x] + s
    else
      var t := Insert(x, s[1..], le);
      InsertBehindSorted(x, s, t, le);
      [s[0]] + t
  }

  lemma InsertFrontSorted<T(!new)>(x: T, s: seq<T>, le: (T, T) -> bool)
    requires TotalPreorder(le) && SortedBy(le, s)
    requires s == [] || le(x, s[0])
    ensures SortedBy(le, [x] + s)
  {
    var r := [x] + s;
    forall i, j | 0 <= i < j < |r| ensures le(r[i], r[j]) {
      if i == 0 && j > 1 {
        assert le(s[0], s[j - 1]);
      }
    }
  }

  lemma InsertBehindSorted<T(!new)>(x: T, s: seq<T>, t: seq<T>, le: (T, T) -> bool)
    requires TotalPreorder(le) && SortedBy(le, s)
    requires s != [] && !le(x, s[0])
    requires multiset(t) == multiset(s[1..]) + multiset{x} && SortedBy(le, t)
    ensures multiset([s[0]] + t) == multiset(s) + multiset{x}
    ensures SortedBy(le, [s[0]] + t)
  {
    assert s == [s[0]] + s[1..];
    var r := [s[0]] + t;
    forall i, j | 0 <= i < j < |r| ensures le(r[i], r[j]) {
      if i == 0 {
        var y := t[j - 1];
        assert y in multiset(t);
        if y == x {
          assert le(s[0], x);
        } else {
          assert y in multiset(s[1..]);
          var k :| 0 <= k < |s[1..]| && s[1..][k] == y;
          assert s[k + 1] == y;
        }
      }
    }
  }

  function InsertionSort<T(!new)>(s: seq<T>, le: (T, T) -> bool): (r: seq<T>)
    requires TotalPreorder(le)
    ensures multiset(r) == multiset(s)
    ensures SortedBy(le, r)
  {
    if s == [] then []
    else
      assert s == [s[0]] + s[1..];
      Insert(s[0], InsertionSort(s[1..], le), le)
  }

  /** The first `n` elements of `s` (all of them when there are fewer): SQL's LIMIT n. */
  function Take<T>(s: seq<T>, n: nat): (r: seq<T>)
    ensures |r| == Min(n, |s|)
    ensures r == s[..|r|]
  {
    if |s| <= n then s else s[..n]
  }

  /** What `ORDER BY key LIMIT n` may return from the rows `c`: the right
      number of them, sorted, and no row left out that should precede one kept. */
  ghost predicate IsTopN<T>(le: (T, T) -> bool, r: seq<T>, c: seq<T>, n: nat) {
    && |r| == Min(n, |c|)
    && multiset(r) <= multiset(c)
    && SortedBy(le, r)
    && forall x, y :: x in multiset(c) - multiset(r) && y in r ==> le(y, x)
  }

  /** Truncating a sorted arrangement of `c` gives a top-n selection of `c`. */
  lemma SortedPrefixIsTopN<T>(le: (T, T) -> bool, p: seq<T>, c: seq<T>, n: nat)
    requires multiset(p) == multiset(c) && SortedBy(le, p)
    ensures IsTopN(le, Take(p, n), c, n)
  {
    var r := Take(p, n);
    var rest := p[|r|..];
    assert p == r + rest;
    assert |c| == |p| by { assert |multiset(c)| == |multiset(p)|; }
    assert multiset(c) - multiset(r) == multiset(rest);
    forall x, y | x in multiset(c) - multiset(r) && y in r
      ensures le(y, x)
    {
      var j :| 0 <= j < |rest| && rest[j] == x;
      var i :| 0 <= i < |r| && r[i] == y;
      assert p[i] == y && p[|r| + j] == x;
    }
  }

  /** A top-n selection never repeats a row more often than the input holds it;
      in particular, when the input rows are pairwise distinct, so are the selected rows. */
  lemma {:induction false} TopNDistinct<T>(le: (T, T) -> bool, r: seq<T>, c: seq<T>, n: nat)
    requires IsTopN(le, r, c, n)
    requires forall i, j :: 0 <= i < j < |c| ==> c[i] != c[j]
    ensures forall i, j :: 0 <= i < j < |r| ==> r[i] != r[j]
  {
    forall i, j | 0 <= i < j < |r|
      ensures r[i] != r[j]
    {
      if r[i] == r[j] {
        MultiplicityOfDistinct(c, r[i]);
        TwoOccurrences(r, i, j);
        assert false;
      }
    }
  }

  lemma {:induction false} MultiplicityOfDistinct<T>(c: seq<T>, x: T)
    requires forall i, j :: 0 <= i < j < |c| ==> c[i] != c[j]
    ensures multiset(c)[x] <= 1
  {
    if c != [] {
      assert c == [c[0]] + c[1..];
      MultiplicityOfDistinct(c[1..], x);
      if c[0] == x {
        assert x !in c[1..];
      }
    }
  }

  lemma {:induction false} TwoOccurrences<T>(s: seq<T>, i: nat, j: nat)
    requires i < j < |s| && s[i] == s[j]
    ensures multiset(s)[s[i]] >= 2
  {
    assert s == s[..i] + [s[i]] + s[i+1..j] + [s[j]] + s[j+1..];
  }
}
