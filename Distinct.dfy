/**
 * Sorted distinct values of a sequence (what `np.unique` returns), for any
 * element type ordered by a strict total order `lt`.
 */
module Distinct {

  ghost predicate Irreflexive<T(!new)>(lt: (T, T) -> bool)
  {
    forall a :: !lt(a, a)
  }

  /** `lt` is irreflexive, transitive and total on distinct values. */
  ghost predicate StrictTotalOrder<T(!new)>(lt: (T, T) -> bool)
  {
    && Irreflexive(lt)
    && (forall a, b, c :: lt(a, b) && lt(b, c) ==> lt(a, c))
    && (forall a, b :: a != b ==> lt(a, b) || lt(b, a))
  }

  /** Strictly increasing, hence free of repetitions. */
  ghost predicate Increasing<T>(s: seq<T>, lt: (T, T) -> bool)
  {
    forall i, j :: 0 <= i < j < |s| ==> lt(s[i], s[j])
  }

  function IntLess(a: int, b: int): bool { a < b }

  function RealLess(a: real, b: real): bool { a < b }

  lemma IntLessOrder()
    ensures StrictTotalOrder(IntLess)
  {
  }

  lemma RealLessOrder()
    ensures StrictTotalOrder(RealLess)
  {
  }

  /** Inserts `x` into the increasing sequence `s` unless it is already there. */
  function Insert<T(==,!new)>(x: T, s: seq<T>, lt: (T, T) -> bool): (r: seq<T>)
    requires StrictTotalOrder(lt)
    requires Increasing(s, lt)
    ensures Increasing(r, lt)
    ensures forall y :: y in r <==> y == x || y in s
  {
    if s == [] then [x]
    else if x == s[0] then s
    else if lt(x, s[0]) then [x] + s
    else
      var rest := Insert(x, s[1..], lt);
      assert forall y :: y in s <==> y == s[0] || y in s[1..];
      assert forall m :: 1 <= m < |s| ==> lt(s[0], s[m]);
      assert forall y :: y in rest ==> lt(s[0], y);
      assert forall k :: 0 <= k < |rest| ==> rest[k] in rest;
      [s[0]] + rest
  }

  /** The distinct values of `s` in increasing order. */
  function Unique<T(==,!new)>(s: seq<T>, lt: (T, T) -> bool): (u: seq<T>)
    requires StrictTotalOrder(lt)
    ensures Increasing(u, lt)
    ensures forall y :: y in u <==> y in s
  {
    if s == [] then []
    else
      var init := s[..|s| - 1];
      assert forall y :: y in s <==> y == s[|s| - 1] || y in init;
      Insert(s[|s| - 1], Unique(init, lt), lt)
  }

  /** Two increasing sequences with the same elements are equal. */
  lemma {:induction false} IncreasingUnique<T(!new)>(a: seq<T>, b: seq<T>, lt: (T, T) -> bool)
    requires StrictTotalOrder(lt)
    requires Increasing(a, lt) && Increasing(b, lt)
    requires forall y :: y in a <==> y in b
    ensures a == b
  {
    IncreasingCardinality(a, lt);
    IncreasingCardinality(b, lt);
    assert (set y | y in a) == (set y | y in b);
    if a != [] {
      assert a[0] in b;
      assert b[0] in a;
      var i :| 0 <= i < |b| && b[i] == a[0];
      var i2 :| 0 <= i2 < |a| && a[i2] == b[0];
      assert a[0] == b[0];
      forall y
        ensures y in a[1..] <==> y in b[1..]
      {
        if y in a[1..] {
          var m :| 1 <= m < |a| && a[m] == y;
          assert lt(a[0], y);
        }
        if y in b[1..] {
          var m :| 1 <= m < |b| && b[m] == y;
          assert lt(b[0], y);
        }
        assert y in a <==> y == a[0] || y in a[1..];
        assert y in b <==> y == b[0] || y in b[1..];
      }
      IncreasingUnique(a[1..], b[1..], lt);
      assert a == [a[0]] + a[1..] && b == [b[0]] + b[1..];
    }
  }

  /** The number of distinct values of an increasing sequence is its length. */
  lemma {:induction false} IncreasingCardinality<T(!new)>(u: seq<T>, lt: (T, T) -> bool)
    requires Irreflexive(lt)
    requires Increasing(u, lt)
    ensures |set y | y in u| == |u|
  {
    if u != [] {
      var tail := u[1..];
      forall i, j | 0 <= i < j < |tail|
        ensures lt(tail[i], tail[j])
      {
        assert tail[i] == u[i + 1] && tail[j] == u[j + 1];
      }
      IncreasingCardinality(tail, lt);
      forall i | 0 <= i < |tail|
        ensures tail[i] != u[0]
      {
        assert lt(u[0], u[i + 1]);
        assert !lt(u[0], u[0]);
      }
      var rest := set y | y in tail;
      assert u[0] !in rest;
      forall y
        ensures y in u <==> y in rest + {u[0]}
      {
        if y in u {
          var t :| 0 <= t < |u| && u[t] == y;
          if t > 0 {
            assert tail[t - 1] == y;
          }
        }
        if y in tail {
          var t :| 0 <= t < |tail| && tail[t] == y;
          assert u[t + 1] == y;
        }
      }
      assert (set y | y in u) == rest + {u[0]};
    }
  }


  /**
   * In an increasing sequence, the elements smaller than the one at
   * position t are exactly the t elements before it.
   */
  lemma IndexIsRank<T(!new)>(u: seq<T>, lt: (T, T) -> bool, t: nat)
    requires StrictTotalOrder(lt)
    requires Increasing(u, lt)
    requires t < |u|
    ensures forall y :: y in u && lt(y, u[t]) <==> y in u[..t]
    ensures |set y | y in u[..t]| == t
  {
    forall y | y in u && lt(y, u[t])
      ensures y in u[..t]
    {
      var i :| 0 <= i < |u| && u[i] == y;
    }
    assert Increasing(u[..t], lt);
    IncreasingCardinality(u[..t], lt);
  }
}
