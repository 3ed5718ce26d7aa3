/** Row selection and column sums over an ordered table: a boolean mask
    `df[mask]` keeps the rows that satisfy it, in their order, and `.sum()`
    adds a column up (an empty column sums to 0). */
module Seqs {

  function Filter<T>(s: seq<T>, p: T -> bool): (r: seq<T>)
    ensures |r| <= |s|
    ensures forall i :: 0 <= i < |r| ==> r[i] in s && p(r[i])
    ensures forall i :: 0 <= i < |s| && p(s[i]) ==> s[i] in r
  {
    if s == [] then [] else (if p(s[0]) then [s[0]] else []) + Filter(s[1..], p)
  }

  function Sum<T>(s: seq<T>, f: T -> real): real {
    if s == [] then 0.0 else f(s[0]) + Sum(s[1..], f)
  }

  function Count<T>(s: seq<T>, p: T -> bool): nat {
    if s == [] then 0 else (if p(s[0]) then 1 else 0) + Count(s[1..], p)
  }

  lemma {:induction false} FilterAppend<T>(a: seq<T>, b: seq<T>, p: T -> bool)
    ensures Filter(a + b, p) == Filter(a, p) + Filter(b, p)
  {
    if a == [] {
      assert a + b == b;
    } else {
      assert (a + b)[0] == a[0];
      assert (a + b)[1..] == a[1..] + b;
      FilterAppend(a[1..], b, p);
    }
  }

  /** Two masks applied one after the other select what their conjunction selects. */
  lemma {:induction false} FilterFilter<T>(s: seq<T>, p: T -> bool, q: T -> bool, pq: T -> bool)
    requires forall x :: pq(x) == (p(x) && q(x))
    ensures Filter(Filter(s, p), q) == Filter(s, pq)
  {
    if s != [] {
      FilterFilter(s[1..], p, q, pq);
      var head := if p(s[0]) then [s[0]] else [];
      FilterAppend(head, Filter(s[1..], p), q);
      if p(s[0]) {
        assert Filter(head, q) == if q(s[0]) then [s[0]] else [] by {
          assert head[1..] == [];
        }
      }
    }
  }

  /** Masks that agree on every row select the same rows. */
  lemma {:induction false} FilterExtensional<T>(s: seq<T>, p: T -> bool, q: T -> bool)
    requires forall x :: x in s ==> p(x) == q(x)
    ensures Filter(s, p) == Filter(s, q)
  {
    if s != [] {
      FilterExtensional(s[1..], p, q);
    }
  }

  /** A mask every row satisfies keeps the table as it is. */
  lemma {:induction false} FilterAll<T>(s: seq<T>, p: T -> bool)
    requires forall x :: x in s ==> p(x)
    ensures Filter(s, p) == s
  {
    if s != [] {
      FilterAll(s[1..], p);
    }
  }

  /** Selecting twice with the same mask is selecting once. */
  lemma {:induction false} FilterIdempotent<T>(s: seq<T>, p: T -> bool)
    ensures Filter(Filter(s, p), p) == Filter(s, p)
  {
    FilterAll(Filter(s, p), p);
  }

  /** A mask and its negation split the rows between them. */
  lemma {:induction false} FilterPartition<T>(s: seq<T>, p: T -> bool, q: T -> bool)
    requires forall x :: q(x) == !p(x)
    ensures |Filter(s, p)| + |Filter(s, q)| == |s|
    ensures |Filter(s, p)| == Count(s, p)
  {
    if s != [] {
      FilterPartition(s[1..], p, q);
    }
  }

  lemma {:induction false} SumAppend<T>(a: seq<T>, b: seq<T>, f: T -> real)
    ensures Sum(a + b, f) == Sum(a, f) + Sum(b, f)
  {
    if a == [] {
      assert a + b == b;
    } else {
      assert (a + b)[0] == a[0];
      assert (a + b)[1..] == a[1..] + b;
      SumAppend(a[1..], b, f);
    }
  }

  /** A column's sum is the sum over the rows a mask keeps plus the sum over the rest. */
  lemma {:induction false} SumPartition<T>(s: seq<T>, f: T -> real, p: T -> bool, q: T -> bool)
    requires forall x :: q(x) == !p(x)
    ensures Sum(s, f) == Sum(Filter(s, p), f) + Sum(Filter(s, q), f)
  {
    if s != [] {
      SumPartition(s[1..], f, p, q);
      var hp := if p(s[0]) then [s[0]] else [];
      var hq := if q(s[0]) then [s[0]] else [];
      SumAppend(hp, Filter(s[1..], p), f);
      SumAppend(hq, Filter(s[1..], q), f);
      assert [s[0]][1..] == [];
    }
  }

  /** The sum of a column without negative values is not negative. */
  lemma {:induction false} SumNonNegative<T>(s: seq<T>, f: T -> real)
    requires forall x :: x in s ==> f(x) >= 0.0
    ensures Sum(s, f) >= 0.0
  {
    if s != [] {
      SumNonNegative(s[1..], f);
    }
  }

  /** No value of a non-negative column exceeds the column's sum. */
  lemma {:induction false} SumAtLeastEach<T>(s: seq<T>, f: T -> real, i: nat)
    requires forall x :: x in s ==> f(x) >= 0.0
    requires i < |s|
    ensures f(s[i]) <= Sum(s, f)
  {
    SumNonNegative(s[1..], f);
    if i > 0 {
      assert s[1..][i - 1] == s[i];
      SumAtLeastEach(s[1..], f, i - 1);
    }
  }

  /** A column bounded by `b` sums to at most `b` times its length. */
  lemma {:induction false} SumAtMost<T>(s: seq<T>, f: T -> real, b: real)
    requires forall x :: x in s ==> f(x) <= b
    ensures Sum(s, f) <= |s| as real * b
  {
    if s != [] {
      SumAtMost(s[1..], f, b);
    }
  }

  /** A column bounded below by `b` sums to at least `b` times its length. */
  lemma {:induction false} SumAtLeast<T>(s: seq<T>, f: T -> real, b: real)
    requires forall x :: x in s ==> f(x) >= b
    ensures Sum(s, f) >= |s| as real * b
  {
    if s != [] {
      SumAtLeast(s[1..], f, b);
    }
  }

  /** A non-empty column strictly above `b` sums to more than `b` times its length. */
  lemma {:induction false} SumAbove<T>(s: seq<T>, f: T -> real, b: real)
    requires s != []
    requires forall x :: x in s ==> f(x) > b
    ensures Sum(s, f) > |s| as real * b
  {
    SumAtLeast(s[1..], f, b);
  }

  /** A count is zero exactly when no element satisfies the predicate. */
  lemma {:induction false} CountZero<T>(s: seq<T>, p: T -> bool)
    ensures Count(s, p) == 0 <==> forall i :: 0 <= i < |s| ==> !p(s[i])
  {
    if s != [] {
      CountZero(s[1..], p);
      assert forall i :: 1 <= i < |s| ==> s[i] == s[1..][i - 1];
    }
  }

  /** A mask no row satisfies selects nothing. */
  lemma {:induction false} FilterNone<T>(s: seq<T>, p: T -> bool)
    requires forall i :: 0 <= i < |s| ==> !p(s[i])
    ensures Filter(s, p) == []
  {
    if s != [] {
      assert forall i :: 0 <= i < |s| - 1 ==> s[1..][i] == s[i + 1];
      FilterNone(s[1..], p);
    }
  }

  /** Filtering keeps the order of what it keeps: a relation that holds
      between every earlier and later element still holds afterwards. */
  lemma {:induction false} FilterPairwise<T>(s: seq<T>, p: T -> bool, before: (T, T) -> bool)
    requires forall i, j :: 0 <= i < j < |s| ==> before(s[i], s[j])
    ensures forall i, j :: 0 <= i < j < |Filter(s, p)| ==> before(Filter(s, p)[i], Filter(s, p)[j])
  {
    if s != [] {
      var rest := Filter(s[1..], p);
      FilterPairwise(s[1..], p, before);
      if p(s[0]) {
        var r := [s[0]] + rest;
        forall i, j | 0 <= i < j < |r| ensures before(r[i], r[j]) {
          if i == 0 {
            var k :| 0 <= k < |s[1..]| && s[1..][k] == rest[j - 1];
            assert s[k + 1] == r[j];
          } else {
            assert r[i] == rest[i - 1] && r[j] == rest[j - 1];
          }
        }
      }
    }
  }

  /** `idxmax`: the position of the first largest value of a non-empty column. */
  function FirstMax<T>(s: seq<T>, f: T -> real): (i: nat)
    requires s != []
    ensures i < |s|
    ensures forall j :: 0 <= j < |s| ==> f(s[j]) <= f(s[i])
    ensures forall j :: 0 <= j < i ==> f(s[j]) < f(s[i])
  {
    if |s| == 1 then 0
    else
      var k := FirstMax(s[1..], f) + 1;
      assert forall j :: 1 <= j < |s| ==> s[j] == s[1..][j - 1];
      if f(s[0]) >= f(s[k]) then 0 else k
  }
}
