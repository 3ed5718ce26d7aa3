/** `groupby(key)["Duur_min"].sum()` and `sort_values(ascending=False).head(n)`,
    the aggregation every view of the dashboard is built from.

    pandas' `groupby` sorts its keys (code-point order for text) and drops rows
    whose key is missing, so a grouped table has each key once, in ascending
    order, with the sum of its rows' minutes. `sort_values` runs an unstable
    quicksort: the ranking below states only that the result is a
    non-increasing reordering, not which of two equal totals comes first. */
module Grouping {
  import opened Text
  import opened Seqs

  /** A (key, minutes) pair: a row going into a group-by, or a group coming out. */
  datatype Total = Total(key: string, minutes: real)

  function Minutes(t: Total): real { t.minutes }

  /** The minutes of all pairs with key `k`. */
  function SumFor(ts: seq<Total>, k: string): real {
    if ts == [] then 0.0 else (if ts[0].key == k then ts[0].minutes else 0.0) + SumFor(ts[1..], k)
  }

  predicate HasKey(ts: seq<Total>, k: string) {
    exists i :: 0 <= i < |ts| && ts[i].key == k
  }

  /** Keys strictly ascending, so in particular each key once. */
  predicate KeysAscending(ts: seq<Total>) {
    forall i, j :: 0 <= i < j < |ts| ==> StrLess(ts[i].key, ts[j].key)
  }

  lemma {:induction false} HasKeyCons(ts: seq<Total>, k: string)
    requires ts != []
    ensures HasKey(ts, k) <==> ts[0].key == k || HasKey(ts[1..], k)
  {
    if HasKey(ts[1..], k) {
      var i :| 0 <= i < |ts[1..]| && ts[1..][i].key == k;
      assert ts[i + 1].key == k;
    }
    if HasKey(ts, k) && ts[0].key != k {
      var i :| 0 <= i < |ts| && ts[i].key == k;
      assert ts[1..][i - 1].key == k;
    }
  }

  /** The keys of a table with one row put in front. */
  lemma {:induction false} HasKeyPrepend(h: Total, rest: seq<Total>)
    ensures forall k :: HasKey([h] + rest, k) <==> k == h.key || HasKey(rest, k)
  {
    forall k ensures HasKey([h] + rest, k) <==> k == h.key || HasKey(rest, k) {
      HasKeyCons([h] + rest, k);
      assert ([h] + rest)[1..] == rest;
    }
  }

  /** A head below every key of an ascending tail keeps the keys ascending. */
  lemma {:induction false} ConsAscending(h: Total, rest: seq<Total>)
    requires KeysAscending(rest)
    requires forall k :: HasKey(rest, k) ==> StrLess(h.key, k)
    ensures KeysAscending([h] + rest)
  {
    var r := [h] + rest;
    forall i, j | 0 <= i < j < |r| ensures StrLess(r[i].key, r[j].key) {
      assert r[j] == rest[j - 1];
      if i == 0 {
        assert HasKey(rest, rest[j - 1].key);
      } else {
        assert r[i] == rest[i - 1];
      }
    }
  }

  /** In an ascending table the first key is below every other one. */
  lemma {:induction false} HeadBelowTail(ts: seq<Total>)
    requires ts != [] && KeysAscending(ts)
    ensures forall k :: HasKey(ts[1..], k) ==> StrLess(ts[0].key, k)
  {
    forall k | HasKey(ts[1..], k) ensures StrLess(ts[0].key, k) {
      var i :| 0 <= i < |ts[1..]| && ts[1..][i].key == k;
      assert ts[i + 1].key == k;
    }
  }

  /** Tables with the same rows have the same keys. */
  lemma {:induction false} SameMembersSameKeys(a: seq<Total>, b: seq<Total>, k: string)
    requires forall t :: t in a <==> t in b
    ensures HasKey(a, k) <==> HasKey(b, k)
  {
    if HasKey(a, k) {
      var i :| 0 <= i < |a| && a[i].key == k;
      assert a[i] in b;
      var j :| 0 <= j < |b| && b[j] == a[i];
    }
    if HasKey(b, k) {
      var j :| 0 <= j < |b| && b[j].key == k;
      assert b[j] in a;
      var i :| 0 <= i < |a| && a[i] == b[j];
    }
  }

  /** Adds one pair to a grouped table, keeping the keys ascending. */
  function AddSorted(ts: seq<Total>, t: Total): (r: seq<Total>)
    requires KeysAscending(ts)
    ensures r != [] && KeysAscending(r)
    ensures forall k :: HasKey(r, k) <==> HasKey(ts, k) || k == t.key
    ensures forall k :: SumFor(r, k) == SumFor(ts, k) + (if k == t.key then t.minutes else 0.0)
    ensures Sum(r, Minutes) == Sum(ts, Minutes) + t.minutes
  {
    if ts == [] then
      assert Sum([t], Minutes) == t.minutes by { assert [t][1..] == []; }
      HasKeyPrepend(t, []);
      [t]
    else if ts[0].key == t.key then
      var r := [Total(t.key, ts[0].minutes + t.minutes)] + ts[1..];
      assert r[1..] == ts[1..];
      HasKeyPrepend(r[0], ts[1..]);
      HasKeyPrepend(ts[0], ts[1..]);
      assert ts == [ts[0]] + ts[1..];
      HeadBelowTail(ts);
      ConsAscending(r[0], ts[1..]);
      r
    else if StrLess(t.key, ts[0].key) then
      var r := [t] + ts;
      assert r[1..] == ts;
      HasKeyPrepend(ts[0], ts[1..]);
      assert ts == [ts[0]] + ts[1..];
      HasKeyPrepend(t, ts);
      HeadBelowTail(ts);
      assert forall k :: HasKey(ts, k) ==> StrLess(t.key, k) by {
        forall k | HasKey(ts, k) ensures StrLess(t.key, k) {
          if k != ts[0].key { StrLessTransitive(t.key, ts[0].key, k); }
        }
      }
      ConsAscending(t, ts);
      r
    else
      var rest := ts[1..];
      var added := AddSorted(rest, t);
      var r := [ts[0]] + added;
      assert r[1..] == added;
      StrLessTotal(t.key, ts[0].key);
      HeadBelowTail(ts);
      HasKeyPrepend(ts[0], rest);
      assert ts == [ts[0]] + rest;
      HasKeyPrepend(ts[0], added);
      ConsAscending(ts[0], added);
      r
  }

  /** `groupby(key).sum()`: every key of the input once, ascending, carrying the
      sum of its pairs; nothing is lost or gained in total. */
  function GroupSum(ps: seq<Total>): (r: seq<Total>)
    ensures KeysAscending(r)
    ensures forall k :: HasKey(r, k) <==> HasKey(ps, k)
    ensures forall k :: SumFor(r, k) == SumFor(ps, k)
    ensures Sum(r, Minutes) == Sum(ps, Minutes)
  {
    if ps == [] then []
    else
      var r := AddSorted(GroupSum(ps[1..]), ps[0]);
      assert forall k :: HasKey(r, k) <==> HasKey(ps, k) by {
        forall k ensures HasKey(r, k) <==> HasKey(ps, k) {
          HasKeyCons(ps, k);
        }
      }
      r
  }

  lemma {:induction false} SumForAbsent(ts: seq<Total>, k: string)
    requires !HasKey(ts, k)
    ensures SumFor(ts, k) == 0.0
  {
    if ts != [] {
      HasKeyCons(ts, k);
      SumForAbsent(ts[1..], k);
    }
  }

  /** In a table with distinct keys, the pairs with a row's key are that row alone. */
  lemma {:induction false} SumForDistinct(ts: seq<Total>, i: nat)
    requires KeysAscending(ts) && i < |ts|
    ensures SumFor(ts, ts[i].key) == ts[i].minutes
  {
    var k := ts[i].key;
    if i == 0 {
      if HasKey(ts[1..], k) {
        var j :| 0 <= j < |ts[1..]| && ts[1..][j].key == k;
        assert StrLess(ts[0].key, ts[j + 1].key);
        StrLessIrreflexive(k);
      }
      SumForAbsent(ts[1..], k);
    } else {
      assert StrLess(ts[0].key, k);
      StrLessIrreflexive(k);
      assert ts[1..][i - 1] == ts[i];
      SumForDistinct(ts[1..], i - 1);
    }
  }

  /** Each group carries exactly the minutes of the input pairs with its key. */
  lemma {:induction false} GroupSumEntries(ps: seq<Total>)
    ensures forall i :: 0 <= i < |GroupSum(ps)| ==> GroupSum(ps)[i].minutes == SumFor(ps, GroupSum(ps)[i].key)
  {
    var r := GroupSum(ps);
    forall i | 0 <= i < |r| ensures r[i].minutes == SumFor(ps, r[i].key) {
      SumForDistinct(r, i);
    }
  }

  // ---------------------------------------------------------------------------
  // sort_values(ascending=False) and head(n)

  predicate NonIncreasing(ts: seq<Total>) {
    forall i, j :: 0 <= i < j < |ts| ==> ts[i].minutes >= ts[j].minutes
  }

  function Insert(t: Total, ts: seq<Total>): (r: seq<Total>)
    requires NonIncreasing(ts)
    ensures NonIncreasing(r)
    ensures multiset(r) == multiset(ts) + multiset{t}
    ensures forall x :: x in r ==> x == t || x in ts
    ensures Sum(r, Minutes) == Sum(ts, Minutes) + t.minutes
  {
    if ts == [] || t.minutes >= ts[0].minutes then
      ConsFacts(t, ts);
      [t] + ts
    else
      NonIncreasingTail(ts);
      var added := Insert(t, ts[1..]);
      InsertBehindHead(t, ts, added);
      [ts[0]] + added
  }

  /** A row smaller than the head goes behind it: inserted into the tail, it
      gives the table with the head in front the same guarantees. */
  lemma {:induction false} InsertBehindHead(t: Total, ts: seq<Total>, added: seq<Total>)
    requires ts != [] && NonIncreasing(ts) && t.minutes < ts[0].minutes
    requires NonIncreasing(added)
    requires multiset(added) == multiset(ts[1..]) + multiset{t}
    requires forall x :: x in added ==> x == t || x in ts[1..]
    requires Sum(added, Minutes) == Sum(ts[1..], Minutes) + t.minutes
    ensures NonIncreasing([ts[0]] + added)
    ensures multiset([ts[0]] + added) == multiset(ts) + multiset{t}
    ensures forall x :: x in [ts[0]] + added ==> x == t || x in ts
    ensures Sum([ts[0]] + added, Minutes) == Sum(ts, Minutes) + t.minutes
  {
    NonIncreasingTail(ts);
    ConsFacts(ts[0], ts[1..]);
    ConsFacts(ts[0], added);
    assert ts == [ts[0]] + ts[1..];
    HeadDominates(ts[0], t, ts[1..], added);
  }

  /** The tail of a non-increasing table is non-increasing and below its head. */
  lemma {:induction false} NonIncreasingTail(ts: seq<Total>)
    requires ts != [] && NonIncreasing(ts)
    ensures NonIncreasing(ts[1..])
    ensures forall j :: 0 <= j < |ts[1..]| ==> ts[0].minutes >= ts[1..][j].minutes
  {
    assert forall j :: 0 <= j < |ts[1..]| ==> ts[1..][j] == ts[j + 1];
  }

  /** A row put in front of a table: its multiset, members and total. */
  lemma {:induction false} ConsFacts(h: Total, rest: seq<Total>)
    ensures multiset([h] + rest) == multiset{h} + multiset(rest)
    ensures forall x :: x in [h] + rest <==> x == h || x in rest
    ensures Sum([h] + rest, Minutes) == h.minutes + Sum(rest, Minutes)
  {
    assert ([h] + rest)[1..] == rest;
  }

  /** A head at least as large as everything a non-increasing tail is made of
      keeps the table non-increasing. */
  lemma {:induction false} HeadDominates(h: Total, t: Total, rest: seq<Total>, added: seq<Total>)
    requires forall j :: 0 <= j < |rest| ==> h.minutes >= rest[j].minutes
    requires h.minutes >= t.minutes
    requires NonIncreasing(added)
    requires forall x :: x in added ==> x == t || x in rest
    ensures NonIncreasing([h] + added)
  {
    var r := [h] + added;
    forall i, j | 0 <= i < j < |r| ensures r[i].minutes >= r[j].minutes {
      assert r[j] == added[j - 1];
      if i > 0 {
        assert r[i] == added[i - 1];
      } else if added[j - 1] != t {
        assert added[j - 1] in rest;
      }
    }
  }

  /** The groups ranked from the largest total down: the same groups,
      non-increasing in minutes, same grand total. */
  function Rank(ts: seq<Total>): (r: seq<Total>)
    ensures NonIncreasing(r)
    ensures multiset(r) == multiset(ts) && |r| == |ts|
    ensures Sum(r, Minutes) == Sum(ts, Minutes)
  {
    if ts == [] then []
    else
      assert ts == [ts[0]] + ts[1..];
      Insert(ts[0], Rank(ts[1..]))
  }

  function Min(a: nat, b: nat): nat { if a < b then a else b }

  /** `sort_values(ascending=False).head(n)`. */
  function TopN(ts: seq<Total>, n: nat): (r: seq<Total>)
    ensures |r| == Min(n, |ts|)
    ensures NonIncreasing(r)
    ensures multiset(r) <= multiset(ts)
  {
    var ranked := Rank(ts);
    var m := Min(n, |ts|);
    assert ranked == ranked[..m] + ranked[m..];
    ranked[..m]
  }

  /** No group left out of the top n has a larger total than a group shown. */
  lemma {:induction false} TopNDominates(ts: seq<Total>, n: nat)
    ensures forall i, y :: 0 <= i < |TopN(ts, n)| && y in ts && y !in TopN(ts, n) ==> TopN(ts, n)[i].minutes >= y.minutes
  {
    forall i, y | 0 <= i < |TopN(ts, n)| && y in ts && y !in TopN(ts, n) ensures TopN(ts, n)[i].minutes >= y.minutes {
      ShownDominatesLeftOut(ts, n, i, y);
    }
  }

  /** The largest groups still carry the summed minutes of their keys. */
  lemma {:induction false} TopGroupsEntries(ps: seq<Total>, n: nat)
    ensures forall i :: 0 <= i < |TopN(GroupSum(ps), n)| ==>
      TopN(GroupSum(ps), n)[i].minutes == SumFor(ps, TopN(GroupSum(ps), n)[i].key)
  {
    var grouped := GroupSum(ps);
    var top := TopN(grouped, n);
    GroupSumEntries(ps);
    forall i | 0 <= i < |top| ensures top[i].minutes == SumFor(ps, top[i].key) {
      assert top[i] in multiset(grouped);
      var j :| 0 <= j < |grouped| && grouped[j] == top[i];
    }
  }

  lemma {:induction false} ShownDominatesLeftOut(ts: seq<Total>, n: nat, i: nat, y: Total)
    requires i < |TopN(ts, n)| && y in ts && y !in TopN(ts, n)
    ensures TopN(ts, n)[i].minutes >= y.minutes
  {
    var ranked := Rank(ts);
    var m := Min(n, |ts|);
    assert TopN(ts, n) == ranked[..m];
    assert y in multiset(ranked);
    var j :| 0 <= j < |ranked| && ranked[j] == y;
    if j < m {
      InPrefix(ranked, m, j);
      assert false;
    }
    assert ranked[..m][i] == ranked[i];
  }

  lemma {:induction false} InPrefix<T>(s: seq<T>, m: nat, j: nat)
    requires j < m <= |s|
    ensures s[j] in s[..m]
  {
    assert s[..m][j] == s[j];
  }

  // ---------------------------------------------------------------------------
  // Building the pairs, and the keys of a grouped table

  /** The (key, minutes) pairs a table contributes to a group-by, row by row. */
  function PairsOf<T>(s: seq<T>, key: T -> string, minutes: T -> real): (r: seq<Total>)
    ensures |r| == |s|
    ensures forall i :: 0 <= i < |s| ==> r[i] == Total(key(s[i]), minutes(s[i]))
  {
    if s == [] then [] else [Total(key(s[0]), minutes(s[0]))] + PairsOf(s[1..], key, minutes)
  }

  /** Turning rows into pairs keeps the column's sum. */
  lemma {:induction false} SumPairs<T>(s: seq<T>, key: T -> string, minutes: T -> real)
    ensures Sum(PairsOf(s, key, minutes), Minutes) == Sum(s, minutes)
  {
    if s != [] {
      var r := PairsOf(s, key, minutes);
      assert r[1..] == PairsOf(s[1..], key, minutes);
      SumPairs(s[1..], key, minutes);
    }
  }

  /** The keys of a table, in its order. */
  function KeysOf(ts: seq<Total>): (ks: seq<string>)
    ensures |ks| == |ts| && forall i :: 0 <= i < |ts| ==> ks[i] == ts[i].key
  {
    seq(|ts|, i requires 0 <= i < |ts| => ts[i].key)
  }

  /** A key is listed exactly when some row carries it. */
  lemma {:induction false} KeysOfHasKey(ts: seq<Total>, k: string)
    ensures k in KeysOf(ts) <==> HasKey(ts, k)
  {
    if k in KeysOf(ts) {
      var i :| 0 <= i < |ts| && KeysOf(ts)[i] == k;
    }
    if HasKey(ts, k) {
      var i :| 0 <= i < |ts| && ts[i].key == k;
      assert KeysOf(ts)[i] == k;
    }
  }

  /** `df[df[key] != k]`: the pairs whose key is not `k`. */
  function WithoutKey(ts: seq<Total>, k: string): (r: seq<Total>)
    ensures forall i :: 0 <= i < |r| ==> r[i] in ts && r[i].key != k
    ensures forall i :: 0 <= i < |ts| && ts[i].key != k ==> ts[i] in r
  {
    Filter(ts, (t: Total) => t.key != k)
  }

  /** Leaving out key `k` takes away exactly the minutes filed under `k`. */
  lemma {:induction false} SumWithoutKey(ts: seq<Total>, k: string)
    ensures Sum(WithoutKey(ts, k), Minutes) == Sum(ts, Minutes) - SumFor(ts, k)
  {
    if ts != [] {
      SumWithoutKey(ts[1..], k);
      var head := if ts[0].key != k then [ts[0]] else [];
      assert WithoutKey(ts, k) == head + WithoutKey(ts[1..], k);
      SumAppend(head, WithoutKey(ts[1..], k), Minutes);
      assert [ts[0]][1..] == [];
    }
  }

  // ---------------------------------------------------------------------------
  // Distinct keys survive selection and ranking

  predicate DistinctKeys(ts: seq<Total>) {
    forall i, j :: 0 <= i < j < |ts| ==> ts[i].key != ts[j].key
  }

  lemma {:induction false} AscendingIsDistinct(ts: seq<Total>)
    requires KeysAscending(ts)
    ensures DistinctKeys(ts)
  {
    forall i, j | 0 <= i < j < |ts| ensures ts[i].key != ts[j].key {
      StrLessIrreflexive(ts[i].key);
    }
  }

  lemma {:induction false} FilterDistinct(ts: seq<Total>, p: Total -> bool)
    requires DistinctKeys(ts)
    ensures DistinctKeys(Filter(ts, p))
  {
    FilterPairwise(ts, p, (a: Total, b: Total) => a.key != b.key);
  }

  /** A filtered group-by table still ascends in key. */
  lemma {:induction false} FilterAscending(ts: seq<Total>, p: Total -> bool)
    requires KeysAscending(ts)
    ensures KeysAscending(Filter(ts, p))
  {
    FilterPairwise(ts, p, (a: Total, b: Total) => StrLess(a.key, b.key));
  }

  lemma {:induction false} InsertDistinct(t: Total, ts: seq<Total>)
    requires NonIncreasing(ts) && DistinctKeys(ts)
    requires forall x :: x in ts ==> x.key != t.key
    ensures DistinctKeys(Insert(t, ts))
  {
    if ts == [] || t.minutes >= ts[0].minutes {
      var r := [t] + ts;
      forall i, j | 0 <= i < j < |r| ensures r[i].key != r[j].key {
        assert r[j] == ts[j - 1];
        if i > 0 { assert r[i] == ts[i - 1]; }
      }
    } else {
      var added := Insert(t, ts[1..]);
      InsertDistinct(t, ts[1..]);
      var r := [ts[0]] + added;
      forall i, j | 0 <= i < j < |r| ensures r[i].key != r[j].key {
        assert r[j] == added[j - 1];
        if i > 0 {
          assert r[i] == added[i - 1];
        } else {
          var x := added[j - 1];
          assert x in added;
          if x != t {
            var k :| 0 <= k < |ts[1..]| && ts[1..][k] == x;
            assert ts[k + 1] == x;
          } else {
            assert ts[0] in ts;
          }
        }
      }
    }
  }

  /** Ranking a table with distinct keys leaves the keys distinct. */
  lemma {:induction false} RankDistinct(ts: seq<Total>)
    requires DistinctKeys(ts)
    ensures DistinctKeys(Rank(ts))
  {
    if ts != [] {
      var rest := Rank(ts[1..]);
      assert DistinctKeys(ts[1..]) by {
        forall i, j | 0 <= i < j < |ts[1..]| ensures ts[1..][i].key != ts[1..][j].key {
          assert ts[1..][i] == ts[i + 1] && ts[1..][j] == ts[j + 1];
        }
      }
      RankDistinct(ts[1..]);
      forall x | x in rest ensures x.key != ts[0].key {
        assert x in multiset(rest);
        var k :| 0 <= k < |ts[1..]| && ts[1..][k] == x;
        assert ts[k + 1] == x;
      }
      InsertDistinct(ts[0], rest);
    }
  }
}
