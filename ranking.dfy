/** The ranking step of `topsis_calculation`: `argsort(-scores).argsort() + 1`,
    with a stable argsort (among equal keys the smaller index comes first). */
module Ranking {

  /** Index `a` comes before index `b` in an ascending stable sort by `key`. */
  predicate Before(key: seq<real>, a: nat, b: nat) {
    a < |key| && b < |key| && (key[a] < key[b] || (key[a] == key[b] && a < b))
  }

  /** `order` lists indices of `key`, each strictly before the next ones. */
  predicate SortedBy(key: seq<real>, order: seq<nat>) {
    && (forall t :: 0 <= t < |order| ==> order[t] < |key|)
    && (forall a, b :: 0 <= a < b < |order| ==> Before(key, order[a], order[b]))
  }

  /** Inserts index `k`, larger than every index already in `order`, at its place. */
  function Insert(key: seq<real>, k: nat, order: seq<nat>): (r: seq<nat>)
    requires k < |key| && SortedBy(key, order)
    requires forall t :: 0 <= t < |order| ==> order[t] < k
    ensures SortedBy(key, r) && |r| == |order| + 1
    ensures forall x :: x in r <==> x == k || x in order
  {
    if order == [] then [k]
    else if Before(key, k, order[0]) then
      assert forall b :: 0 <= b < |order| ==> Before(key, k, order[b]);
      [k] + order
    else
      var rest := Insert(key, k, order[1..]);
      forall t | 0 <= t < |rest|
        ensures Before(key, order[0], rest[t])
      {
        assert rest[t] in rest;
        if rest[t] != k {
          var b :| 0 <= b < |order[1..]| && order[1..][b] == rest[t];
          assert order[b + 1] == rest[t];
        }
      }
      [order[0]] + rest
  }

  /** The indices 0 .. n-1 sorted by `key`. */
  function ArgSortPrefix(key: seq<real>, n: nat): (order: seq<nat>)
    requires n <= |key|
    ensures |order| == n && SortedBy(key, order)
    ensures forall x: nat :: x in order <==> x < n
  {
    if n == 0 then []
    else
      var order := ArgSortPrefix(key, n - 1);
      assert forall t :: 0 <= t < |order| ==> order[t] in order;
      Insert(key, n - 1, order)
  }

  /** `np.argsort(key)`, taken stable: a permutation of the indices of `key`
      that lists them in ascending order of key, ties by index. */
  function ArgSort(key: seq<real>): (order: seq<nat>)
    ensures |order| == |key| && SortedBy(key, order)
    ensures forall x: nat :: x in order <==> x < |key|
  {
    ArgSortPrefix(key, |key|)
  }

  function Negated(s: seq<real>): (r: seq<real>) {
    seq(|s|, i requires 0 <= i < |s| => -s[i])
  }

  /** An index sequence as a key of `argsort`. */
  function AsKey(order: seq<nat>): (r: seq<real>) {
    seq(|order|, i requires 0 <= i < |order| => order[i] as real)
  }

  /** `argsort(-scores).argsort() + 1`. */
  function Ranks(scores: seq<real>): (ranks: seq<int>)
    ensures |ranks| == |scores|
    ensures forall i :: 0 <= i < |ranks| ==> 1 <= ranks[i] <= |scores|
  {
    var order := ArgSort(Negated(scores));
    var inverse := ArgSort(AsKey(order));
    assert forall i :: 0 <= i < |inverse| ==> inverse[i] in inverse;
    seq(|inverse|, i requires 0 <= i < |inverse| => inverse[i] + 1)
  }

  /** A strictly increasing sequence of n values, all in 0 .. n-1, is 0, 1, ..., n-1. */
  lemma {:induction false} IncreasingIsIdentity(t: seq<int>)
    requires forall k :: 0 <= k < |t| ==> 0 <= t[k] < |t|
    requires forall a, b :: 0 <= a < b < |t| ==> t[a] < t[b]
    ensures forall k :: 0 <= k < |t| ==> t[k] == k
  {
    if |t| > 0 {
      var n := |t|;
      var init := t[..n - 1];
      assert forall k :: 0 <= k < n - 1 ==> init[k] < t[n - 1];
      IncreasingIsIdentity(init);
      assert forall k :: 0 <= k < n - 1 ==> t[k] == init[k];
      assert n > 1 ==> t[n - 1] > t[n - 2];
    }
  }

  /** The argsort of a permutation of 0 .. n-1 is its inverse. */
  lemma ArgSortInvertsPermutation(order: seq<nat>)
    requires forall x: nat :: x in order <==> x < |order|
    requires forall a, b :: 0 <= a < b < |order| ==> order[a] != order[b]
    ensures |ArgSort(AsKey(order))| == |order|
    ensures forall k :: 0 <= k < |order| ==> ArgSort(AsKey(order))[k] < |order|
    ensures forall k :: 0 <= k < |order| ==> order[ArgSort(AsKey(order))[k]] == k
  {
    var key := AsKey(order);
    var inv := ArgSort(key);
    var n := |order|;
    var t := seq(n, k requires 0 <= k < n => order[inv[k]]);
    forall k | 0 <= k < n
      ensures 0 <= t[k] < n
    {
      assert inv[k] < n;
      assert order[inv[k]] in order;
    }
    forall a, b | 0 <= a < b < n
      ensures t[a] < t[b]
    {
      assert Before(key, inv[a], inv[b]);
      assert inv[a] < inv[b] ==> order[inv[a]] != order[inv[b]];
      assert inv[b] < inv[a] ==> order[inv[b]] != order[inv[a]];
    }
    IncreasingIsIdentity(t);
    assert forall k :: 0 <= k < n ==> order[inv[k]] == t[k];
  }

  /** Ranks are a permutation of 1 .. N. */
  lemma RanksArePermutation(scores: seq<real>)
    ensures |Ranks(scores)| == |scores|
    ensures forall i :: 0 <= i < |scores| ==> 1 <= Ranks(scores)[i] <= |scores|
    ensures forall i, j :: 0 <= i < j < |scores| ==> Ranks(scores)[i] != Ranks(scores)[j]
    ensures forall r :: 1 <= r <= |scores| ==> r in Ranks(scores)
  {
    var order := ArgSort(Negated(scores));
    var inverse := ArgSort(AsKey(order));
    var ranks := Ranks(scores);
    forall i, j | 0 <= i < j < |scores|
      ensures ranks[i] != ranks[j]
    {
      assert Before(AsKey(order), inverse[i], inverse[j]);
    }
    forall r | 1 <= r <= |scores|
      ensures r in ranks
    {
      var r': nat := r - 1;
      assert r' in inverse;
      var i :| 0 <= i < |inverse| && inverse[i] == r';
      assert ranks[i] == r;
    }
  }

  /** The second argsort inverts the first: the row ranked k + 1 is order[k]. */
  lemma RanksInvertOrder(scores: seq<real>)
    ensures var order, ranks := ArgSort(Negated(scores)), Ranks(scores);
      && |order| == |ranks| == |scores|
      && (forall i :: 0 <= i < |scores| ==> 1 <= ranks[i] <= |scores| && order[ranks[i] - 1] == i)
      && (forall k :: 0 <= k < |scores| ==> ranks[order[k]] == k + 1)
  {
    var order := ArgSort(Negated(scores));
    var n := |scores|;
    forall a, b | 0 <= a < b < n
      ensures order[a] != order[b]
    {
      assert Before(Negated(scores), order[a], order[b]);
    }
    ArgSortInvertsPermutation(order);
    var inverse := ArgSort(AsKey(order));
    forall k | 0 <= k < n
      ensures inverse[order[k]] == k
    {
      assert order[inverse[order[k]]] == order[k];
    }
  }

  /** A higher score gives a better (smaller) rank; among equal scores the
      earlier row gets the better rank. */
  lemma RanksFollowScores(scores: seq<real>, i: nat, j: nat)
    requires i < |scores| && j < |scores|
    requires scores[i] > scores[j] || (scores[i] == scores[j] && i < j)
    ensures Ranks(scores)[i] < Ranks(scores)[j]
  {
    RanksInvertOrder(scores);
    var order, ranks := ArgSort(Negated(scores)), Ranks(scores);
    var pi, pj := ranks[i] - 1, ranks[j] - 1;
    assert order[pi] == i && order[pj] == j;
    assert pi != pj;
    assert !Before(Negated(scores), order[pj], order[pi]);
  }
}
