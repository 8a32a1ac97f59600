/**
 * What the first-fit pass guarantees about the cluster table it builds,
 * whatever the `joins` relation: the clusters partition the images, ids
 * follow creation order, a cluster's representative is the image that
 * opened it and never changes, members are in increasing order, and every
 * image sits in the first cluster (by id) it was allowed to join.
 */
module GreedyTheorems {
  import opened Greedy

  /** Image x sits in some cluster. */
  ghost predicate Placed(t: seq<seq<nat>>, x: nat) {
    exists c, k :: 0 <= c < |t| && 0 <= k < |t[c]| && t[c][k] == x
  }

  /** Every image below n sits in some cluster. */
  ghost predicate Covers(t: seq<seq<nat>>, n: nat) {
    forall x | 0 <= x < n :: Placed(t, x)
  }

  /** No image sits in two places. */
  ghost predicate NoRepeats(t: seq<seq<nat>>) {
    forall c1, k1, c2, k2 |
      0 <= c1 < |t| && 0 <= k1 < |t[c1]| && 0 <= c2 < |t| && 0 <= k2 < |t[c2]| && t[c1][k1] == t[c2][k2]
      :: c1 == c2 && k1 == k2
  }

  /** The clusters partition the images 0 .. n - 1. */
  ghost predicate Partition(t: seq<seq<nat>>, n: nat) {
    Valid(t, n) && Covers(t, n) && NoRepeats(t)
  }

  /** Each member list is strictly increasing. */
  ghost predicate Increasing(t: seq<seq<nat>>) {
    forall c, k1, k2 | 0 <= c < |t| && 0 <= k1 < k2 < |t[c]| :: t[c][k1] < t[c][k2]
  }

  /** A cluster with a higher id was opened by a later image. */
  ghost predicate RepsInCreationOrder(t: seq<seq<nat>>) {
    forall c1, c2 | 0 <= c1 < c2 < |t| && t[c1] != [] && t[c2] != [] :: t[c1][0] < t[c2][0]
  }

  /** First fit: no image may join a cluster with a lower id than its own,
      and an image that is not its cluster's representative may join that
      representative. */
  ghost predicate FirstFitHolds(joins: (nat, nat) -> bool, t: seq<seq<nat>>) {
    forall c, k | 0 <= c < |t| && 0 <= k < |t[c]| ::
      && (forall d | 0 <= d < c && t[d] != [] :: !joins(t[c][k], t[d][0]))
      && (0 < k ==> joins(t[c][k], t[c][0]))
  }

  /** Everything the pass promises about its result for the first n images. */
  ghost predicate FirstFitClustering(joins: (nat, nat) -> bool, t: seq<seq<nat>>, n: nat) {
    && Partition(t, n)
    && Increasing(t)
    && RepsInCreationOrder(t)
    && FirstFitHolds(joins, t)
    && |t| <= n
  }

  /** Image i may join none of the clusters of t. */
  ghost predicate JoinsNone(joins: (nat, nat) -> bool, t: seq<seq<nat>>, i: nat) {
    forall d | 0 <= d < |t| && t[d] != [] :: !joins(i, t[d][0])
  }

  /** t2 grows t1: no cluster disappears and every old member list is a
      prefix of its new one, so in particular no representative changes. */
  ghost predicate Extends(t1: seq<seq<nat>>, t2: seq<seq<nat>>) {
    |t1| <= |t2| && forall c | 0 <= c < |t1| :: t1[c] <= t2[c]
  }

  // ---------------------------------------------------------------------
  // One step of the outer loop

  /** After one step, a position holds either what it held before (an
      earlier image) or the new image i at the end of the target cluster. */
  lemma AppendedPosition(t: seq<seq<nat>>, c0: nat, i: nat, c: nat, k: nat)
    requires Valid(t, i) && c0 <= |t|
    requires c < |Append(t, c0, i)| && k < |Append(t, c0, i)[c]|
    ensures var t' := Append(t, c0, i);
      || (c < |t| && k < |t[c]| && t'[c][k] == t[c][k] && t'[c][k] < i)
      || (c == c0 && k == |t'[c0]| - 1 && t'[c][k] == i)
  {
  }

  lemma AppendExtends(t: seq<seq<nat>>, c0: nat, i: nat)
    requires Valid(t, i) && c0 <= |t|
    ensures Extends(t, Append(t, c0, i))
    ensures forall c | 0 <= c < |t| :: Append(t, c0, i)[c][0] == t[c][0]
  {
  }

  lemma {:induction false} StepPartition(joins: (nat, nat) -> bool, n: nat)
    requires 0 < n && Partition(Table(joins, n - 1), n - 1)
    ensures Partition(Table(joins, n), n)
  {
    var i := n - 1;
    var t := Table(joins, i);
    var c0 := Target(joins, t, i);
    var t' := Table(joins, n);
    assert t' == Append(t, c0, i);
    forall x | 0 <= x < i + 1 ensures Placed(t', x) {
      if x == i {
        assert t'[c0][|t'[c0]| - 1] == i;
      } else {
        assert Placed(t, x);
        var c, k :| 0 <= c < |t| && 0 <= k < |t[c]| && t[c][k] == x;
        AppendExtends(t, c0, i);
        assert t[c] <= t'[c];
        assert t'[c][k] == x;
      }
    }
    forall c1, k1, c2, k2 |
      0 <= c1 < |t'| && 0 <= k1 < |t'[c1]| && 0 <= c2 < |t'| && 0 <= k2 < |t'[c2]| && t'[c1][k1] == t'[c2][k2]
      ensures c1 == c2 && k1 == k2
    {
      AppendedPosition(t, c0, i, c1, k1);
      AppendedPosition(t, c0, i, c2, k2);
    }
  }

  lemma {:induction false} StepOrdered(joins: (nat, nat) -> bool, n: nat)
    requires 0 < n && Increasing(Table(joins, n - 1)) && RepsInCreationOrder(Table(joins, n - 1))
    ensures Increasing(Table(joins, n)) && RepsInCreationOrder(Table(joins, n))
  {
    var i := n - 1;
    var t := Table(joins, i);
    var c0 := Target(joins, t, i);
    var t' := Table(joins, n);
    assert t' == Append(t, c0, i);
    forall c, k1, k2 | 0 <= c < |t'| && 0 <= k1 < k2 < |t'[c]| ensures t'[c][k1] < t'[c][k2] {
      AppendedPosition(t, c0, i, c, k1);
      AppendedPosition(t, c0, i, c, k2);
    }
    AppendExtends(t, c0, i);
    forall c1, c2 | 0 <= c1 < c2 < |t'| && t'[c1] != [] && t'[c2] != [] ensures t'[c1][0] < t'[c2][0] {
      AppendedPosition(t, c0, i, c2, 0);
    }
  }

  lemma {:induction false} StepFirstFit(joins: (nat, nat) -> bool, n: nat)
    requires 0 < n && FirstFitHolds(joins, Table(joins, n - 1))
    ensures FirstFitHolds(joins, Table(joins, n))
  {
    var i := n - 1;
    var t := Table(joins, i);
    var c0 := Target(joins, t, i);
    var t' := Table(joins, n);
    assert t' == Append(t, c0, i);
    AppendExtends(t, c0, i);
    var fit := FirstFit(joins, t, i, 0);
    forall c, k | 0 <= c < |t'| && 0 <= k < |t'[c]|
      ensures forall d | 0 <= d < c && t'[d] != [] :: !joins(t'[c][k], t'[d][0])
      ensures 0 < k ==> joins(t'[c][k], t'[c][0])
    {
      AppendedPosition(t, c0, i, c, k);
      if c < |t| && k < |t[c]| {
        // an earlier image: its place is unchanged, and so are the representatives before it
        assert t'[c][k] == t[c][k];
      } else {
        // the new image, in the cluster FirstFit chose or in a new one
        assert c == c0 && t'[c][k] == i;
        assert forall d | 0 <= d < c :: t'[d][0] == t[d][0];
        if k > 0 {
          assert fit.Some? && fit.value == c0;
          assert t'[c][0] == t[c][0];
        }
      }
    }
  }

  lemma {:induction false} StepExtends(joins: (nat, nat) -> bool, n: nat)
    requires 0 < n
    ensures Extends(Table(joins, n - 1), Table(joins, n))
  {
    var t := Table(joins, n - 1);
    AppendExtends(t, Target(joins, t, n - 1), n - 1);
  }

  /** An image that can join none of the existing clusters opens a new one
      after them. */
  lemma {:induction false} NoFitOpensCluster(joins: (nat, nat) -> bool, n: nat)
    requires 0 < n
    requires JoinsNone(joins, Table(joins, n - 1), n - 1)
    ensures Table(joins, n) == Table(joins, n - 1) + [[n - 1]]
  {
    assert FirstFit(joins, Table(joins, n - 1), n - 1, 0).None?;
  }

  // ---------------------------------------------------------------------
  // The whole run

  /** The clusters partition the images placed so far. */
  lemma {:induction false} TablePartitions(joins: (nat, nat) -> bool, n: nat)
    ensures Partition(Table(joins, n), n)
    decreases n
  {
    if n > 0 {
      TablePartitions(joins, n - 1);
      StepPartition(joins, n);
    }
  }

  /** Members and representatives are in increasing order. */
  lemma {:induction false} TableOrdered(joins: (nat, nat) -> bool, n: nat)
    ensures Increasing(Table(joins, n)) && RepsInCreationOrder(Table(joins, n))
    decreases n
  {
    if n > 0 {
      TableOrdered(joins, n - 1);
      StepOrdered(joins, n);
    }
  }

  /** Every image sits in the first cluster it was allowed to join. */
  lemma {:induction false} TableIsFirstFit(joins: (nat, nat) -> bool, n: nat)
    ensures FirstFitHolds(joins, Table(joins, n))
    decreases n
  {
    if n > 0 {
      TableIsFirstFit(joins, n - 1);
      StepFirstFit(joins, n);
    }
  }

  /** The table built for the first n images is a first-fit clustering of them. */
  lemma TableIsFirstFitClustering(joins: (nat, nat) -> bool, n: nat)
    ensures FirstFitClustering(joins, Table(joins, n), n)
  {
    TablePartitions(joins, n);
    TableOrdered(joins, n);
    TableIsFirstFit(joins, n);
  }

  lemma ExtendsTransitive(a: seq<seq<nat>>, b: seq<seq<nat>>, d: seq<seq<nat>>)
    requires Extends(a, b) && Extends(b, d) && forall c | 0 <= c < |a| :: a[c] != []
    ensures Extends(a, d) && forall c | 0 <= c < |a| :: d[c][0] == a[c][0]
  {
    forall c | 0 <= c < |a| ensures a[c] <= d[c] && d[c][0] == a[c][0] {
      assert a[c] <= b[c] && b[c] <= d[c];
    }
  }

  /** Clusters are never deleted or merged and only grow at the end: the
      table after m images is extended by the table after any n >= m images,
      so each cluster keeps its id and its representative. */
  lemma {:induction false} TableGrows(joins: (nat, nat) -> bool, m: nat, n: nat)
    requires m <= n
    ensures Extends(Table(joins, m), Table(joins, n))
    ensures forall c | 0 <= c < |Table(joins, m)| :: Table(joins, n)[c][0] == Table(joins, m)[c][0]
    decreases n - m
  {
    if m < n {
      var a, b := Table(joins, m), Table(joins, n - 1);
      TableGrows(joins, m, n - 1);
      StepExtends(joins, n);
      ExtendsTransitive(a, b, Table(joins, n));
    }
  }

  /** The representative of cluster c is the image that created it: when it
      arrived there were exactly c clusters and it could join none of them. */
  lemma {:induction false} RepresentativeCreatedCluster(joins: (nat, nat) -> bool, n: nat, c: nat)
    requires c < |Table(joins, n)|
    ensures var r := Table(joins, n)[c][0];
      r < n && |Table(joins, r)| == c && FirstFit(joins, Table(joins, r), r, 0).None?
    decreases n
  {
    var t := Table(joins, n - 1);
    var c0 := Target(joins, t, n - 1);
    AppendExtends(t, c0, n - 1);
    var r := Table(joins, n)[c][0];
    if c < |t| {
      RepresentativeCreatedCluster(joins, n - 1, c);
      assert r == t[c][0];
    } else {
      assert c0 == |t| && Table(joins, n)[c] == [n - 1];
      assert r == n - 1;
    }
  }

  /** Cluster ids are 0 .. k - 1 with 0 < k <= n, and image 0 opens cluster 0. */
  lemma {:induction false} FirstImageOpensFirstCluster(joins: (nat, nat) -> bool, n: nat)
    requires 0 < n
    ensures 0 < |Table(joins, n)| <= n && Table(joins, n)[0] != [] && Table(joins, n)[0][0] == 0
    ensures forall c :: c in ToMap(Table(joins, n)) <==> 0 <= c < |Table(joins, n)|
  {
    TableGrows(joins, 1, n);
    assert Table(joins, 1) == [[0]];
  }

  // ---------------------------------------------------------------------
  // Images nobody can join

  /** A representative that no later image may join keeps a singleton cluster. */
  lemma {:induction false} UnjoinableRepresentativeStaysAlone(joins: (nat, nat) -> bool, n: nat, c: nat)
    requires c < |Table(joins, n)|
    requires forall q | Table(joins, n)[c][0] < q < n :: !joins(q, Table(joins, n)[c][0])
    ensures Table(joins, n)[c] == [Table(joins, n)[c][0]]
    decreases n
  {
    var t := Table(joins, n - 1);
    var c0 := Target(joins, t, n - 1);
    AppendExtends(t, c0, n - 1);
    if c < |t| {
      var rep := t[c][0];
      assert Table(joins, n)[c][0] == rep;
      UnjoinableRepresentativeStaysAlone(joins, n - 1, c);
      assert rep < n - 1;
      assert !joins(n - 1, rep);
      assert c0 != c;
    } else {
      assert Table(joins, n)[c] == [n - 1];
    }
  }

  /** An image that may join no earlier image and that no later image may
      join ends up alone in a cluster of its own. */
  lemma {:induction false} IsolatedImageIsAlone(joins: (nat, nat) -> bool, n: nat, x: nat)
    requires x < n
    requires forall r | 0 <= r < x :: !joins(x, r)
    requires forall q | x < q < n :: !joins(q, x)
    ensures exists c :: 0 <= c < |Table(joins, n)| && Table(joins, n)[c] == [x]
  {
    var before := Table(joins, x);
    NoFitOpensCluster(joins, x + 1);
    var c := |before|;
    TableGrows(joins, x + 1, n);
    assert Table(joins, n)[c][0] == x;
    UnjoinableRepresentativeStaysAlone(joins, n, c);
  }

  /** When no image may join any earlier one, every image opens a cluster of
      its own: cluster i is exactly [i]. */
  lemma {:induction false} NothingJoinsIsolatesAll(joins: (nat, nat) -> bool, n: nat)
    requires forall q, r | 0 <= r < q < n :: !joins(q, r)
    ensures |Table(joins, n)| == n && forall i | 0 <= i < n :: Table(joins, n)[i] == [i]
    decreases n
  {
    if n > 0 {
      NothingJoinsIsolatesAll(joins, n - 1);
      var t := Table(joins, n - 1);
      forall d | 0 <= d < |t| ensures !joins(n - 1, t[d][0]) {
        assert t[d] == [d];
      }
      NoFitOpensCluster(joins, n);
      assert Table(joins, n) == t + [[n - 1]];
    }
  }
}
