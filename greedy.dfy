/**
 * The greedy single-pass first-fit clustering shared by every copy of
 * `clusterImagesFLANN` and `clusterImagesBFMatcher`, stated over the
 * relation `joins(q, r)`: "image q may join the cluster whose representative
 * is image r".  The copies differ only in how that relation is computed
 * (see module Engine).
 *
 * Items (images) are visited in index order.  Each item is compared with the
 * FIRST member (the representative) of every existing cluster, oldest cluster
 * first; it is appended to the first cluster it may join, otherwise it opens
 * a new singleton cluster under the next id.
 *
 * The cluster table is a sequence of member lists whose positions are the
 * cluster ids; the source's `std::map<int, std::vector<int>>` is `ToMap` of it.
 */
module Greedy {

  datatype Option<T> = None | Some(value: T)

  /** A cluster table built from the items before i: no cluster is empty and
      every member is an earlier item. */
  ghost predicate Valid(t: seq<seq<nat>>, i: nat) {
    forall c | 0 <= c < |t| :: t[c] != [] && forall k | 0 <= k < |t[c]| :: t[c][k] < i
  }

  /** The first cluster, from id `from` on, that image i may join. */
  function FirstFit(joins: (nat, nat) -> bool, t: seq<seq<nat>>, i: nat, from: nat): (r: Option<nat>)
    requires Valid(t, i) && from <= |t|
    ensures r.Some? ==>
      && from <= r.value < |t|
      && joins(i, t[r.value][0])
      && forall d | from <= d < r.value :: !joins(i, t[d][0])
    ensures r.None? ==> forall d | from <= d < |t| :: !joins(i, t[d][0])
    decreases |t| - from
  {
    if from == |t| then None
    else if joins(i, t[from][0]) then Some(from)
    else FirstFit(joins, t, i, from + 1)
  }

  /** The id image i ends up in: the first cluster it may join, or a new id. */
  function Target(joins: (nat, nat) -> bool, t: seq<seq<nat>>, i: nat): nat
    requires Valid(t, i)
  {
    match FirstFit(joins, t, i, 0)
    case Some(c) => c
    case None => |t|
  }

  /** Appends i to cluster c, or opens cluster c = |t| with i as its only member. */
  function Append(t: seq<seq<nat>>, c: nat, i: nat): seq<seq<nat>>
    requires c <= |t|
  {
    if c < |t| then t[c := t[c] + [i]] else t + [[i]]
  }

  /** One step of the outer loop: image i is placed. */
  function Assign(joins: (nat, nat) -> bool, t: seq<seq<nat>>, i: nat): (r: seq<seq<nat>>)
    requires Valid(t, i)
    ensures Valid(r, i + 1) && |t| <= |r| <= |t| + 1
  {
    Append(t, Target(joins, t, i), i)
  }

  /** The cluster table after the first n images have been placed. */
  function Table(joins: (nat, nat) -> bool, n: nat): (t: seq<seq<nat>>)
    ensures Valid(t, n) && |t| <= n
    decreases n
  {
    if n == 0 then [] else Assign(joins, Table(joins, n - 1), n - 1)
  }

  /** The table as the source's map from cluster id to member list. */
  function ToMap(t: seq<seq<nat>>): map<int, seq<nat>> {
    map c | 0 <= c < |t| :: t[c]
  }

  /** Appending to cluster c, or creating it, is a single map update. */
  lemma AppendToMap(t: seq<seq<nat>>, c: nat, i: nat)
    requires c <= |t|
    ensures ToMap(Append(t, c, i)) == ToMap(t)[c := if c < |t| then t[c] + [i] else [i]]
  {
    var l, r := ToMap(Append(t, c, i)), ToMap(t)[c := if c < |t| then t[c] + [i] else [i]];
    assert l.Keys == r.Keys;
  }
}
