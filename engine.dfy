/**
 * The clustering engine as the source runs it: the matching of an image
 * against a representative (knn search, ratio test, threshold) and the two
 * nested loops that update `clusters` and `clusterId` in place.  The loops
 * are proved to compute the first-fit table of module Greedy over the
 * relation "the good-match count exceeds the threshold".
 */
module Engine {
  import opened RatioTest
  import opened Greedy

  /** A C++ `int`. */
  newtype Int32 = x: int | -0x8000_0000 <= x < 0x8000_0000

  /** `size_t` is 64 bits wide. */
  const SizeTModulus: int := 0x1_0000_0000_0000_0000

  /** `good_matches.size() > matchThreshold` compares a `size_t` with an
      `int`: the `int` is converted to `size_t` first, so a negative threshold
      becomes a huge unsigned one. */
  predicate Exceeds(count: nat, threshold: Int32): (b: bool)
    ensures threshold >= 0 ==> (b <==> count > threshold as int)
    ensures threshold < 0 ==> (b <==> count > SizeTModulus + threshold as int)
  {
    count > (threshold as int) % SizeTModulus
  }

  /** Which of the copies of the engine runs. */
  datatype Variant =
    | GuardedFlann    // utility.cpp clusterImagesFLANN: skips matching unless both sets have more than 2 rows
    | BruteForce      // clusterImagesBFMatcher (identical in utility.cpp and clustering.cpp)
    | UncheckedFlann  // clustering.cpp clusterImagesFLANN: no row guard, no list size check

  /** One clustering run.  `descriptorRows[i]` is the number of descriptor rows
      of image i (0 for an empty `cv::Mat`); `knn(q, t)` is the list of k = 2
      nearest-neighbour distance lists the matcher returns for the descriptors
      of image q against those of image t. */
  datatype Config = Config(
    variant: Variant,
    descriptorRows: seq<nat>,
    knn: (nat, nat) -> seq<seq<real>>,
    matchThreshold: Int32,
    ratio: real)

  /** The unguarded FLANN copy reads the first two entries of every knn list
      it is given, so each list against an earlier item must have two.  A
      matcher that returns exactly two neighbours in every list (a k = 2
      search against references of at least two descriptors) supports every
      copy. */
  predicate Supported(cfg: Config): (b: bool)
    ensures (forall q, t | 0 <= t < q < |cfg.descriptorRows| :: forall j | 0 <= j < |cfg.knn(q, t)| :: |cfg.knn(q, t)[j]| == 2) ==> b
  {
    cfg.variant.UncheckedFlann? ==>
      forall q, t | 0 <= t < q < |cfg.descriptorRows| :: HasTwo(cfg.knn(q, t))
  }

  function CheckFor(v: Variant): SizeCheck {
    if v.UncheckedFlann? then Unchecked else ExactlyTwo
  }

  /** The knn lists of image q against representative t: empty when the
      guarded FLANN copy skips the match.  The guard never alters the
      matcher's lists, and on sets above two rows every copy sees them. */
  function KnnMatches(cfg: Config, q: nat, t: nat): (m: seq<seq<real>>)
    requires q < |cfg.descriptorRows| && t < |cfg.descriptorRows|
    ensures m == [] || m == cfg.knn(q, t)
    ensures cfg.descriptorRows[q] > 2 && cfg.descriptorRows[t] > 2 ==> m == cfg.knn(q, t)
  {
    if cfg.variant.GuardedFlann? && !(cfg.descriptorRows[q] > 2 && cfg.descriptorRows[t] > 2) then []
    else cfg.knn(q, t)
  }

  /** The number of good matches of image q against representative t. */
  function Score(cfg: Config, q: nat, t: nat): nat
    requires Supported(cfg) && t < q < |cfg.descriptorRows|
  {
    |GoodMatches(KnnMatches(cfg, q, t), cfg.ratio, CheckFor(cfg.variant))|
  }

  /** Whether image q may join the cluster whose representative is t. */
  predicate Joins(cfg: Config, q: nat, t: nat)
    requires Supported(cfg) && t < q < |cfg.descriptorRows|
  {
    Exceeds(Score(cfg, q, t), cfg.matchThreshold)
  }

  /** The relation the first-fit pass runs on: image q may join the cluster
      whose representative is the earlier image r. */
  function Joining(cfg: Config): (nat, nat) -> bool {
    (q: nat, r: nat) => Supported(cfg) && r < q < |cfg.descriptorRows| && Joins(cfg, q, r)
  }

  /** `joins` is the engine's test on every pair of an image and an earlier
      one (as `Joining(cfg)` is). */
  ghost predicate Agrees(cfg: Config, joins: (nat, nat) -> bool) {
    && Supported(cfg)
    && forall q: nat, r: nat {:trigger Joins(cfg, q, r)} | r < q < |cfg.descriptorRows| :: joins(q, r) == Joins(cfg, q, r)
  }

  /** The matching of image i against one representative: the knn search
      (skipped by the guarded FLANN copy for small sets) and the ratio filter. */
  method CountGoodMatches(cfg: Config, i: nat, representative: nat) returns (count: nat)
    requires Supported(cfg) && representative < i < |cfg.descriptorRows|
    ensures count == Score(cfg, i, representative)
  {
    var rows := cfg.descriptorRows;
    var knnMatches: seq<seq<real>> := [];
    if !cfg.variant.GuardedFlann? || (rows[i] > 2 && rows[representative] > 2) {
      knnMatches := cfg.knn(i, representative);
    }
    var goodMatches := FilterMatches(knnMatches, cfg.ratio, CheckFor(cfg.variant));
    count := |goodMatches|;
  }

  /** One pass of the outer loop for image i: the representatives are
      scanned in ascending id order and the scan stops at the first cluster
      whose count exceeds the threshold (`break`); without one, a new cluster
      is created under `clusterId`, which then advances. */
  method PlaceImage(cfg: Config, ghost joins: (nat, nat) -> bool, clusters: map<int, seq<nat>>, clusterId: nat, i: nat, ghost t: seq<seq<nat>>)
    returns (clusters': map<int, seq<nat>>, clusterId': nat)
    requires Agrees(cfg, joins) && i < |cfg.descriptorRows| && Valid(t, i)
    requires clusters == ToMap(t) && clusterId == |t|
    ensures clusters' == ToMap(Assign(joins, t, i)) && clusterId' == |Assign(joins, t, i)|
  {
    clusters', clusterId' := clusters, clusterId;
    var foundCluster := false;
    // The keys of `clusters` are exactly 0 .. clusterId - 1, so visiting
    // c = 0, 1, ... visits the map in its ascending key order.
    var c: nat := 0;
    while c < clusterId
      invariant c <= clusterId
      invariant !foundCluster
      invariant FirstFit(joins, t, i, 0) == FirstFit(joins, t, i, c)
    {
      var representative := clusters[c][0];
      var goodMatches := CountGoodMatches(cfg, i, representative);
      assert joins(i, representative) == Joins(cfg, i, representative);
      if Exceeds(goodMatches, cfg.matchThreshold) {
        assert Target(joins, t, i) == c;
        AppendToMap(t, c, i);
        clusters' := clusters[c := clusters[c] + [i]];
        foundCluster := true;
        break;
      }
      c := c + 1;
    }
    if !foundCluster {
      assert Target(joins, t, i) == clusterId;
      AppendToMap(t, clusterId, i);
      clusters' := clusters[clusterId := [i]];
      clusterId' := clusterId + 1;
    }
  }

  /** The engine as the source runs it: `clusters` and `clusterId` are
      updated in place while the images are visited in index order.  The
      result is the first-fit table over any relation that agrees with the
      engine's test, in particular over `Joining(cfg)`. */
  method ClusterImages(cfg: Config, ghost joins: (nat, nat) -> bool) returns (clusters: map<int, seq<nat>>)
    requires Agrees(cfg, joins)
    ensures clusters == ToMap(Table(joins, |cfg.descriptorRows|))
  {
    clusters := map[];
    var clusterId: nat := 0;
    var i: nat := 0;
    while i < |cfg.descriptorRows|
      invariant i <= |cfg.descriptorRows|
      invariant clusters == ToMap(Table(joins, i)) && clusterId == |Table(joins, i)|
    {
      ghost var before := Table(joins, i);
      clusters, clusterId := PlaceImage(cfg, joins, clusters, clusterId, i, before);
      assert Table(joins, i + 1) == Assign(joins, before, i);
      i := i + 1;
    }
  }

  /** The engine's own relation agrees with its test. */
  lemma JoiningAgrees(cfg: Config)
    requires Supported(cfg)
    ensures Agrees(cfg, Joining(cfg))
  {
  }
}
