/**
 * Facts about the clustering engine that depend on how a pair of images is
 * scored: the first-fit guarantees instantiated for the engine's relation,
 * the effect of the guarded FLANN copy's row check, of short knn lists and
 * of a negative threshold.
 */
module EngineTheorems {
  import opened RatioTest
  import opened Greedy
  import opened GreedyTheorems
  import opened Engine

  /** The result of a clustering run is a first-fit clustering of all the
      images under the engine's threshold test. */
  lemma EngineIsFirstFit(cfg: Config)
    requires Supported(cfg)
    ensures FirstFitClustering(Joining(cfg), Table(Joining(cfg), |cfg.descriptorRows|), |cfg.descriptorRows|)
  {
    TableIsFirstFitClustering(Joining(cfg), |cfg.descriptorRows|);
  }

  /** The guarded FLANN copy matches nothing unless both descriptor sets
      have more than two rows, so such a pair scores 0 and, with a
      non-negative threshold, can never be joined. */
  lemma SmallDescriptorSetsScoreZero(cfg: Config, q: nat, r: nat)
    requires cfg.variant.GuardedFlann? && Supported(cfg) && r < q < |cfg.descriptorRows|
    requires cfg.descriptorRows[q] <= 2 || cfg.descriptorRows[r] <= 2
    ensures Score(cfg, q, r) == 0
    ensures cfg.matchThreshold >= 0 ==> !Joining(cfg)(q, r)
  {
  }

  /** In the guarded FLANN copy with a non-negative threshold, an image with
      at most two descriptor rows ends up alone in a cluster of its own. */
  lemma {:induction false} SmallImageIsAlone(cfg: Config, x: nat)
    requires cfg.variant.GuardedFlann? && Supported(cfg)
    requires cfg.matchThreshold >= 0 && x < |cfg.descriptorRows| && cfg.descriptorRows[x] <= 2
    ensures exists c :: 0 <= c < |Table(Joining(cfg), |cfg.descriptorRows|)| && Table(Joining(cfg), |cfg.descriptorRows|)[c] == [x]
  {
    var n := |cfg.descriptorRows|;
    forall r | 0 <= r < x ensures !Joining(cfg)(x, r) {
      SmallDescriptorSetsScoreZero(cfg, x, r);
    }
    forall q | x < q < n ensures !Joining(cfg)(q, x) {
      SmallDescriptorSetsScoreZero(cfg, q, x);
    }
    IsolatedImageIsAlone(Joining(cfg), n, x);
  }

  /** With the size check (every copy except the unguarded FLANN one), an
      image against which every knn list has fewer than two entries, as
      happens when it has fewer than two descriptors, scores 0 for everybody. */
  lemma {:induction false} ShortNeighbourListsScoreZero(cfg: Config, q: nat, r: nat)
    requires !cfg.variant.UncheckedFlann? && Supported(cfg) && r < q < |cfg.descriptorRows|
    requires forall j | 0 <= j < |cfg.knn(q, r)| :: |cfg.knn(q, r)[j]| < 2
    ensures Score(cfg, q, r) == 0
  {
    ShortListsNeverMatch(cfg.knn(q, r), cfg.ratio);
  }

  /** A negative threshold, converted to `size_t`, is at least 2^64 - 2^31,
      which no count of fewer than 2^31 good matches exceeds. */
  lemma NegativeThresholdNeverJoins(cfg: Config, q: nat, r: nat)
    requires Supported(cfg) && r < q < |cfg.descriptorRows| && cfg.matchThreshold < 0
    requires |cfg.knn(q, r)| < 0x8000_0000
    ensures !Joining(cfg)(q, r)
  {
    assert Score(cfg, q, r) <= |KnnMatches(cfg, q, r)| < 0x8000_0000;
  }

  /** So when the knn lists are fewer than 2^31 (one per query descriptor
      row), a negative threshold puts every image in a cluster of its own. */
  lemma {:induction false} NegativeThresholdIsolatesAll(cfg: Config)
    requires Supported(cfg) && cfg.matchThreshold < 0
    requires forall q, r | 0 <= r < q < |cfg.descriptorRows| :: |cfg.knn(q, r)| < 0x8000_0000
    ensures var t := Table(Joining(cfg), |cfg.descriptorRows|);
      |t| == |cfg.descriptorRows| && forall i | 0 <= i < |t| :: t[i] == [i]
  {
    var n := |cfg.descriptorRows|;
    forall q, r | 0 <= r < q < n ensures !Joining(cfg)(q, r) {
      NegativeThresholdNeverJoins(cfg, q, r);
    }
    NothingJoinsIsolatesAll(Joining(cfg), n);
  }
}
