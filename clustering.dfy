/**
 * clustering.cpp: its copies of `Clustering::clusterImagesFLANN` (no row
 * guard and no size check) and `Clustering::clusterImagesBFMatcher` (the
 * same as the one in utility.cpp).
 */
module Clustering {
  import opened RatioTest
  import opened Greedy
  import opened GreedyTheorems
  import opened Engine
  import opened EngineTheorems

  /** `clusterImagesFLANN` of clustering.cpp: every pair is matched and the
      ratio test reads the first two distances of every knn list without
      checking its size, so each list must hold at least two. */
  method ClusterImagesFLANN(allDescriptors: seq<nat>, knn: (nat, nat) -> seq<seq<real>>, matchThreshold: Int32, ratioThresh: real)
    returns (clusters: map<int, seq<nat>>)
    requires Supported(Config(UncheckedFlann, allDescriptors, knn, matchThreshold, ratioThresh))
    ensures var joins := Joining(Config(UncheckedFlann, allDescriptors, knn, matchThreshold, ratioThresh));
      && clusters == ToMap(Table(joins, |allDescriptors|))
      && FirstFitClustering(joins, Table(joins, |allDescriptors|), |allDescriptors|)
  {
    var cfg := Config(UncheckedFlann, allDescriptors, knn, matchThreshold, ratioThresh);
    JoiningAgrees(cfg);
    clusters := ClusterImages(cfg, Joining(cfg));
    EngineIsFirstFit(cfg);
  }

  /** `clusterImagesBFMatcher` of clustering.cpp. */
  method ClusterImagesBFMatcher(allDescriptors: seq<nat>, knn: (nat, nat) -> seq<seq<real>>, matchThreshold: Int32, ratioThresh: real)
    returns (clusters: map<int, seq<nat>>)
    ensures var joins := Joining(Config(BruteForce, allDescriptors, knn, matchThreshold, ratioThresh));
      && clusters == ToMap(Table(joins, |allDescriptors|))
      && FirstFitClustering(joins, Table(joins, |allDescriptors|), |allDescriptors|)
  {
    var cfg := Config(BruteForce, allDescriptors, knn, matchThreshold, ratioThresh);
    JoiningAgrees(cfg);
    clusters := ClusterImages(cfg, Joining(cfg));
    EngineIsFirstFit(cfg);
  }

  /** On pairs of sets with more than two rows whose knn lists all hold
      exactly two neighbours, the two FLANN copies score alike.  (Pairs with
      a smaller set score 0 in the utility.cpp copy: see
      `SmallDescriptorSetsScoreZero`.) */
  lemma FlannCopiesAgree(rows: seq<nat>, knn: (nat, nat) -> seq<seq<real>>, matchThreshold: Int32, ratio: real, q: nat, t: nat)
    requires t < q < |rows| && rows[q] > 2 && rows[t] > 2
    requires forall a, b | 0 <= b < a < |rows| :: forall j | 0 <= j < |knn(a, b)| :: |knn(a, b)[j]| == 2
    ensures var unchecked := Config(UncheckedFlann, rows, knn, matchThreshold, ratio);
      var guarded := Config(GuardedFlann, rows, knn, matchThreshold, ratio);
      Supported(unchecked) && Score(unchecked, q, t) == Score(guarded, q, t)
  {
    SizeCheckIrrelevantForPairs(knn(q, t), ratio);
  }
}
