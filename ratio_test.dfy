/**
 * Lowe's ratio test over the k = 2 nearest-neighbour lists that a descriptor
 * matcher returns for one pair of images.  A knn list is the list of
 * distances to the nearest and second-nearest reference descriptors; the
 * matcher itself is not modelled.
 */
module RatioTest {

  /** Whether the filter checks that a knn list holds exactly two neighbours
      before it reads the first two distances (the utility.cpp copies and both
      brute-force copies do; the FLANN copy in clustering.cpp does not). */
  datatype SizeCheck = ExactlyTwo | Unchecked

  /** Every knn list has at least two entries, so reading `[0]` and `[1]` is safe. */
  predicate HasTwo(knn: seq<seq<real>>) {
    forall j | 0 <= j < |knn| :: |knn[j]| >= 2
  }

  /** The ratio test on one knn list: the best distance is strictly below
      `ratio` times the second best.  With the size check, a list that does
      not hold exactly two neighbours is rejected; an ambiguous match (two
      equally near neighbours) never passes a ratio of at most 1; a ratio of
      at most 0 passes nothing; an exact match whose runner-up is farther
      passes every positive ratio. */
  predicate Accepts(neighbours: seq<real>, ratio: real, check: SizeCheck): (ok: bool)
    requires check.ExactlyTwo? || |neighbours| >= 2
    ensures check.ExactlyTwo? && |neighbours| != 2 ==> !ok
    ensures |neighbours| >= 2 && 0.0 <= neighbours[0] == neighbours[1] && ratio <= 1.0 ==> !ok
    ensures |neighbours| >= 2 && 0.0 <= neighbours[0] && 0.0 <= neighbours[1] && ratio <= 0.0 ==> !ok
    ensures (check.Unchecked? || |neighbours| == 2) && neighbours[0] == 0.0 < neighbours[1] && 0.0 < ratio ==> ok
  {
    (check.Unchecked? || |neighbours| == 2) && neighbours[0] < ratio * neighbours[1]
  }

  /** The `good_matches` vector: the best distance of every accepted list, in list order. */
  function GoodMatches(knn: seq<seq<real>>, ratio: real, check: SizeCheck): (good: seq<real>)
    requires check.ExactlyTwo? || HasTwo(knn)
    ensures |good| <= |knn|
    decreases |knn|
  {
    if knn == [] then []
    else
      var last := knn[|knn| - 1];
      var init := GoodMatches(knn[..|knn| - 1], ratio, check);
      if Accepts(last, ratio, check) then init + [last[0]] else init
  }

  /** Reference definition: the positions of the lists that pass the ratio test. */
  ghost function AcceptedPositions(knn: seq<seq<real>>, ratio: real, check: SizeCheck): set<nat>
    requires check.ExactlyTwo? || HasTwo(knn)
  {
    set j: nat | j < |knn| && Accepts(knn[j], ratio, check)
  }

  /** The number of good matches is the number of knn lists that pass the ratio test. */
  lemma {:induction false} GoodMatchesCountAccepted(knn: seq<seq<real>>, ratio: real, check: SizeCheck)
    requires check.ExactlyTwo? || HasTwo(knn)
    ensures |GoodMatches(knn, ratio, check)| == |AcceptedPositions(knn, ratio, check)|
    decreases |knn|
  {
    if knn != [] {
      var n := |knn| - 1;
      var init := knn[..n];
      GoodMatchesCountAccepted(init, ratio, check);
      var before := AcceptedPositions(init, ratio, check);
      var after := AcceptedPositions(knn, ratio, check);
      assert n !in before;
      if Accepts(knn[n], ratio, check) {
        assert after == before + {n};
      } else {
        assert after == before;
      }
    }
  }

  /** Every good match is the best distance of some knn list that passed the test. */
  lemma {:induction false} GoodMatchesComeFromAccepted(knn: seq<seq<real>>, ratio: real, check: SizeCheck, k: nat)
    requires check.ExactlyTwo? || HasTwo(knn)
    requires k < |GoodMatches(knn, ratio, check)|
    ensures exists j :: 0 <= j < |knn| && Accepts(knn[j], ratio, check) && GoodMatches(knn, ratio, check)[k] == knn[j][0]
    decreases |knn|
  {
    var n := |knn| - 1;
    var init := GoodMatches(knn[..n], ratio, check);
    if k < |init| {
      GoodMatchesComeFromAccepted(knn[..n], ratio, check, k);
      var j :| 0 <= j < n && Accepts(knn[..n][j], ratio, check) && init[k] == knn[..n][j][0];
      assert knn[j] == knn[..n][j];
    } else {
      assert Accepts(knn[n], ratio, check);
    }
  }

  /** With the size check, a list with fewer than two neighbours (a reference
      image with fewer than two descriptors) is never a good match. */
  lemma {:induction false} ShortListsNeverMatch(knn: seq<seq<real>>, ratio: real)
    requires forall j | 0 <= j < |knn| :: |knn[j]| < 2
    ensures GoodMatches(knn, ratio, ExactlyTwo) == []
    decreases |knn|
  {
    if knn != [] {
      ShortListsNeverMatch(knn[..|knn| - 1], ratio);
    }
  }

  /** When every list holds exactly two neighbours, which is what a k = 2
      search against a reference with at least two descriptors returns, the
      filter with and without the size check keeps the same matches. */
  lemma {:induction false} SizeCheckIrrelevantForPairs(knn: seq<seq<real>>, ratio: real)
    requires forall j | 0 <= j < |knn| :: |knn[j]| == 2
    ensures GoodMatches(knn, ratio, ExactlyTwo) == GoodMatches(knn, ratio, Unchecked)
    decreases |knn|
  {
    if knn != [] {
      SizeCheckIrrelevantForPairs(knn[..|knn| - 1], ratio);
    }
  }

  /** The filter loop: walks the knn lists in order and appends the best
      match of every list that passes the ratio test. */
  method FilterMatches(knn: seq<seq<real>>, ratio: real, check: SizeCheck) returns (good: seq<real>)
    requires check.ExactlyTwo? || HasTwo(knn)
    ensures good == GoodMatches(knn, ratio, check)
  {
    good := [];
    var j := 0;
    while j < |knn|
      invariant 0 <= j <= |knn|
      invariant good == GoodMatches(knn[..j], ratio, check)
    {
      assert knn[..j + 1][..j] == knn[..j];
      if (check.Unchecked? || |knn[j]| == 2) && knn[j][0] < ratio * knn[j][1] {
        good := good + [knn[j][0]];
      }
      j := j + 1;
    }
    assert knn[..|knn|] == knn;
  }
}
