/**
 * utility.cpp: the thumbnail-grid layout of `Utility::displayImagesGrid`
 * and the utility.cpp copies of `Clustering::clusterImagesFLANN` (with the
 * row guard and the size check) and `Clustering::clusterImagesBFMatcher`.
 */
module Utility {
  import opened Greedy
  import opened GreedyTheorems
  import opened Engine
  import opened EngineTheorems

  // ---------------------------------------------------------------------
  // Grid layout

  /** Every thumbnail is resized to 500 x 500 pixels. */
  const ThumbWidth: nat := 500
  const ThumbHeight: nat := 500

  /** A `cv::Rect`: top-left corner and size. */
  datatype Rect = Rect(x: int, y: int, width: int, height: int)

  /** The canvas of a non-empty grid and the number of rows it has. */
  datatype Grid = Grid(numRows: nat, height: int, width: int)

  /** `(size + imagesPerRow - 1) / imagesPerRow`: the number of rows, rounded up. */
  function NumRows(count: nat, imagesPerRow: nat): (rows: nat)
    requires imagesPerRow > 0
    ensures rows * imagesPerRow >= count
    ensures count > 0 ==> (rows - 1) * imagesPerRow < count
    ensures count == 0 ==> rows == 0
  {
    (count + imagesPerRow - 1) / imagesPerRow
  }

  /** The canvas for `count` images, or None for an empty list, for which
      nothing is drawn. */
  function GridFor(count: nat, imagesPerRow: nat): (g: Option<Grid>)
    requires imagesPerRow > 0
    ensures g.None? <==> count == 0
    ensures g.Some? ==> g.value.numRows > 0 && g.value.numRows * imagesPerRow >= count
  {
    if count == 0 then None
    else
      var rows := NumRows(count, imagesPerRow);
      Some(Grid(rows, ThumbHeight * rows, ThumbWidth * imagesPerRow))
  }

  /** The rectangle image i is copied into: row `i / imagesPerRow`, column
      `i % imagesPerRow`. */
  function Cell(i: nat, imagesPerRow: nat): (r: Rect)
    requires imagesPerRow > 0
    ensures r.width == ThumbWidth && r.height == ThumbHeight
    ensures 0 <= r.x < ThumbWidth * imagesPerRow && r.x % ThumbWidth == 0
    ensures 0 <= r.y && r.y % ThumbHeight == 0
    ensures (r.y / ThumbHeight) * imagesPerRow + r.x / ThumbWidth == i
  {
    var row := i / imagesPerRow;
    var col := i % imagesPerRow;
    Rect(col * ThumbWidth, row * ThumbHeight, ThumbWidth, ThumbHeight)
  }

  /** Two rectangles share at least one pixel. */
  predicate Overlap(a: Rect, b: Rect) {
    a.x < b.x + b.width && b.x < a.x + a.width && a.y < b.y + b.height && b.y < a.y + a.height
  }

  /** Every image of a non-empty list gets a cell that lies inside the canvas. */
  lemma CellInsideGrid(count: nat, imagesPerRow: nat, i: nat)
    requires imagesPerRow > 0 && i < count
    ensures var g := GridFor(count, imagesPerRow).value; var r := Cell(i, imagesPerRow);
      0 <= r.x && r.x + r.width <= g.width && 0 <= r.y && r.y + r.height <= g.height
  {
    var rows := NumRows(count, imagesPerRow);
    var row, col := i / imagesPerRow, i % imagesPerRow;
    assert i == row * imagesPerRow + col && 0 <= col < imagesPerRow;
    assert (rows - row) * imagesPerRow == rows * imagesPerRow - row * imagesPerRow > 0;
    PositiveFactor(rows - row, imagesPerRow);
  }

  /** A product of a positive number that is positive has a positive other factor. */
  lemma PositiveFactor(x: int, p: int)
    requires p > 0 && x * p > 0
    ensures x > 0
  {
  }

  /** Distinct images get distinct (row, column) cells, and their
      rectangles never overlap. */
  lemma CellsDisjoint(imagesPerRow: nat, i: nat, j: nat)
    requires imagesPerRow > 0 && i != j
    ensures Cell(i, imagesPerRow) != Cell(j, imagesPerRow)
    ensures !Overlap(Cell(i, imagesPerRow), Cell(j, imagesPerRow))
  {
    var p := imagesPerRow;
    assert i == (i / p) * p + i % p && j == (j / p) * p + j % p;
    if i / p == j / p {
      assert i % p != j % p;
    }
  }

  /** The copy loop: images are visited in list order; one that cannot be
      read is skipped (`continue`) and its cell stays black; every other one
      is copied into its cell.  Returns the rectangles written, in order. */
  method CopyThumbnails(readable: seq<bool>, imagesPerRow: nat) returns (written: seq<Rect>)
    requires imagesPerRow > 0
    ensures written == WrittenCells(readable, imagesPerRow)
  {
    written := [];
    var i := 0;
    while i < |readable|
      invariant 0 <= i <= |readable|
      invariant written == WrittenCells(readable[..i], imagesPerRow)
    {
      assert readable[..i + 1][..i] == readable[..i];
      if !readable[i] {
        i := i + 1;
        continue;
      }
      var row := i / imagesPerRow;
      var col := i % imagesPerRow;
      var startX := col * ThumbWidth;
      var startY := row * ThumbHeight;
      written := written + [Rect(startX, startY, ThumbWidth, ThumbHeight)];
      i := i + 1;
    }
    assert readable[..|readable|] == readable;
  }

  /** The cells of the readable images, in list order. */
  function WrittenCells(readable: seq<bool>, imagesPerRow: nat): (cells: seq<Rect>)
    requires imagesPerRow > 0
    decreases |readable|
  {
    if readable == [] then []
    else
      var n := |readable| - 1;
      WrittenCells(readable[..n], imagesPerRow) + (if readable[n] then [Cell(n, imagesPerRow)] else [])
  }

  /** A cell is written exactly when its image could be read. */
  lemma {:induction false} WrittenCellsExactlyReadable(readable: seq<bool>, imagesPerRow: nat, i: nat)
    requires imagesPerRow > 0 && i < |readable|
    ensures Cell(i, imagesPerRow) in WrittenCells(readable, imagesPerRow) <==> readable[i]
    decreases |readable|
  {
    var n := |readable| - 1;
    var init := WrittenCells(readable[..n], imagesPerRow);
    if i < n {
      WrittenCellsExactlyReadable(readable[..n], imagesPerRow, i);
      CellsDisjoint(imagesPerRow, i, n);
    } else {
      WrittenCellsBefore(readable[..n], imagesPerRow, n);
    }
  }

  /** Only cells of images before position m are written by the first m images. */
  lemma {:induction false} WrittenCellsBefore(readable: seq<bool>, imagesPerRow: nat, m: nat)
    requires imagesPerRow > 0 && |readable| <= m
    ensures Cell(m, imagesPerRow) !in WrittenCells(readable, imagesPerRow)
    decreases |readable|
  {
    if readable != [] {
      var n := |readable| - 1;
      WrittenCellsBefore(readable[..n], imagesPerRow, m);
      CellsDisjoint(imagesPerRow, n, m);
    }
  }

  // ---------------------------------------------------------------------
  // The utility.cpp copies of the clustering engine

  /** `clusterImagesFLANN` of utility.cpp: FLANN matching, skipped unless both
      descriptor sets have more than two rows, and the size check. */
  method ClusterImagesFLANN(allDescriptors: seq<nat>, knn: (nat, nat) -> seq<seq<real>>, matchThreshold: Int32, ratioThresh: real)
    returns (clusters: map<int, seq<nat>>)
    ensures var joins := Joining(Config(GuardedFlann, allDescriptors, knn, matchThreshold, ratioThresh));
      && clusters == ToMap(Table(joins, |allDescriptors|))
      && FirstFitClustering(joins, Table(joins, |allDescriptors|), |allDescriptors|)
  {
    var cfg := Config(GuardedFlann, allDescriptors, knn, matchThreshold, ratioThresh);
    JoiningAgrees(cfg);
    clusters := ClusterImages(cfg, Joining(cfg));
    EngineIsFirstFit(cfg);
  }

  /** `clusterImagesBFMatcher` of utility.cpp: brute-force Hamming matching
      with the size check. */
  method ClusterImagesBFMatcher(allDescriptors: seq<nat>, knn: (nat, nat) -> seq<seq<real>>, matchThreshold: Int32, ratioThresh: real)
    returns (clusters: map<int, seq<nat>>)
    ensures var joins := Joining(Config(BruteForce, allDescriptors, knn, matchThreshold, ratioThresh));
      && clusters == ToMap(Table(joins, |allDescriptors|))
      && FirstFitClustering(joins, Table(joins, |allDescriptors|), |allDescriptors|)
  {
    var cfg := Config(BruteForce, allDescriptors, knn, matchThreshold, ratioThresh);
    JoiningAgrees(cfg);
    clusters := ClusterImages(cfg, Joining(cfg));
    EngineIsFirstFit(cfg);
  }
}
