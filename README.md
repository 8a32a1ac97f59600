# PhotoSorter clustering core in Dafny

PhotoSorter groups the photos in a folder by visual similarity. It detects
ORB, SURF or SIFT features in every image. It then runs a greedy,
single-pass, first-fit clustering over the descriptor sets. Each cluster is
printed as a list of paths and shown as a grid of thumbnails.

This project models the deterministic core of that program and proves what it
guarantees:

- `ratio_test.dfy` (module `RatioTest`): Lowe's ratio test over the k = 2
  nearest-neighbour distance lists. It is modelled as a specification function
  and as the filter loop that builds `good_matches`.
- `greedy.dfy` (module `Greedy`): the first-fit assignment over an abstract
  relation "image q may join the cluster whose representative is r". The
  cluster table after n images is a sequence of member lists; the source's
  `std::map<int, std::vector<int>>` is `ToMap` of it.
- `greedy_theorems.dfy` (module `GreedyTheorems`): what the table is.
  - It partitions 0 .. n-1.
  - Ids are dense and follow creation order.
  - Members are increasing and representatives never change.
  - Assignment is first-fit.
- `engine.dfy` (module `Engine`): the engine as the source runs it.
  - Nested loops update `clusters` and `clusterId` in place, with the
    `foundCluster` flag and `break`.
  - There are three matching variants: the guarded FLANN copy of
    utility.cpp, the unchecked FLANN copy of clustering.cpp, and brute force.
  - The `size_t`/`int` comparison of the good-match count with the threshold
    is modelled.
  - The loops are proved to compute the `Greedy` table.
- `engine_theorems.dfy` (module `EngineTheorems`): facts that depend on the
  scoring.
  - The row guard makes small descriptor sets score 0.
  - Short knn lists score 0.
  - A negative threshold isolates every image.
- `utility.dfy` (module `Utility`): the thumbnail-grid layout of
  `displayImagesGrid` and the utility.cpp copies of the two clustering
  functions.
- `clustering.dfy` (module `Clustering`): the clustering.cpp copies, and how
  the two FLANN copies relate.
- `photosort.dfy` (module `Photosort`): the parts of `Photosort::run` that are
  modelled.
  - The folder scan pushes keypoints, descriptors and paths in lockstep.
  - The settings table for each menu choice.
  - The report maps each cluster's member indices to image paths, numbered
    id + 1 in ascending id order.

Descriptor sets are represented by their row counts. The matcher is a
parameter `knn(q, t)`: it gives the list of distance pairs for the
descriptors of image q against those of image t. Distances and ratios are
exact reals. The literal `0.6f` is taken at its single-precision value.

## Model

| member | source | states |
|---|---|---|
| RatioTest.Accepts | utility.cpp:112 | definition: best distance < `ratio` * second best, after the size check if there is one. Its contract gives Lowe's intent. With the size check, a list that does not hold exactly two neighbours is rejected. Two equally near neighbours never pass a ratio of at most 1, and a ratio of at most 0 passes nothing. An exact match with a farther runner-up passes every positive ratio (with the size check, when the list holds exactly two entries). The count is proved in GoodMatchesCountAccepted and SizeCheckIrrelevantForPairs |
| RatioTest.GoodMatches | utility.cpp:109-116 | the good matches are never more than the knn lists |
| RatioTest.FilterMatches | utility.cpp:109-116 | the filter loop appends the best distance of every list that passes the test, in list order: it computes `GoodMatches` |
| RatioTest.GoodMatchesCountAccepted | utility.cpp:110-116 | the number of good matches equals the number of positions whose list has exactly two entries (with the size check) and best < ratio * second best |
| RatioTest.GoodMatchesComeFromAccepted | utility.cpp:112-114 | every good match is the best distance of a list that passed the test |
| RatioTest.ShortListsNeverMatch | clustering.cpp:78-84 | with the size check, lists with fewer than two neighbours never yield a good match |
| RatioTest.SizeCheckIrrelevantForPairs | clustering.cpp:35-41 | when every list has exactly two entries, the filter with and without the size check keeps the same matches |
| Greedy.FirstFit | utility.cpp:98-124 | the cluster found is the lowest id whose representative image i may join; no lower cluster qualifies; none found means no cluster qualifies |
| Greedy.Assign | utility.cpp:97-130 | placing image i keeps every cluster non-empty with members up to i, and adds at most one cluster |
| Greedy.Table | utility.cpp:95-130 | after n images every cluster is non-empty, holds only images below n, and there are at most n clusters |
| Greedy.AppendToMap | utility.cpp:121-129 | appending to cluster c, or opening cluster c = count, is one update of the id-to-members map |
| GreedyTheorems.TablePartitions | utility.cpp:95-130 | every index 0 .. n-1 appears exactly once in the clusters, and nothing else appears |
| GreedyTheorems.TableOrdered | utility.cpp:95-121 | each cluster's members are strictly increasing, and representatives increase with the cluster id |
| GreedyTheorems.TableIsFirstFit | utility.cpp:98-130 | each member could join none of the lower-id clusters' representatives, and each non-representative member may join its own representative |
| GreedyTheorems.TableIsFirstFitClustering | utility.cpp:95-130 | the table is a partition, ordered, and first-fit |
| GreedyTheorems.StepPartition | utility.cpp:121-129 | placing one image keeps the partition of the images seen so far |
| GreedyTheorems.StepOrdered | utility.cpp:121-129 | placing one image keeps members increasing and representatives in creation order |
| GreedyTheorems.StepFirstFit | utility.cpp:98-129 | placing one image keeps the first-fit property |
| GreedyTheorems.StepExtends | utility.cpp:121-129 | placing one image only appends: every old cluster is a prefix of its new version |
| GreedyTheorems.NoFitOpensCluster | utility.cpp:127-130 | if no representative admits image n-1, it opens a new cluster `[n-1]` under the next id |
| GreedyTheorems.TableGrows | utility.cpp:121-129 | clusters are never deleted, merged or reordered: the table after m images is a prefix-wise extension of itself for every later n, with the same representatives |
| GreedyTheorems.ExtendsTransitive | utility.cpp:121-129 | extension composes and keeps representatives |
| GreedyTheorems.RepresentativeCreatedCluster | utility.cpp:91-129 | cluster c's first member r is below n; when r arrived there were exactly c clusters, and it could join none of them |
| GreedyTheorems.FirstImageOpensFirstCluster | utility.cpp:91-129 | for n > 0 there is at least one cluster, cluster 0 starts with image 0, and the map's keys are exactly 0 .. k-1 |
| GreedyTheorems.UnjoinableRepresentativeStaysAlone | utility.cpp:98-129 | a representative that no later image may join stays a singleton |
| GreedyTheorems.IsolatedImageIsAlone | utility.cpp:98-129 | an image that may join no earlier image, and that no later image may join, ends up alone in a cluster |
| GreedyTheorems.NothingJoinsIsolatesAll | utility.cpp:98-129 | if no pair may join, cluster i is exactly `[i]` for every i |
| GreedyTheorems.AppendedPosition | utility.cpp:121-129 | after a step, every member is an old member in its old place, or the new image at the end of the target cluster |
| GreedyTheorems.AppendExtends | utility.cpp:121-129 | one append extends the table and keeps every representative |
| Engine.Exceeds | utility.cpp:118 | count > threshold after the `int` threshold is converted to an unsigned 64-bit value: the plain comparison for a non-negative threshold, and count > 2^64 + threshold for a negative one |
| Engine.Supported | clustering.cpp:31-37 | definition: the unchecked FLANN copy reads `knn_matches[j][0]` and `[1]` (clustering.cpp:37), so every list against an earlier image needs two entries. It is the requires of Clustering.ClusterImagesFLANN. Its contract: a matcher that returns exactly two neighbours in every list supports every copy |
| Engine.KnnMatches | utility.cpp:102-106 | definition: empty in the guarded FLANN copy when either set has at most two rows, otherwise the matcher's lists. Its contract: the guard never alters the matcher's lists, and on sets above two rows every copy sees them. Consequences are proved in SmallDescriptorSetsScoreZero and FlannCopiesAgree |
| Engine.CountGoodMatches | utility.cpp:102-116 | the matching of image i against a representative returns the number of good matches the model scores. This is 0 when the guarded FLANN copy skips the search |
| Engine.PlaceImage | utility.cpp:97-130 | scanning the clusters in ascending id order with `break`, then opening a new cluster under `clusterId`, yields the map and counter of the first-fit step |
| Engine.ClusterImages | utility.cpp:88-136 | the nested loops leave `clusters` equal to the map of the first-fit table over every image |
| EngineTheorems.EngineIsFirstFit | utility.cpp:95-130 | the engine's result is a first-fit clustering under "the good-match count exceeds the threshold" |
| EngineTheorems.SmallDescriptorSetsScoreZero | utility.cpp:103-116 | in the guarded FLANN copy, a pair where either set has at most two rows scores 0. With a non-negative threshold it can never join |
| EngineTheorems.SmallImageIsAlone | utility.cpp:103-130 | in the guarded FLANN copy with a non-negative threshold, an image with at most two descriptor rows is alone in its cluster |
| EngineTheorems.ShortNeighbourListsScoreZero | utility.cpp:156-162 | with the size check, a pair whose knn lists all have fewer than two entries scores 0 |
| EngineTheorems.NegativeThresholdNeverJoins | utility.cpp:118 | a negative threshold, converted to `size_t`, is never exceeded by fewer than 2^31 lists |
| EngineTheorems.NegativeThresholdIsolatesAll | utility.cpp:95-130 | a negative threshold puts every image in a cluster of its own |
| Utility.NumRows | utility.cpp:32 | the rounded-up row count: rows * imagesPerRow >= count, one row fewer would not do, and 0 images need 0 rows |
| Utility.GridFor | utility.cpp:26-37 | an empty list draws nothing; otherwise the canvas has at least one row and room for every image |
| Utility.Cell | utility.cpp:51-54 | image i's rectangle is 500 x 500, starts at a multiple of 500 inside the canvas width, and its (row, column) position recovers i as row * imagesPerRow + column |
| Utility.CellInsideGrid | utility.cpp:37-57 | every image's 500 x 500 rectangle lies inside the canvas |
| Utility.CellsDisjoint | utility.cpp:51-54 | distinct images get distinct cells, and their rectangles do not overlap |
| Utility.CopyThumbnails | utility.cpp:39-58 | the copy loop writes the cells of the readable images in list order and skips unreadable ones |
| Utility.WrittenCellsExactlyReadable | utility.cpp:40-57 | a cell is written if and only if its image could be read |
| Utility.WrittenCellsBefore | utility.cpp:39-57 | the first m images never write the cell of image m |
| Utility.ClusterImagesFLANN | utility.cpp:88-136 | the guarded FLANN copy returns the map of the first-fit table, and that table is a first-fit clustering |
| Utility.ClusterImagesBFMatcher | utility.cpp:138-182 | the brute-force copy returns the map of the first-fit table, and that table is a first-fit clustering |
| Clustering.ClusterImagesFLANN | clustering.cpp:17-58 | the unchecked FLANN copy, given knn lists of at least two entries, returns the map of the first-fit table, and that table is a first-fit clustering |
| Clustering.ClusterImagesBFMatcher | clustering.cpp:60-101 | the brute-force copy returns the map of the first-fit table, and that table is a first-fit clustering |
| Clustering.FlannCopiesAgree | clustering.cpp:31-41 | on sets above two rows whose lists all hold two entries, the two FLANN copies score alike |
| Photosort.Ratio06fIsNearestFloat | photosort.cpp:186 | the modelled value of `0.6f` is a multiple of 2^-24, the float spacing in [0.5, 1), and lies above 0.6 by less than half a spacing: it is the float nearest to 0.6 |
| Photosort.DetectorFor | photosort.cpp:99-142 | a detector exists exactly for choices 1 .. 3; the definition maps them to ORB, SURF and SIFT |
| Photosort.SettingFor | photosort.cpp:154-217 | a setting exists exactly for choices 1 .. 3. Brute force goes with ORB, FLANN with the others. Thresholds are positive and ratios in (0, 1) |
| Photosort.LoadedPaths | photosort.cpp:81-92 | the scanned paths are never more than the directory entries |
| Photosort.LoadedPathsAreLoadableFiles | photosort.cpp:83-91 | a path is scanned if and only if it belongs to a regular file that loads |
| Photosort.RowsOf | photosort.cpp:104-141 | one descriptor row count per scanned path |
| Photosort.ScanFolder | photosort.cpp:81-147 | `processFiles` counts the files that load. Keypoints, descriptors and paths stay the same length, and position k of each belongs to the same image. Nothing is pushed for a choice outside 1 .. 3 |
| Photosort.CollectPaths | photosort.cpp:174-177 | a cluster's paths are `image_paths` at its member indices, in member order |
| Photosort.LeastId | photosort.cpp:161 | the least id of a non-empty key set is one of its members and at most every other |
| Photosort.VisitStep | photosort.cpp:161-167 | reporting the least unvisited id keeps the report's ids equal to the visited keys, all below the unvisited ones |
| Photosort.EntryStep | photosort.cpp:161-167 | an entry for a larger id with its cluster's paths keeps the report ascending and correct |
| Photosort.ReportClusters | photosort.cpp:161-181 | the report has one entry per cluster, in ascending id order. Each entry is numbered id + 1 and lists its members' paths |
| Photosort.ToMapSize | photosort.cpp:159 | the engine's map has one key per cluster |
| Photosort.IncreasingInRangeIsIdentity | photosort.cpp:161 | helper for ReportOfTable: a strictly increasing list of n ids drawn from 0 .. n-1 is 0, 1, ..., n-1 |
| Photosort.AtLeastPosition | photosort.cpp:161 | helper for ReportOfTable: in such a list the j-th id is at least j |
| Photosort.AtMostPosition | photosort.cpp:161 | helper for ReportOfTable: in such a list the j-th id is at most j |
| Photosort.ReportOfTable | photosort.cpp:161-180 | for the engine's map, entry j is "Cluster j+1" and lists the paths of cluster j's members |
| Photosort.Run | photosort.cpp:42-242 | a missing folder returns -1 and reports nothing. Otherwise the result is 0: an invalid choice reports nothing, and a valid one reports the first-fit clustering of the loaded images under its setting |

## Left out

- Image loading, preprocessing (resize, grayscale, blur) and ORB/SURF/SIFT `detectAndCompute` are library calls on pixel data. A directory entry carries "is a regular file" and "loads", and `detect` is a parameter.
- The internals of FLANN and brute-force/Hamming `knnMatch` are left out. The matcher is a parameter giving distance lists. FLANN being approximate is not modelled.
- Floating point is left out. Distances and ratios are exact reals, so rounding in `ratioThresh * distance` is not captured.
- `updateProgressBar` and all console output are left out. The printed report is modelled as the list of (number, paths) entries it shows.
- The `imread`, `resize`, `imshow`, `waitKey` and window calls of `displayImagesGrid` are left out. Only the layout integers and which cells are written are modelled.
- `countFilesInDirectory`, the directory walk and the existence check are filesystem I/O. The listing and "folder exists" are parameters.
- Interactive input: the menu choice is a parameter. The confirmation message after the menu calls choice 2 SIFT and choice 3 SURF, but the scan runs SURF for 2 and SIFT for 3, as the menu says. The model follows the scan. The messages themselves are console output and are not modelled.
- The outer `clusters` variable in `run` is shadowed in each branch and never used, so it is not modelled.
- The SURF/SIFT conversion of descriptors to 32-bit floats changes no row count, so it is not modelled.
- Both utility.cpp and clustering.cpp define the same `Clustering` functions. Both copies are modelled separately. `Photosort.Run` calls the utility.cpp copies: utility.cpp must be linked for `Utility::displayImagesGrid`, and since it also defines `Clustering::*`, clustering.cpp cannot be linked beside it.
- Utility.CellInsideGrid: the layout products (`row * thumbHeight`, `col * thumbWidth`, the canvas size) are 32-bit `int` in the source and unbounded here. So the lemma does not capture overflow for lists of millions of images.
- Engine.CountGoodMatches: an empty `cv::Mat` is a set with 0 rows. The unchecked and brute-force copies pass it to the matcher, whose result for it is whatever `knn` gives.
- `size_t` is taken to be 64 bits wide (`Engine.SizeTModulus`). On a 32-bit target a negative threshold becomes 2^32 + threshold, which is at least 2^31. So the `NegativeThreshold*` conclusions still hold there under the same bound of fewer than 2^31 lists.
- The `NegativeThreshold*` lemmas assume fewer than 2^31 knn lists per pair, because the count is compared with 2^64 - 2^31 or more. This loses nothing: there is one list per query descriptor row, and `cv::Mat::rows` is an `int`, so the source always meets the bound.
- The requires of `Clustering.ClusterImagesFLANN` asks for two entries in the knn lists of every pair t < q. The source reads only the pairs (image, representative). No source run is excluded, because the lists of pairs the source never reads can be chosen freely.
