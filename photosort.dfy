/**
 * photosort.cpp, `Photosort::run`: the folder scan that pushes keypoints,
 * descriptors and paths in lockstep, the per-detector settings table, the
 * call into the clustering engine and the cluster report that maps each
 * cluster's member indices back to image paths.
 *
 * Loading, preprocessing and feature detection are foreign code: an entry
 * says whether it is a regular file and whether it loads, and `detect`
 * stands for preprocess + detectAndCompute of one detector on one image.
 */
module Photosort {
  import opened Greedy
  import opened Engine
  import Utility

  /** One entry of the directory listing, in iteration order. */
  datatype DirEntry = DirEntry(path: string, isRegularFile: bool, loads: bool)

  /** What the detector returns for one image: the number of keypoints and
      the number of descriptor rows (0 for an empty `cv::Mat`). */
  datatype Features = Features(keypoints: nat, descriptorRows: nat)

  datatype Detector = Orb | Surf | Sift

  /** The matcher, threshold and ratio a menu choice runs the engine with. */
  datatype Setting = Setting(variant: Variant, matchThreshold: Int32, ratio: real)

  /** One printed cluster: "Cluster <number> has <size> photos" followed by
      its paths; the same paths are then shown in a grid window of that number. */
  datatype ClusterEntry = ClusterEntry(number: int, paths: seq<string>)

  /** The single-precision value of the literal `0.6f`. */
  const Ratio06f: real := 5033165.0 / 8388608.0

  /** Single-precision values in [0.5, 1) are spaced 2^-24 apart; `0.6f`
      is one of them (10066330 * 2^-24) and lies within half a spacing of 0.6,
      so it is the float nearest to 0.6. */
  lemma Ratio06fIsNearestFloat()
    ensures Ratio06f == 10066330.0 / 16777216.0
    ensures 0.6 < Ratio06f < 0.6 + 1.0 / 33554432.0
  {
  }

  /** The detector the scan runs for a menu choice; none for a choice
      outside 1 .. 3.  The code runs SURF for 2 and SIFT for 3. */
  function DetectorFor(choice: int): (d: Option<Detector>)
    ensures d.Some? <==> 1 <= choice <= 3
  {
    if choice == 1 then Some(Orb)
    else if choice == 2 then Some(Surf)
    else if choice == 3 then Some(Sift)
    else None
  }

  /** The settings table: ORB with the brute-force matcher, threshold 20
      and ratio 0.75; SURF with FLANN, threshold 100, ratio 0.6f; SIFT with
      FLANN, threshold 80, ratio 0.6f.  FLANN is the utility.cpp copy. */
  function SettingFor(choice: int): (s: Option<Setting>)
    ensures s.Some? <==> DetectorFor(choice).Some?
    ensures s.Some? ==> (s.value.variant.BruteForce? <==> DetectorFor(choice) == Some(Orb))
    ensures s.Some? ==> s.value.variant != UncheckedFlann && s.value.matchThreshold > 0 && 0.0 < s.value.ratio < 1.0
  {
    if choice == 1 then Some(Setting(BruteForce, 20, 0.75))
    else if choice == 2 then Some(Setting(GuardedFlann, 100, Ratio06f))
    else if choice == 3 then Some(Setting(GuardedFlann, 80, Ratio06f))
    else None
  }

  // ---------------------------------------------------------------------
  // The scan

  /** The paths of the entries that are regular files and load, in
      directory order. */
  function LoadedPaths(entries: seq<DirEntry>): (paths: seq<string>)
    ensures |paths| <= |entries|
    decreases |entries|
  {
    if entries == [] then []
    else
      var e := entries[|entries| - 1];
      LoadedPaths(entries[..|entries| - 1]) + (if e.isRegularFile && e.loads then [e.path] else [])
  }

  /** A path is scanned exactly when it belongs to a regular file that loads:
      a file that fails to load, or an entry that is not a regular file,
      adds nothing. */
  lemma {:induction false} LoadedPathsAreLoadableFiles(entries: seq<DirEntry>, p: string)
    ensures p in LoadedPaths(entries) <==> exists e | e in entries :: e.isRegularFile && e.loads && e.path == p
    decreases |entries|
  {
    if entries != [] {
      var init := entries[..|entries| - 1];
      var e := entries[|entries| - 1];
      LoadedPathsAreLoadableFiles(init, p);
      assert entries == init + [e];
      assert forall x | x in entries :: x in init || x == e;
    }
  }

  /** The descriptor row counts `detect` gives for the scanned paths. */
  function RowsOf(detect: (Detector, string) -> Features, d: Detector, paths: seq<string>): (rows: seq<nat>)
    ensures |rows| == |paths|
  {
    seq<nat>(|paths|, k requires 0 <= k < |paths| => detect(d, paths[k]).descriptorRows)
  }

  /** The scan loop.  Every regular file that loads is counted in
      `processFiles`; its keypoints, descriptors and path are pushed together,
      so the three vectors stay the same length and position k of each
      belongs to the same image.  With a menu choice outside 1 .. 3 no
      detector runs and nothing is pushed. */
  method ScanFolder(entries: seq<DirEntry>, choice: int, detect: (Detector, string) -> Features)
    returns (allKeypoints: seq<nat>, allDescriptors: seq<nat>, imagePaths: seq<string>, processFiles: nat)
    ensures processFiles == |LoadedPaths(entries)|
    ensures imagePaths == if DetectorFor(choice).Some? then LoadedPaths(entries) else []
    ensures |allKeypoints| == |allDescriptors| == |imagePaths|
    ensures forall k | 0 <= k < |imagePaths| ::
      && allKeypoints[k] == detect(DetectorFor(choice).value, imagePaths[k]).keypoints
      && allDescriptors[k] == detect(DetectorFor(choice).value, imagePaths[k]).descriptorRows
  {
    allKeypoints, allDescriptors, imagePaths, processFiles := [], [], [], 0;
    var i := 0;
    while i < |entries|
      invariant 0 <= i <= |entries|
      invariant processFiles == |LoadedPaths(entries[..i])|
      invariant imagePaths == if DetectorFor(choice).Some? then LoadedPaths(entries[..i]) else []
      invariant |allKeypoints| == |allDescriptors| == |imagePaths|
      invariant forall k | 0 <= k < |imagePaths| ::
        && allKeypoints[k] == detect(DetectorFor(choice).value, imagePaths[k]).keypoints
        && allDescriptors[k] == detect(DetectorFor(choice).value, imagePaths[k]).descriptorRows
    {
      assert entries[..i + 1][..i] == entries[..i];
      var entry := entries[i];
      if entry.isRegularFile {
        if !entry.loads {
          // "Failed to load image": skipped
          i := i + 1;
          continue;
        }
        if choice == 1 {
          var f := detect(Orb, entry.path);
          allKeypoints, allDescriptors, imagePaths := allKeypoints + [f.keypoints], allDescriptors + [f.descriptorRows], imagePaths + [entry.path];
        } else if choice == 2 {
          var f := detect(Surf, entry.path);
          allKeypoints, allDescriptors, imagePaths := allKeypoints + [f.keypoints], allDescriptors + [f.descriptorRows], imagePaths + [entry.path];
        } else if choice == 3 {
          var f := detect(Sift, entry.path);
          allKeypoints, allDescriptors, imagePaths := allKeypoints + [f.keypoints], allDescriptors + [f.descriptorRows], imagePaths + [entry.path];
        }
        processFiles := processFiles + 1;
      }
      i := i + 1;
    }
    assert entries[..|entries|] == entries;
  }

  // ---------------------------------------------------------------------
  // The report

  /** `paths` is `imagePaths` looked up at each member index, in member order. */
  ghost predicate PathsOfMembers(members: seq<nat>, imagePaths: seq<string>, paths: seq<string>) {
    && |paths| == |members|
    && forall j | 0 <= j < |members| :: members[j] < |imagePaths| && paths[j] == imagePaths[members[j]]
  }

  /** The inner loop: the paths of one cluster's members. */
  method CollectPaths(members: seq<nat>, imagePaths: seq<string>) returns (clusterImagePaths: seq<string>)
    requires forall j | 0 <= j < |members| :: members[j] < |imagePaths|
    ensures PathsOfMembers(members, imagePaths, clusterImagePaths)
  {
    clusterImagePaths := [];
    var j := 0;
    while j < |members|
      invariant 0 <= j <= |members|
      invariant PathsOfMembers(members[..j], imagePaths, clusterImagePaths)
    {
      clusterImagePaths := clusterImagePaths + [imagePaths[members[j]]];
      j := j + 1;
    }
    assert members[..|members|] == members;
  }

  /** The cluster ids an entry list reports (its numbers minus one). */
  ghost function ReportedIds(report: seq<ClusterEntry>): set<int>
    decreases |report|
  {
    if report == [] then {}
    else ReportedIds(report[..|report| - 1]) + {report[|report| - 1].number - 1}
  }

  /** An entry reports cluster `number - 1` with the paths of its members. */
  ghost predicate EntryOf(clusters: map<int, seq<nat>>, imagePaths: seq<string>, e: ClusterEntry) {
    e.number - 1 in clusters && PathsOfMembers(clusters[e.number - 1], imagePaths, e.paths)
  }

  /** The report of a cluster map: one entry per cluster, numbered id + 1,
      in ascending id order, every cluster reported, each entry holding the
      paths of its cluster's members. */
  ghost predicate IsReport(clusters: map<int, seq<nat>>, imagePaths: seq<string>, report: seq<ClusterEntry>) {
    && |report| == |clusters|
    && ReportedIds(report) == clusters.Keys
    && (forall j1, j2 | 0 <= j1 < j2 < |report| :: report[j1].number < report[j2].number)
    && (forall j | 0 <= j < |report| :: EntryOf(clusters, imagePaths, report[j]))
  }

  /** A set that is not empty has an element. */
  lemma NonEmptyHasElement(s: set<int>)
    requires s != {}
    ensures exists x :: x in s
  {
    if forall x :: x !in s {
      assert false;
    }
  }

  /** The least id of a finite non-empty set. */
  ghost function LeastId(s: set<int>): (m: int)
    requires s != {}
    ensures m in s && forall x | x in s :: m <= x
    decreases |s|
  {
    NonEmptyHasElement(s);
    var x :| x in s;
    if s == {x} then x
    else
      var m := LeastId(s - {x});
      assert forall y | y in s :: y == x || y in s - {x};
      if x <= m then x else m
  }

  /** What the report loop keeps about ids: the ids reported so far are
      exactly the visited ones, all below the unvisited ones. */
  ghost predicate VisitedSoFar(clusters: map<int, seq<nat>>, report: seq<ClusterEntry>, remaining: set<int>) {
    && remaining <= clusters.Keys
    && |report| + |remaining| == |clusters|
    && ReportedIds(report) == clusters.Keys - remaining
    && (report != [] ==> forall id | id in remaining :: report[|report| - 1].number - 1 < id)
  }

  /** What the report loop keeps about entries: ascending numbers, each
      entry holding its cluster's paths. */
  ghost predicate EntriesSoFar(clusters: map<int, seq<nat>>, imagePaths: seq<string>, report: seq<ClusterEntry>) {
    && (forall j1, j2 | 0 <= j1 < j2 < |report| :: report[j1].number < report[j2].number)
    && (forall j | 0 <= j < |report| :: EntryOf(clusters, imagePaths, report[j]))
  }

  /** Reporting the least unvisited id moves it from the unvisited ids to
      the reported ones. */
  lemma VisitStep(clusters: map<int, seq<nat>>, report: seq<ClusterEntry>, remaining: set<int>, id: int, paths: seq<string>)
    requires VisitedSoFar(clusters, report, remaining)
    requires id in remaining && forall other | other in remaining :: id <= other
    ensures VisitedSoFar(clusters, report + [ClusterEntry(id + 1, paths)], remaining - {id})
  {
    var report' := report + [ClusterEntry(id + 1, paths)];
    var rest := remaining - {id};
    assert remaining == rest + {id};
    assert report'[..|report'| - 1] == report;
    forall other | other in rest ensures report'[|report'| - 1].number - 1 < other {
      assert other in remaining && other != id;
    }
  }

  /** An entry for an id above every reported one, holding its cluster's
      paths, keeps the entries ascending and correct. */
  lemma EntryStep(clusters: map<int, seq<nat>>, imagePaths: seq<string>, report: seq<ClusterEntry>, id: int, paths: seq<string>)
    requires EntriesSoFar(clusters, imagePaths, report)
    requires report != [] ==> report[|report| - 1].number - 1 < id
    requires id in clusters && PathsOfMembers(clusters[id], imagePaths, paths)
    ensures EntriesSoFar(clusters, imagePaths, report + [ClusterEntry(id + 1, paths)])
  {
    var report' := report + [ClusterEntry(id + 1, paths)];
    forall j1, j2 | 0 <= j1 < j2 < |report'| ensures report'[j1].number < report'[j2].number {
      if j2 == |report| && j1 < |report| - 1 {
        assert report[j1].number < report[|report| - 1].number;
      }
    }
    forall j | 0 <= j < |report'| ensures EntryOf(clusters, imagePaths, report'[j]) {
      if j < |report| {
        assert report'[j] == report[j];
      }
    }
  }

  /** Walks the map in ascending id order (each round takes the least id
      not yet visited) and reports every cluster. */
  method ReportClusters(clusters: map<int, seq<nat>>, imagePaths: seq<string>) returns (report: seq<ClusterEntry>)
    requires forall id | id in clusters :: forall j | 0 <= j < |clusters[id]| :: clusters[id][j] < |imagePaths|
    ensures IsReport(clusters, imagePaths, report)
  {
    report := [];
    var remaining := clusters.Keys;
    while remaining != {}
      invariant VisitedSoFar(clusters, report, remaining)
      invariant EntriesSoFar(clusters, imagePaths, report)
      decreases |remaining|
    {
      // The least id exists; it is the witness for the choice below.
      ghost var least := LeastId(remaining);
      var id :| id in remaining && forall other | other in remaining :: id <= other;
      var paths := CollectPaths(clusters[id], imagePaths);
      VisitStep(clusters, report, remaining, id, paths);
      EntryStep(clusters, imagePaths, report, id, paths);
      report := report + [ClusterEntry(id + 1, paths)];
      remaining := remaining - {id};
    }
  }

  /** The map built from a table has one key per cluster. */
  lemma {:induction false} ToMapSize(t: seq<seq<nat>>)
    ensures |ToMap(t)| == |t|
    decreases |t|
  {
    if t != [] {
      var n := |t| - 1;
      ToMapSize(t[..n]);
      assert ToMap(t) == ToMap(t[..n])[n := t[n]];
    }
  }

  /** A strictly increasing sequence of |s| values in 0 .. |s| - 1 is 0, 1, 2, ... */
  lemma {:induction false} IncreasingInRangeIsIdentity(s: seq<int>)
    requires forall j | 0 <= j < |s| :: 0 <= s[j] < |s|
    requires forall j1, j2 | 0 <= j1 < j2 < |s| :: s[j1] < s[j2]
    ensures forall j | 0 <= j < |s| :: s[j] == j
  {
    forall j | 0 <= j < |s| ensures s[j] == j {
      AtLeastPosition(s, j);
      AtMostPosition(s, j);
    }
  }

  lemma {:induction false} AtLeastPosition(s: seq<int>, j: nat)
    requires j < |s| && forall k | 0 <= k < |s| :: 0 <= s[k]
    requires forall j1, j2 | 0 <= j1 < j2 < |s| :: s[j1] < s[j2]
    ensures j <= s[j]
    decreases j
  {
    if j > 0 {
      AtLeastPosition(s, j - 1);
    }
  }

  lemma {:induction false} AtMostPosition(s: seq<int>, j: nat)
    requires j < |s| && forall k | 0 <= k < |s| :: s[k] < |s|
    requires forall j1, j2 | 0 <= j1 < j2 < |s| :: s[j1] < s[j2]
    ensures s[j] <= j
    decreases |s| - j
  {
    if j < |s| - 1 {
      AtMostPosition(s, j + 1);
    }
  }

  /** For the engine's table, whose ids are 0 .. k - 1, the report is
      "Cluster 1", "Cluster 2", ... in id order, entry j listing the paths of
      cluster j's members. */
  lemma ReportOfTable(t: seq<seq<nat>>, imagePaths: seq<string>, report: seq<ClusterEntry>)
    requires IsReport(ToMap(t), imagePaths, report)
    ensures |report| == |t|
    ensures forall j | 0 <= j < |report| :: report[j].number == j + 1 && PathsOfMembers(t[j], imagePaths, report[j].paths)
  {
    var m := ToMap(t);
    ToMapSize(t);
    var ids := seq(|report|, j requires 0 <= j < |report| => report[j].number - 1);
    forall j | 0 <= j < |ids| ensures 0 <= ids[j] < |ids| {
      assert ids[j] in m;
    }
    IncreasingInRangeIsIdentity(ids);
    forall j | 0 <= j < |report|
      ensures report[j].number == j + 1 && PathsOfMembers(t[j], imagePaths, report[j].paths)
    {
      assert ids[j] == j;
      assert m[j] == t[j];
    }
  }

  // ---------------------------------------------------------------------
  // The run

  /** The engine configuration a setting runs over the scanned descriptors. */
  function ConfigFor(s: Setting, rows: seq<nat>, knn: (nat, nat) -> seq<seq<real>>): Config {
    Config(s.variant, rows, knn, s.matchThreshold, s.ratio)
  }

  /** `Photosort::run` for a folder that may not exist, its listing, the menu
      choice, the detector and the matcher (`knn(q, t)` is the knn result for
      the descriptors pushed at positions q and t).  Returns -1 for a missing
      folder; otherwise scans, clusters with the chosen setting and reports
      every cluster, and returns 0.  A choice outside 1 .. 3 reports nothing. */
  method Run(folderExists: bool, entries: seq<DirEntry>, choice: int,
             detect: (Detector, string) -> Features, knn: (nat, nat) -> seq<seq<real>>)
    returns (status: int, report: seq<ClusterEntry>)
    ensures !folderExists ==> status == -1 && report == []
    ensures folderExists ==> status == 0
    ensures folderExists && SettingFor(choice).None? ==> report == []
    ensures folderExists && SettingFor(choice).Some? ==>
      var paths := LoadedPaths(entries);
      var rows := RowsOf(detect, DetectorFor(choice).value, paths);
      IsReport(ToMap(Table(Joining(ConfigFor(SettingFor(choice).value, rows, knn)), |paths|)), paths, report)
  {
    if !folderExists {
      // "Directory does not exist or is not accessible"
      return -1, [];
    }
    var allKeypoints, allDescriptors, imagePaths, processFiles := ScanFolder(entries, choice, detect);
    report := [];
    if DetectorFor(choice).Some? {
      assert allDescriptors == RowsOf(detect, DetectorFor(choice).value, imagePaths);
    }
    if choice == 1 {
      var clusters := Utility.ClusterImagesBFMatcher(allDescriptors, knn, 20, 0.75);
      report := ReportClusters(clusters, imagePaths);
    } else if choice == 2 {
      var clusters := Utility.ClusterImagesFLANN(allDescriptors, knn, 100, Ratio06f);
      report := ReportClusters(clusters, imagePaths);
    } else if choice == 3 {
      var clusters := Utility.ClusterImagesFLANN(allDescriptors, knn, 80, Ratio06f);
      report := ReportClusters(clusters, imagePaths);
    }
    status := 0;
  }
}
