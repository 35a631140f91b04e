# Geo-clustering engine: a verified Dafny model

This project models the K-means membership engine of `GetGeoClusters`. The engine takes
user locations (id, latitude, longitude) and groups them into K clusters on the sphere. It
then reports, for each cluster, the member nearest to its centroid as the cluster's location.

The model follows the engine's phases:

- **Initial assignment** (`initialize`, `addDataPointsUniformly`). The k-th record read
  (counting from 1) goes to cluster `k % K`. Four bounding-box trackers follow the
  coordinates, and the run is refused when fewer than `K * M` records arrive. Each centroid is
  then seeded evenly between the tracked bounds. `initialize` replaces those seeds at once with
  the cluster means.
- **Refinement** (`startAnalysis`). A round has these steps:
  - `findBestClusters` gives every point the nearest non-empty cluster as its pending cluster.
  - `UpdateClusters` moves every point whose pending cluster differs from its current one to the
    end of its new cluster. A round in which nothing moves ends the analysis.
  - Otherwise `UpdateEmptyCluster` repairs the clusters in index order:
    - a cluster with fewer than M points is merged into its neighbours (`MergeCluster`);
    - a cluster that is then empty receives part of the worst cluster (`FindWorstCluster`,
      `SplitWorstCluster`).
  - `UpdateCentroids` recomputes every centroid as the mean latitude and the circular mean of the
    longitudes.
- **Reporting** (the site loop of `WriteOutput`, `findNearestDatPoint`). The member nearest to
  each centroid is chosen as the cluster's location.

Module layout:

- `geo.dfy` (module `Geo`): Java doubles with NaN, records, points, centroids, the abstract
  distance, point counting (`Total`), the records the clusters hold (`Pool`, the multiset of
  (id, latitude, longitude) over all lists, and `Occurrences`, how often one record occurs)
  and the "settled" invariant (every point sits in the list of its own cluster id, with no
  pending move). Conservation is proved record by record with `Occurrences` and lifted to
  `Pool` by `SamePool`.
- `initial.dfy` (module `Initial`): round-robin shares, the trackers, the seeds and the
  bad-coordinate test.
- `assignment.dfy` (module `Assignment`): the nearest-cluster scan, `findBestClusters` and the
  `UpdateClusters` sweep as functions on values.
- `repair.dfy` (module `Repair`): merge, split, totals, worst cluster, centroids, sites and the
  `UpdateEmptyCluster` pass as functions on values.
- `analysis.dfy` (module `Analysis`): `startAnalysis` as a function on values.
- `engine.dfy` (module `Engine`): class `GeoClusters` holds the clusters in two arrays
  (`members`, the `mDataPoints` lists, and `centroids`, the `(mCx, mCy)` pairs). Every step of
  the source is a method that updates them in place and is proved against the value-level
  function. `Process` runs the whole pipeline.

Abstractions and how the source's details are rendered:

- **Numbers.** Java doubles are exact reals. NaN is explicit (`Geo.Num`) because the engine
  produces it: the mean latitude of an empty cluster is `0.0 / 0`. Comparisons with NaN are
  false, as in Java.
- **Sentinels.** `Double.MAX_VALUE` and `Double.MIN_VALUE` are their exact values. The maximum
  trackers start at `Double.MIN_VALUE`, the smallest positive double, as the source writes
  them (`Initial.MaxTrackOfNegatives` shows the consequence).
- **Distance.** The haversine distance is a parameter `dist`. Its only assumption is
  `BelowSentinel`: every distance is below `Double.MAX_VALUE`, which holds for haversine
  (at most pi * 6372.8 km).
- **Circular mean.** The mean of longitudes (atan2 of summed sines and cosines, in degrees) is
  a parameter `circMean` applied to the members' longitudes. An empty cluster gets longitude 0,
  which is atan2(0, 0).
- **Configuration.** gClusterCount, gIterCount and MinClusterSize are parameters `K`,
  `IterCount` and `M`. Their defaults are 9, 100 and 5.
- **Exit.** `System.exit` inside `MergeCluster` becomes an aborted outcome
  (`MergeAborted`, `MergeFailed`).

The model follows the code, quirks included:

- Round-robin is `usersCount % K` with `usersCount` incremented first. The first record
  therefore goes to cluster 1, and cluster 0 gets every K-th record.
- For a pivot in [0, 180) the longitude split moves the half-circle (pivot, pivot + 180]. It
  moves the opposite half-circle only for a negative pivot.
- The bad-coordinate test joins its four bounds with AND, so it never fires.
- The minimum-longitude tracker compares the tracker with the latitude, not the longitude.
- Nothing forces every cluster to keep at least M points at the end of a run. A cluster can
  fall below M when it loses points in `UpdateClusters` of the last round, or when a split
  leaves it small.

## Model

| member | source | states |
|---|---|---|
| Engine.GeoClusters.constructor | Clustering/GetGeoClusters.java:131-134 | K fresh clusters, each empty with centroid (0, 0) |
| Engine.GeoClusters.Distribute | Clustering/GetGeoClusters.java:185-221 | after the reading loop, cluster c holds what it held followed by its round-robin share of the records, in input order; the four trackers equal the running min/max functions, including the latitude comparison of the minimum-longitude tracker |
| Engine.GeoClusters.AddDataPointsUniformly | Clustering/GetGeoClusters.java:166-247 | the records are dealt round-robin; success iff at least K * M records; on success centroid c is the (c+1)-th of K evenly spaced seeds between the tracked bounds, on failure the centroids are unchanged |
| Engine.GeoClusters.Initialize | Clustering/GetGeoClusters.java:150-157 | success iff at least K * M records; on success every centroid is the mean of its (round-robin) cluster |
| Engine.GeoClusters.StartAnalysis | Clustering/GetGeoClusters.java:258-274 | the outcome, and unless a merge exits the final lists and centroids, are those of the value-level run `Analysis.Analyze` over IterCount rounds |
| Engine.GeoClusters.ClosestCluster | Clustering/GetGeoClusters.java:288-305 | the inner scan returns the first eligible cluster at least distance, or -1 when none has a numeric distance (`Assignment.Nearest`) |
| Engine.GeoClusters.FindBestClusters | Clustering/GetGeoClusters.java:279-313 | every point's pending cluster becomes the nearest non-empty cluster; lists, order and coordinates otherwise unchanged |
| Engine.GeoClusters.Append | Clustering/GetGeoClusters.java:335 | `mDataPoints.add`: one point joins the end of one list; the point count grows by one |
| Engine.GeoClusters.MoveOutOf | Clustering/GetGeoClusters.java:327-337 | the iterator pass over one cluster: it keeps exactly the points without pending move and sends the others, in order, to the end of their new clusters; reports whether any moved |
| Engine.GeoClusters.SweepCluster | Clustering/GetGeoClusters.java:325-338 | one outer step of the sweep takes the state after clusters 0..i-1 to the state after 0..i |
| Engine.GeoClusters.UpdateClusters | Clustering/GetGeoClusters.java:322-341 | the lists become `Sweep` of the old ones; every point ends settled, the multiset of records is kept, and the result is true iff some point had a pending move |
| Engine.GeoClusters.MergePoint | Clustering/GetGeoClusters.java:381-416 | one point of the merged cluster is removed and appended to the cluster its scan picks; -1 iff no other cluster of at least M points has a numeric centroid |
| Engine.GeoClusters.MergeCluster | Clustering/GetGeoClusters.java:376-418 | aborts iff the cluster is non-empty and no target exists (then only its first point has been removed); otherwise the lists become `Repair.Merged` |
| Engine.GeoClusters.SplitRuleOf | Clustering/GetGeoClusters.java:451-508 | the first pass yields the split rule of `Repair.RuleFor`: trackers from MAX_VALUE / MIN_VALUE, mean latitude (NaN when empty), pivot window |
| Engine.GeoClusters.MovesOut | Clustering/GetGeoClusters.java:514-535 | the per-point test of the second pass equals `Repair.Moves` |
| Engine.GeoClusters.SplitPoint | Clustering/GetGeoClusters.java:511-536 | one point of the second pass is either kept in order or appended, relabelled, to the empty cluster |
| Engine.GeoClusters.SplitWorstCluster | Clustering/GetGeoClusters.java:449-539 | the lists become `Repair.Split` with the rule computed from the worst cluster |
| Engine.GeoClusters.RepairCluster | Clustering/GetGeoClusters.java:351-368 | one iteration of UpdateEmptyCluster equals `Repair.RepairStep`, including the exit state |
| Engine.GeoClusters.UpdateEmptyCluster | Clustering/GetGeoClusters.java:349-369 | aborts iff `Repair.RepairFrom` exits; otherwise the lists are its repaired lists |
| Engine.GeoClusters.UpdateCentroids | Clustering/GetGeoClusters.java:545-564 | every centroid becomes the mean latitude (NaN for an empty cluster) and the circular mean of the longitudes (0 when empty) of its cluster |
| Engine.GeoClusters.ClusterTotalDistance | Clustering/GetGeoClusters.java:679-693 | 0 for an empty cluster, NaN when the centroid latitude is NaN, otherwise the sum of member distances |
| Engine.GeoClusters.FindWorstCluster | Clustering/GetGeoClusters.java:427-441 | the index the scan picks over the cluster totals (`Repair.WorstOf`, characterised by `Repair.WorstOfIsWorst`) |
| Engine.GeoClusters.FindNearestDataPoint | Clustering/GetGeoClusters.java:651-670 | the first member at least distance from a numeric centroid, or the placeholder DataPoint(0, 0, 0) for an empty cluster or a NaN centroid |
| Engine.GeoClusters.Sites | Clustering/GetGeoClusters.java:616-619 | the location reported for every cluster is its findNearestDatPoint member |
| Engine.Process | Clustering/GetGeoClusters.java:127-141 | too few points iff fewer than K * M records; merge failure iff enough records and the analysis started from the round-robin shares and their means ends with a merge that finds no cluster; otherwise the outcome, lists and centroids of that analysis, plus every cluster's reported location |
| Engine.ProcessKeeps | Clustering/GetGeoClusters.java:127-141 | unless a merge exits, the clusters hold exactly the records read, as a multiset of (id, latitude, longitude), every point settled in its cluster, every centroid its cluster's mean, and a converged run is a fixed point of findBestClusters reached within the round limit |
| Analysis.AnalyzeKeeps | Clustering/GetGeoClusters.java:258-274 | from settled lists with mean centroids, a run that does not exit keeps the multiset of records the clusters hold, stays settled with mean centroids, stops within the round limit, and when converged no point prefers another cluster |
| Analysis.ConvergedKeepsLists | Clustering/GetGeoClusters.java:264-268 | a round in which findBestClusters leaves no pending move changes no list |
| Analysis.ConvergedRound | Clustering/GetGeoClusters.java:264-268 | a converging round leaves the lists as they were, at a fixed point of findBestClusters |
| Analysis.RepairRound | Clustering/GetGeoClusters.java:263-271 | a round that moves and repairs without exit keeps the multiset of records the clusters hold and stays settled |
| Initial.ShareMembers | Clustering/GetGeoClusters.java:187-196 | a point is in cluster c's share iff it is the point of the k-th record (1-based) with k % K == c, with both ids c |
| Initial.ShareSettled | Clustering/GetGeoClusters.java:192-196 | every point of a share has current and pending id equal to its cluster |
| Initial.SharesSettled | Clustering/GetGeoClusters.java:192-196 | the initial shares are settled, each in its own cluster |
| Initial.SharesKeepRecords | Clustering/GetGeoClusters.java:185-196 | round-robin places every record exactly once: the clusters hold the multiset of the records read |
| Initial.SharesCounts | Clustering/GetGeoClusters.java:185-196 | each record occurs in the shares exactly as often as it occurs in the input |
| Initial.ShareSize | Clustering/GetGeoClusters.java:187-192 | a share holds N / K points, plus one when its rank falls in the last incomplete round |
| Initial.Balanced | Clustering/GetGeoClusters.java:187-192 | two clusters' initial shares differ by at most one point |
| Initial.ShareAtLeastMin | Clustering/GetGeoClusters.java:224-232 | once the size check passes, every initial share holds at least M points |
| Initial.MaxTrackIsMax | Clustering/GetGeoClusters.java:180-212 | the maximum tracker is the larger of Double.MIN_VALUE and all values, and is one of them or the start value |
| Initial.MinTrackIsMin | Clustering/GetGeoClusters.java:174-217 | the minimum tracker is the smaller of Double.MAX_VALUE and all values, and is one of them or the start value |
| Initial.MaxTrackOfNegatives | Clustering/GetGeoClusters.java:180-212 | when every value is at most 0 the maximum tracker stays at Double.MIN_VALUE |
| Initial.MinLonTrackMissesMinimum | Clustering/GetGeoClusters.java:218-221 | the minimum-longitude tracker, compared against the latitude, misses the smallest longitude for a two-record input |
| Initial.MinLonTrackIsSomeLongitude | Clustering/GetGeoClusters.java:218-221 | the minimum-longitude tracker is its start value or some record's longitude |
| Initial.SeedsInsideAndIncreasing | Clustering/GetGeoClusters.java:238-244 | every seed lies strictly between the bounds, and seeds strictly increase with the cluster index |
| Initial.NeverFlaggedInvalid | Clustering/GetGeoClusters.java:199-203 | the bad-coordinate test, with its bounds joined by AND, never fires |
| Assignment.EligibleNonEmpty | Clustering/GetGeoClusters.java:294-297 | findBestClusters considers a cluster iff it is non-empty |
| Assignment.ScanIsFirstArgmin | Clustering/GetGeoClusters.java:292-305 | the scan returns -1 iff no cluster is a candidate, else the lowest-index candidate at minimal distance |
| Assignment.CandidateIffDefined | Clustering/GetGeoClusters.java:299-304 | with distances below the sentinel, a cluster can win iff it is eligible and its centroid latitude is a number |
| Assignment.NearestOfMember | Clustering/GetGeoClusters.java:292-307 | findBestClusters never yields -1 for a point of a non-empty cluster with a numeric centroid |
| Assignment.ScanFailsForAllOrNone | Clustering/GetGeoClusters.java:389-411 | whether the scan finds a cluster depends only on the clusters, not on the point |
| Assignment.ScanIgnoresIds | Clustering/GetGeoClusters.java:299 | the scan reads only the point's coordinates |
| Assignment.RetargetAllInRange | Clustering/GetGeoClusters.java:279-313 | when non-empty clusters have numeric centroids, findBestClusters keeps points in place and gives each a pending id naming a cluster |
| Assignment.RetargetAllKeepsRecords | Clustering/GetGeoClusters.java:279-313 | findBestClusters only sets pending ids: the clusters hold the same multiset of records |
| Assignment.NoMoversMeansStable | Clustering/GetGeoClusters.java:264-268 | if findBestClusters leaves no pending move, every point's nearest cluster is its own |
| Assignment.MoversBelowIff | Clustering/GetGeoClusters.java:325-338 | the `changed` flag accumulated cluster by cluster is true iff some cluster had a mover |
| Assignment.NoMoversNoChange | Clustering/GetGeoClusters.java:330-336 | without pending moves every list comes back as it was |
| Assignment.MovesAccountForAll | Clustering/GetGeoClusters.java:327-337 | for every record, the points standing for it that a list keeps plus those it moves into some cluster are all of the list's points standing for it |
| Assignment.SettledTailInert | Clustering/GetGeoClusters.java:327-337 | points appended during the sweep to a later cluster are settled and change nothing when that cluster is swept |
| Assignment.SweptStateNext | Clustering/GetGeoClusters.java:327-337 | handling cluster i as the iterator does leads to the sweep state after i |
| Assignment.SweptStateCounts | Clustering/GetGeoClusters.java:325-338 | at every stage of the sweep each record occurs as often as before it |
| Assignment.SweepKeeps | Clustering/GetGeoClusters.java:322-341 | UpdateClusters keeps the multiset of records the clusters hold (so loses no point) and leaves every point settled in the list of its index |
| Assignment.ChangedIffMoved | Clustering/GetGeoClusters.java:322-341 | UpdateClusters changes the lists iff some point had a pending move |
| Repair.NothingMergedIntoIneligible | Clustering/GetGeoClusters.java:391-399 | a merge sends nothing to a cluster below M points or to the merged cluster |
| Repair.MergeAccountsForAll | Clustering/GetGeoClusters.java:379-417 | when a target exists, for every record the merge routes as many points standing for it to the other clusters as the merged cluster held |
| Repair.MergeStateMask | Clustering/GetGeoClusters.java:389-399 | the set of eligible clusters does not change during a merge |
| Repair.MergeStateStep | Clustering/GetGeoClusters.java:381-416 | the k-th merged point goes to the end of an eligible other cluster j |
| Repair.MergeStateDone | Clustering/GetGeoClusters.java:376-418 | a merge that handles every point produces `Merged` |
| Repair.MergedCounts | Clustering/GetGeoClusters.java:376-418 | a merge that does not exit keeps how often each record occurs |
| Repair.MergedKeeps | Clustering/GetGeoClusters.java:376-418 | a merge that does not exit keeps the multiset of records the clusters hold (so loses no point) and keeps a settled state settled |
| Repair.InsideAngleOfLongitude | Clustering/GetGeoClusters.java:514 | (lon + 360) % 360 maps west longitudes to 180..360 and keeps east ones |
| Repair.PivotWindowShape | Clustering/GetGeoClusters.java:496-508 | the window is (pivot, pivot+180] for 0 <= pivot < 180, (pivot+180, pivot+360] for a negative pivot, and empty for pivot 180 |
| Repair.LongitudeSplitMoves | Clustering/GetGeoClusters.java:496-525 | exactly which points a longitude split moves, per range of the pivot |
| Repair.SplitConserves | Clustering/GetGeoClusters.java:511-536 | for every record, the moved and the kept points standing for it are together those of the worst cluster |
| Repair.SplitCounts | Clustering/GetGeoClusters.java:449-539 | a split keeps how often each record occurs |
| Repair.SplitKeepsRecords | Clustering/GetGeoClusters.java:449-539 | a split keeps the multiset of records the clusters hold, and so loses no point |
| Repair.SplitSettled | Clustering/GetGeoClusters.java:449-539 | a split keeps a settled state settled |
| Repair.MidSplitDone | Clustering/GetGeoClusters.java:511-536 | the second pass over all points, followed by the removal of the moved ones, is `Split` |
| Repair.LatitudeSplitKeepsOne | Clustering/GetGeoClusters.java:528-534 | a latitude split of a non-empty cluster always leaves at least one point behind |
| Repair.NotAllBelowMean | Clustering/GetGeoClusters.java:494 | not every value lies strictly below the mean |
| Repair.TotalsNaN | Clustering/GetGeoClusters.java:431-433 | an empty cluster totals 0, and a total is NaN iff its cluster has a point and a NaN centroid latitude |
| Repair.SumDistAppend | Clustering/GetGeoClusters.java:688-691 | the accumulated distance is additive over a list cut in two, so the total is the plain sum of the member distances |
| Repair.WorstIsUnique | Clustering/GetGeoClusters.java:427-441 | the worst cluster is uniquely determined |
| Repair.WorstScanSoFar | Clustering/GetGeoClusters.java:429-439 | after n clusters the scan holds 0 and 0.0, or the first index with the largest positive total seen |
| Repair.WorstOfIsWorst | Clustering/GetGeoClusters.java:427-441 | FindWorstCluster's answer is the first cluster with the largest positive total, or 0 when no total is positive |
| Repair.CentroidsDefined | Clustering/GetGeoClusters.java:559 | a centroid latitude is a number iff its cluster is non-empty |
| Repair.MeanLatitudeBetween | Clustering/GetGeoClusters.java:554-559 | a non-empty cluster's mean latitude lies between its smallest and largest latitude |
| Repair.CentroidIgnoresIds | Clustering/GetGeoClusters.java:552-560 | centroids depend on coordinates only, not on cluster ids |
| Repair.RepairStepKeeps | Clustering/GetGeoClusters.java:351-368 | one repair step that does not exit keeps the multiset of records the clusters hold and keeps a settled state settled |
| Repair.RepairKeeps | Clustering/GetGeoClusters.java:349-369 | UpdateEmptyCluster keeps the multiset of records the clusters hold and keeps a settled state settled, unless a merge exits |

## Left out

- Reading the input file and splitting each line on tabs are not modelled: the records arrive as a sequence of (id, latitude, longitude). `Integer.parseInt` and `Double.parseDouble` failures are left out with them.
- Logging (`CommonFunctions.logAndPrint`, `WriteClusersInformation`) and the running average printed by findBestClusters are output only and are not modelled.
- WriteOutput's file writing and the per-user distances it prints are not modelled. Only the choice of each cluster's reported location is (`Engine.GeoClusters.Sites`).
- Floating-point rounding is not modelled: sums, means, the seeds and `%` are exact on reals. NaN, the two sentinels and Java's sign-of-dividend `%` are modelled.
- The haversine formula and `sin`, `cos`, `atan2` and `toDegrees` are not modelled. The distance and the circular mean are parameters, so the split-axis choice at line 488 is taken from the abstract distance.
- The round counter `usersCount` is an `int` in the source. Its 32-bit overflow (more than 2^31 - 1 records) is not modelled.
- `GetClusterElementCount` is read directly as the length of a cluster's list.
- `System.exit(0)` is not modelled as a process exit. It becomes the aborted outcome, and after it no later step runs. `Analysis.Run.lists` then holds the lists as that round's `UpdateClusters` left them, not the partly merged ones. `Engine.GeoClusters.MergeCluster` states the partly merged state.
- Engine.GeoClusters.StartAnalysis: does not state the lists and centroids when a merge exits, because the program ends there.
- The initial seeds computed by `addDataPointsUniformly` are stated (`Engine.GeoClusters.AddDataPointsUniformly`). `initialize` overwrites them at once with `UpdateCentroids`, so no later step sees them.
- Timing in `main`, the configured file paths and the logging levels are not part of this model.
