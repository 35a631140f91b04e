/**
 * The clustering engine: K clusters, each a list of data points and a
 * centroid, updated in place by the steps of the K-means loop.
 */
module Engine {
  import opened Geo
  import opened Assignment
  import opened Initial
  import opened Repair
  import opened Analysis

  /** gClusterCount, gIterCount and MinClusterSize. */
  const DefaultClusterCount: nat := 9
  const DefaultIterCount: nat := 100
  const DefaultMinClusterSize: nat := 5

  class GeoClusters {
    const K: nat
    const IterCount: nat
    const M: nat
    /** The great-circle distance (GreatCircleDistUsingHaverSine). */
    const dist: Distance
    /** The circular mean of a list of longitudes, in degrees: atan2 of the summed sines and cosines. */
    const circMean: seq<real> -> real
    /** mDataPoints of every cluster. */
    const members: array<seq<Point>>
    /** (mCx, mCy) of every cluster. */
    const centroids: array<Centroid>

    ghost predicate Valid()
    {
      K > 0 && members.Length == K && centroids.Length == K && BelowSentinel(dist)
    }

    function Lists(): (r: seq<seq<Point>>)
      reads members
      ensures |r| == members.Length
    {
      members[..]
    }

    function Cents(): (r: seq<Centroid>)
      reads centroids
      ensures |r| == centroids.Length
    {
      centroids[..]
    }

    /** K new, empty clusters with centroid (0, 0). */
    constructor (K: nat, iterCount: nat, minClusterSize: nat, dist: Distance, circMean: seq<real> -> real)
      requires K > 0 && BelowSentinel(dist)
      ensures Valid()
      ensures this.K == K && IterCount == iterCount && M == minClusterSize
      ensures this.dist == dist && this.circMean == circMean
      ensures forall c :: 0 <= c < K ==> members[c] == [] && centroids[c] == Centroid(Real(0.0), 0.0)
      ensures fresh(members) && fresh(centroids)
    {
      this.K := K;
      IterCount := iterCount;
      M := minClusterSize;
      this.dist := dist;
      this.circMean := circMean;
      members := new seq<Point>[K](_ => []);
      centroids := new Centroid[K](_ => Centroid(Real(0.0), 0.0));
    }

    /** The reading loop of addDataPointsUniformly: the k-th record read
        (from 1) joins the end of cluster k % K with both ids set to it, and
        the four bounding-box trackers follow the coordinates. */
    method Distribute(records: seq<Record>) returns (minLat: real, minLon: real, maxLat: real, maxLon: real)
      requires Valid()
      modifies members
      ensures forall c :: 0 <= c < K ==> Lists()[c] == old(Lists())[c] + Share(records, K, c)
      ensures minLat == MinTrack(RecordLats(records)) && maxLat == MaxTrack(RecordLats(records))
      ensures minLon == MinLonTrack(records) && maxLon == MaxTrack(RecordLons(records))
    {
      ghost var before := Lists();
      DealStart(before, records, K);
      minLat, minLon := MaxDouble, MaxDouble;
      maxLat, maxLon := MinDouble, MinDouble;
      var k := 0;
      while k < |records|
        invariant 0 <= k <= |records|
        invariant DealtOnto(Lists(), before, records[..k], K)
        invariant minLat == MinTrack(RecordLats(records[..k])) && maxLat == MaxTrack(RecordLats(records[..k]))
        invariant minLon == MinLonTrack(records[..k]) && maxLon == MaxTrack(RecordLons(records[..k]))
      {
        var r := records[k];
        var cid := (k + 1) % K;
        DealStep(Lists(), before, records, K, k);
        Append(cid, PointOf(r, cid));
        RecordStep(records, K, k);
        TrackSnoc(RecordLats(records[..k]), r.lat);
        TrackSnoc(RecordLons(records[..k]), r.lon);
        // the bad-coordinate test only logs, and never fires (NeverFlaggedInvalid)
        if maxLat < r.lat {
          maxLat := r.lat;
        }
        if maxLon < r.lon {
          maxLon := r.lon;
        }
        if minLat > r.lat {
          minLat := r.lat;
        }
        if minLon > r.lat {
          minLon := r.lon;
        }
        k := k + 1;
      }
      assert records[..|records|] == records;
    }

    /** addDataPointsUniformly: the records are dealt round-robin; with
        fewer than K * M of them the step fails, otherwise every centroid is
        seeded evenly between the tracked bounds. */
    method AddDataPointsUniformly(records: seq<Record>) returns (ok: bool)
      requires Valid()
      modifies members, centroids
      ensures forall c :: 0 <= c < K ==> members[c] == old(members[c]) + Share(records, K, c)
      ensures ok <==> |records| >= K * M
      ensures ok ==> forall c :: 0 <= c < K ==> centroids[c] == SeedCentroid(records, K, c)
      ensures !ok ==> Cents() == old(Cents())
    {
      var minLat, minLon, maxLat, maxLon := Distribute(records);
      if |records| < K * M {
        return false;
      }
      var n := 1;
      while n <= K
        invariant 1 <= n <= K + 1
        invariant forall c :: 0 <= c < n - 1 ==> centroids[c] == SeedCentroid(records, K, c)
        modifies centroids
      {
        centroids[n - 1] := Centroid(Real(Seed(minLat, maxLat, K, n)), Seed(minLon, maxLon, K, n));
        n := n + 1;
      }
      ok := true;
    }

    /** initialize: deal the records, then recompute every centroid as the
        mean of its cluster, which replaces the seeds. */
    method Initialize(records: seq<Record>) returns (ok: bool)
      requires Valid()
      modifies members, centroids
      ensures forall c :: 0 <= c < K ==> members[c] == old(members[c]) + Share(records, K, c)
      ensures ok <==> |records| >= K * M
      ensures ok ==> Cents() == CentroidsOf(circMean, Lists())
      ensures !ok ==> Cents() == old(Cents())
    {
      ok := AddDataPointsUniformly(records);
      if ok {
        UpdateCentroids();
      }
    }

    /** startAnalysis: at most IterCount rounds of findBestClusters and
        UpdateClusters, stopping as soon as no point moves; otherwise
        UpdateEmptyCluster and UpdateCentroids end the round. */
    method StartAnalysis() returns (outcome: Outcome)
      requires Valid()
      requires Settled(Lists()) && Cents() == CentroidsOf(circMean, Lists())
      modifies members, centroids
      ensures var r := Analyze(dist, circMean, M, old(Lists()), old(Cents()), 0, IterCount);
        && outcome == r.outcome
        && (!outcome.MergeAborted? ==> Lists() == r.lists && Cents() == r.cents)
    {
      ghost var goal := Analyze(dist, circMean, M, Lists(), Cents(), 0, IterCount);
      var i := 0;
      while i < IterCount
        invariant 0 <= i <= IterCount
        invariant Settled(Lists()) && Cents() == CentroidsOf(circMean, Lists())
        invariant Analyze(dist, circMean, M, Lists(), Cents(), i, IterCount) == goal
      {
        ghost var L := Lists();
        SettledIsPlaced(L);
        CentroidsDefined(circMean, L);
        RetargetAllInRange(dist, L, Cents());
        FindBestClusters();
        var changed := UpdateClusters();
        if !changed {
          return Converged(i);
        }
        ghost var swept := Lists();
        var aborted := UpdateEmptyCluster();
        if aborted {
          return MergeAborted(i);
        }
        RepairKeeps(dist, circMean, M, swept, Cents(), 0);
        UpdateCentroids();
        i := i + 1;
      }
      return IterationLimit;
    }

    /** The inner scan of findBestClusters (skip -1, minSize 1) and of
        MergeCluster (skip the merged cluster, minSize M). */
    method ClosestCluster(p: Point, skip: int, minSize: nat) returns (best: int)
      requires Valid()
      ensures best == Nearest(dist, p, Cents(), Eligible(Lists(), skip, minSize))
    {
      ghost var mask := Eligible(Lists(), skip, minSize);
      var closest := Real(MaxDouble);
      best := -1;
      var j := 0;
      while j < K
        invariant 0 <= j <= K
        invariant best == Scan(dist, p, Cents(), mask, j)
        invariant closest == if best == -1 then Real(MaxDouble) else DistTo(dist, p, centroids[best])
      {
        if |members[j]| >= minSize && j != skip {
          var d := DistTo(dist, p, centroids[j]);
          if Less(d, closest) {
            closest := d;
            best := j;
          }
        }
        j := j + 1;
      }
    }

    /** findBestClusters: every point's pending cluster becomes the nearest
        non-empty cluster; nothing else changes. */
    method FindBestClusters()
      requires Valid()
      modifies members
      ensures Lists() == RetargetAll(dist, old(Lists()), Cents())
    {
      ghost var L := Lists();
      ghost var mask := Eligible(L, -1, 1);
      var i := 0;
      while i < K
        invariant 0 <= i <= K
        invariant forall c :: 0 <= c < i ==> members[c] == Retarget(dist, L[c], Cents(), mask)
        invariant forall c :: i <= c < K ==> members[c] == L[c]
      {
        ghost var before := Lists();
        var k := 0;
        while k < |members[i]|
          invariant 0 <= k <= |members[i]| == |L[i]|
          invariant forall c :: 0 <= c < K && c != i ==> members[c] == before[c]
          invariant forall m :: 0 <= m < |L[i]| ==>
            members[i][m] == if m < k then Retarget(dist, L[i], Cents(), mask)[m] else L[i][m]
        {
          forall c | 0 <= c < K ensures |Lists()[c]| == |L[c]| {
          }
          EligibleBySize(Lists(), L, -1, 1);
          var p := members[i][k];
          var best := ClosestCluster(p, -1, 1);
          members[i] := members[i][k := p.(newClusterId := best)];
          k := k + 1;
        }
        assert members[i] == Retarget(dist, L[i], Cents(), mask);
        i := i + 1;
      }
      assert Lists() == RetargetAll(dist, L, Cents());
    }

    /** mDataPoints.add on cluster c: p joins the end of the list. */
    method Append(c: nat, p: Point)
      requires Valid() && c < K
      modifies members
      ensures Lists() == old(Lists())[c := old(members[c]) + [p]]
      ensures Total(Lists()) == Total(old(Lists())) + 1
    {
      ghost var L := Lists();
      members[c] := members[c] + [p];
      assert Lists() == L[c := L[c] + [p]];
      TotalUpdate(L, c, L[c] + [p]);
    }

    /** Cluster c's list becomes s: what is left after an iterator removed points from it. */
    method SetMembers(c: nat, s: seq<Point>)
      requires Valid() && c < K
      modifies members
      ensures Lists() == old(Lists())[c := s]
      ensures Total(Lists()) == Total(old(Lists())) - |old(members[c])| + |s|
    {
      ghost var L := Lists();
      members[c] := s;
      assert Lists() == L[c := s];
      TotalUpdate(L, c, s);
    }

    /** The point s[k] of cluster i, with a pending move, is appended with
        its current id updated to the end of its new cluster. */
    method SendOn(i: nat, p: Point, ghost before: seq<seq<Point>>, ghost s: seq<Point>, ghost k: nat)
      requires Valid() && i < K && k < |s| && p == s[k]
      requires p.currentClusterId == i && p.currentClusterId != p.newClusterId && 0 <= p.newClusterId < K
      requires MidSweep(Lists(), before, i, s[..k])
      modifies members
      ensures MidSweep(Lists(), before, i, s[..k + 1])
      ensures members[i] == old(members[i])
    {
      MidSweepSends(Lists(), before, i, s, k);
      var c := p.newClusterId;
      Append(c, p.(currentClusterId := c));
    }

    /** The loop of one cluster of UpdateClusters' sweep: every point of
        cluster i with a pending move is sent, in order, to the end of its new
        cluster; the points that stay are collected in kept. */
    method SendMovers(i: nat) returns (kept: seq<Point>, moved: bool)
      requires Valid() && i < K
      requires forall k :: 0 <= k < |members[i]| ==>
        members[i][k].currentClusterId == i && 0 <= members[i][k].newClusterId < K
      modifies members
      ensures kept == Kept(old(members[i]))
      ensures members[i] == old(members[i])
      ensures MidSweep(Lists(), old(Lists()), i, old(members[i]))
      ensures moved == (|kept| < |old(members[i])|)
    {
      var s := members[i];
      ghost var before := Lists();
      kept := [];
      moved := false;
      var k := 0;
      while k < |s|
        invariant 0 <= k <= |s|
        invariant kept == Kept(s[..k])
        invariant members[i] == s
        invariant MidSweep(Lists(), before, i, s[..k])
        invariant moved == (|kept| < k)
      {
        var p := s[k];
        KeptStep(s, k);
        if p.currentClusterId != p.newClusterId {
          moved := true;
          SendOn(i, p, before, s, k);
        } else {
          kept := kept + [p];
          MidSweepKeeps(Lists(), before, i, s, k);
        }
        k := k + 1;
      }
      assert s[..|s|] == s;
    }

    /** One cluster of UpdateClusters' sweep: every point of cluster i with
        a pending move leaves it, in order, for the end of its new cluster. */
    method MoveOutOf(i: nat) returns (moved: bool)
      requires Valid() && i < K
      requires forall k :: 0 <= k < |members[i]| ==>
        members[i][k].currentClusterId == i && 0 <= members[i][k].newClusterId < K
      modifies members
      ensures members[i] == Kept(old(members[i]))
      ensures MidSweep(Lists(), old(Lists()), i, old(members[i]))
      ensures moved == MoverIn(old(members[i]))
    {
      ghost var s := members[i];
      var kept;
      kept, moved := SendMovers(i);
      MoverIffShorter(s);
      SetMembers(i, kept);
    }

    /** Step i of UpdateClusters' sweep over the clusters of L. */
    method SweepCluster(i: nat, ghost L: seq<seq<Point>>) returns (moved: bool)
      requires Valid() && i < K == |L|
      requires Placed(L) && TargetsInRange(L)
      requires Lists() == SweptState(L, i)
      modifies members
      ensures Lists() == SweptState(L, i + 1)
      ensures moved == MoverIn(L[i])
    {
      SweptStateReady(L, i);
      moved := MoveOutOf(i);
      SweptStateNext(L, i, Lists());
    }

    /** UpdateClusters: the sweep over clusters 0..K-1 moves every point with
        a pending move to the end of its new cluster. Each cluster ends up with
        what it kept, followed by what the sweep brought it, cluster by cluster;
        the clusters hold the same records as before, none has a pending
        move any more, and the result says whether anything moved. */
    method UpdateClusters() returns (changed: bool)
      requires Valid()
      requires Placed(Lists()) && TargetsInRange(Lists())
      modifies members
      ensures Lists() == Sweep(old(Lists()))
      ensures Settled(Lists())
      ensures Pool(Lists()) == Pool(old(Lists()))
      ensures Total(Lists()) == Total(old(Lists()))
      ensures changed == HasMovers(old(Lists()))
    {
      ghost var L := Lists();
      SweptStateStart(L);
      changed := false;
      var i := 0;
      while i < K
        invariant 0 <= i <= K == |L|
        invariant Lists() == SweptState(L, i)
        invariant changed == MoversBelow(L, i)
      {
        var m := SweepCluster(i, L);
        changed := changed || m;
        i := i + 1;
      }
      assert SweptState(L, K) == Sweep(L);
      SweepKeeps(L);
      MoversBelowIff(L, K);
    }

    /** One step of MergeCluster(i): the first point left in cluster i is
        removed and, when the scan finds a cluster j for it, appended to j. */
    method MergePoint(i: nat, ghost before: seq<seq<Point>>, ghost k: nat) returns (j: int)
      requires Valid() && i < K == |before| && k < |before[i]|
      requires Lists() == MergeState(dist, before, Cents(), i, M, k)
      modifies members
      ensures j == -1 <==> !HasMergeTarget(Cents(), Eligible(before, i, M))
      ensures j == -1 ==> Lists() == old(Lists())[i := before[i][k + 1..]]
      ensures j != -1 ==> Lists() == MergeState(dist, before, Cents(), i, M, k + 1)
    {
      ghost var mask := Eligible(before, i, M);
      MergeStateMask(dist, before, Cents(), i, M, k);
      var p := members[i][0];
      var rest := members[i][1..];
      EligibleUnchanged(Lists(), i, M, i, rest);
      SetMembers(i, rest);
      j := ClosestCluster(p, i, M);
      ScanFailsForAllOrNone(dist, p, p, Cents(), mask);
      if j != -1 {
        MergeStateStep(dist, before, Cents(), i, M, k);
        Append(j, p.(currentClusterId := j, newClusterId := j));
      }
    }

    /** MergeCluster: every point of cluster i, in order, is removed and
        appended to the nearest other cluster holding at least M points. If
        no such cluster has a numeric centroid, the program exits after
        removing the first point: the merge is aborted. */
    method MergeCluster(i: nat) returns (aborted: bool)
      requires Valid() && i < K
      modifies members
      ensures aborted <==> MergeFails(old(Lists()), Cents(), i, M)
      ensures aborted ==> Lists() == old(Lists())[i := old(members[i])[1..]]
      ensures !aborted ==> Lists() == Merged(dist, old(Lists()), Cents(), i, M)
    {
      var n := |members[i]|;
      ghost var before := Lists();
      ghost var target := HasMergeTarget(Cents(), Eligible(before, i, M));
      MergeStateStart(dist, before, Cents(), i, M);
      var k := 0;
      while k < n
        invariant 0 <= k <= n == |before[i]|
        invariant Lists() == MergeState(dist, before, Cents(), i, M, k)
        invariant k > 0 ==> target
      {
        var j := MergePoint(i, before, k);
        if j == -1 {
          return true;
        }
        k := k + 1;
      }
      MergeStateDone(dist, before, Cents(), i, M);
      return false;
    }

    /** The first pass of SplitWorstCluster over cluster big: the smallest
        and largest latitude and longitude, tracked from Double.MAX_VALUE and
        Double.MIN_VALUE, the latitude sum, and from them the rule. */
    method SplitRuleOf(big: nat) returns (rule: SplitRule)
      requires Valid() && big < K
      ensures rule == RuleFor(dist, circMean, members[big])
    {
      var s := members[big];
      var latMin, latMax := MaxDouble, MinDouble;
      var lonMin, lonMax := MaxDouble, MinDouble;
      var sumLat := 0.0;
      var k := 0;
      while k < |s|
        invariant 0 <= k <= |s|
        invariant latMin == MinTrack(Lats(s[..k])) && latMax == MaxTrack(Lats(s[..k]))
        invariant lonMin == MinTrack(Lons(s[..k])) && lonMax == MaxTrack(Lons(s[..k]))
        invariant sumLat == Sum(Lats(s[..k]))
      {
        var p := s[k];
        CoordinatesStep(s, k);
        TrackSnoc(Lats(s[..k]), p.lat);
        TrackSnoc(Lons(s[..k]), p.lon);
        if p.lat < latMin {
          latMin := p.lat;
        }
        if p.lat > latMax {
          latMax := p.lat;
        }
        sumLat := sumLat + p.lat;
        if p.lon < lonMin {
          lonMin := p.lon;
        }
        if p.lon > lonMax {
          lonMax := p.lon;
        }
        k := k + 1;
      }
      assert s[..|s|] == s;
      var splitByLatitude := dist(latMin, 0.0, latMax, 0.0) > dist(0.0, lonMin, 0.0, lonMax);
      // 0.0 / 0 is NaN
      var mean := if |s| == 0 then NaN else Real(sumLat / (|s| as real));
      var window := PivotWindow(circMean(Lons(s)));
      rule := if splitByLatitude then ByLatitude(mean) else ByLongitude(window.0, window.1);
    }

    /** The test of SplitWorstCluster's second pass for one point: inside the
        longitude window, or below the mean latitude. */
    static method MovesOut(rule: SplitRule, p: Point) returns (move: bool)
      ensures move == Moves(rule, p)
    {
      move := false;
      if rule.ByLongitude? {
        var insideAngle := InsideAngle(p.lon);
        if rule.lo < insideAngle && insideAngle <= rule.hi {
          move := true;
        }
      } else {
        if Less(Real(p.lat), rule.mean) {
          move := true;
        }
      }
    }

    /** A point of the worst cluster joins the end of cluster empty, with both ids set to empty. */
    method SendToEmpty(empty: nat, p: Point, ghost before: seq<seq<Point>>, ghost rule: SplitRule, ghost s: seq<Point>, ghost k: nat)
      requires Valid() && empty < K && k < |s| && p == s[k] && Moves(rule, p)
      requires MidSplit(Lists(), before, empty, rule, s[..k])
      modifies members
      ensures MidSplit(Lists(), before, empty, rule, s[..k + 1])
      ensures forall c :: 0 <= c < K && c != empty ==> members[c] == old(members[c])
    {
      MidSplitStep(Lists(), before, empty, rule, s, k);
      Append(empty, p.(currentClusterId := empty, newClusterId := empty));
    }

    /** The second pass of SplitWorstCluster for the point s[k] of cluster
        big: it leaves for cluster empty or is kept, in order. */
    method SplitPoint(big: nat, empty: nat, rule: SplitRule, kept: seq<Point>,
                      ghost before: seq<seq<Point>>, ghost s: seq<Point>, k: nat) returns (kept': seq<Point>)
      requires Valid() && big < K && empty < K && big != empty && k < |s|
      requires kept == Select(s[..k], StaysBy(rule)) && members[big] == s
      requires MidSplit(Lists(), before, empty, rule, s[..k])
      modifies members
      ensures kept' == Select(s[..k + 1], StaysBy(rule)) && members[big] == s
      ensures MidSplit(Lists(), before, empty, rule, s[..k + 1])
    {
      var p := members[big][k];
      SplitStep(s, k, rule, empty);
      var move := MovesOut(rule, p);
      if move {
        SendToEmpty(empty, p, before, rule, s, k);
        kept' := kept;
      } else {
        MidSplitStep(Lists(), before, empty, rule, s, k);
        kept' := kept + [p];
      }
    }

    /** SplitWorstCluster(big, empty): the points of big that the rule moves
        leave it, in order, for the end of cluster empty. */
    method SplitWorstCluster(big: nat, empty: nat)
      requires Valid() && big < K && empty < K
      requires big != empty || members[big] == []
      modifies members
      ensures Lists() == Split(old(Lists()), big, empty, RuleFor(dist, circMean, old(members[big])))
    {
      var rule := SplitRuleOf(big);
      var s := members[big];
      ghost var before := Lists();
      MidSplitStart(before, empty, rule);
      var kept: seq<Point> := [];
      var k := 0;
      while k < |s|
        invariant 0 <= k <= |s|
        invariant kept == Select(s[..k], StaysBy(rule))
        invariant members[big] == s
        invariant MidSplit(Lists(), before, empty, rule, s[..k])
      {
        kept := SplitPoint(big, empty, rule, kept, before, s, k);
        k := k + 1;
      }
      assert s[..|s|] == s;
      MidSplitDone(Lists(), before, big, empty, rule);
      SetMembers(big, kept);
    }

    /** One iteration of UpdateEmptyCluster, for cluster i: a cluster with
        fewer than M points is merged away, and a cluster that is then
        empty receives part of the worst cluster. */
    method RepairCluster(i: nat) returns (aborted: bool)
      requires Valid() && i < K
      modifies members
      ensures var r := RepairStep(dist, circMean, M, old(Lists()), Cents(), i);
        && (aborted <==> r.Exited?)
        && (!aborted ==> Lists() == r.lists)
      ensures aborted ==> Lists() == old(Lists())[i := old(members[i])[1..]]
    {
      aborted := false;
      if |members[i]| < M {
        aborted := MergeCluster(i);
        if aborted {
          return;
        }
      }
      if |members[i]| == 0 {
        var w := FindWorstCluster();
        SplitWorstCluster(w, i);
      }
    }

    /** UpdateEmptyCluster: the clusters are repaired in index order; the
        pass stops where a merge finds no cluster to take a point. */
    method UpdateEmptyCluster() returns (aborted: bool)
      requires Valid()
      modifies members
      ensures var r := RepairFrom(dist, circMean, M, old(Lists()), Cents(), 0);
        && (aborted <==> r.Exited?)
        && (!aborted ==> Lists() == r.lists)
    {
      ghost var goal := RepairFrom(dist, circMean, M, Lists(), Cents(), 0);
      var i := 0;
      while i < K
        invariant 0 <= i <= K
        invariant RepairFrom(dist, circMean, M, Lists(), Cents(), i) == goal
      {
        aborted := RepairCluster(i);
        if aborted {
          return;
        }
        i := i + 1;
      }
      aborted := false;
    }

    /** UpdateCentroids: every centroid becomes the mean of its cluster. */
    method UpdateCentroids()
      requires Valid()
      modifies centroids
      ensures Cents() == CentroidsOf(circMean, Lists())
    {
      var i := 0;
      while i < K
        invariant 0 <= i <= K
        invariant forall c :: 0 <= c < i ==> centroids[c] == CentroidOf(circMean, members[c])
      {
        var s := members[i];
        var sumLat := 0.0;
        var k := 0;
        while k < |s|
          invariant 0 <= k <= |s|
          invariant sumLat == Sum(Lats(s[..k]))
        {
          assert Lats(s[..k + 1])[..k] == Lats(s[..k]);
          sumLat := sumLat + s[k].lat;
          k := k + 1;
        }
        assert s[..|s|] == s;
        // 0.0 / 0 is NaN; atan2(0, 0) is 0
        var lat := if |s| == 0 then NaN else Real(sumLat / (|s| as real));
        var lon := if |s| == 0 then 0.0 else circMean(Lons(s));
        centroids[i] := Centroid(lat, lon);
        i := i + 1;
      }
    }

    /** GetClusterTotalDistance. */
    method ClusterTotalDistance(c: nat) returns (t: Num)
      requires Valid() && c < K
      ensures t == TotalDistance(dist, members[c], centroids[c])
    {
      var s := members[c];
      if |s| == 0 {
        return Real(0.0);
      }
      var cent := centroids[c];
      t := Real(0.0);
      var k := 0;
      while k < |s|
        invariant 0 <= k <= |s|
        invariant cent.lat.NaN? ==> t == if k == 0 then Real(0.0) else NaN
        invariant cent.lat.Real? ==> t == Real(SumDist(dist, s[..k], cent))
      {
        assert s[..k + 1][..k] == s[..k];
        t := Add(t, DistTo(dist, s[k], cent));
        k := k + 1;
      }
      assert s[..|s|] == s;
    }

    /** FindWorstCluster: the first cluster with the largest positive total distance, else 0. */
    method FindWorstCluster() returns (w: nat)
      requires Valid()
      ensures w == WorstOf(Totals(dist, Lists(), Cents()))
    {
      ghost var totals := Totals(dist, Lists(), Cents());
      w := 0;
      var worst := Real(0.0);
      var i := 0;
      while i < K
        invariant 0 <= i <= K
        invariant (w, worst) == WorstScan(totals, i)
      {
        var t := ClusterTotalDistance(i);
        if Less(worst, t) {
          w := i;
          worst := t;
        }
        i := i + 1;
      }
    }

    /** findNearestDatPoint: the member closest to the centroid, as reported for the cluster's location. */
    method FindNearestDataPoint(c: nat) returns (r: Point)
      requires Valid() && c < K
      ensures IsSite(dist, members[c], centroids[c], r)
    {
      var s := members[c];
      var cent := centroids[c];
      var loopDistance := Real(MaxDouble);
      r := Point(0, 0.0, 0.0, 0, 0);
      ghost var at := -1;
      var k := 0;
      while k < |s|
        invariant 0 <= k <= |s|
        invariant -1 <= at < k
        invariant at == -1 ==> r == Point(0, 0.0, 0.0, 0, 0) && loopDistance == Real(MaxDouble) && (k > 0 ==> cent.lat.NaN?)
        invariant at != -1 ==> r == s[at] && cent.lat.Real? && loopDistance == DistTo(dist, s[at], cent)
        invariant at != -1 ==> forall j :: 0 <= j < k ==> DistTo(dist, s[at], cent).v <= DistTo(dist, s[j], cent).v
        invariant at != -1 ==> forall j :: 0 <= j < at ==> DistTo(dist, s[at], cent).v < DistTo(dist, s[j], cent).v
      {
        var d := DistTo(dist, s[k], cent);
        if cent.lat.Real? {
          assert dist(s[k].lat, s[k].lon, cent.lat.v, cent.lon) < MaxDouble;
        }
        if Less(d, loopDistance) {
          loopDistance := d;
          r := s[k];
          at := k;
        }
        k := k + 1;
      }
      if s != [] && cent.lat.Real? {
        assert NearestMemberAt(dist, s, cent, at);
      }
    }

    /** The loop of WriteOutput that picks, for every cluster, the member
        findNearestDatPoint reports as its location. */
    method Sites() returns (sites: seq<Point>)
      requires Valid()
      ensures |sites| == K
      ensures forall c :: 0 <= c < K ==> IsSite(dist, members[c], centroids[c], sites[c])
    {
      sites := [];
      var i := 0;
      while i < K
        invariant 0 <= i <= K && |sites| == i
        invariant forall c :: 0 <= c < i ==> IsSite(dist, members[c], centroids[c], sites[c])
      {
        var r := FindNearestDataPoint(i);
        sites := sites + [r];
        i := i + 1;
      }
    }
  }

  /** What process() yields: nothing when there are too few records; the
      exit of a merge that found no cluster; otherwise how the analysis
      ended with the clusters, their centroids and the member reported as
      each cluster's location. */
  datatype Report =
    | TooFewPoints
    | MergeFailed(round: nat)
    | Clustered(outcome: Outcome, lists: seq<seq<Point>>, cents: seq<Centroid>, sites: seq<Point>)

  /** process(): K fresh clusters, initialize, and when that succeeds
      startAnalysis followed by the choice of each cluster's location. */
  method Process(records: seq<Record>, K: nat, iterCount: nat, minClusterSize: nat,
                 dist: Distance, circMean: seq<real> -> real) returns (report: Report)
    requires K > 0 && BelowSentinel(dist)
    ensures report.TooFewPoints? <==> |records| < K * minClusterSize
    ensures var start := Shares(records, K);
      var r := Analyze(dist, circMean, minClusterSize, start, CentroidsOf(circMean, start), 0, iterCount);
      && (report.MergeFailed? <==> |records| >= K * minClusterSize && r.outcome.MergeAborted?)
      && (report.Clustered? <==> |records| >= K * minClusterSize && !r.outcome.MergeAborted?)
      && (report.MergeFailed? ==> r.outcome == MergeAborted(report.round))
      && (report.Clustered? ==> report.outcome == r.outcome && report.lists == r.lists && report.cents == r.cents)
    ensures report.Clustered? ==>
      && |report.sites| == K == |report.lists| == |report.cents|
      && forall c :: 0 <= c < K ==> IsSite(dist, report.lists[c], report.cents[c], report.sites[c])
  {
    var engine := new GeoClusters(K, iterCount, minClusterSize, dist, circMean);
    var ok := engine.Initialize(records);
    if !ok {
      return TooFewPoints;
    }
    ghost var start := engine.Lists();
    assert start == Shares(records, K) by {
      forall c | 0 <= c < K ensures start[c] == Shares(records, K)[c] {
        assert start[c] == [] + Share(records, K, c);
      }
    }
    SharesSettled(records, K);
    var outcome := engine.StartAnalysis();
    if outcome.MergeAborted? {
      return MergeFailed(outcome.round);
    }
    var sites := engine.Sites();
    report := Clustered(outcome, engine.members[..], engine.centroids[..], sites);
  }

  /** The guarantees of a run that reaches the analysis: it starts from the
      round-robin shares with their means as centroids, and unless a merge
      exits, the clusters hold exactly the records read, each as often as
      it was read, every point is settled in its cluster, every
      centroid is the mean of its cluster, and a converged run is a fixed
      point of findBestClusters reached within the round limit. */
  lemma ProcessKeeps(records: seq<Record>, K: nat, iterCount: nat, minClusterSize: nat,
                     dist: Distance, circMean: seq<real> -> real)
    requires K > 0 && BelowSentinel(dist)
    ensures var start := Shares(records, K);
      var r := Analyze(dist, circMean, minClusterSize, start, CentroidsOf(circMean, start), 0, iterCount);
      && (!r.outcome.MergeAborted? ==>
            && Pool(r.lists) == multiset(records)
            && Total(r.lists) == |records|
            && Settled(r.lists)
            && r.cents == CentroidsOf(circMean, r.lists))
      && (r.outcome.Converged? ==> r.outcome.round < iterCount && Stable(dist, r.lists, r.cents))
      && (r.outcome.MergeAborted? ==> r.outcome.round < iterCount)
  {
    var start := Shares(records, K);
    SharesSettled(records, K);
    SharesKeepRecords(records, K);
    AnalyzeKeeps(dist, circMean, minClusterSize, start, CentroidsOf(circMean, start), 0, iterCount);
  }
}
