/**
 * startAnalysis as a function on values: rounds of findBestClusters,
 * UpdateClusters, UpdateEmptyCluster and UpdateCentroids, stopped by
 * convergence, by the round limit or by a merge that finds no cluster.
 */
module Analysis {
  import opened Geo
  import opened Assignment
  import opened Repair

  /** How startAnalysis ended: no point moved in the given round, the round
      limit ran out, or a merge found no cluster to take a point and the
      program exited in the given round. */
  datatype Outcome = Converged(round: nat) | IterationLimit | MergeAborted(round: nat)

  /** The outcome with the lists and centroids it leaves; after MergeAborted
      they are the lists as that round's sweep left them, before the repair
      pass that exits. */
  datatype Run = Run(outcome: Outcome, lists: seq<seq<Point>>, cents: seq<Centroid>)

  /** Rounds i..n-1 of startAnalysis, from the given lists and centroids. */
  ghost function Analyze(dist: Distance, circMean: seq<real> -> real, M: nat,
                         lists: seq<seq<Point>>, cents: seq<Centroid>, i: nat, n: nat): Run
    requires |cents| == |lists|
    decreases n - i
  {
    if i >= n then Run(IterationLimit, lists, cents)
    else
      var targeted := RetargetAll(dist, lists, cents);
      var swept := Sweep(targeted);
      if !HasMovers(targeted) then Run(Converged(i), swept, cents)
      else match RepairFrom(dist, circMean, M, swept, cents, 0)
        case Exited(_) => Run(MergeAborted(i), swept, cents)
        case Repaired(next) => Analyze(dist, circMean, M, next, CentroidsOf(circMean, next), i + 1, n)
  }

  /** A round in which findBestClusters leaves no pending move changes
      nothing: the settled lists come back as they were. */
  lemma ConvergedKeepsLists(dist: Distance, lists: seq<seq<Point>>, cents: seq<Centroid>)
    requires |cents| == |lists|
    requires Settled(lists)
    requires !HasMovers(RetargetAll(dist, lists, cents))
    ensures RetargetAll(dist, lists, cents) == lists
    ensures Sweep(RetargetAll(dist, lists, cents)) == lists
  {
    var r := RetargetAll(dist, lists, cents);
    forall c | 0 <= c < |lists| ensures r[c] == lists[c] {
      assert !MoverIn(r[c]);
      forall k | 0 <= k < |lists[c]| ensures r[c][k] == lists[c][k] {
        assert lists[c][k] in lists[c];
      }
    }
    assert r == lists;
    forall c | 0 <= c < |lists| ensures Sweep(r)[c] == lists[c] {
      NoMoversNoChange(r, c);
    }
  }

  /** What startAnalysis keeps: started from settled lists whose centroids
      are their means, a run that does not exit holds the same records as
      at the start (so loses no point), leaves every point settled and
      every centroid the mean of its cluster; it
      stops within the round limit, and when it converges no point's
      nearest cluster is another one. */
  lemma {:induction false} AnalyzeKeeps(dist: Distance, circMean: seq<real> -> real, M: nat,
                                        lists: seq<seq<Point>>, cents: seq<Centroid>, i: nat, n: nat)
    requires BelowSentinel(dist)
    requires Settled(lists) && cents == CentroidsOf(circMean, lists)
    ensures var r := Analyze(dist, circMean, M, lists, cents, i, n);
      && (!r.outcome.MergeAborted? ==>
            Settled(r.lists) && Pool(r.lists) == Pool(lists) && Total(r.lists) == Total(lists) &&
            r.cents == CentroidsOf(circMean, r.lists))
      && (r.outcome.Converged? ==> i <= r.outcome.round < n && Stable(dist, r.lists, r.cents))
      && (r.outcome.MergeAborted? ==> i <= r.outcome.round < n)
    decreases n - i
  {
    if i < n {
      var targeted := RetargetAll(dist, lists, cents);
      var r := Analyze(dist, circMean, M, lists, cents, i, n);
      if !HasMovers(targeted) {
        ConvergedRound(dist, circMean, lists, cents);
        assert r == Run(Converged(i), lists, cents);
      } else {
        RepairRound(dist, circMean, M, lists, cents);
        match RepairFrom(dist, circMean, M, Sweep(targeted), cents, 0)
        case Exited(_) =>
          assert r.outcome == MergeAborted(i);
        case Repaired(next) =>
          AnalyzeKeeps(dist, circMean, M, next, CentroidsOf(circMean, next), i + 1, n);
          assert r == Analyze(dist, circMean, M, next, CentroidsOf(circMean, next), i + 1, n);
      }
    }
  }

  /** A round that converges leaves the lists as they were, at a fixed point. */
  lemma ConvergedRound(dist: Distance, circMean: seq<real> -> real, lists: seq<seq<Point>>, cents: seq<Centroid>)
    requires BelowSentinel(dist)
    requires Settled(lists) && cents == CentroidsOf(circMean, lists)
    requires !HasMovers(RetargetAll(dist, lists, cents))
    ensures Sweep(RetargetAll(dist, lists, cents)) == lists
    ensures Stable(dist, lists, cents)
  {
    SettledIsPlaced(lists);
    NoMoversMeansStable(dist, lists, cents);
    ConvergedKeepsLists(dist, lists, cents);
  }

  /** A round that moves points and repairs the clusters without exiting
      keeps the records the clusters hold (so loses no point) and leaves
      every point settled. */
  lemma RepairRound(dist: Distance, circMean: seq<real> -> real, M: nat, lists: seq<seq<Point>>, cents: seq<Centroid>)
    requires BelowSentinel(dist)
    requires Settled(lists) && cents == CentroidsOf(circMean, lists)
    ensures var r := RepairFrom(dist, circMean, M, Sweep(RetargetAll(dist, lists, cents)), cents, 0);
      r.Repaired? ==> Settled(r.lists) && Pool(r.lists) == Pool(lists) && Total(r.lists) == Total(lists)
  {
    SettledIsPlaced(lists);
    CentroidsDefined(circMean, lists);
    var targeted := RetargetAll(dist, lists, cents);
    RetargetAllInRange(dist, lists, cents);
    RetargetAllKeepsRecords(dist, lists, cents);
    SweepKeeps(targeted);
    RepairKeeps(dist, circMean, M, Sweep(targeted), cents, 0);
  }
}
