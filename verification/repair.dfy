/**
 * The repair pass as functions on values: where MergeCluster sends the
 * points of an undersized cluster, how SplitWorstCluster decides which
 * points of the worst cluster move, the cluster totals FindWorstCluster
 * compares, and the latitude mean of UpdateCentroids.
 */
module Repair {
  import opened Geo
  import opened Assignment
  import opened Initial

  // ----- merge -----

  /** A point whose merge scan picks cluster j. */
  function RoutedTo(dist: Distance, cents: seq<Centroid>, mask: seq<bool>, j: int): Point -> bool
    requires |cents| == |mask|
  {
    (p: Point) => Nearest(dist, p, cents, mask) == j
  }

  /** The points of a merged cluster that arrive in cluster j, in order, with both ids set to j. */
  function MergedInto(dist: Distance, s: seq<Point>, cents: seq<Centroid>, mask: seq<bool>, j: int): seq<Point>
    requires |cents| == |mask|
  {
    Relabel(Select(s, RoutedTo(dist, cents, mask, j)), j)
  }

  /** Some cluster can take merged points: eligible, with a numeric centroid. */
  predicate HasMergeTarget(cents: seq<Centroid>, mask: seq<bool>)
    requires |cents| == |mask|
  {
    exists j :: 0 <= j < |mask| && mask[j] && cents[j].lat.Real?
  }

  /** A merge sends nothing to a cluster that is not eligible. */
  lemma NothingMergedIntoIneligible(dist: Distance, s: seq<Point>, cents: seq<Centroid>, mask: seq<bool>, j: int)
    requires |cents| == |mask|
    requires 0 <= j && !(j < |mask| && mask[j])
    ensures MergedInto(dist, s, cents, mask, j) == []
  {
    forall p | p in s ensures !RoutedTo(dist, cents, mask, j)(p) {
      ScanIsFirstArgmin(dist, p, cents, mask, |mask|);
    }
    SelectNone(s, RoutedTo(dist, cents, mask, j));
  }

  /** Every point of the merged cluster is routed somewhere when a target
      exists: for each record r, the arrivals over all clusters hold as many
      points standing for r as the merged cluster did. */
  lemma {:induction false} MergeAccountsForAll(dist: Distance, s: seq<Point>, cents: seq<Centroid>, mask: seq<bool>, r: Record)
    requires BelowSentinel(dist)
    requires |cents| == |mask|
    requires HasMergeTarget(cents, mask)
    ensures MergedCount(dist, s, cents, mask, |mask|, r) == Count(s, r)
  {
    if s == [] {
      MergedCountEmpty(dist, cents, mask, |mask|, r);
    } else {
      var t, p := s[..|s| - 1], s[|s| - 1];
      assert s == t + [p];
      MergeAccountsForAll(dist, t, cents, mask, r);
      MergeAccountsStep(dist, t, p, cents, mask, r);
    }
  }

  /** The scan routes one more point to some cluster. */
  lemma MergeAccountsStep(dist: Distance, t: seq<Point>, p: Point, cents: seq<Centroid>, mask: seq<bool>, r: Record)
    requires BelowSentinel(dist)
    requires |cents| == |mask|
    requires HasMergeTarget(cents, mask)
    requires MergedCount(dist, t, cents, mask, |mask|, r) == Count(t, r)
    ensures MergedCount(dist, t + [p], cents, mask, |mask|, r) == Count(t + [p], r)
  {
    var j :| 0 <= j < |mask| && mask[j] && cents[j].lat.Real?;
    ScanIsFirstArgmin(dist, p, cents, mask, |mask|);
    CandidateIffDefined(dist, p, cents, mask, j);
    MergedCountSnoc(dist, t, p, cents, mask, |mask|, r);
    CountSnoc(t, p, r);
  }

  /** How many points of s standing for r a merge sends to clusters 0..n-1. */
  function MergedCount(dist: Distance, s: seq<Point>, cents: seq<Centroid>, mask: seq<bool>, n: nat, r: Record): nat
    requires |cents| == |mask|
  {
    SizeSum(c => Count(MergedInto(dist, s, cents, mask, c), r), n)
  }

  lemma {:induction false} MergedCountEmpty(dist: Distance, cents: seq<Centroid>, mask: seq<bool>, n: nat, r: Record)
    requires |cents| == |mask|
    ensures MergedCount(dist, [], cents, mask, n, r) == 0
  {
    if n > 0 {
      MergedCountEmpty(dist, cents, mask, n - 1, r);
      assert MergedInto(dist, [], cents, mask, n - 1) == [];
    }
  }

  /** 1 when p stands for r and the scan routes it to one of clusters 0..n-1, else 0. */
  function RouteOf(dist: Distance, p: Point, cents: seq<Centroid>, mask: seq<bool>, n: nat, r: Record): nat
    requires |cents| == |mask|
  {
    if 0 <= Nearest(dist, p, cents, mask) < n && RecordOf(p) == r then 1 else 0
  }

  lemma {:induction false} MergedCountSnoc(dist: Distance, t: seq<Point>, p: Point, cents: seq<Centroid>, mask: seq<bool>, n: nat, r: Record)
    requires |cents| == |mask|
    ensures MergedCount(dist, t + [p], cents, mask, n, r) ==
      MergedCount(dist, t, cents, mask, n, r) + RouteOf(dist, p, cents, mask, n, r)
  {
    if n > 0 {
      MergedCountSnoc(dist, t, p, cents, mask, n - 1, r);
      MergedCountSnocStep(dist, t, p, cents, mask, n, r);
    }
  }

  lemma MergedCountSnocStep(dist: Distance, t: seq<Point>, p: Point, cents: seq<Centroid>, mask: seq<bool>, n: nat, r: Record)
    requires |cents| == |mask| && n > 0
    requires MergedCount(dist, t + [p], cents, mask, n - 1, r) ==
      MergedCount(dist, t, cents, mask, n - 1, r) + RouteOf(dist, p, cents, mask, n - 1, r)
    ensures MergedCount(dist, t + [p], cents, mask, n, r) ==
      MergedCount(dist, t, cents, mask, n, r) + RouteOf(dist, p, cents, mask, n, r)
  {
    MergedIntoSnoc(dist, t, p, cents, mask, n - 1);
    if Nearest(dist, p, cents, mask) == n - 1 {
      var q := p.(currentClusterId := n - 1, newClusterId := n - 1);
      CountSnoc(MergedInto(dist, t, cents, mask, n - 1), q, r);
      assert RecordOf(q) == RecordOf(p);
    } else {
      assert MergedInto(dist, t + [p], cents, mask, n - 1) == MergedInto(dist, t, cents, mask, n - 1);
    }
  }

  /** Whether MergeCluster(i) exits: the cluster has a point and no other
      cluster holding at least M points has a numeric centroid. */
  predicate MergeFails(lists: seq<seq<Point>>, cents: seq<Centroid>, i: nat, M: nat)
    requires |cents| == |lists| && i < |lists|
  {
    lists[i] != [] && !HasMergeTarget(cents, Eligible(lists, i, M))
  }

  /** The lists after a completed MergeCluster(i): cluster i is empty and
      every other cluster has gained, in order, the points routed to it. */
  function Merged(dist: Distance, lists: seq<seq<Point>>, cents: seq<Centroid>, i: nat, M: nat): (r: seq<seq<Point>>)
    requires |cents| == |lists| && i < |lists|
    ensures |r| == |lists|
  {
    var mask := Eligible(lists, i, M);
    seq(|lists|, c requires 0 <= c < |lists| => if c == i then [] else lists[c] + MergedInto(dist, lists[i], cents, mask, c))
  }

  /** MergeCluster(i) after its first k points: cluster i holds the rest,
      every other cluster what it held plus what those k points were routed
      to it, with the eligibility mask fixed at the start. */
  function MergeState(dist: Distance, before: seq<seq<Point>>, cents: seq<Centroid>, i: nat, M: nat, k: nat): (r: seq<seq<Point>>)
    requires |cents| == |before| && i < |before| && k <= |before[i]|
    ensures |r| == |before|
  {
    var mask := Eligible(before, i, M);
    seq(|before|, c requires 0 <= c < |before| =>
      if c == i then before[i][k..] else before[c] + MergedInto(dist, before[i][..k], cents, mask, c))
  }

  /** Before the merge nothing has moved. */
  lemma MergeStateStart(dist: Distance, before: seq<seq<Point>>, cents: seq<Centroid>, i: nat, M: nat)
    requires |cents| == |before| && i < |before|
    ensures MergeState(dist, before, cents, i, M, 0) == before
  {
    var mask := Eligible(before, i, M);
    forall c | 0 <= c < |before| && c != i ensures before[c] + MergedInto(dist, before[i][..0], cents, mask, c) == before[c] {
      assert MergedInto(dist, before[i][..0], cents, mask, c) == [];
    }
  }

  /** The merge never changes which clusters are eligible: an eligible
      cluster only grows, an ineligible one receives nothing, and the merged
      cluster is skipped. */
  lemma MergeStateMask(dist: Distance, before: seq<seq<Point>>, cents: seq<Centroid>, i: nat, M: nat, k: nat)
    requires |cents| == |before| && i < |before| && k <= |before[i]|
    ensures Eligible(MergeState(dist, before, cents, i, M, k), i, M) == Eligible(before, i, M)
  {
    var mask := Eligible(before, i, M);
    var r := MergeState(dist, before, cents, i, M, k);
    forall c | 0 <= c < |before| && c != i && !mask[c] ensures r[c] == before[c] {
      NothingMergedIntoIneligible(dist, before[i][..k], cents, mask, c);
    }
  }

  /** Point k of cluster i goes to the end of the cluster j its scan picks. */
  lemma MergeStateStep(dist: Distance, before: seq<seq<Point>>, cents: seq<Centroid>, i: nat, M: nat, k: nat)
    requires |cents| == |before| && i < |before| && k < |before[i]|
    requires Nearest(dist, before[i][k], cents, Eligible(before, i, M)) != -1
    ensures var cur := MergeState(dist, before, cents, i, M, k);
      var j := Nearest(dist, before[i][k], cents, Eligible(before, i, M));
      && 0 <= j < |before| && j != i && |cur[j]| >= M
      && MergeState(dist, before, cents, i, M, k + 1) ==
         cur[i := before[i][k + 1..]][j := cur[j] + [before[i][k].(currentClusterId := j, newClusterId := j)]]
  {
    var s := before[i];
    var mask := Eligible(before, i, M);
    var p := s[k];
    var j := Nearest(dist, p, cents, mask);
    NearestIsEligible(dist, p, cents, mask);
    var cur := MergeState(dist, before, cents, i, M, k);
    var next := MergeState(dist, before, cents, i, M, k + 1);
    var want := cur[i := s[k + 1..]][j := cur[j] + [p.(currentClusterId := j, newClusterId := j)]];
    assert s[..k + 1] == s[..k] + [p];
    forall c | 0 <= c < |before| ensures next[c] == want[c] {
      if c != i {
        MergedIntoSnoc(dist, s[..k], p, cents, mask, c);
      }
    }
  }

  /** A merge that has handled all of cluster i has produced Merged. */
  lemma MergeStateDone(dist: Distance, before: seq<seq<Point>>, cents: seq<Centroid>, i: nat, M: nat)
    requires |cents| == |before| && i < |before|
    ensures MergeState(dist, before, cents, i, M, |before[i]|) == Merged(dist, before, cents, i, M)
  {
    var s := before[i];
    assert s[..|s|] == s;
    var r := MergeState(dist, before, cents, i, M, |s|);
    forall c | 0 <= c < |before| ensures r[c] == Merged(dist, before, cents, i, M)[c] {
    }
  }

  /** A completed merge of cluster i loses no point: everything it held
      arrived somewhere else, record by record. */
  lemma MergedCounts(dist: Distance, lists: seq<seq<Point>>, cents: seq<Centroid>, i: nat, M: nat, r: Record)
    requires BelowSentinel(dist)
    requires |cents| == |lists| && i < |lists|
    requires !MergeFails(lists, cents, i, M)
    ensures Occurrences(Merged(dist, lists, cents, i, M), r) == Occurrences(lists, r)
  {
    var mask := Eligible(lists, i, M);
    var after := Merged(dist, lists, cents, i, M);
    forall c | 0 <= c < |lists| && c != i ensures after[c] == lists[c] + MergedInto(dist, lists[i], cents, mask, c) {
    }
    MergeCounts(dist, lists, after, i, cents, mask, r);
  }

  /** Lists that hold, besides an emptied cluster i, what they held plus
      what the merge of cluster i routed to them hold every record as often as before. */
  lemma MergeCounts(dist: Distance, before: seq<seq<Point>>, after: seq<seq<Point>>, i: nat,
                    cents: seq<Centroid>, mask: seq<bool>, r: Record)
    requires BelowSentinel(dist)
    requires |cents| == |mask| == |before| == |after| && i < |before|
    requires !mask[i]
    requires before[i] == [] || HasMergeTarget(cents, mask)
    requires after[i] == []
    requires forall c :: 0 <= c < |after| && c != i ==> after[c] == before[c] + MergedInto(dist, before[i], cents, mask, c)
    ensures Occurrences(after, r) == Occurrences(before, r)
  {
    var s := before[i];
    var mid := after[i := s];
    NothingMergedIntoIneligible(dist, s, cents, mask, i);
    forall c | 0 <= c < |mid|
      ensures Count(mid[c], r) == Count(before[c], r) + Count(MergedInto(dist, s, cents, mask, c), r)
    {
      CountAppend(before[c], MergedInto(dist, s, cents, mask, c), r);
      if c == i {
        assert mid[c] == before[c] + MergedInto(dist, s, cents, mask, c);
      }
    }
    OccurrencesGrowBy(mid, before, r, c => Count(MergedInto(dist, s, cents, mask, c), r));
    if s == [] {
      MergedCountEmpty(dist, cents, mask, |mask|, r);
    } else {
      MergeAccountsForAll(dist, s, cents, mask, r);
    }
    OccurrencesUpdate(after, i, s, r);
  }

  /** A merge that does not exit keeps the records the clusters hold (so
      loses no point), and leaves a settled state settled. */
  lemma MergedKeeps(dist: Distance, lists: seq<seq<Point>>, cents: seq<Centroid>, i: nat, M: nat)
    requires BelowSentinel(dist)
    requires |cents| == |lists| && i < |lists|
    requires !MergeFails(lists, cents, i, M)
    ensures Pool(Merged(dist, lists, cents, i, M)) == Pool(lists)
    ensures Total(Merged(dist, lists, cents, i, M)) == Total(lists)
    ensures Settled(lists) ==> Settled(Merged(dist, lists, cents, i, M))
  {
    var mask := Eligible(lists, i, M);
    var r := Merged(dist, lists, cents, i, M);
    forall x ensures Occurrences(r, x) == Occurrences(lists, x) {
      MergedCounts(dist, lists, cents, i, M, x);
    }
    SamePool(r, lists);
    if Settled(lists) {
      forall c | 0 <= c < |r| ensures SettledAt(r[c], c) {
        if c != i {
          assert SettledAt(lists[c], c);
          var moved := MergedInto(dist, lists[i], cents, mask, c);
          RelabelSettled(Select(lists[i], RoutedTo(dist, cents, mask, c)), c);
          forall p: Point | p in r[c] ensures p.currentClusterId == c && p.newClusterId == c {
            assert p in lists[c] || p in moved;
          }
        }
      }
    }
  }

  // ----- split -----

  /** How SplitWorstCluster divides the worst cluster: below the mean
      latitude, or by a longitude window (lo, hi] on the 0..360 circle. */
  datatype SplitRule = ByLatitude(mean: Num) | ByLongitude(lo: real, hi: real)

  /** The longitude window built from the circular-mean pivot, as written:
      for a negative pivot ((pivot + 180) % 360, (pivot + 360) % 360],
      otherwise ((pivot + 360) % 360, (pivot + 180) % 360]. */
  function PivotWindow(pivot: real): (w: (real, real))
  {
    if pivot < 0.0 then (JavaRem(pivot + 180.0, 360.0), JavaRem(pivot + 360.0, 360.0))
    else (JavaRem(pivot + 360.0, 360.0), JavaRem(pivot + 180.0, 360.0))
  }

  /** A longitude as an angle in 0..360: (lon + 360) % 360. */
  function InsideAngle(lon: real): real
  {
    JavaRem(lon + 360.0, 360.0)
  }

  lemma RemSmall(x: real)
    requires 0.0 <= x < 360.0
    ensures JavaRem(x, 360.0) == x
  {
    assert (x / 360.0).Floor == 0;
  }

  lemma RemOneTurn(x: real)
    requires 360.0 <= x < 720.0
    ensures JavaRem(x, 360.0) == x - 360.0
  {
    assert (x / 360.0).Floor == 1;
  }

  /** Longitudes in [-180, 180] map onto the circle without overlap: west
      longitudes go to 180..360, east ones stay where they are. */
  lemma InsideAngleOfLongitude(lon: real)
    requires -180.0 <= lon <= 180.0
    ensures InsideAngle(lon) == if lon < 0.0 then lon + 360.0 else lon
    ensures 0.0 <= InsideAngle(lon) < 360.0
  {
    if lon < 0.0 {
      RemSmall(lon + 360.0);
    } else {
      RemOneTurn(lon + 360.0);
    }
  }

  /** The window for a pivot in [-180, 180] (the range of atan2 in degrees):
      (pivot, pivot + 180] for 0 <= pivot < 180, (pivot + 180, pivot + 360]
      for a negative pivot, and the empty window (180, 0] for pivot 180. */
  lemma PivotWindowShape(pivot: real)
    requires -180.0 <= pivot <= 180.0
    ensures 0.0 <= pivot < 180.0 ==> PivotWindow(pivot) == (pivot, pivot + 180.0)
    ensures pivot < 0.0 ==> PivotWindow(pivot) == (pivot + 180.0, pivot + 360.0)
    ensures pivot == 180.0 ==> PivotWindow(pivot) == (180.0, 0.0)
  {
    if pivot < 0.0 {
      RemSmall(pivot + 180.0);
      RemSmall(pivot + 360.0);
    } else if pivot < 180.0 {
      RemOneTurn(pivot + 360.0);
      RemSmall(pivot + 180.0);
    } else {
      RemOneTurn(pivot + 360.0);
      RemOneTurn(pivot + 180.0);
    }
  }

  /** Whether a point of the worst cluster moves to the empty cluster. */
  predicate Moves(rule: SplitRule, p: Point)
  {
    match rule
    case ByLatitude(mean) => Less(Real(p.lat), mean)
    case ByLongitude(lo, hi) => lo < InsideAngle(p.lon) && InsideAngle(p.lon) <= hi
  }

  /** Which points a longitude split moves, for a pivot and a longitude in
      their normal ranges: the half-circle just east of the pivot. */
  lemma LongitudeSplitMoves(pivot: real, p: Point)
    requires -180.0 <= pivot <= 180.0 && -180.0 <= p.lon <= 180.0
    ensures var rule := ByLongitude(PivotWindow(pivot).0, PivotWindow(pivot).1);
      && (0.0 <= pivot < 180.0 ==> (Moves(rule, p) <==> pivot < InsideAngle(p.lon) <= pivot + 180.0))
      && (pivot < 0.0 ==> (Moves(rule, p) <==> pivot + 180.0 < InsideAngle(p.lon) <= pivot + 360.0))
      && (pivot == 180.0 ==> !Moves(rule, p))
  {
    PivotWindowShape(pivot);
    InsideAngleOfLongitude(p.lon);
  }

  /** The rule SplitWorstCluster derives from the worst cluster's points:
      split along latitude when the latitude extent is the longer one
      (measured with the distance function along the meridian and the
      equator), at the mean latitude; otherwise by the pivot window. */
  function RuleFor(dist: Distance, circMean: seq<real> -> real, s: seq<Point>): SplitRule
  {
    var latMin, latMax := MinTrack(Lats(s)), MaxTrack(Lats(s));
    var lonMin, lonMax := MinTrack(Lons(s)), MaxTrack(Lons(s));
    if dist(latMin, 0.0, latMax, 0.0) > dist(0.0, lonMin, 0.0, lonMax) then
      ByLatitude(if s == [] then NaN else Real(Sum(Lats(s)) / (|s| as real)))
    else
      var w := PivotWindow(circMean(Lons(s)));
      ByLongitude(w.0, w.1)
  }

  /** The predicate of a split, as a function value. */
  function MovesBy(rule: SplitRule): Point -> bool
  {
    (p: Point) => Moves(rule, p)
  }

  /** Its negation: the points that stay in the worst cluster. */
  function StaysBy(rule: SplitRule): Point -> bool
  {
    (p: Point) => !Moves(rule, p)
  }

  /** A split moves and keeps complementary parts: for each record r, the
      points standing for r in the two parts add up to those of s. */
  lemma SplitConserves(s: seq<Point>, rule: SplitRule, r: Record)
    ensures Count(Select(s, MovesBy(rule)), r) + Count(Select(s, StaysBy(rule)), r) == Count(s, r)
  {
    CountPartition(s, MovesBy(rule), StaysBy(rule), r);
  }

  /** The lists after SplitWorstCluster(big, empty) with the given rule: the
      points the rule moves leave big, in order, for the end of empty with
      both ids set to empty. Splitting a cluster into itself (possible only
      for an empty cluster) changes nothing. */
  function Split(lists: seq<seq<Point>>, big: nat, empty: nat, rule: SplitRule): (r: seq<seq<Point>>)
    requires big < |lists| && empty < |lists|
    ensures |r| == |lists|
  {
    if big == empty then lists
    else
      var s := lists[big];
      lists[big := Select(s, StaysBy(rule))][empty := lists[empty] + Relabel(Select(s, MovesBy(rule)), empty)]
  }

  /** A split keeps how often each record occurs. */
  lemma SplitCounts(lists: seq<seq<Point>>, big: nat, empty: nat, rule: SplitRule, r: Record)
    requires big < |lists| && empty < |lists|
    ensures Occurrences(Split(lists, big, empty, rule), r) == Occurrences(lists, r)
  {
    if big != empty {
      var s := lists[big];
      var mid := lists[big := Select(s, StaysBy(rule))];
      OccurrencesUpdate(lists, big, Select(s, StaysBy(rule)), r);
      OccurrencesUpdate(mid, empty, lists[empty] + Relabel(Select(s, MovesBy(rule)), empty), r);
      CountAppend(lists[empty], Relabel(Select(s, MovesBy(rule)), empty), r);
      CountRelabel(Select(s, MovesBy(rule)), empty, r);
      SplitConserves(s, rule, r);
    }
  }

  /** A split keeps the records the clusters hold, and so loses no point. */
  lemma SplitKeepsRecords(lists: seq<seq<Point>>, big: nat, empty: nat, rule: SplitRule)
    requires big < |lists| && empty < |lists|
    ensures Pool(Split(lists, big, empty, rule)) == Pool(lists)
    ensures Total(Split(lists, big, empty, rule)) == Total(lists)
  {
    forall r ensures Occurrences(Split(lists, big, empty, rule), r) == Occurrences(lists, r) {
      SplitCounts(lists, big, empty, rule, r);
    }
    SamePool(Split(lists, big, empty, rule), lists);
  }

  /** A split of a settled state is settled: what stays in big still
      belongs there, and what moved was relabelled to empty. */
  lemma SplitSettled(lists: seq<seq<Point>>, big: nat, empty: nat, rule: SplitRule)
    requires big < |lists| && empty < |lists|
    requires Settled(lists)
    ensures Settled(Split(lists, big, empty, rule))
  {
    if big != empty {
      var s := lists[big];
      var r: seq<seq<Point>> := Split(lists, big, empty, rule);
      assert SettledAt(lists[big], big);
      SelectMembers(s, StaysBy(rule));
      assert SettledAt(r[big], big);
      var moved := Relabel(Select(s, MovesBy(rule)), empty);
      RelabelSettled(Select(s, MovesBy(rule)), empty);
      assert SettledAt(lists[empty], empty);
      assert SettledAt(r[empty], empty) by {
        forall p: Point | p in r[empty] ensures p.currentClusterId == empty && p.newClusterId == empty {
          assert p in lists[empty] || p in moved;
        }
      }
      forall c | 0 <= c < |r| ensures SettledAt(r[c], c) {
        if c != big && c != empty {
          assert r[c] == lists[c];
        }
      }
    }
  }

  /** One more point of the split: it either stays in big or moves to empty. */
  lemma SplitStep(s: seq<Point>, k: nat, rule: SplitRule, empty: nat)
    requires k < |s|
    ensures Select(s[..k + 1], StaysBy(rule)) ==
      Select(s[..k], StaysBy(rule)) + (if Moves(rule, s[k]) then [] else [s[k]])
    ensures Relabel(Select(s[..k + 1], MovesBy(rule)), empty) ==
      Relabel(Select(s[..k], MovesBy(rule)), empty) + (if Moves(rule, s[k]) then [s[k].(currentClusterId := empty, newClusterId := empty)] else [])
  {
    assert s[..k + 1] == s[..k] + [s[k]];
    SelectSnoc(s[..k], s[k], StaysBy(rule));
    SelectSnoc(s[..k], s[k], MovesBy(rule));
    RelabelSnoc(Select(s[..k], MovesBy(rule)), s[k], empty);
  }

  /** Part-way through SplitWorstCluster's second pass, after the points t of
      the worst cluster: cluster empty has gained the points of t the rule
      moves, relabelled; every other list is as it was. */
  ghost predicate MidSplit(lists: seq<seq<Point>>, before: seq<seq<Point>>, empty: nat, rule: SplitRule, t: seq<Point>)
  {
    && |lists| == |before| && empty < |lists|
    && lists[empty] == before[empty] + Relabel(Select(t, MovesBy(rule)), empty)
    && forall c :: 0 <= c < |lists| && c != empty ==> lists[c] == before[c]
  }

  /** Before the second pass nothing has moved. */
  lemma MidSplitStart(lists: seq<seq<Point>>, empty: nat, rule: SplitRule)
    requires empty < |lists|
    ensures MidSplit(lists, lists, empty, rule, [])
  {
    assert lists[empty] + [] == lists[empty];
  }

  /** The second pass handles s[k]: a point the rule moves is appended to empty. */
  lemma MidSplitStep(lists: seq<seq<Point>>, before: seq<seq<Point>>, empty: nat, rule: SplitRule, s: seq<Point>, k: nat)
    requires k < |s| && MidSplit(lists, before, empty, rule, s[..k])
    ensures Moves(rule, s[k]) ==>
      MidSplit(lists[empty := lists[empty] + [s[k].(currentClusterId := empty, newClusterId := empty)]], before, empty, rule, s[..k + 1])
    ensures !Moves(rule, s[k]) ==> MidSplit(lists, before, empty, rule, s[..k + 1])
  {
    SplitStep(s, k, rule, empty);
  }

  /** The second pass over all of big, followed by big's list becoming what
      stayed, is the split. */
  lemma MidSplitDone(lists: seq<seq<Point>>, before: seq<seq<Point>>, big: nat, empty: nat, rule: SplitRule)
    requires big < |before| && (big != empty || before[big] == [])
    requires MidSplit(lists, before, empty, rule, before[big])
    ensures lists[big := Select(before[big], StaysBy(rule))] == Split(before, big, empty, rule)
  {
    if big == empty {
      assert lists == before;
    }
  }

  /** Not every value lies strictly below the mean of all of them. */
  lemma {:induction false} NotAllBelowMean(xs: seq<real>)
    requires xs != []
    ensures exists k :: 0 <= k < |xs| && !(xs[k] < Sum(xs) / (|xs| as real))
  {
    var mean := Sum(xs) / (|xs| as real);
    if forall k :: 0 <= k < |xs| ==> xs[k] < mean {
      SumBelow(xs, mean);
      assert false;
    }
  }

  /** If every value is below b, the sum is below |xs| * b (for non-empty xs). */
  lemma {:induction false} SumBelow(xs: seq<real>, b: real)
    requires xs != []
    requires forall k :: 0 <= k < |xs| ==> xs[k] < b
    ensures Sum(xs) < (|xs| as real) * b
  {
    var t := xs[..|xs| - 1];
    if t != [] {
      SumBelow(t, b);
    }
  }

  /** A latitude split of a non-empty cluster always leaves at least one point behind. */
  lemma LatitudeSplitKeepsOne(dist: Distance, circMean: seq<real> -> real, s: seq<Point>)
    requires s != []
    requires RuleFor(dist, circMean, s).ByLatitude?
    ensures Select(s, StaysBy(RuleFor(dist, circMean, s))) != []
  {
    var rule := RuleFor(dist, circMean, s);
    NotAllBelowMean(Lats(s));
    var k :| 0 <= k < |s| && !(Lats(s)[k] < Sum(Lats(s)) / (|s| as real));
    assert s[k] in s && StaysBy(rule)(s[k]);
    SelectKeepsMember(s, StaysBy(rule), s[k]);
  }

  /** A member that satisfies the selection is selected. */
  lemma {:induction false} SelectKeepsMember(s: seq<Point>, keep: Point -> bool, p: Point)
    requires p in s && keep(p)
    ensures p in Select(s, keep)
  {
    var t := s[..|s| - 1];
    assert s == t + [s[|s| - 1]];
    if p != s[|s| - 1] {
      SelectKeepsMember(t, keep, p);
    }
  }

  // ----- FindWorstCluster and UpdateCentroids -----

  /** The sum of the distances from s's points to a centroid. */
  function SumDist(dist: Distance, s: seq<Point>, c: Centroid): real
    requires c.lat.Real?
  {
    if s == [] then 0.0 else SumDist(dist, s[..|s| - 1], c) + DistTo(dist, s[|s| - 1], c).v
  }

  /** GetClusterTotalDistance's value: 0 for an empty cluster, NaN for a
      non-empty cluster whose centroid latitude is NaN, the sum of the
      member distances otherwise. */
  function TotalDistance(dist: Distance, s: seq<Point>, c: Centroid): Num
  {
    if s == [] then Real(0.0)
    else if c.lat.NaN? then NaN
    else Real(SumDist(dist, s, c))
  }

  /** The distance sum is additive: a list cut in two sums to the sums of
      its parts, so the total is the plain sum of the member distances,
      whatever order the loop visits them in pieces. */
  lemma {:induction false} SumDistAppend(dist: Distance, s: seq<Point>, t: seq<Point>, c: Centroid)
    requires c.lat.Real?
    ensures SumDist(dist, s + t, c) == SumDist(dist, s, c) + SumDist(dist, t, c)
  {
    if t == [] {
      assert s + t == s;
    } else {
      var u, p := t[..|t| - 1], t[|t| - 1];
      assert (s + t)[..|s + t| - 1] == s + u;
      assert (s + t)[|s + t| - 1] == p;
      SumDistAppend(dist, s, u, c);
    }
  }

  /** A single member contributes its own distance to the centroid. */
  lemma SumDistSingle(dist: Distance, p: Point, c: Centroid)
    requires c.lat.Real?
    ensures SumDist(dist, [p], c) == dist(p.lat, p.lon, c.lat.v, c.lon)
  {
    assert [p][..0] == [];
  }

  /** GetClusterTotalDistance for every cluster, in order. */
  function Totals(dist: Distance, lists: seq<seq<Point>>, cents: seq<Centroid>): (r: seq<Num>)
    requires |cents| == |lists|
    ensures |r| == |lists|
    ensures forall c :: 0 <= c < |lists| ==> r[c] == TotalDistance(dist, lists[c], cents[c])
  {
    seq(|lists|, c requires 0 <= c < |lists| => TotalDistance(dist, lists[c], cents[c]))
  }

  /** What FindWorstCluster compares: an empty cluster totals 0, and a total
      is NaN exactly when its cluster has a point and a NaN centroid
      latitude (the NaN that an emptied cluster's centroid carries). */
  lemma TotalsNaN(dist: Distance, lists: seq<seq<Point>>, cents: seq<Centroid>, c: int)
    requires |cents| == |lists| && 0 <= c < |lists|
    ensures lists[c] == [] ==> Totals(dist, lists, cents)[c] == Real(0.0)
    ensures Totals(dist, lists, cents)[c].NaN? <==> lists[c] != [] && cents[c].lat.NaN?
  {
  }

  /** Whether FindWorstCluster's answer w over the totals is right: the
      lowest index whose total is a number strictly above 0 and at least
      every numeric total, or 0 when no total is above 0. */
  ghost predicate IsWorst(totals: seq<Num>, w: int)
  {
    && 0 <= w < |totals|
    && ((forall c :: 0 <= c < |totals| ==> !Less(Real(0.0), totals[c])) ==> w == 0)
    && ((exists c :: 0 <= c < |totals| && Less(Real(0.0), totals[c])) ==>
          && Less(Real(0.0), totals[w])
          && (forall c :: 0 <= c < |totals| && totals[c].Real? ==> totals[c].v <= totals[w].v)
          && (forall c :: 0 <= c < w && totals[c].Real? ==> totals[c].v < totals[w].v))
  }

  /** There is only one right answer. */
  lemma WorstIsUnique(totals: seq<Num>, w1: int, w2: int)
    requires IsWorst(totals, w1) && IsWorst(totals, w2)
    ensures w1 == w2
  {
  }

  /** The centroid UpdateCentroids computes for a list: mean latitude (NaN
      for an empty list, 0/0) and the circular mean of the longitudes
      (0 for an empty list, atan2(0, 0)). */
  function CentroidOf(circMean: seq<real> -> real, s: seq<Point>): Centroid
  {
    if s == [] then Centroid(NaN, 0.0)
    else Centroid(Real(Sum(Lats(s)) / (|s| as real)), circMean(Lons(s)))
  }

  /** The centroids UpdateCentroids computes for all clusters. */
  function CentroidsOf(circMean: seq<real> -> real, lists: seq<seq<Point>>): (r: seq<Centroid>)
    ensures |r| == |lists|
  {
    seq(|lists|, c requires 0 <= c < |lists| => CentroidOf(circMean, lists[c]))
  }

  /** Every non-empty cluster has a numeric centroid; an empty one has NaN. */
  lemma CentroidsDefined(circMean: seq<real> -> real, lists: seq<seq<Point>>)
    ensures forall c :: 0 <= c < |lists| ==> (lists[c] != [] <==> CentroidsOf(circMean, lists)[c].lat.Real?)
  {
  }

  /** The mean latitude of a non-empty cluster lies between its smallest and largest latitude. */
  lemma MeanLatitudeBetween(circMean: seq<real> -> real, s: seq<Point>)
    requires s != []
    ensures CentroidOf(circMean, s).lat.Real?
    ensures exists i :: 0 <= i < |s| && s[i].lat <= CentroidOf(circMean, s).lat.v
    ensures exists i :: 0 <= i < |s| && CentroidOf(circMean, s).lat.v <= s[i].lat
  {
    var xs := Lats(s);
    var mean := Sum(xs) / (|s| as real);
    NotAllBelowMean(xs);
    var hi :| 0 <= hi < |xs| && !(xs[hi] < mean);
    NotAllAboveMean(xs);
    var lo :| 0 <= lo < |xs| && !(xs[lo] > mean);
    assert s[lo].lat <= mean && mean <= s[hi].lat;
  }

  /** Not every value lies strictly above the mean of all of them. */
  lemma {:induction false} NotAllAboveMean(xs: seq<real>)
    requires xs != []
    ensures exists k :: 0 <= k < |xs| && !(xs[k] > Sum(xs) / (|xs| as real))
  {
    var mean := Sum(xs) / (|xs| as real);
    if forall k :: 0 <= k < |xs| ==> xs[k] > mean {
      SumAbove(xs, mean);
      assert false;
    }
  }

  lemma {:induction false} SumAbove(xs: seq<real>, b: real)
    requires xs != []
    requires forall k :: 0 <= k < |xs| ==> xs[k] > b
    ensures Sum(xs) > (|xs| as real) * b
  {
    var t := xs[..|xs| - 1];
    if t != [] {
      SumAbove(t, b);
    }
  }

  /** Relabelling aside, a merge routes the points one by one. */
  lemma MergedIntoSnoc(dist: Distance, t: seq<Point>, p: Point, cents: seq<Centroid>, mask: seq<bool>, j: int)
    requires |cents| == |mask|
    ensures MergedInto(dist, t + [p], cents, mask, j) == MergedInto(dist, t, cents, mask, j) +
      (if Nearest(dist, p, cents, mask) == j then [p.(currentClusterId := j, newClusterId := j)] else [])
  {
    var f := RoutedTo(dist, cents, mask, j);
    SelectSnoc(t, p, f);
    RelabelSnoc(Select(t, f), p, j);
  }

  /** Centroids look at coordinates only: lists that differ in cluster ids alone have the same centroid. */
  lemma CentroidIgnoresIds(circMean: seq<real> -> real, s: seq<Point>, t: seq<Point>)
    requires |s| == |t|
    requires forall k :: 0 <= k < |s| ==> s[k].lat == t[k].lat && s[k].lon == t[k].lon
    ensures CentroidOf(circMean, s) == CentroidOf(circMean, t)
  {
    assert Lats(s) == Lats(t);
    assert Lons(s) == Lons(t);
  }

  // ----- findNearestDatPoint -----

  /** s[k] is the member findNearestDatPoint reports: the first at the least
      distance from a numeric centroid. */
  ghost predicate NearestMemberAt(dist: Distance, s: seq<Point>, cent: Centroid, k: int)
  {
    && 0 <= k < |s|
    && cent.lat.Real?
    && (forall j :: 0 <= j < |s| ==> DistTo(dist, s[k], cent).v <= DistTo(dist, s[j], cent).v)
    && (forall j :: 0 <= j < k ==> DistTo(dist, s[k], cent).v < DistTo(dist, s[j], cent).v)
  }

  /** The point findNearestDatPoint returns for a cluster: the placeholder
      DataPoint(0, 0, 0) when the cluster is empty or its centroid is NaN,
      otherwise the nearest member. */
  ghost predicate IsSite(dist: Distance, s: seq<Point>, cent: Centroid, r: Point)
  {
    && (s == [] || cent.lat.NaN? ==> r == Point(0, 0.0, 0.0, 0, 0))
    && (s != [] && cent.lat.Real? ==> exists k :: NearestMemberAt(dist, s, cent, k) && r == s[k])
  }

  // ----- UpdateEmptyCluster -----

  /** FindWorstCluster's scan over clusters 0..n-1 as it is written: the
      index kept so far and the largest total seen, starting from (0, 0.0)
      and moving on only to a strictly larger total. */
  function WorstScan(totals: seq<Num>, n: nat): (r: (nat, Num))
    requires n <= |totals|
    ensures r.0 < n || r.0 == 0
  {
    if n == 0 then (0, Real(0.0))
    else
      var prev := WorstScan(totals, n - 1);
      if Less(prev.1, totals[n - 1]) then (n - 1, totals[n - 1]) else prev
  }

  /** The cluster FindWorstCluster picks. */
  function WorstOf(totals: seq<Num>): (w: nat)
    ensures totals != [] ==> w < |totals|
  {
    WorstScan(totals, |totals|).0
  }

  /** What the scan knows after n clusters. */
  lemma {:induction false} WorstScanSoFar(totals: seq<Num>, n: nat)
    requires n <= |totals|
    ensures var (w, worst) := WorstScan(totals, n);
      && (w < n || w == 0)
      && worst.Real? && worst.v >= 0.0
      && (worst.v == 0.0 ==> w == 0 && forall c :: 0 <= c < n ==> !Less(Real(0.0), totals[c]))
      && (worst.v > 0.0 ==> w < n && totals[w] == worst)
      && (forall c :: 0 <= c < n && totals[c].Real? ==> totals[c].v <= worst.v)
      && (forall c :: 0 <= c < w && totals[c].Real? ==> totals[c].v < worst.v)
  {
    if n > 0 {
      WorstScanSoFar(totals, n - 1);
    }
  }

  /** The scan finds the worst cluster. */
  lemma WorstOfIsWorst(totals: seq<Num>)
    requires totals != []
    ensures IsWorst(totals, WorstOf(totals))
  {
    WorstScanSoFar(totals, |totals|);
  }

  /** The outcome of UpdateEmptyCluster from some cluster on: the repaired
      lists, or the cluster whose merge made the program exit. */
  datatype Pass = Repaired(lists: seq<seq<Point>>) | Exited(at: nat)

  /** One iteration of UpdateEmptyCluster, for cluster i: a cluster with
      fewer than M points is merged away; a cluster that is then empty
      receives part of the worst cluster. */
  function RepairStep(dist: Distance, circMean: seq<real> -> real, M: nat,
                      lists: seq<seq<Point>>, cents: seq<Centroid>, i: nat): (r: Pass)
    requires |cents| == |lists| && i < |lists|
    ensures r.Repaired? ==> |r.lists| == |lists|
  {
    if |lists[i]| < M && MergeFails(lists, cents, i, M) then Exited(i)
    else
      var m := if |lists[i]| < M then Merged(dist, lists, cents, i, M) else lists;
      if m[i] == [] then
        var w := WorstOf(Totals(dist, m, cents));
        Repaired(Split(m, w, i, RuleFor(dist, circMean, m[w])))
      else Repaired(m)
  }

  /** UpdateEmptyCluster from cluster i on. */
  function RepairFrom(dist: Distance, circMean: seq<real> -> real, M: nat,
                      lists: seq<seq<Point>>, cents: seq<Centroid>, i: nat): Pass
    requires |cents| == |lists|
    decreases |lists| - i
  {
    if i >= |lists| then Repaired(lists)
    else match RepairStep(dist, circMean, M, lists, cents, i)
      case Exited(j) => Exited(j)
      case Repaired(next) => RepairFrom(dist, circMean, M, next, cents, i + 1)
  }

  /** One repair step keeps the records the clusters hold (so loses no
      point) and leaves a settled state settled. */
  lemma RepairStepKeeps(dist: Distance, circMean: seq<real> -> real, M: nat,
                        lists: seq<seq<Point>>, cents: seq<Centroid>, i: nat)
    requires BelowSentinel(dist)
    requires |cents| == |lists| && i < |lists|
    requires Settled(lists)
    ensures var r := RepairStep(dist, circMean, M, lists, cents, i);
      r.Repaired? ==> Settled(r.lists) && Pool(r.lists) == Pool(lists) && Total(r.lists) == Total(lists)
  {
    if !(|lists[i]| < M && MergeFails(lists, cents, i, M)) {
      var m := if |lists[i]| < M then Merged(dist, lists, cents, i, M) else lists;
      if |lists[i]| < M {
        MergedKeeps(dist, lists, cents, i, M);
      }
      if m[i] == [] {
        var w := WorstOf(Totals(dist, m, cents));
        WorstOfIsWorst(Totals(dist, m, cents));
        SplitKeepsRecords(m, w, i, RuleFor(dist, circMean, m[w]));
        SplitSettled(m, w, i, RuleFor(dist, circMean, m[w]));
      }
    }
  }

  /** UpdateEmptyCluster keeps the records the clusters hold (so loses no
      point) and leaves a settled state settled, unless a merge makes the
      program exit. */
  lemma {:induction false} RepairKeeps(dist: Distance, circMean: seq<real> -> real, M: nat,
                                       lists: seq<seq<Point>>, cents: seq<Centroid>, i: nat)
    requires BelowSentinel(dist)
    requires |cents| == |lists|
    requires Settled(lists)
    ensures var r := RepairFrom(dist, circMean, M, lists, cents, i);
      r.Repaired? ==> Settled(r.lists) && Pool(r.lists) == Pool(lists) && Total(r.lists) == Total(lists)
    decreases |lists| - i
  {
    if i < |lists| {
      RepairStepKeeps(dist, circMean, M, lists, cents, i);
      var step := RepairStep(dist, circMean, M, lists, cents, i);
      if step.Repaired? {
        RepairKeeps(dist, circMean, M, step.lists, cents, i + 1);
      }
    }
  }
}
