/**
 * Choosing a cluster for a point (the nearest-centroid scan shared by
 * findBestClusters and MergeCluster) and the membership moves that
 * UpdateClusters performs, as functions on values with their lemmas.
 */
module Assignment {
  import opened Geo

  /** Which clusters a scan considers: every index except skip whose list
      holds at least minSize points (findBestClusters: skip -1, minSize 1;
      MergeCluster: skip the merged cluster, minSize M). */
  function Eligible(lists: seq<seq<Point>>, skip: int, minSize: nat): (mask: seq<bool>)
    ensures |mask| == |lists|
    ensures forall j :: 0 <= j < |lists| ==> (mask[j] <==> j != skip && |lists[j]| >= minSize)
  {
    seq(|lists|, j requires 0 <= j < |lists| => j != skip && |lists[j]| >= minSize)
  }

  /** findBestClusters considers exactly the non-empty clusters. */
  lemma EligibleNonEmpty(lists: seq<seq<Point>>, j: int)
    requires 0 <= j < |lists|
    ensures Eligible(lists, -1, 1)[j] <==> lists[j] != []
  {
  }

  /** The index a left-to-right scan over clusters 0..n-1 settles on, starting
      from -1 at distance Double.MAX_VALUE and taking a cluster only when it
      is strictly closer than the best so far. */
  function Scan(dist: Distance, p: Point, cents: seq<Centroid>, mask: seq<bool>, n: nat): (r: int)
    requires n <= |cents| && n <= |mask|
    ensures -1 <= r < n
  {
    if n == 0 then -1
    else
      var b := Scan(dist, p, cents, mask, n - 1);
      var best := if b == -1 then Real(MaxDouble) else DistTo(dist, p, cents[b]);
      if mask[n - 1] && Less(DistTo(dist, p, cents[n - 1]), best) then n - 1 else b
  }

  /** The cluster chosen for p among all clusters. */
  function Nearest(dist: Distance, p: Point, cents: seq<Centroid>, mask: seq<bool>): int
    requires |cents| == |mask|
  {
    Scan(dist, p, cents, mask, |mask|)
  }

  /** Cluster j can win a scan: it is eligible and its distance is a number below the sentinel. */
  ghost predicate Candidate(dist: Distance, p: Point, cents: seq<Centroid>, mask: seq<bool>, j: int)
    requires 0 <= j < |cents| && j < |mask|
  {
    mask[j] && Less(DistTo(dist, p, cents[j]), Real(MaxDouble))
  }

  /** The scan returns -1 exactly when no cluster is a candidate; otherwise it
      returns a candidate at minimal distance, and the lowest such index. */
  lemma {:induction false} ScanIsFirstArgmin(dist: Distance, p: Point, cents: seq<Centroid>, mask: seq<bool>, n: nat)
    requires n <= |cents| && n <= |mask|
    ensures var r := Scan(dist, p, cents, mask, n);
      && (r == -1 <==> forall j :: 0 <= j < n ==> !Candidate(dist, p, cents, mask, j))
      && (r != -1 ==>
            && Candidate(dist, p, cents, mask, r)
            && (forall j :: 0 <= j < n && Candidate(dist, p, cents, mask, j) ==>
                  DistTo(dist, p, cents[r]).v <= DistTo(dist, p, cents[j]).v)
            && (forall j :: 0 <= j < r && Candidate(dist, p, cents, mask, j) ==>
                  DistTo(dist, p, cents[r]).v < DistTo(dist, p, cents[j]).v))
  {
    if n > 0 {
      ScanIsFirstArgmin(dist, p, cents, mask, n - 1);
      var b := Scan(dist, p, cents, mask, n - 1);
      if b != -1 {
        assert Candidate(dist, p, cents, mask, b);
      }
      if Candidate(dist, p, cents, mask, n - 1) && b == -1 {
        assert Scan(dist, p, cents, mask, n) == n - 1;
      }
    }
  }

  /** With distances below the sentinel, the candidates are exactly the
      eligible clusters whose centroid latitude is a number. */
  lemma CandidateIffDefined(dist: Distance, p: Point, cents: seq<Centroid>, mask: seq<bool>, j: int)
    requires BelowSentinel(dist)
    requires 0 <= j < |cents| && j < |mask|
    ensures Candidate(dist, p, cents, mask, j) <==> mask[j] && cents[j].lat.Real?
  {
    if cents[j].lat.Real? {
      assert dist(p.lat, p.lon, cents[j].lat.v, cents[j].lon) < MaxDouble;
    }
  }

  /** findBestClusters never yields -1 for a point whose own cluster is
      non-empty and has a numeric centroid: the choice is a valid index. */
  lemma {:induction false} NearestOfMember(dist: Distance, p: Point, lists: seq<seq<Point>>, cents: seq<Centroid>, c: int)
    requires BelowSentinel(dist)
    requires |cents| == |lists| && 0 <= c < |lists|
    requires |lists[c]| > 0 && cents[c].lat.Real?
    ensures 0 <= Nearest(dist, p, cents, Eligible(lists, -1, 1)) < |lists|
  {
    var mask := Eligible(lists, -1, 1);
    ScanIsFirstArgmin(dist, p, cents, mask, |mask|);
    CandidateIffDefined(dist, p, cents, mask, c);
  }

  /** With distances below the sentinel, whether a scan finds a cluster does
      not depend on the point. */
  lemma {:induction false} ScanFailsForAllOrNone(dist: Distance, p: Point, q: Point, cents: seq<Centroid>, mask: seq<bool>)
    requires BelowSentinel(dist)
    requires |cents| == |mask|
    ensures Nearest(dist, p, cents, mask) == -1 <==> Nearest(dist, q, cents, mask) == -1
    ensures Nearest(dist, p, cents, mask) == -1 <==> forall j :: 0 <= j < |mask| ==> !(mask[j] && cents[j].lat.Real?)
  {
    ScanIsFirstArgmin(dist, p, cents, mask, |mask|);
    ScanIsFirstArgmin(dist, q, cents, mask, |mask|);
    forall j | 0 <= j < |mask|
      ensures Candidate(dist, p, cents, mask, j) <==> mask[j] && cents[j].lat.Real?
      ensures Candidate(dist, q, cents, mask, j) <==> mask[j] && cents[j].lat.Real?
    {
      CandidateIffDefined(dist, p, cents, mask, j);
      CandidateIffDefined(dist, q, cents, mask, j);
    }
  }

  /** The scan looks only at a point's coordinates, never at its cluster ids. */
  lemma {:induction false} ScanIgnoresIds(dist: Distance, p: Point, q: Point, cents: seq<Centroid>, mask: seq<bool>, n: nat)
    requires n <= |cents| && n <= |mask|
    requires p.lat == q.lat && p.lon == q.lon
    ensures Scan(dist, p, cents, mask, n) == Scan(dist, q, cents, mask, n)
  {
    if n > 0 {
      ScanIgnoresIds(dist, p, q, cents, mask, n - 1);
    }
  }

  /** The mask depends on the list sizes only. */
  lemma EligibleBySize(a: seq<seq<Point>>, b: seq<seq<Point>>, skip: int, minSize: nat)
    requires |a| == |b|
    requires forall c :: 0 <= c < |a| ==> |a[c]| == |b[c]|
    ensures Eligible(a, skip, minSize) == Eligible(b, skip, minSize)
  {
  }

  /** A cluster the scan picks is one it was allowed to pick. */
  lemma NearestIsEligible(dist: Distance, p: Point, cents: seq<Centroid>, mask: seq<bool>)
    requires |cents| == |mask|
    ensures var j := Nearest(dist, p, cents, mask); j == -1 || (0 <= j < |mask| && mask[j])
  {
    ScanIsFirstArgmin(dist, p, cents, mask, |mask|);
  }

  /** Changing the skipped list, or growing a list that was already large
      enough, leaves the mask as it was. */
  lemma EligibleUnchanged(lists: seq<seq<Point>>, skip: int, minSize: nat, c: int, x: seq<Point>)
    requires 0 <= c < |lists|
    requires c == skip || (|lists[c]| >= minSize && |x| >= minSize)
    ensures Eligible(lists[c := x], skip, minSize) == Eligible(lists, skip, minSize)
  {
  }

  // ----- findBestClusters -----

  /** A list after findBestClusters: every point's pending id set to the
      cluster the scan picks for it. */
  function Retarget(dist: Distance, s: seq<Point>, cents: seq<Centroid>, mask: seq<bool>): (r: seq<Point>)
    requires |cents| == |mask|
    ensures |r| == |s|
  {
    seq(|s|, k requires 0 <= k < |s| => s[k].(newClusterId := Nearest(dist, s[k], cents, mask)))
  }

  /** All lists after findBestClusters, which scans among the non-empty clusters. */
  function RetargetAll(dist: Distance, lists: seq<seq<Point>>, cents: seq<Centroid>): (r: seq<seq<Point>>)
    requires |cents| == |lists|
    ensures |r| == |lists|
  {
    seq(|lists|, c requires 0 <= c < |lists| => Retarget(dist, lists[c], cents, Eligible(lists, -1, 1)))
  }

  /** When every non-empty cluster has a numeric centroid, findBestClusters
      keeps every point in its list and gives it a pending id that names a
      cluster: what UpdateClusters relies on. */
  lemma RetargetAllInRange(dist: Distance, lists: seq<seq<Point>>, cents: seq<Centroid>)
    requires BelowSentinel(dist)
    requires |cents| == |lists|
    requires Placed(lists)
    requires forall c :: 0 <= c < |lists| && lists[c] != [] ==> cents[c].lat.Real?
    ensures Placed(RetargetAll(dist, lists, cents))
    ensures TargetsInRange(RetargetAll(dist, lists, cents))
  {
    var r: seq<seq<Point>> := RetargetAll(dist, lists, cents);
    forall c, k | 0 <= c < |r| && 0 <= k < |r[c]|
      ensures 0 <= r[c][k].newClusterId < |r|
    {
      NearestOfMember(dist, lists[c][k], lists, cents, c);
    }
  }

  /** findBestClusters only sets pending ids: every list keeps its points'
      records, in order, so the clusters hold the same records as before. */
  lemma RetargetAllKeepsRecords(dist: Distance, lists: seq<seq<Point>>, cents: seq<Centroid>)
    requires |cents| == |lists|
    ensures Pool(RetargetAll(dist, lists, cents)) == Pool(lists)
    ensures Total(RetargetAll(dist, lists, cents)) == Total(lists)
  {
    var r := RetargetAll(dist, lists, cents);
    forall x ensures Occurrences(r, x) == Occurrences(lists, x) {
      forall c | 0 <= c < |r| ensures Count(r[c], x) == Count(lists[c], x) {
        CountAlike(r[c], lists[c], x);
      }
      OccurrencesAlike(r, lists, x);
    }
    SamePool(r, lists);
  }

  /** A fixed point of findBestClusters: every point's scan picks its own cluster. */
  ghost predicate Stable(dist: Distance, lists: seq<seq<Point>>, cents: seq<Centroid>)
    requires |cents| == |lists|
  {
    forall c, k :: 0 <= c < |lists| && 0 <= k < |lists[c]| ==>
      Nearest(dist, lists[c][k], cents, Eligible(lists, -1, 1)) == c
  }

  /** If findBestClusters leaves no pending move, the lists were a fixed point. */
  lemma NoMoversMeansStable(dist: Distance, lists: seq<seq<Point>>, cents: seq<Centroid>)
    requires |cents| == |lists|
    requires Placed(lists)
    requires !HasMovers(RetargetAll(dist, lists, cents))
    ensures Stable(dist, RetargetAll(dist, lists, cents), cents)
  {
    var r: seq<seq<Point>> := RetargetAll(dist, lists, cents);
    EligibleBySize(r, lists, -1, 1);
    forall c, k | 0 <= c < |r| && 0 <= k < |r[c]|
      ensures Nearest(dist, r[c][k], cents, Eligible(r, -1, 1)) == c
    {
      ScanIgnoresIds(dist, r[c][k], lists[c][k], cents, Eligible(lists, -1, 1), |lists|);
      assert r[c][k].currentClusterId == r[c][k].newClusterId;
    }
  }

  // ----- UpdateClusters -----

  /** A point whose ids agree: UpdateClusters leaves it in place. */
  predicate Stays(p: Point)
  {
    p.currentClusterId == p.newClusterId
  }

  /** A point with a pending move to cluster c. */
  function HeadsTo(c: int): Point -> bool
  {
    (p: Point) => p.currentClusterId != p.newClusterId && p.newClusterId == c
  }

  /** The points UpdateClusters leaves in a list, in order. */
  function Kept(s: seq<Point>): seq<Point>
  {
    Select(s, Stays)
  }

  /** The points of s that move into cluster c, as they arrive there. */
  function MovedInto(s: seq<Point>, c: int): seq<Point>
  {
    Relabel(Select(s, HeadsTo(c)), c)
  }

  /** Everything moved into cluster c out of lists 0..n-1, in the order of the sweep. */
  function Arrivals(lists: seq<seq<Point>>, c: int, n: nat): seq<Point>
    requires n <= |lists|
  {
    if n == 0 then [] else Arrivals(lists, c, n - 1) + MovedInto(lists[n - 1], c)
  }

  /** Some point has a pending move. */
  ghost predicate HasMovers(lists: seq<seq<Point>>)
  {
    exists c :: 0 <= c < |lists| && MoverIn(lists[c])
  }

  /** Some point of lists 0..n-1 has a pending move, cluster by cluster. */
  ghost predicate MoversBelow(lists: seq<seq<Point>>, n: nat)
    requires n <= |lists|
  {
    n > 0 && (MoversBelow(lists, n - 1) || MoverIn(lists[n - 1]))
  }

  /** Asking cluster by cluster finds a mover exactly when there is one. */
  lemma {:induction false} MoversBelowIff(lists: seq<seq<Point>>, n: nat)
    requires n <= |lists|
    ensures MoversBelow(lists, n) <==> exists c :: 0 <= c < n && MoverIn(lists[c])
  {
    if n > 0 {
      MoversBelowIff(lists, n - 1);
    }
  }

  /** Some point of s has a pending move. */
  ghost predicate MoverIn(s: seq<Point>)
  {
    exists k :: 0 <= k < |s| && s[k].currentClusterId != s[k].newClusterId
  }

  /** Every pending cluster id names one of the clusters. */
  ghost predicate TargetsInRange(lists: seq<seq<Point>>)
  {
    forall c, k :: 0 <= c < |lists| && 0 <= k < |lists[c]| ==>
      0 <= lists[c][k].newClusterId < |lists|
  }

  /** Everything that arrives in cluster c has both ids equal to c. */
  lemma {:induction false} ArrivalsSettled(lists: seq<seq<Point>>, c: int, n: nat)
    requires n <= |lists|
    ensures forall p :: p in Arrivals(lists, c, n) ==> p.currentClusterId == c && p.newClusterId == c
  {
    if n > 0 {
      ArrivalsSettled(lists, c, n - 1);
      var m := MovedInto(lists[n - 1], c);
      forall p | p in m ensures p.currentClusterId == c && p.newClusterId == c {
        var k :| 0 <= k < |m| && m[k] == p;
      }
    }
  }

  /** The points a cluster keeps have both ids equal to its index. */
  lemma KeptSettled(s: seq<Point>, c: int)
    requires forall p :: p in s ==> p.currentClusterId == c
    ensures forall p :: p in Kept(s) ==> p.currentClusterId == c && p.newClusterId == c
  {
    SelectMembers(s, Stays);
  }

  /** Nothing of a placed list is moved into its own cluster. */
  lemma MovedIntoSelf(s: seq<Point>, c: int)
    requires forall p :: p in s ==> p.currentClusterId == c
    ensures MovedInto(s, c) == []
  {
    SelectNone(s, HeadsTo(c));
  }

  /** A list of settled points is kept whole and sends nothing anywhere. */
  lemma SettledStays(s: seq<Point>, c: int)
    requires forall p :: p in s ==> p.currentClusterId == p.newClusterId
    ensures Kept(s) == s
    ensures MovedInto(s, c) == []
  {
    SelectAll(s, Stays);
    SelectNone(s, HeadsTo(c));
  }

  /** Without pending moves, nothing arrives anywhere. */
  lemma {:induction false} NoArrivals(lists: seq<seq<Point>>, c: int, n: nat)
    requires n <= |lists|
    requires !HasMovers(lists)
    ensures Arrivals(lists, c, n) == []
  {
    if n > 0 {
      NoArrivals(lists, c, n - 1);
      forall p | p in lists[n - 1] ensures p.currentClusterId == p.newClusterId {
        var k :| 0 <= k < |lists[n - 1]| && lists[n - 1][k] == p;
      }
      SettledStays(lists[n - 1], c);
    }
  }

  /** UpdateClusters' result when no point has a pending move: every list as it was. */
  lemma NoMoversNoChange(lists: seq<seq<Point>>, c: nat)
    requires c < |lists|
    requires !HasMovers(lists)
    ensures Kept(lists[c]) + Arrivals(lists, c, |lists|) == lists[c]
  {
    NoArrivals(lists, c, |lists|);
    forall p | p in lists[c] ensures p.currentClusterId == p.newClusterId {
      var k :| 0 <= k < |lists[c]| && lists[c][k] == p;
    }
    SettledStays(lists[c], c);
  }

  /** A point leaves its list or stays, never both: the points of s standing
      for record r that s keeps, together with those it moves into clusters
      0..n-1, are all the points of s standing for r, when every pending id
      is below n. */
  lemma {:induction false} MovesAccountForAll(s: seq<Point>, n: nat, r: Record)
    requires forall p :: p in s ==> 0 <= p.newClusterId < n
    ensures Count(Kept(s), r) + MovedCount(s, n, r) == Count(s, r)
  {
    if s != [] {
      var t, p := s[..|s| - 1], s[|s| - 1];
      assert s == t + [p];
      MovesAccountForAll(t, n, r);
      MovesAccountStep(t, p, n, r);
    } else {
      MovedCountEmpty(n, r);
    }
  }

  /** One more point of the list is either kept or moved into a cluster below n. */
  lemma MovesAccountStep(t: seq<Point>, p: Point, n: nat, r: Record)
    requires 0 <= p.newClusterId < n
    requires Count(Kept(t), r) + MovedCount(t, n, r) == Count(t, r)
    ensures Count(Kept(t + [p]), r) + MovedCount(t + [p], n, r) == Count(t + [p], r)
  {
    SelectSnoc(t, p, Stays);
    MovedCountSnoc(t, p, n, r);
    CountSnoc(t, p, r);
    if Stays(p) {
      assert Kept(t + [p]) == Kept(t) + [p];
      CountSnoc(Kept(t), p, r);
    } else {
      assert Kept(t + [p]) == Kept(t);
    }
  }

  lemma {:induction false} MovedCountEmpty(n: nat, r: Record)
    ensures MovedCount([], n, r) == 0
  {
    if n > 0 {
      MovedCountEmpty(n - 1, r);
      assert MovedInto([], n - 1) == [];
    }
  }

  /** How many points of s standing for r move into clusters 0..n-1. */
  function MovedCount(s: seq<Point>, n: nat, r: Record): nat
  {
    SizeSum(c => Count(MovedInto(s, c), r), n)
  }

  lemma {:induction false} MovedCountSnoc(t: seq<Point>, p: Point, n: nat, r: Record)
    ensures MovedCount(t + [p], n, r) == MovedCount(t, n, r) + MoveOf(p, n, r)
  {
    if n > 0 {
      MovedCountSnoc(t, p, n - 1, r);
      MovedCountSnocStep(t, p, n, r);
    }
  }

  /** 1 when p stands for r and moves into one of clusters 0..n-1, else 0. */
  function MoveOf(p: Point, n: nat, r: Record): nat
  {
    if !Stays(p) && 0 <= p.newClusterId < n && RecordOf(p) == r then 1 else 0
  }

  lemma MovedCountSnocStep(t: seq<Point>, p: Point, n: nat, r: Record)
    requires n > 0
    requires MovedCount(t + [p], n - 1, r) == MovedCount(t, n - 1, r) + MoveOf(p, n - 1, r)
    ensures MovedCount(t + [p], n, r) == MovedCount(t, n, r) + MoveOf(p, n, r)
  {
    MovedIntoSnoc(t, p, n - 1);
    if HeadsTo(n - 1)(p) {
      var q := p.(currentClusterId := n - 1, newClusterId := n - 1);
      CountSnoc(MovedInto(t, n - 1), q, r);
      assert RecordOf(q) == RecordOf(p);
    } else {
      assert MovedInto(t + [p], n - 1) == MovedInto(t, n - 1);
    }
  }

  /** Appending one point to a list extends what it sends to cluster c by that point, if it heads there. */
  lemma MovedIntoSnoc(s: seq<Point>, p: Point, c: int)
    ensures MovedInto(s + [p], c) ==
      MovedInto(s, c) + (if HeadsTo(c)(p) then [p.(currentClusterId := c, newClusterId := c)] else [])
  {
    SelectSnoc(s, p, HeadsTo(c));
  }

  /** A settled tail appended to a list changes neither what the sweep keeps
      of the rest nor what it moves: it is kept whole. */
  lemma SettledTailInert(s: seq<Point>, a: seq<Point>, c: int)
    requires SettledAt(a, c)
    ensures Kept(s + a) == Kept(s) + a
    ensures forall d :: MovedInto(s + a, d) == MovedInto(s, d)
    ensures MoverIn(s + a) <==> MoverIn(s)
  {
    SelectAppend(s, a, Stays);
    SelectAll(a, Stays);
    forall d ensures MovedInto(s + a, d) == MovedInto(s, d) {
      SelectAppend(s, a, HeadsTo(d));
      SelectNone(a, HeadsTo(d));
    }
    if MoverIn(s + a) {
      var k :| 0 <= k < |s + a| && (s + a)[k].currentClusterId != (s + a)[k].newClusterId;
    }
    if MoverIn(s) {
      var k :| 0 <= k < |s| && s[k].currentClusterId != s[k].newClusterId;
      assert (s + a)[k] == s[k];
    }
  }

  /** The lists UpdateClusters leaves: every list keeps the points that
      stay, followed by what moved into it, cluster by cluster in index order. */
  function Sweep(L: seq<seq<Point>>): (r: seq<seq<Point>>)
    ensures |r| == |L|
  {
    seq(|L|, c requires 0 <= c < |L| => Kept(L[c]) + Arrivals(L, c, |L|))
  }

  /** The lists once the sweep has handled clusters 0..i-1 of L. */
  function SweptState(L: seq<seq<Point>>, i: nat): (r: seq<seq<Point>>)
    requires i <= |L|
    ensures |r| == |L|
  {
    seq(|L|, c requires 0 <= c < |L| => (if c < i then Kept(L[c]) else L[c]) + Arrivals(L, c, i))
  }

  /** Handling cluster i: it keeps what stays and sends the rest on. */
  lemma SweptStateStep(L: seq<seq<Point>>, i: nat)
    requires i < |L| && Placed(L)
    ensures var cur, next := SweptState(L, i), SweptState(L, i + 1);
      next[i] == Kept(cur[i]) && MidSweep(next, cur, i, cur[i])
  {
    var cur, next := SweptState(L, i), SweptState(L, i + 1);
    ArrivalsSettled(L, i, i);
    var A := Arrivals(L, i, i);
    SettledTailInert(L[i], A, i);
    forall p | p in L[i] ensures p.currentClusterId == i {
      var k :| 0 <= k < |L[i]| && L[i][k] == p;
    }
    MovedIntoSelf(L[i], i);
    assert cur[i] == L[i] + A;
    assert next[i] == Kept(L[i]) + (A + MovedInto(L[i], i));
    forall c | 0 <= c < |L| && c != i
      ensures next[c] == cur[c] + MovedInto(cur[i], c)
    {
      var head := if c < i then Kept(L[c]) else L[c];
      assert next[c] == head + (Arrivals(L, c, i) + MovedInto(L[i], c));
      AppendAssoc(head, Arrivals(L, c, i), MovedInto(L[i], c));
    }
  }

  /** When the sweep reaches cluster i, every point there belongs to i and
      heads for a cluster; it has a pending move exactly when L[i] has one. */
  lemma SweptStateReady(L: seq<seq<Point>>, i: nat)
    requires i < |L| && Placed(L) && TargetsInRange(L)
    ensures var x := SweptState(L, i)[i];
      && (forall k :: 0 <= k < |x| ==> x[k].currentClusterId == i && 0 <= x[k].newClusterId < |L|)
      && (MoverIn(x) <==> MoverIn(L[i]))
  {
    var cur := SweptState(L, i);
    assert Swept(cur, L, i) by {
      forall c | 0 <= c < |L| ensures SweptAt(cur[c], L, i, c) {
      }
    }
    SweptReady(cur, L, i);
  }

  /** Handling cluster i as the sweep does leads to the next state. */
  lemma SweptStateNext(L: seq<seq<Point>>, i: nat, after: seq<seq<Point>>)
    requires i < |L| == |after| && Placed(L)
    requires after[i] == Kept(SweptState(L, i)[i])
    requires MidSweep(after, SweptState(L, i), i, SweptState(L, i)[i])
    ensures after == SweptState(L, i + 1)
  {
    SweptStateStep(L, i);
  }

  /** Sweeping clusters 0..i-1 keeps how often each record occurs. */
  lemma {:induction false} SweptStateCounts(L: seq<seq<Point>>, i: nat, r: Record)
    requires i <= |L| && Placed(L) && TargetsInRange(L)
    ensures Occurrences(SweptState(L, i), r) == Occurrences(L, r)
  {
    if i == 0 {
      SweptStateCountsStart(L, r);
    } else {
      SweptStateCounts(L, i - 1, r);
      SweptStateCountsNext(L, i, r);
    }
  }

  /** Before the sweep the lists are as they were. */
  lemma SweptStateStart(L: seq<seq<Point>>)
    ensures SweptState(L, 0) == L
  {
    forall c | 0 <= c < |L| ensures SweptState(L, 0)[c] == L[c] {
      assert L[c] + [] == L[c];
    }
  }

  lemma SweptStateCountsStart(L: seq<seq<Point>>, r: Record)
    ensures Occurrences(SweptState(L, 0), r) == Occurrences(L, r)
  {
    SweptStateStart(L);
  }

  lemma SweptStateCountsNext(L: seq<seq<Point>>, i: nat, r: Record)
    requires 0 < i <= |L| && Placed(L) && TargetsInRange(L)
    requires Occurrences(SweptState(L, i - 1), r) == Occurrences(L, r)
    ensures Occurrences(SweptState(L, i), r) == Occurrences(L, r)
  {
    SweptStateCountsStep(L, i - 1, r);
  }

  /** Handling one more cluster keeps how often each record occurs. */
  lemma SweptStateCountsStep(L: seq<seq<Point>>, i: nat, r: Record)
    requires i < |L| && Placed(L) && TargetsInRange(L)
    ensures Occurrences(SweptState(L, i + 1), r) == Occurrences(SweptState(L, i), r)
  {
    var cur := SweptState(L, i);
    SweptStateReady(L, i);
    SweptStateStep(L, i);
    forall p: Point | p in cur[i] ensures p.currentClusterId == i && 0 <= p.newClusterId < |L| {
      var k :| 0 <= k < |cur[i]| && cur[i][k] == p;
    }
    MoveOutCounts(cur, SweptState(L, i + 1), i, r);
  }

  /** UpdateClusters as a function on values: the clusters hold the same
      records as before, as often (so as many points), and every point is
      settled in the list of its index. */
  lemma SweepKeeps(L: seq<seq<Point>>)
    requires Placed(L) && TargetsInRange(L)
    ensures Pool(Sweep(L)) == Pool(L)
    ensures Total(Sweep(L)) == Total(L)
    ensures Settled(Sweep(L))
  {
    assert Sweep(L) == SweptState(L, |L|);
    forall r ensures Occurrences(Sweep(L), r) == Occurrences(L, r) {
      SweptStateCounts(L, |L|, r);
    }
    SamePool(Sweep(L), L);
    assert Swept(Sweep(L), L, |L|) by {
      forall c | 0 <= c < |L| ensures SweptAt(Sweep(L)[c], L, |L|, c) {
      }
    }
    SweepSettled(Sweep(L), L);
  }

  /** UpdateClusters changes the lists exactly when some point had a pending move. */
  lemma ChangedIffMoved(L: seq<seq<Point>>)
    requires Placed(L) && TargetsInRange(L)
    ensures HasMovers(L) <==> Sweep(L) != L
  {
    SweepKeeps(L);
    if HasMovers(L) {
      var c :| 0 <= c < |L| && MoverIn(L[c]);
      var k :| 0 <= k < |L[c]| && L[c][k].currentClusterId != L[c][k].newClusterId;
      assert SettledAt(Sweep(L)[c], c);
      assert L[c][k] !in Sweep(L)[c];
    } else {
      forall c | 0 <= c < |L| ensures Sweep(L)[c] == L[c] {
        NoMoversNoChange(L, c);
      }
    }
  }

  /** After the sweep every list holds what it kept plus what arrived, all settled. */
  lemma SweepSettled(lists: seq<seq<Point>>, L: seq<seq<Point>>)
    requires Placed(L)
    requires Swept(lists, L, |L|)
    ensures Settled(lists)
    ensures forall c :: 0 <= c < |L| ==> lists[c] == Kept(L[c]) + Arrivals(L, c, |L|)
  {
    forall c | 0 <= c < |lists| ensures SettledAt(lists[c], c) {
      assert SweptAt(lists[c], L, |L|, c);
      forall p | p in L[c] ensures p.currentClusterId == c {
        var k :| 0 <= k < |L[c]| && L[c][k] == p;
      }
      KeptSettled(L[c], c);
      ArrivalsSettled(L, c, |L|);
    }
  }

  /** A list has a point with a pending move exactly when the sweep keeps
      fewer points than it holds. */
  lemma {:induction false} MoverIffShorter(s: seq<Point>)
    ensures MoverIn(s) <==> |Kept(s)| < |s|
  {
    if s != [] {
      var k := |s| - 1;
      var t := s[..k];
      MoverIffShorter(t);
      KeptStep(s, k);
      assert s[..k + 1] == s;
      if MoverIn(t) {
        var m :| 0 <= m < k && t[m].currentClusterId != t[m].newClusterId;
        assert s[m] == t[m];
      }
      if MoverIn(s) && !MoverIn(t) {
        var m :| 0 <= m < |s| && s[m].currentClusterId != s[m].newClusterId;
        if m < k {
          assert t[m] == s[m];
        }
      }
    }
  }

  /** What one point brings to cluster c when the sweep reaches it. */
  function Arrival(p: Point, c: int): (r: seq<Point>)
    ensures r == MovedInto([p], c)
  {
    if p.currentClusterId != p.newClusterId && p.newClusterId == c
    then [p.(currentClusterId := c, newClusterId := c)] else []
  }

  /** One more point of the sweep: it is kept exactly when it stays. */
  lemma KeptStep(s: seq<Point>, k: nat)
    requires k < |s|
    ensures Kept(s[..k + 1]) == Kept(s[..k]) + (if Stays(s[k]) then [s[k]] else [])
  {
    assert s[..k + 1] == s[..k] + [s[k]];
    SelectSnoc(s[..k], s[k], Stays);
  }

  /** Part-way through cluster i's sweep, after the points t: every other
      cluster holds what it held before plus what t sent it. */
  ghost predicate MidSweep(lists: seq<seq<Point>>, before: seq<seq<Point>>, i: int, t: seq<Point>)
  {
    |lists| == |before| &&
    forall c :: 0 <= c < |lists| && c != i ==> lists[c] == before[c] + MovedInto(t, c)
  }

  /** The sweep of cluster i sends s[k] on: it is appended to its new cluster. */
  lemma MidSweepSends(lists: seq<seq<Point>>, before: seq<seq<Point>>, i: int, s: seq<Point>, k: nat)
    requires k < |s| && MidSweep(lists, before, i, s[..k])
    requires !Stays(s[k]) && 0 <= s[k].newClusterId < |lists| && s[k].newClusterId != i
    ensures var p := s[k];
      MidSweep(lists[p.newClusterId := lists[p.newClusterId] + [p.(currentClusterId := p.newClusterId)]], before, i, s[..k + 1])
  {
    var p := s[k];
    assert s[..k + 1] == s[..k] + [p];
    forall c | 0 <= c < |lists| && c != i
      ensures MovedInto(s[..k + 1], c) == MovedInto(s[..k], c) + Arrival(p, c)
    {
      MovedIntoSnoc(s[..k], p, c);
    }
    assert p.(currentClusterId := p.newClusterId) == p.(currentClusterId := p.newClusterId, newClusterId := p.newClusterId);
  }

  /** The sweep of cluster i keeps s[k]: no other cluster changes. */
  lemma MidSweepKeeps(lists: seq<seq<Point>>, before: seq<seq<Point>>, i: int, s: seq<Point>, k: nat)
    requires k < |s| && MidSweep(lists, before, i, s[..k])
    requires Stays(s[k])
    ensures MidSweep(lists, before, i, s[..k + 1])
  {
    assert s[..k + 1] == s[..k] + [s[k]];
    forall c | 0 <= c < |lists| && c != i
      ensures MovedInto(s[..k + 1], c) == MovedInto(s[..k], c)
    {
      MovedIntoSnoc(s[..k], s[k], c);
    }
  }

  /** Sweeping one cluster loses no point and creates none: what it keeps
      and what it sends on account for all it held, record by record. */
  lemma MoveOutCounts(before: seq<seq<Point>>, after: seq<seq<Point>>, i: nat, r: Record)
    requires i < |before| == |after|
    requires forall p :: p in before[i] ==> p.currentClusterId == i && 0 <= p.newClusterId < |before|
    requires after[i] == Kept(before[i])
    requires MidSweep(after, before, i, before[i])
    ensures Occurrences(after, r) == Occurrences(before, r)
  {
    var s := before[i];
    var mid := after[i := s];
    MovedIntoSelf(s, i);
    forall c | 0 <= c < |mid| ensures Count(mid[c], r) == Count(before[c], r) + Count(MovedInto(s, c), r) {
      CountAppend(before[c], MovedInto(s, c), r);
      if c == i {
        assert mid[c] == before[c] + MovedInto(s, c);
      }
    }
    OccurrencesGrowBy(mid, before, r, c => Count(MovedInto(s, c), r));
    MovesAccountForAll(s, |before|, r);
    OccurrencesUpdate(after, i, s, r);
  }

  /** The sweep has handled clusters 0..i-1 of L: those hold what they kept
      and what arrived, the others what they held and what arrived. */
  ghost predicate Swept(lists: seq<seq<Point>>, L: seq<seq<Point>>, i: nat)
    requires i <= |L|
  {
    |lists| == |L| && forall c :: 0 <= c < |L| ==> SweptAt(lists[c], L, i, c)
  }

  /** Cluster c's list x part-way through the sweep. */
  ghost predicate SweptAt(x: seq<Point>, L: seq<seq<Point>>, i: nat, c: nat)
    requires i <= |L| && c < |L|
  {
    x == (if c < i then Kept(L[c]) else L[c]) + Arrivals(L, c, i)
  }

  /** When the sweep reaches cluster i, every point there belongs to i and
      heads for a cluster; it has a pending move exactly when L[i] has one. */
  lemma SweptReady(lists: seq<seq<Point>>, L: seq<seq<Point>>, i: nat)
    requires i < |L|
    requires Placed(L) && TargetsInRange(L)
    requires Swept(lists, L, i)
    ensures forall k :: 0 <= k < |lists[i]| ==>
      lists[i][k].currentClusterId == i && 0 <= lists[i][k].newClusterId < |L|
    ensures MoverIn(lists[i]) <==> MoverIn(L[i])
  {
    ArrivalsSettled(L, i, i);
    var A := Arrivals(L, i, i);
    SettledTailInert(L[i], A, i);
    forall k | 0 <= k < |lists[i]|
      ensures lists[i][k].currentClusterId == i && 0 <= lists[i][k].newClusterId < |L|
    {
      if k >= |L[i]| {
        assert lists[i][k] in A;
      }
    }
  }

  lemma AppendAssoc(a: seq<Point>, b: seq<Point>, c: seq<Point>)
    ensures (a + b) + c == a + (b + c)
  {
  }
}
