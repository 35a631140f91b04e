/**
 * The initial assignment of addDataPointsUniformly: round-robin shares,
 * the running bounding-box trackers with their sentinels, the evenly spaced
 * centroid seeds, and the (inert) bad-coordinate test.
 */
module Initial {
  import opened Geo

  /** The points round-robin assignment puts in cluster c, in input order:
      the k-th record read (1-based) goes to cluster k % K. */
  function Share(rs: seq<Record>, K: nat, c: int): seq<Point>
    requires K > 0
  {
    if rs == [] then []
    else Share(rs[..|rs| - 1], K, c) + (if |rs| % K == c then [PointOf(rs[|rs| - 1], c)] else [])
  }

  /** Position of cluster c within one round of K records, counted from 1:
      clusters 1..K-1 come first, cluster 0 last. */
  function Rank(K: nat, c: nat): (r: nat)
    requires c < K
    ensures 1 <= r <= K
  {
    if c == 0 then K else c
  }

  lemma DivModUnique(a: int, K: int, q: int, r: int)
    requires K > 0 && 0 <= r < K && a == q * K + r
    ensures a / K == q && a % K == r
  {
    var q0, r0 := a / K, a % K;
    assert a == q0 * K + r0;
    var d := q - q0;
    assert d * K == r0 - r by {
      assert d * K == q * K - q0 * K;
    }
    if d >= 1 {
      MulMonotone(1, d, K);
      assert false;
    } else if d <= -1 {
      MulMonotone(d, -1, K);
      assert false;
    }
  }

  /** Exactly which records a cluster receives and with which ids: p is in
      cluster c's share iff it is the point of the k-th record for some k with
      k % K == c, and then both of its ids are c. */
  lemma {:induction false} ShareMembers(rs: seq<Record>, K: nat, c: int, p: Point)
    requires K > 0
    ensures p in Share(rs, K, c) <==> exists k :: 1 <= k <= |rs| && k % K == c && p == PointOf(rs[k - 1], c)
  {
    if rs != [] {
      var n := |rs|;
      var t := rs[..n - 1];
      ShareMembers(t, K, c, p);
      if p in Share(t, K, c) {
        var k :| 1 <= k <= |t| && k % K == c && p == PointOf(t[k - 1], c);
        assert rs[k - 1] == t[k - 1];
      }
      if exists k :: 1 <= k <= n && k % K == c && p == PointOf(rs[k - 1], c) {
        var k :| 1 <= k <= n && k % K == c && p == PointOf(rs[k - 1], c);
        if k < n {
          assert t[k - 1] == rs[k - 1];
        }
      }
    }
  }

  /** Every point of a share is settled in that cluster. */
  lemma ShareSettled(rs: seq<Record>, K: nat, c: int)
    requires K > 0
    ensures forall p :: p in Share(rs, K, c) ==> p.currentClusterId == c && p.newClusterId == c
  {
    forall p | p in Share(rs, K, c) ensures p.currentClusterId == c && p.newClusterId == c {
      ShareMembers(rs, K, c, p);
    }
  }

  /** The K shares together. */
  function Shares(rs: seq<Record>, K: nat): (r: seq<seq<Point>>)
    requires K > 0
    ensures |r| == K
  {
    seq(K, c requires 0 <= c < K => Share(rs, K, c))
  }

  /** The shares are settled, each in its own cluster. */
  lemma SharesSettled(rs: seq<Record>, K: nat)
    requires K > 0
    ensures Settled(Shares(rs, K))
  {
    forall c | 0 <= c < K ensures SettledAt(Shares(rs, K)[c], c) {
      ShareSettled(rs, K, c);
    }
  }

  /** Round-robin assignment places every record exactly once: the clusters
      hold the records read, each as often as it was read. */
  lemma SharesKeepRecords(rs: seq<Record>, K: nat)
    requires K > 0
    ensures Pool(Shares(rs, K)) == multiset(rs)
    ensures Total(Shares(rs, K)) == |rs|
  {
    forall r ensures Pool(Shares(rs, K))[r] == multiset(rs)[r] {
      SharesCounts(rs, K, r);
      PoolCount(Shares(rs, K), r);
    }
    PoolSize(Shares(rs, K));
  }

  /** Each record occurs in the shares as often as it was read. */
  lemma {:induction false} SharesCounts(rs: seq<Record>, K: nat, r: Record)
    requires K > 0
    ensures Occurrences(Shares(rs, K), r) == multiset(rs)[r]
  {
    if rs == [] {
      ZeroOccurrences(Shares(rs, K), r);
    } else {
      SharesCounts(rs[..|rs| - 1], K, r);
      SharesCountsStep(rs, K, r);
    }
  }

  /** Reading one more record adds one point for it, to the share of its round-robin cluster. */
  lemma SharesCountsStep(rs: seq<Record>, K: nat, r: Record)
    requires K > 0 && rs != []
    requires Occurrences(Shares(rs[..|rs| - 1], K), r) == multiset(rs[..|rs| - 1])[r]
    ensures Occurrences(Shares(rs, K), r) == multiset(rs)[r]
  {
    var t, x := rs[..|rs| - 1], rs[|rs| - 1];
    var c := |rs| % K;
    var before := Shares(t, K);
    var extended := before[c := before[c] + [PointOf(x, c)]];
    forall d | 0 <= d < K ensures Shares(rs, K)[d] == extended[d] {
      assert Share(rs, K, d) == Share(t, K, d) + (if c == d then [PointOf(x, d)] else []);
    }
    assert Shares(rs, K) == extended;
    OccurrencesUpdate(before, c, before[c] + [PointOf(x, c)], r);
    CountSnoc(before[c], PointOf(x, c), r);
    assert RecordOf(PointOf(x, c)) == x;
    assert rs == t + [x];
  }

  /** Lists that are all empty hold no points. */
  lemma {:induction false} ZeroOccurrences(lists: seq<seq<Point>>, r: Record)
    requires forall c :: 0 <= c < |lists| ==> lists[c] == []
    ensures Occurrences(lists, r) == 0
  {
    if lists != [] {
      ZeroOccurrences(lists[..|lists| - 1], r);
    }
  }

  /** The size of a round-robin share: N / K for every cluster, plus one for
      the clusters whose rank falls in the last, incomplete round. */
  lemma {:induction false} ShareSize(rs: seq<Record>, K: nat, c: nat)
    requires 0 <= c < K
    ensures |Share(rs, K, c)| == |rs| / K + (if Rank(K, c) <= |rs| % K then 1 else 0)
  {
    if rs != [] {
      var n := |rs|;
      ShareSize(rs[..n - 1], K, c);
      RoundCountStep(n, K, c);
    } else {
      DivModUnique(0, K, 0, 0);
    }
  }

  /** Adding the n-th record adds one to exactly the cluster n % K. */
  lemma RoundCountStep(n: nat, K: nat, c: nat)
    requires 1 <= n && c < K
    ensures n / K + (if Rank(K, c) <= n % K then 1 else 0) ==
      (n - 1) / K + (if Rank(K, c) <= (n - 1) % K then 1 else 0) + (if n % K == c then 1 else 0)
  {
    var q, r := (n - 1) / K, (n - 1) % K;
    if r + 1 < K {
      DivModUnique(n, K, q, r + 1);
    } else {
      DivModUnique(n, K, q + 1, 0);
    }
  }

  /** Round-robin balance: two clusters' shares differ by at most one point. */
  lemma Balanced(rs: seq<Record>, K: nat, c: nat, d: nat)
    requires c < K && d < K
    ensures |Share(rs, K, c)| <= |Share(rs, K, d)| + 1
  {
    ShareSize(rs, K, c);
    ShareSize(rs, K, d);
  }

  /** With at least K * M records, every cluster's share holds at least M points. */
  lemma ShareAtLeastMin(rs: seq<Record>, K: nat, M: nat, c: nat)
    requires c < K
    requires |rs| >= K * M
    ensures |Share(rs, K, c)| >= M
  {
    ShareSize(rs, K, c);
    DivAtLeast(|rs|, K, M);
  }

  lemma DivAtLeast(n: nat, K: nat, M: nat)
    requires K > 0 && n >= K * M
    ensures n / K >= M
  {
    var q, r := n / K, n % K;
    assert n == q * K + r;
    if q < M {
      MulMonotone(q, M - 1, K);
      assert false;
    }
  }

  lemma MulMonotone(x: int, y: int, K: nat)
    requires x <= y
    ensures x * K <= y * K
  {
    assert y * K - x * K == (y - x) * K;
  }

  // ----- bounding-box trackers -----

  /** A running maximum as the source keeps it: it starts at Double.MIN_VALUE
      (the smallest positive double, not the most negative one) and takes
      each value strictly greater than itself. */
  function MaxTrack(xs: seq<real>): real
  {
    if xs == [] then MinDouble
    else
      var m := MaxTrack(xs[..|xs| - 1]);
      if m < xs[|xs| - 1] then xs[|xs| - 1] else m
  }

  /** A running minimum: it starts at Double.MAX_VALUE and takes each value
      strictly smaller than itself. */
  function MinTrack(xs: seq<real>): real
  {
    if xs == [] then MaxDouble
    else
      var m := MinTrack(xs[..|xs| - 1]);
      if m > xs[|xs| - 1] then xs[|xs| - 1] else m
  }

  /** The trackers and the sum after one more value. */
  lemma TrackSnoc(xs: seq<real>, x: real)
    ensures MinTrack(xs + [x]) == if MinTrack(xs) > x then x else MinTrack(xs)
    ensures MaxTrack(xs + [x]) == if MaxTrack(xs) < x then x else MaxTrack(xs)
    ensures Sum(xs + [x]) == Sum(xs) + x
  {
    assert (xs + [x])[..|xs|] == xs;
  }

  /** The maximum tracker is the larger of Double.MIN_VALUE and the values. */
  lemma {:induction false} MaxTrackIsMax(xs: seq<real>)
    ensures MinDouble <= MaxTrack(xs)
    ensures forall k :: 0 <= k < |xs| ==> xs[k] <= MaxTrack(xs)
    ensures MaxTrack(xs) == MinDouble || MaxTrack(xs) in xs
  {
    if xs != [] {
      MaxTrackIsMax(xs[..|xs| - 1]);
      assert forall k :: 0 <= k < |xs| - 1 ==> xs[k] == xs[..|xs| - 1][k];
    }
  }

  /** The minimum tracker is the smaller of Double.MAX_VALUE and the values. */
  lemma {:induction false} MinTrackIsMin(xs: seq<real>)
    ensures MinTrack(xs) <= MaxDouble
    ensures forall k :: 0 <= k < |xs| ==> MinTrack(xs) <= xs[k]
    ensures MinTrack(xs) == MaxDouble || MinTrack(xs) in xs
  {
    if xs != [] {
      MinTrackIsMin(xs[..|xs| - 1]);
      assert forall k :: 0 <= k < |xs| - 1 ==> xs[k] == xs[..|xs| - 1][k];
    }
  }

  /** Consequence of the Double.MIN_VALUE start: when every value is
      negative (all points south of the equator, or west of Greenwich) the
      "maximum" stays at Double.MIN_VALUE, above every value. */
  lemma {:induction false} MaxTrackOfNegatives(xs: seq<real>)
    requires forall k :: 0 <= k < |xs| ==> xs[k] <= 0.0
    ensures MaxTrack(xs) == MinDouble
  {
    if xs != [] {
      MaxTrackOfNegatives(xs[..|xs| - 1]);
    }
  }

  /** The source's minimum-longitude tracker: it compares the tracker with the
      record's LATITUDE and, when that is smaller, takes the record's longitude. */
  function MinLonTrack(rs: seq<Record>): real
  {
    if rs == [] then MaxDouble
    else
      var m := MinLonTrack(rs[..|rs| - 1]);
      if m > rs[|rs| - 1].lat then rs[|rs| - 1].lon else m
  }

  /** The longitude tracker can miss the smallest longitude: for the records
      (lat 10, lon 5) then (lat 20, lon -50) it ends at 5, not -50. */
  lemma MinLonTrackMissesMinimum()
    ensures var rs := [Record(1, 10.0, 5.0), Record(2, 20.0, -50.0)];
      MinLonTrack(rs) == 5.0 && MinTrack([5.0, -50.0]) == -50.0
  {
    var rs := [Record(1, 10.0, 5.0), Record(2, 20.0, -50.0)];
    assert rs[..1][..0] == [];
    assert rs[..1] == [Record(1, 10.0, 5.0)];
    assert [5.0, -50.0][..1][..0] == [];
    assert [5.0, -50.0][..1] == [5.0];
  }

  /** The minimum-longitude tracker holds either its start value or the
      longitude of some record. */
  lemma {:induction false} MinLonTrackIsSomeLongitude(rs: seq<Record>)
    ensures MinLonTrack(rs) == MaxDouble || exists k :: 0 <= k < |rs| && MinLonTrack(rs) == rs[k].lon
  {
    if rs != [] {
      var t := rs[..|rs| - 1];
      MinLonTrackIsSomeLongitude(t);
      if MinLonTrack(rs) != MaxDouble && MinLonTrack(rs) == MinLonTrack(t) {
        var k :| 0 <= k < |t| && MinLonTrack(t) == t[k].lon;
        assert rs[k] == t[k];
      }
    }
  }

  /** The latitudes of the input, in order. */
  function RecordLats(rs: seq<Record>): (r: seq<real>)
    ensures |r| == |rs| && forall k :: 0 <= k < |rs| ==> r[k] == rs[k].lat
  {
    seq(|rs|, k requires 0 <= k < |rs| => rs[k].lat)
  }

  /** The longitudes of the input, in order. */
  function RecordLons(rs: seq<Record>): (r: seq<real>)
    ensures |r| == |rs| && forall k :: 0 <= k < |rs| ==> r[k] == rs[k].lon
  {
    seq(|rs|, k requires 0 <= k < |rs| => rs[k].lon)
  }

  /** Reading one more record: it joins the share of cluster (k + 1) % K,
      and its coordinates reach the trackers. */
  lemma RecordStep(rs: seq<Record>, K: nat, k: nat)
    requires K > 0 && k < |rs|
    ensures forall c :: Share(rs[..k + 1], K, c) ==
                        Share(rs[..k], K, c) + (if (k + 1) % K == c then [PointOf(rs[k], c)] else [])
    ensures RecordLats(rs[..k + 1]) == RecordLats(rs[..k]) + [rs[k].lat]
    ensures RecordLons(rs[..k + 1]) == RecordLons(rs[..k]) + [rs[k].lon]
    ensures MinLonTrack(rs[..k + 1]) ==
      if MinLonTrack(rs[..k]) > rs[k].lat then rs[k].lon else MinLonTrack(rs[..k])
  {
    assert rs[..k + 1][..k] == rs[..k];
  }

  /** Part-way through the reading loop: every cluster holds what it held
      before followed by its share of the records read so far. */
  ghost predicate DealtOnto(lists: seq<seq<Point>>, before: seq<seq<Point>>, rs: seq<Record>, K: nat)
    requires K > 0
  {
    |lists| == |before| == K &&
    forall c :: 0 <= c < K ==> lists[c] == before[c] + Share(rs, K, c)
  }

  /** Dealing record k appends its point to cluster (k + 1) % K. */
  lemma DealStep(lists: seq<seq<Point>>, before: seq<seq<Point>>, rs: seq<Record>, K: nat, k: nat)
    requires K > 0 && k < |rs|
    requires DealtOnto(lists, before, rs[..k], K)
    ensures var c := (k + 1) % K;
      DealtOnto(lists[c := lists[c] + [PointOf(rs[k], c)]], before, rs[..k + 1], K)
  {
    RecordStep(rs, K, k);
  }

  /** Before the first record nothing has been dealt. */
  lemma DealStart(lists: seq<seq<Point>>, rs: seq<Record>, K: nat)
    requires K > 0 && |lists| == K
    ensures DealtOnto(lists, lists, rs[..0], K)
  {
    assert rs[..0] == [];
  }

  // ----- centroid seeds -----

  /** The centroid addDataPointsUniformly gives cluster c: the (c + 1)-th of
      K evenly spaced points between the tracked bounds, on each axis. */
  function SeedCentroid(rs: seq<Record>, K: nat, c: nat): Centroid
  {
    Centroid(Real(Seed(MinTrack(RecordLats(rs)), MaxTrack(RecordLats(rs)), K, c + 1)),
             Seed(MinLonTrack(rs), MaxTrack(RecordLons(rs)), K, c + 1))
  }

  /** The seed for cluster n - 1 (n = 1..K) along one axis. */
  function Seed(lo: real, hi: real, K: nat, n: nat): real
  {
    ((hi - lo) / ((K + 1) as real)) * (n as real) + lo
  }

  /** Seeds lie strictly inside the range (lo, hi) and strictly increase
      with n, so no two clusters start at the same place. */
  lemma SeedsInsideAndIncreasing(lo: real, hi: real, K: nat, n: nat, m: nat)
    requires lo < hi
    requires 1 <= n <= m <= K
    ensures lo < Seed(lo, hi, K, n) < hi
    ensures n < m ==> Seed(lo, hi, K, n) < Seed(lo, hi, K, m)
  {
    var step := (hi - lo) / ((K + 1) as real);
    assert step > 0.0;
    assert step * (n as real) > 0.0;
    assert step * (m as real) - step * (n as real) == step * ((m - n) as real);
    assert step * ((K + 1) as real) == hi - lo;
    assert step * ((K + 1) as real) - step * (n as real) == step * ((K + 1 - n) as real);
    assert step * ((K + 1 - n) as real) > 0.0;
    if n < m {
      assert step * ((m - n) as real) > 0.0;
    }
  }

  // ----- the bad-coordinate test -----

  /** The source's Earth bounds, as labelled there. */
  const EarthMinLat: real := -90.0
  const EarthMinLon: real := 90.0
  const EarthMaxLat: real := -180.0
  const EarthMaxLon: real := 180.0

  /** The bad-coordinate test as written: four bounds joined by AND. */
  predicate FlaggedInvalid(lat: real, lon: real)
  {
    lat < EarthMinLat && lat > EarthMaxLat && lon < EarthMinLon && lon > EarthMaxLon
  }

  /** The test never fires: no longitude is both below 90 and above 180. */
  lemma NeverFlaggedInvalid(lat: real, lon: real)
    ensures !FlaggedInvalid(lat, lon)
  {
  }
}
