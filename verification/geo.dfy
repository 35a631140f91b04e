/**
 * Values shared by the whole clustering engine: Java doubles as the engine
 * uses them, input records, data points, centroids, the abstract great-circle
 * distance, and the bookkeeping over the K membership lists.
 */
module Geo {

  /** A Java double as the engine can see it: a real number, or NaN (the
      latitude mean 0/0 of an empty cluster and whatever is computed from it). */
  datatype Num = Real(v: real) | NaN

  /** Java `a < b` on doubles: false as soon as either side is NaN. */
  predicate Less(a: Num, b: Num)
  {
    a.Real? && b.Real? && a.v < b.v
  }

  /** Java `a + b` on doubles, without rounding: NaN is absorbing. */
  function Add(a: Num, b: Num): (r: Num)
    ensures r.NaN? <==> a.NaN? || b.NaN?
    ensures r.Real? ==> r.v == a.v + b.v
  {
    if a.NaN? || b.NaN? then NaN else Real(a.v + b.v)
  }

  /** Double.MAX_VALUE, exactly: (2 - 2^-52) * 2^1023. */
  const MaxDouble: real := 179769313486231570814527423731704356798070567525844996598917476803157260780028538760589558632766878171540458953514382464234321326889464182768467546703537516986049910576551282076245490090389328944075868508455133942304583236903222948165808559332123348274797826204144723168738177180919299881250404026184124858368.0

  /** 2^1074 */
  const TwoTo1074: int := 202402253307310618352495346718917307049556649764142118356901358027430339567995346891960383701437124495187077864316811911389808737385793476867013399940738509921517424276566361364466907742093216341239767678472745068562007483424692698618103355649159556340810056512358769552333414615230502532186327508646006263307707741093494784

  /** Double.MIN_VALUE, exactly: 2^-1074, the smallest POSITIVE double. */
  const MinDouble: real := 1.0 / (TwoTo1074 as real)

  /** Java `x % m` on doubles for m > 0: the remainder of the quotient
      truncated toward zero, so it has the sign of x. */
  function JavaRem(x: real, m: real): real
    requires m > 0.0
  {
    var q := x / m;
    var t := if q >= 0.0 then q.Floor else -((-q).Floor);
    x - m * (t as real)
  }

  /** One input line: user id, latitude, longitude. */
  datatype Record = Record(id: int, lat: real, lon: real)

  /** A user location with its current and pending cluster assignment. */
  datatype Point = Point(id: int, lat: real, lon: real, currentClusterId: int, newClusterId: int)

  /** The point a record becomes when it is assigned to cluster c. */
  function PointOf(r: Record, c: int): (p: Point)
    ensures p.id == r.id && p.lat == r.lat && p.lon == r.lon
    ensures p.currentClusterId == c && p.newClusterId == c
  {
    Point(r.id, r.lat, r.lon, c, c)
  }

  /** A cluster's centroid (mCx, mCy); mCx is NaN once computed for an empty cluster. */
  datatype Centroid = Centroid(lat: Num, lon: real)

  /** The great-circle distance in kilometres, (lat1, lon1, lat2, lon2). */
  type Distance = (real, real, real, real) -> real

  /** Every distance lies below Double.MAX_VALUE, the sentinel that starts every
      minimum search; true of the haversine distance, which is at most
      pi * 6372.8 km. */
  ghost predicate BelowSentinel(dist: Distance)
  {
    forall lat1, lon1, lat2, lon2 :: dist(lat1, lon1, lat2, lon2) < MaxDouble
  }

  /** Distance from a point to a centroid, as a Java double. */
  function DistTo(dist: Distance, p: Point, c: Centroid): (d: Num)
    ensures d.NaN? <==> c.lat.NaN?
  {
    if c.lat.NaN? then NaN else Real(dist(p.lat, p.lon, c.lat.v, c.lon))
  }

  /** The latitudes of a list of points, in order. */
  function Lats(s: seq<Point>): (r: seq<real>)
    ensures |r| == |s| && forall k :: 0 <= k < |s| ==> r[k] == s[k].lat
  {
    seq(|s|, k requires 0 <= k < |s| => s[k].lat)
  }

  /** The longitudes of a list of points, in order. */
  function Lons(s: seq<Point>): (r: seq<real>)
    ensures |r| == |s| && forall k :: 0 <= k < |s| ==> r[k] == s[k].lon
  {
    seq(|s|, k requires 0 <= k < |s| => s[k].lon)
  }

  /** One more point adds its latitude and longitude at the end. */
  lemma CoordinatesStep(s: seq<Point>, k: nat)
    requires k < |s|
    ensures Lats(s[..k + 1]) == Lats(s[..k]) + [s[k].lat]
    ensures Lons(s[..k + 1]) == Lons(s[..k]) + [s[k].lon]
  {
  }

  /** Sum of a sequence of reals, accumulated front to back. */
  function Sum(xs: seq<real>): real
  {
    if xs == [] then 0.0 else Sum(xs[..|xs| - 1]) + xs[|xs| - 1]
  }

  /** Number of points held by all clusters together. */
  function Total(lists: seq<seq<Point>>): nat
  {
    if lists == [] then 0 else Total(lists[..|lists| - 1]) + |lists[|lists| - 1]|
  }

  lemma {:induction false} TotalUpdate(lists: seq<seq<Point>>, c: nat, s: seq<Point>)
    requires c < |lists|
    ensures Total(lists[c := s]) == Total(lists) - |lists[c]| + |s|
  {
    var n := |lists|;
    if c < n - 1 {
      assert lists[c := s][..n - 1] == lists[..n - 1][c := s];
      TotalUpdate(lists[..n - 1], c, s);
    } else {
      assert lists[c := s][..n - 1] == lists[..n - 1];
    }
  }

  /** Every point sits in the list whose index is its currentClusterId. */
  ghost predicate Placed(lists: seq<seq<Point>>)
  {
    forall c, k :: 0 <= c < |lists| && 0 <= k < |lists[c]| ==> lists[c][k].currentClusterId == c
  }

  /** Every point of s belongs to cluster c, with no pending move. */
  ghost predicate SettledAt(s: seq<Point>, c: int)
  {
    forall p :: p in s ==> p.currentClusterId == c && p.newClusterId == c
  }

  /** Every list is settled at its own index. */
  ghost predicate Settled(lists: seq<seq<Point>>)
  {
    forall c :: 0 <= c < |lists| ==> SettledAt(lists[c], c)
  }

  /** A settled state is placed. */
  lemma SettledIsPlaced(lists: seq<seq<Point>>)
    requires Settled(lists)
    ensures Placed(lists)
  {
    forall c, k | 0 <= c < |lists| && 0 <= k < |lists[c]|
      ensures lists[c][k].currentClusterId == c
    {
      assert lists[c][k] in lists[c];
    }
  }

  /** The points of s for which keep holds, in their order. */
  function Select(s: seq<Point>, keep: Point -> bool): (r: seq<Point>)
    ensures |r| <= |s|
  {
    if s == [] then [] else
      Select(s[..|s| - 1], keep) + (if keep(s[|s| - 1]) then [s[|s| - 1]] else [])
  }

  /** Selection only keeps points of s that keep accepts. */
  lemma {:induction false} SelectMembers(s: seq<Point>, keep: Point -> bool)
    ensures forall p :: p in Select(s, keep) ==> p in s && keep(p)
  {
    if s != [] {
      SelectMembers(s[..|s| - 1], keep);
    }
  }

  lemma {:induction false} SelectAppend(s: seq<Point>, t: seq<Point>, keep: Point -> bool)
    ensures Select(s + t, keep) == Select(s, keep) + Select(t, keep)
  {
    if t != [] {
      var n := |t|;
      assert (s + t)[..|s + t| - 1] == s + t[..n - 1];
      SelectAppend(s, t[..n - 1], keep);
    } else {
      assert s + t == s;
    }
  }

  /** A point that keep accepts is selected, together with everything selected before it. */
  lemma SelectSnoc(s: seq<Point>, p: Point, keep: Point -> bool)
    ensures Select(s + [p], keep) == Select(s, keep) + (if keep(p) then [p] else [])
  {
    assert (s + [p])[..|s + [p]| - 1] == s;
  }

  /** Selecting what every point satisfies gives the list back. */
  lemma {:induction false} SelectAll(s: seq<Point>, keep: Point -> bool)
    requires forall p :: p in s ==> keep(p)
    ensures Select(s, keep) == s
  {
    if s != [] {
      SelectAll(s[..|s| - 1], keep);
      assert s == s[..|s| - 1] + [s[|s| - 1]];
    }
  }

  /** Selecting what no point satisfies gives the empty list. */
  lemma {:induction false} SelectNone(s: seq<Point>, keep: Point -> bool)
    requires forall p :: p in s ==> !keep(p)
    ensures Select(s, keep) == []
  {
    if s != [] {
      SelectNone(s[..|s| - 1], keep);
    }
  }

  /** The points of s moved into cluster c: both ids set to c, nothing else changed. */
  function Relabel(s: seq<Point>, c: int): (r: seq<Point>)
    ensures |r| == |s|
    ensures forall k :: 0 <= k < |s| ==> r[k] == s[k].(currentClusterId := c, newClusterId := c)
  {
    seq(|s|, k requires 0 <= k < |s| => s[k].(currentClusterId := c, newClusterId := c))
  }

  /** Relabelling one more point appends it, relabelled. */
  lemma RelabelSnoc(s: seq<Point>, p: Point, c: int)
    ensures Relabel(s + [p], c) == Relabel(s, c) + [p.(currentClusterId := c, newClusterId := c)]
  {
  }

  /** Whatever is relabelled to c is settled at c. */
  lemma RelabelSettled(s: seq<Point>, c: int)
    ensures SettledAt(Relabel(s, c), c)
  {
    var r := Relabel(s, c);
    forall p | p in r ensures p.currentClusterId == c && p.newClusterId == c {
      var k :| 0 <= k < |r| && r[k] == p;
    }
  }

  // ----- the records the clusters hold -----

  /** The input record behind a point: its id and coordinates, without cluster ids. */
  function RecordOf(p: Point): Record
  {
    Record(p.id, p.lat, p.lon)
  }

  /** The records behind a list of points, with multiplicity. */
  function Keys(s: seq<Point>): multiset<Record>
  {
    if s == [] then multiset{} else Keys(s[..|s| - 1]) + multiset{RecordOf(s[|s| - 1])}
  }

  /** The records behind all clusters together, with multiplicity. */
  function Pool(lists: seq<seq<Point>>): multiset<Record>
  {
    if lists == [] then multiset{} else Pool(lists[..|lists| - 1]) + Keys(lists[|lists| - 1])
  }

  /** How many points of s stand for record r. */
  function Count(s: seq<Point>, r: Record): nat
  {
    if s == [] then 0 else Count(s[..|s| - 1], r) + (if RecordOf(s[|s| - 1]) == r then 1 else 0)
  }

  /** How many points of all clusters together stand for record r. */
  function Occurrences(lists: seq<seq<Point>>, r: Record): nat
  {
    if lists == [] then 0 else Occurrences(lists[..|lists| - 1], r) + Count(lists[|lists| - 1], r)
  }

  /** The multiplicity of r among the records of s is its count. */
  lemma {:induction false} KeysCount(s: seq<Point>, r: Record)
    ensures Keys(s)[r] == Count(s, r)
  {
    if s != [] {
      KeysCount(s[..|s| - 1], r);
    }
  }

  /** The multiplicity of r among the records of all clusters is its occurrence count. */
  lemma {:induction false} PoolCount(lists: seq<seq<Point>>, r: Record)
    ensures Pool(lists)[r] == Occurrences(lists, r)
  {
    if lists != [] {
      PoolCount(lists[..|lists| - 1], r);
      KeysCount(lists[|lists| - 1], r);
    }
  }

  /** Clusters in which every record occurs as often hold the same records,
      and so as many points. */
  lemma SamePool(a: seq<seq<Point>>, b: seq<seq<Point>>)
    requires forall r :: Occurrences(a, r) == Occurrences(b, r)
    ensures Pool(a) == Pool(b)
    ensures Total(a) == Total(b)
  {
    forall r ensures Pool(a)[r] == Pool(b)[r] {
      PoolCount(a, r);
      PoolCount(b, r);
    }
    PoolSize(a);
    PoolSize(b);
  }

  /** A list holds one record per point. */
  lemma {:induction false} KeysSize(s: seq<Point>)
    ensures |Keys(s)| == |s|
  {
    if s != [] {
      KeysSize(s[..|s| - 1]);
    }
  }

  /** The clusters hold one record per point. */
  lemma {:induction false} PoolSize(lists: seq<seq<Point>>)
    ensures |Pool(lists)| == Total(lists)
  {
    if lists != [] {
      PoolSize(lists[..|lists| - 1]);
      KeysSize(lists[|lists| - 1]);
    }
  }

  lemma CountSnoc(s: seq<Point>, p: Point, r: Record)
    ensures Count(s + [p], r) == Count(s, r) + (if RecordOf(p) == r then 1 else 0)
  {
    assert (s + [p])[..|s + [p]| - 1] == s;
  }

  /** Counts add up over two lists joined. */
  lemma {:induction false} CountAppend(s: seq<Point>, t: seq<Point>, r: Record)
    ensures Count(s + t, r) == Count(s, r) + Count(t, r)
  {
    if t == [] {
      assert s + t == s;
    } else {
      var u, p := t[..|t| - 1], t[|t| - 1];
      assert s + t == (s + u) + [p] && t == u + [p];
      CountAppend(s, u, r);
      CountSnoc(s + u, p, r);
      CountSnoc(u, p, r);
    }
  }

  /** Lists whose points agree on id and coordinates, position by position, count every record alike. */
  lemma {:induction false} CountAlike(s: seq<Point>, t: seq<Point>, r: Record)
    requires |s| == |t|
    requires forall k :: 0 <= k < |s| ==> RecordOf(s[k]) == RecordOf(t[k])
    ensures Count(s, r) == Count(t, r)
  {
    if s != [] {
      CountAlike(s[..|s| - 1], t[..|t| - 1], r);
    }
  }

  /** Relabelling a list keeps its records. */
  lemma CountRelabel(s: seq<Point>, c: int, r: Record)
    ensures Count(Relabel(s, c), r) == Count(s, r)
  {
    CountAlike(Relabel(s, c), s, r);
  }

  /** Selecting by keep and by its negation splits the points of s standing for r between the two parts. */
  lemma {:induction false} CountPartition(s: seq<Point>, keep: Point -> bool, drop: Point -> bool, r: Record)
    requires forall p :: p in s ==> (drop(p) <==> !keep(p))
    ensures Count(Select(s, keep), r) + Count(Select(s, drop), r) == Count(s, r)
  {
    if s != [] {
      var t, p := s[..|s| - 1], s[|s| - 1];
      assert s == t + [p];
      CountPartition(t, keep, drop, r);
      SelectSnoc(t, p, keep);
      SelectSnoc(t, p, drop);
      CountSnoc(t, p, r);
      if keep(p) {
        assert Select(s, drop) == Select(t, drop);
        CountSnoc(Select(t, keep), p, r);
      } else {
        assert Select(s, keep) == Select(t, keep);
        CountSnoc(Select(t, drop), p, r);
      }
    }
  }

  /** Replacing list c by s trades the points of list c standing for r for those of s. */
  lemma {:induction false} OccurrencesUpdate(lists: seq<seq<Point>>, c: nat, s: seq<Point>, r: Record)
    requires c < |lists|
    ensures Occurrences(lists[c := s], r) == Occurrences(lists, r) - Count(lists[c], r) + Count(s, r)
  {
    var n := |lists|;
    if c < n - 1 {
      assert lists[c := s][..n - 1] == lists[..n - 1][c := s];
      OccurrencesUpdate(lists[..n - 1], c, s, r);
    } else {
      assert lists[c := s][..n - 1] == lists[..n - 1];
    }
  }

  /** f(0) + ... + f(n - 1). */
  function SizeSum(f: int -> nat, n: nat): nat
  {
    if n == 0 then 0 else SizeSum(f, n - 1) + f(n - 1)
  }

  /** Lists that each gained f(c) points standing for r hold, together, SizeSum(f) more. */
  lemma {:induction false} OccurrencesGrowBy(after: seq<seq<Point>>, before: seq<seq<Point>>, r: Record, f: int -> nat)
    requires |after| == |before|
    requires forall c :: 0 <= c < |after| ==> Count(after[c], r) == Count(before[c], r) + f(c)
    ensures Occurrences(after, r) == Occurrences(before, r) + SizeSum(f, |after|)
  {
    if after != [] {
      var n := |after| - 1;
      OccurrencesGrowBy(after[..n], before[..n], r, f);
    }
  }

  /** Lists that count r alike, cluster by cluster, count it alike together. */
  lemma {:induction false} OccurrencesAlike(a: seq<seq<Point>>, b: seq<seq<Point>>, r: Record)
    requires |a| == |b|
    requires forall c :: 0 <= c < |a| ==> Count(a[c], r) == Count(b[c], r)
    ensures Occurrences(a, r) == Occurrences(b, r)
  {
    if a != [] {
      OccurrencesAlike(a[..|a| - 1], b[..|b| - 1], r);
    }
  }
}
