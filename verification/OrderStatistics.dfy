/** Three percentile summaries over exact numbers: interpolated, nearest-rank, and median with p95. */
module OrderStatistics {
  import opened Options
  import opened Ordering

  predicate LeReal(a: real, b: real) { a <= b }
  predicate LeInt(a: int, b: int) { a <= b }

  ghost predicate Ascending(o: seq<real>) { forall i, j :: 0 <= i <= j < |o| ==> o[i] <= o[j] }
  ghost predicate AscendingInts(o: seq<int>) { forall i, j :: 0 <= i <= j < |o| ==> o[i] <= o[j] }

  lemma SortedReals(v: seq<real>)
    ensures Ascending(Sort(v, LeReal)) && |Sort(v, LeReal)| == |v|
  {
    SortSorts(v, LeReal);
    SortMembers(v, LeReal);
    var o := Sort(v, LeReal);
    forall i, j | 0 <= i <= j < |o| ensures o[i] <= o[j] { if i < j { assert LeReal(o[i], o[j]); } }
  }

  lemma SortedInts(v: seq<int>)
    ensures AscendingInts(Sort(v, LeInt)) && |Sort(v, LeInt)| == |v|
  {
    SortSorts(v, LeInt);
    SortMembers(v, LeInt);
    var o := Sort(v, LeInt);
    forall i, j | 0 <= i <= j < |o| ensures o[i] <= o[j] { if i < j { assert LeInt(o[i], o[j]); } }
  }

  // ---------- interpolation ----------

  function Rank(n: nat, p: real): real { (p / 100.0) * (n as real - 1.0) }

  lemma RankRange(n: nat, p: real, q: real)
    requires n > 0 && 0.0 <= p <= q <= 100.0
    ensures 0.0 <= Rank(n, p) <= Rank(n, q) <= n as real - 1.0
  {
    Shares(p / 100.0, q / 100.0, n as real - 1.0);
  }

  lemma Shares(a: real, b: real, m: real)
    requires 0.0 <= a <= b <= 1.0 && m >= 0.0
    ensures 0.0 <= a * m <= b * m <= m
  {
    ScaleMonotone(0.0, a, m);
    ScaleMonotone(a, b, m);
    ScaleMonotone(b, 1.0, m);
  }

  lemma ScaleMonotone(a: real, b: real, m: real)
    requires a <= b && m >= 0.0
    ensures a * m <= b * m
  {
    assert (b - a) * m >= 0.0;
  }

  /** The interpolation between the two order statistics around a rank. */
  function AtRank(o: seq<real>, rank: real): real
    requires 0.0 <= rank <= |o| as real - 1.0
  {
    var lo := rank.Floor;
    var hi := if lo + 1 < |o| then lo + 1 else |o| - 1;
    var frac := rank - lo as real;
    o[lo] * (1.0 - frac) + o[hi] * frac
  }

  /** `_pct` */
  function Pct(values: seq<real>, p: real): Option<real>
    requires 0.0 <= p <= 100.0
  {
    if values == [] then None
    else
      SortedReals(values);
      RankRange(|values|, p, p);
      var o := Sort(values, LeReal);
      if |o| == 1 then Some(o[0]) else Some(AtRank(o, Rank(|o|, p)))
  }

  lemma Mix(a: real, b: real, f: real, g: real)
    requires a <= b && 0.0 <= f <= g <= 1.0
    ensures a <= a * (1.0 - f) + b * f <= a * (1.0 - g) + b * g <= b
  {
    assert a * (1.0 - f) + b * f == a + (b - a) * f;
    assert a * (1.0 - g) + b * g == a + (b - a) * g;
    ScaleMonotone(f, g, b - a);
    ScaleMonotone(g, 1.0, b - a);
    ScaleMonotone(0.0, f, b - a);
  }

  function Upper(n: nat, rank: real): int { if rank.Floor + 1 < n then rank.Floor + 1 else n - 1 }

  /** The interpolated value lies between its two neighbouring order statistics. */
  lemma AtRankBetween(o: seq<real>, rank: real)
    requires Ascending(o) && 0.0 <= rank <= |o| as real - 1.0
    ensures o[rank.Floor] <= AtRank(o, rank) <= o[Upper(|o|, rank)]
  {
    var frac := rank - rank.Floor as real;
    Mix(o[rank.Floor], o[Upper(|o|, rank)], frac, frac);
  }

  /** Interpolation is monotone in the rank, across cell boundaries too. */
  lemma AtRankMonotone(o: seq<real>, r: real, s: real)
    requires Ascending(o) && 0.0 <= r <= s <= |o| as real - 1.0
    ensures AtRank(o, r) <= AtRank(o, s)
  {
    if r.Floor == s.Floor {
      Mix(o[r.Floor], o[Upper(|o|, r)], r - r.Floor as real, s - s.Floor as real);
    } else {
      AtRankBetween(o, r);
      AtRankBetween(o, s);
      assert Upper(|o|, r) <= s.Floor;
    }
  }

  /** The interpolated percentile lies between the least and the greatest value and does not
      decrease when the percentage increases. */
  lemma PctMonotone(values: seq<real>, p: real, q: real)
    requires values != [] && 0.0 <= p <= q <= 100.0
    ensures var o := Sort(values, LeReal);
      o != [] && o[0] <= Pct(values, p).value <= Pct(values, q).value <= o[|o| - 1]
  {
    SortedReals(values);
    var o := Sort(values, LeReal);
    RankRange(|o|, p, q);
    AtRankBetween(o, Rank(|o|, p));
    AtRankBetween(o, Rank(|o|, q));
    AtRankMonotone(o, Rank(|o|, p), Rank(|o|, q));
  }

  lemma RankIs(n: nat, p: real)
    ensures Rank(n, p) * 100.0 == p * (n as real - 1.0)
  {
    Percent(p, n as real - 1.0);
  }

  lemma Percent(p: real, m: real)
    ensures (p / 100.0) * m * 100.0 == p * m
  {
    var q := p / 100.0;
    assert q * 100.0 == p;
    assert q * m * 100.0 == (q * 100.0) * m;
  }

  lemma AtRankExact(o: seq<real>, rank: real, k: nat)
    requires k < |o| && rank == k as real
    ensures AtRank(o, rank) == o[k]
  {
    assert rank.Floor == k && rank - k as real == 0.0;
  }

  /** Where the rank is an exact position, the percentile is the order statistic there; in particular it
      is the least value at 0 and the greatest at 100. */
  lemma PctExact(values: seq<real>, p: real, k: nat)
    requires k < |values| && 0.0 <= p <= 100.0 && p * (|values| as real - 1.0) == 100.0 * k as real
    ensures var o := Sort(values, LeReal); |o| == |values| && Pct(values, p) == Some(o[k])
  {
    SortedReals(values);
    RankIs(|values|, p);
    RankRange(|values|, p, p);
    var rank := Rank(|values|, p);
    assert rank == k as real;
    AtRankExact(Sort(values, LeReal), rank, k);
  }

  /** Between two neighbouring positions the percentile runs straight from one order statistic to the next. */
  lemma PctLinear(values: seq<real>, p: real, k: nat)
    requires k + 1 < |values| && 0.0 <= p <= 100.0
    requires 100.0 * k as real <= p * (|values| as real - 1.0) <= 100.0 * (k as real + 1.0)
    ensures var o := Sort(values, LeReal);
      |o| == |values| && Pct(values, p).Some?
      && Straight(Pct(values, p).value - o[k], o[k + 1] - o[k], p * (|values| as real - 1.0) - 100.0 * k as real)
  {
    SortedReals(values);
    RankIs(|values|, p);
    RankRange(|values|, p, p);
    var o, rank := Sort(values, LeReal), Rank(|values|, p);
    AtRankLinear(o, rank, k);
    Scaled(AtRank(o, rank) - o[k], o[k + 1] - o[k], rank, k, p * (|values| as real - 1.0));
  }

  /** A rise `a` is `g` hundredths of the full rise `d`. */
  predicate Straight(a: real, d: real, g: real) { a * 100.0 == d * g }

  lemma AtRankLinear(o: seq<real>, rank: real, k: nat)
    requires k + 1 < |o| && k as real <= rank <= k as real + 1.0
    ensures Rises(AtRank(o, rank) - o[k], o[k + 1] - o[k], rank, k)
  {
    if rank == k as real + 1.0 {
      assert rank.Floor == k + 1;
    } else {
      assert rank.Floor == k;
    }
  }

  predicate Rises(a: real, d: real, rank: real, k: nat) { a == d * (rank - k as real) }

  lemma Scaled(a: real, d: real, rank: real, k: nat, hundredfold: real)
    requires Rises(a, d, rank, k) && rank * 100.0 == hundredfold
    ensures Straight(a, d, hundredfold - 100.0 * k as real)
  {
  }

  // ---------- nearest rank ----------

  /** Python's `round`: halves go to the even neighbour. */
  function RoundEven(x: real): int {
    var f := x.Floor;
    var d := x - f as real;
    if d < 0.5 then f else if d > 0.5 then f + 1 else if f % 2 == 0 then f else f + 1
  }

  function Clamp(i: int, n: nat): int
    requires n > 0
  {
    var a := if i < 0 then 0 else i;
    if a > n - 1 then n - 1 else a
  }

  /** `_percentile` of the live evaluation. */
  function NearestRank(values: seq<int>, p: real): Option<int> {
    if values == [] then None
    else
      SortedInts(values);
      var o := Sort(values, LeInt);
      if |o| == 1 then Some(o[0]) else Some(o[Clamp(RoundEven(Rank(|o|, p)), |o|)])
  }

  /** The nearest rank is one of the two order statistics between which interpolation happens. */
  lemma NearestRankIsNeighbour(values: seq<int>, p: real)
    requires |values| > 1 && 0.0 <= p <= 100.0
    ensures var o := Sort(values, LeInt);
      |o| == |values| && (var r := Rank(|o|, p);
        0 <= r.Floor < |o| && NearestRank(values, p).value in {o[r.Floor], o[Upper(|o|, r)]})
  {
    SortedInts(values);
    RankRange(|values|, p, p);
  }

  /** `i` is the integer nearest to `x`; halfway between two, the even one. */
  predicate IsNearest(i: int, x: real) {
    -0.5 <= x - i as real <= 0.5 && (x - i as real in {-0.5, 0.5} ==> i % 2 == 0)
  }

  lemma RoundsToNearest(x: real)
    ensures IsNearest(RoundEven(x), x)
  {
  }

  /** `i` is the position nearest to `x` hundredths; halfway between two, the even one. */
  predicate IsNearestPart(i: int, x: real) {
    -50.0 <= x - 100.0 * i as real <= 50.0 && (x - 100.0 * i as real in {-50.0, 50.0} ==> i % 2 == 0)
  }

  lemma NearestParts(i: int, x: real, hundredfold: real)
    requires IsNearest(i, x) && x * 100.0 == hundredfold
    ensures IsNearestPart(i, hundredfold)
  {
  }

  /** The nearest-rank percentile is the order statistic at the position nearest to p hundredths of the way. */
  lemma NearestRankIs(values: seq<int>, p: real) returns (i: int)
    requires |values| > 1 && 0.0 <= p <= 100.0
    ensures IsNearestPart(i, p * (|values| as real - 1.0))
    ensures var o := Sort(values, LeInt); 0 <= i < |o| == |values| && NearestRank(values, p) == Some(o[i])
  {
    SortedInts(values);
    RankRange(|values|, p, p);
    RankIs(|values|, p);
    var rank := Rank(|values|, p);
    i := RoundEven(rank);
    RoundsToNearest(rank);
    NearestParts(i, rank, p * (|values| as real - 1.0));
    RoundInRange(rank, |values|);
  }

  lemma RoundInRange(rank: real, n: nat)
    requires 0.0 <= rank <= n as real - 1.0 && n > 0
    ensures 0 <= RoundEven(rank) < n && Clamp(RoundEven(rank), n) == RoundEven(rank)
  {
  }

  // ---------- median and p95 ----------

  /** `int(x / 2)` for an integer `x`. */
  function HalfTowardsZero(x: int): int { if x >= 0 then x / 2 else -((-x) / 2) }

  function Median(o: seq<int>): int
    requires o != []
  {
    var m := |o| / 2;
    if |o| % 2 == 1 then o[m] else HalfTowardsZero(o[m - 1] + o[m])
  }

  function P95Index(n: nat): int
    requires n > 1
  {
    var i := RoundEven(0.95 * (n as real - 1.0));
    if i < n - 1 then i else n - 1
  }

  datatype Summary = Summary(p50: Option<int>, p95: Option<int>, n: nat)

  /** `_percentiles` */
  function Percentiles(values: seq<int>): Summary {
    if values == [] then Summary(None, None, 0)
    else
      SortedInts(values);
      var o := Sort(values, LeInt);
      Summary(Some(Median(o)), Some(if |o| == 1 then o[0] else o[P95Position(|o|)]), |o|)
  }

  function P95Position(n: nat): (i: int)
    requires n > 1
    ensures n / 2 <= i < n
  {
    assert 0.95 * (n as real - 1.0) - 0.5 <= RoundEven(0.95 * (n as real - 1.0)) as real;
    P95Index(n)
  }

  /** Nothing is reported for an empty list. */
  lemma NoValues(p: real)
    requires 0.0 <= p <= 100.0
    ensures Pct([], p) == None && NearestRank([], p) == None && Percentiles([]) == Summary(None, None, 0)
  {
  }

  /** The summary: the number of values, the order statistic at the position nearest to 95 % of the way,
      and the middle value, or with an even number the half sum of the two in the middle, cut towards zero. */
  lemma SummaryIs(values: seq<int>)
    requires values != []
    ensures var o, s, n := Sort(values, LeInt), Percentiles(values), |values|;
      && |o| == n && s.n == n && s.p50.Some? && s.p95.Some?
      && (exists i :: 0 <= i < n && IsNearest(i, 0.95 * (n as real - 1.0)) && s.p95.value == o[i])
      && (n % 2 == 1 ==> s.p50.value == o[n / 2])
      && (n % 2 == 0 ==>
            var t := o[n / 2 - 1] + o[n / 2];
            if t >= 0 then t - 1 <= 2 * s.p50.value <= t else t <= 2 * s.p50.value <= t + 1)
  {
    SortedInts(values);
    var o, n := Sort(values, LeInt), |values|;
    if n == 1 {
      assert IsNearest(0, 0.95 * (n as real - 1.0));
    } else {
      RoundsToNearest(0.95 * (n as real - 1.0));
      assert IsNearest(P95Position(n), 0.95 * (n as real - 1.0));
    }
  }

  /** The median is never above the 95th percentile, negative values included. */
  lemma MedianBelowP95(values: seq<int>)
    requires values != []
    ensures var s := Percentiles(values); s.p50.Some? && s.p95.Some? && s.p50.value <= s.p95.value
  {
    SortedInts(values);
    var o := Sort(values, LeInt);
    var m := |o| / 2;
    if |o| > 1 {
      var i := P95Position(|o|);
      assert o[m] <= o[i];
      if |o| % 2 == 0 { assert o[m - 1] <= o[m]; }
    }
  }
}
