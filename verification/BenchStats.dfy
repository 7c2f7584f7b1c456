/** The statistics of the benchmark gate, over real numbers. */
module BenchStats {
  import opened Types

  /** None stands for NaN and undefined. */
  type Number = Option<real>

  datatype Stats = Stats(samples: nat, min: Number, max: Number, mean: Number, p50: Number, p95: Number, p99: Number,
                         minAllowanceMs: Number)

  datatype Options = Options(thresholdPct: real, absoluteFloorMs: real, noiseAllowanceMs: real)

  datatype Status = Regression | Improvement | Unchanged

  function Max(x: real, y: real): real {
    if x >= y then x else y
  }

  function Abs(x: real): real {
    if x >= 0.0 then x else -x
  }

  function Insert(x: real, s: seq<real>): seq<real> {
    if s == [] || x <= s[0] then [x] + s else [s[0]] + Insert(x, s[1..])
  }

  function Sorted(samples: seq<real>): seq<real> {
    if samples == [] then [] else Insert(samples[0], Sorted(samples[1..]))
  }

  function Ceil(x: real): int {
    -(-x).Floor
  }

  function At(s: seq<real>, i: int): Number {
    if 0 <= i < |s| then Some(s[i]) else None
  }

  function Rank(n: nat, p: real): real {
    p / 100.0 * (n - 1) as real
  }

  function Times(x: real, c: real): real {
    x * c
  }

  function Interpolate(x: real, y: real, t: real): real {
    x + Times(t, y - x)
  }

  function Percentile(ascending: seq<real>, p: real): Number {
    if |ascending| == 0 then None
    else if |ascending| == 1 then Some(ascending[0])
    else
      var rank := Rank(|ascending|, p);
      var low, high := rank.Floor, Ceil(rank);
      if low == high then At(ascending, low)
      else if At(ascending, low).None? || At(ascending, high).None? then None
      else Some(Interpolate(ascending[low], ascending[high], rank - low as real))
  }

  function Sum(s: seq<real>): real {
    if s == [] then 0.0 else s[0] + Sum(s[1..])
  }

  function Summarize(samples: seq<real>, minAllowanceMs: Number): Stats {
    var ascending := Sorted(samples);
    var n := |ascending|;
    Stats(n, At(ascending, 0), At(ascending, n - 1), if n == 0 then None else Some(Sum(ascending) / n as real),
          Percentile(ascending, 50.0), Percentile(ascending, 95.0), Percentile(ascending, 99.0), minAllowanceMs)
  }

  function Ratio(x: real, y: real): real
    requires y != 0.0
  {
    x / y
  }

  function CompareMetric(baseline: Number, current: Number, options: Options): Status {
    if baseline.None? || baseline.value <= 0.0 then Unchanged
    else if current.None? then Regression
    else
      var deltaMs := current.value - baseline.value;
      var deltaPct := Ratio(deltaMs, baseline.value) * 100.0;
      var floor := Max(options.absoluteFloorMs, options.noiseAllowanceMs);
      if deltaPct <= -options.thresholdPct && Abs(deltaMs) >= floor then Improvement
      else if deltaPct < options.thresholdPct then Unchanged
      else if Abs(deltaMs) < floor then Unchanged
      else Regression
  }

  function NoiseAllowance(baseline: Stats, multiplier: real): real {
    var fromSpread :=
      if baseline.p95.Some? && baseline.p50.Some? && baseline.p95.value - baseline.p50.value > 0.0 then
        (baseline.p95.value - baseline.p50.value) * multiplier / 2.0
      else 0.0;
    Max(fromSpread, if baseline.minAllowanceMs.Some? then baseline.minAllowanceMs.value else 0.0)
  }

  // ----- Sorting -----

  ghost predicate Ascending(s: seq<real>) {
    forall i, j :: 0 <= i < j < |s| ==> s[i] <= s[j]
  }

  lemma {:induction false} InsertSpec(x: real, s: seq<real>)
    requires Ascending(s)
    ensures Ascending(Insert(x, s)) && multiset(Insert(x, s)) == multiset(s) + multiset{x}
  {
    if s != [] && x > s[0] {
      TailAscending(s);
      InsertSpec(x, s[1..]);
      hide Ascending;
      ConsAscending(s[0], x, s[1..], Insert(x, s[1..]));
      assert s == [s[0]] + s[1..];
    } else {
      assert multiset([x] + s) == multiset(s) + multiset{x};
    }
  }

  lemma TailAscending(s: seq<real>)
    requires Ascending(s) && s != []
    ensures Ascending(s[1..]) && forall z :: z in s[1..] ==> s[0] <= z
  {
  }

  lemma ConsAscending(y: real, x: real, rest: seq<real>, t: seq<real>)
    requires Ascending(t) && multiset(t) == multiset(rest) + multiset{x}
    requires y <= x && forall z :: z in rest ==> y <= z
    ensures Ascending([y] + t)
  {
    forall j | 0 <= j < |t| ensures y <= t[j] {
      assert t[j] in multiset(t);
      assert t[j] == x || t[j] in rest;
    }
  }

  lemma {:induction false} SortedSpec(s: seq<real>)
    ensures Ascending(Sorted(s)) && multiset(Sorted(s)) == multiset(s) && |Sorted(s)| == |s|
  {
    if s != [] {
      SortedSpec(s[1..]);
      InsertSpec(s[0], Sorted(s[1..]));
      assert s == [s[0]] + s[1..];
      assert |multiset(Sorted(s))| == |multiset(s)|;
    }
  }

  /** A multiset of numbers has one ascending listing. */
  lemma {:induction false} OneListing(a: seq<real>, b: seq<real>)
    requires Ascending(a) && Ascending(b) && multiset(a) == multiset(b)
    ensures a == b
  {
    assert |multiset(a)| == |a| && |multiset(b)| == |b|;
    if a != [] {
      SameLeast(a, b);
      TailMultiset(a);
      TailMultiset(b);
      OneListing(a[1..], b[1..]);
    }
  }

  lemma SameLeast(a: seq<real>, b: seq<real>)
    requires Ascending(a) && Ascending(b) && multiset(a) == multiset(b) && a != [] && b != []
    ensures a[0] == b[0]
  {
    assert a[0] in multiset(a) && b[0] in multiset(b);
    assert a[0] in b && b[0] in a;
  }

  lemma TailMultiset(s: seq<real>)
    requires s != []
    ensures multiset(s[1..]) == multiset(s) - multiset{s[0]}
  {
    assert s == [s[0]] + s[1..];
  }

  /** Statistics see the samples, not the order they came in. */
  lemma OrderDoesNotMatter(a: seq<real>, b: seq<real>, minAllowanceMs: Number)
    requires multiset(a) == multiset(b)
    ensures Summarize(a, minAllowanceMs) == Summarize(b, minAllowanceMs)
    ensures forall p :: Percentile(Sorted(a), p) == Percentile(Sorted(b), p)
  {
    SortedSpec(a);
    SortedSpec(b);
    OneListing(Sorted(a), Sorted(b));
  }

  // ----- Percentiles -----

  lemma MulMono(x: real, y: real, m: real)
    requires x <= y && 0.0 <= m
    ensures x * m <= y * m
  {
  }

  lemma MulStrict(x: real, y: real, m: real)
    requires x < y && 0.0 < m
    ensures x * m < y * m
  {
  }

  lemma InterpolateBetween(x: real, y: real, t: real)
    requires x <= y && 0.0 <= t <= 1.0
    ensures x <= Interpolate(x, y, t) <= y
  {
    hide Times;
    TimesBetween(t, y - x);
  }

  lemma TimesBetween(t: real, d: real)
    requires 0.0 <= t <= 1.0 && 0.0 <= d
    ensures 0.0 <= Times(t, d) <= d
  {
    MulMono(0.0, t, d);
    MulMono(t, 1.0, d);
  }

  lemma InterpolateMonotone(x: real, y: real, t: real, u: real)
    requires x <= y && t <= u
    ensures Interpolate(x, y, t) <= Interpolate(x, y, u)
  {
    assert Times(t, y - x) <= Times(u, y - x) by { MulMono(t, u, y - x); }
    hide Times;
  }

  lemma InterpolateScales(x: real, y: real, t: real, c: real)
    ensures Interpolate(Times(x, c), Times(y, c), t) == Times(Interpolate(x, y, t), c)
  {
    var d := y - x;
    assert y * c - x * c == d * c;
    assert t * (d * c) == t * d * c;
  }

  /** The rank falls inside the list, between two neighbours or on one sample. */
  lemma RankInRange(n: nat, p: real)
    requires n >= 2 && 0.0 <= p <= 100.0
    ensures 0 <= Rank(n, p).Floor <= Ceil(Rank(n, p)) < n
    ensures Ceil(Rank(n, p)) <= Rank(n, p).Floor + 1
  {
    MulMono(0.0, p / 100.0, (n - 1) as real);
    MulMono(p / 100.0, 1.0, (n - 1) as real);
  }

  lemma RankMonotone(n: nat, p: real, q: real)
    requires n >= 2 && p <= q
    ensures Rank(n, p) <= Rank(n, q)
  {
    MulMono(p / 100.0, q / 100.0, (n - 1) as real);
  }

  /** A percentile lies between the samples around its rank. */
  lemma PercentileBetweenNeighbours(s: seq<real>, p: real)
    requires Ascending(s) && |s| >= 2 && 0.0 <= p <= 100.0
    ensures var rank := Rank(|s|, p);
      && 0 <= rank.Floor <= Ceil(rank) < |s|
      && Percentile(s, p).Some? && s[rank.Floor] <= Percentile(s, p).value <= s[Ceil(rank)]
  {
    hide Interpolate, Rank;
    RankInRange(|s|, p);
    var rank := Rank(|s|, p);
    if rank.Floor != Ceil(rank) { InterpolateBetween(s[rank.Floor], s[Ceil(rank)], rank - rank.Floor as real); }
  }

  /** Every percentile lies between the least and the greatest sample, and both are reached. */
  lemma PercentileInRange(s: seq<real>, p: real)
    requires Ascending(s) && s != [] && 0.0 <= p <= 100.0
    ensures Percentile(s, p).Some? && s[0] <= Percentile(s, p).value <= s[|s| - 1]
    ensures Percentile(s, 0.0) == Some(s[0]) && Percentile(s, 100.0) == Some(s[|s| - 1])
  {
    hide Interpolate, Percentile;
    if |s| >= 2 { PercentileBetweenNeighbours(s, p); } else { PercentileOfOne(s, p); }
    PercentileEnds(s);
  }

  lemma PercentileOfOne(s: seq<real>, p: real)
    requires |s| == 1
    ensures Percentile(s, p) == Some(s[0])
  {
  }

  lemma PercentileEnds(s: seq<real>)
    requires s != []
    ensures Percentile(s, 0.0) == Some(s[0]) && Percentile(s, 100.0) == Some(s[|s| - 1])
  {
    hide Interpolate;
  }

  /** Between two neighbours the percentile is the weighted mean of both, the weights linear in the rank. */
  lemma PercentileLinear(s: seq<real>, k: nat, t: real, p: real)
    requires |s| >= 2 && k + 1 < |s| && 0.0 <= t < 1.0
    requires p == 100.0 * (k as real + t) / (|s| - 1) as real
    ensures Percentile(s, p) == Some((1.0 - t) * s[k] + t * s[k + 1])
  {
    RankOf(|s|, k as real + t, p);
    var rank := Rank(|s|, p);
    assert rank.Floor == k;
    hide Rank;
    if t == 0.0 {
      assert Percentile(s, p) == Some(s[k]);
    } else {
      assert Ceil(rank) == k + 1;
      WeightedMean(s[k], s[k + 1], t);
      hide Interpolate;
    }
  }

  lemma RankOf(n: nat, r: real, p: real)
    requires n >= 2 && p == 100.0 * r / (n - 1) as real
    ensures Rank(n, p) == r
  {
    var m := (n - 1) as real;
    DivideProduct(100.0 * r, p, m) by { assert p * m == 100.0 * r; }
    assert p / 100.0 * m == p * m / 100.0;
  }

  lemma WeightedMean(x: real, y: real, t: real)
    ensures Interpolate(x, y, t) == (1.0 - t) * x + t * y
  {
    assert t * (y - x) == t * y - t * x;
  }

  /** With a hundred equal steps between first and last sample, whole percentiles are samples. */
  lemma PercentileOnSample(s: seq<real>, k: nat, p: nat)
    requires |s| == 100 * k + 1 && k >= 1 && p <= 100
    ensures p * k < |s| && Percentile(s, p as real) == Some(s[p * k])
  {
    WholeRank(|s|, k, p);
    hide Rank, Interpolate;
  }

  lemma WholeRank(n: nat, k: nat, p: nat)
    requires n == 100 * k + 1 && k >= 1 && p <= 100
    ensures 0 <= p * k < n && Rank(n, p as real) == (p * k) as real
  {
    NatMono(p, 100, k);
    RankOf(n, (p * k) as real, p as real) by {
      CastProduct(p, k);
      PercentTimes(p as real, k as real);
    }
  }

  lemma NatMono(x: nat, y: nat, k: nat)
    requires x <= y
    ensures 0 <= x * k <= y * k
  {
  }

  lemma CastProduct(p: nat, k: nat)
    ensures (p * k) as real == p as real * k as real
  {
  }

  lemma PercentTimes(p: real, k: real)
    requires k > 0.0
    ensures 100.0 * (p * k) / (100.0 * k) == p
  {
    DivideProduct(100.0 * (p * k), p, 100.0 * k);
  }

  lemma PercentileMonotone(s: seq<real>, p: real, q: real)
    requires Ascending(s) && s != [] && 0.0 <= p <= q <= 100.0
    ensures Percentile(s, p).Some? && Percentile(s, q).Some? && Percentile(s, p).value <= Percentile(s, q).value
  {
    hide Interpolate, Rank, Percentile;
    if |s| >= 2 {
      PercentileBetweenNeighbours(s, p);
      PercentileBetweenNeighbours(s, q);
      RankMonotone(|s|, p, q);
      var r1, r2 := Rank(|s|, p), Rank(|s|, q);
      if r1.Floor < r2.Floor {
        RankInRange(|s|, p);
        assert s[Ceil(r1)] <= s[r2.Floor];
      } else {
        SameCell(s, p, q);
      }
    } else {
      PercentileOfOne(s, p);
      PercentileOfOne(s, q);
    }
  }

  lemma SameCell(s: seq<real>, p: real, q: real)
    requires Ascending(s) && |s| >= 2 && 0.0 <= p <= q <= 100.0 && Rank(|s|, p).Floor == Rank(|s|, q).Floor
    ensures Percentile(s, p).Some? && Percentile(s, q).Some? && Percentile(s, p).value <= Percentile(s, q).value
  {
    hide Interpolate, Rank;
    PercentileBetweenNeighbours(s, p);
    PercentileBetweenNeighbours(s, q);
    RankMonotone(|s|, p, q);
    RankInRange(|s|, q);
    var r1, r2 := Rank(|s|, p), Rank(|s|, q);
    var low := r1.Floor;
    if low < Ceil(r1) { InterpolateMonotone(s[low], s[low + 1], r1 - low as real, r2 - low as real); }
  }

  // ----- Slowing every sample by a factor -----

  function Scale(s: seq<real>, c: real): seq<real> {
    if s == [] then [] else [Times(s[0], c)] + Scale(s[1..], c)
  }

  lemma TimesOrder(x: real, y: real, c: real)
    requires c > 0.0
    ensures x <= y <==> Times(x, c) <= Times(y, c)
  {
    if x <= y { MulMono(x, y, c); } else { MulStrict(y, x, c); }
  }

  lemma {:induction false} ScaleAt(s: seq<real>, c: real)
    ensures |Scale(s, c)| == |s| && forall i :: 0 <= i < |s| ==> Scale(s, c)[i] == Times(s[i], c)
  {
    hide Times;
    if s != [] { ScaleAt(s[1..], c); }
  }

  lemma {:induction false} InsertScales(x: real, s: seq<real>, c: real)
    requires c > 0.0
    ensures Scale(Insert(x, s), c) == Insert(Times(x, c), Scale(s, c))
  {
    hide Times;
    if s != [] {
      TimesOrder(x, s[0], c);
      var t := Insert(x, s[1..]);
      assert ([x] + s)[1..] == s && ([s[0]] + t)[1..] == t;
      assert Scale(s, c)[1..] == Scale(s[1..], c);
      if x > s[0] { InsertScales(x, s[1..], c); }
    } else {
      assert Scale([x], c) == [Times(x, c)];
    }
  }

  lemma {:induction false} SortedScales(s: seq<real>, c: real)
    requires c > 0.0
    ensures Sorted(Scale(s, c)) == Scale(Sorted(s), c)
  {
    hide Times, Insert;
    if s != [] {
      SortedScales(s[1..], c);
      assert Scale(s, c)[1..] == Scale(s[1..], c);
      InsertScales(s[0], Sorted(s[1..]), c);
    }
  }

  lemma ScaledPercentile(s: seq<real>, p: real, c: real)
    requires s != [] && 0.0 <= p <= 100.0
    ensures Percentile(s, p).Some? && Percentile(Scale(s, c), p) == Some(Times(Percentile(s, p).value, c))
  {
    hide Interpolate, Rank, Times;
    ScaleAt(s, c);
    if |s| >= 2 {
      RankInRange(|s|, p);
      var rank := Rank(|s|, p);
      InterpolateScales(s[rank.Floor], s[Ceil(rank)], rank - rank.Floor as real, c);
    }
  }

  /** Percentiles are homogeneous: slowing every sample by c slows each percentile by c. */
  lemma PercentileScales(samples: seq<real>, p: real, c: real)
    requires samples != [] && 0.0 <= p <= 100.0 && c > 0.0
    ensures var b := Percentile(Sorted(samples), p);
      b.Some? && Percentile(Sorted(Scale(samples, c)), p) == Some(Times(b.value, c))
  {
    hide Times, Percentile, Sorted, Scale;
    SortedScales(samples, c);
    SortedSpec(samples);
    ScaledPercentile(Sorted(samples), p, c);
  }

  lemma RatioOfFactor(b: real, c: real)
    requires b > 0.0
    ensures Ratio(Times(b, c) - b, b) == c - 1.0
  {
    var d := Times(b, c) - b;
    assert d == (c - 1.0) * b;
    DivideProduct(d, c - 1.0, b);
  }

  lemma DivideProduct(d: real, x: real, y: real)
    requires y > 0.0 && d == x * y
    ensures d / y == x
  {
    var q := d / y;
    assert q * y == d;
    if q < x { MulStrict(q, x, y); } else if x < q { MulStrict(x, q, y); }
  }

  /** The verdict on a factor-c change of a usable baseline, in terms of c alone. */
  lemma VerdictOnFactor(b: real, c: real, o: Options)
    requires b > 0.0 && c > 0.0 && o.thresholdPct > 0.0
    ensures var delta := Times(b, c) - b;
      var v := CompareMetric(Some(b), Some(Times(b, c)), o);
      && (v == Regression <==> (c - 1.0) * 100.0 >= o.thresholdPct && delta >= o.absoluteFloorMs && delta >= o.noiseAllowanceMs)
      && (v == Improvement <==> (1.0 - c) * 100.0 >= o.thresholdPct && -delta >= o.absoluteFloorMs && -delta >= o.noiseAllowanceMs)
  {
    RatioOfFactor(b, c);
    if c >= 1.0 { MulMono(1.0, c, b); } else { MulMono(c, 1.0, b); }
    assert c >= 1.0 ==> Times(b, c) >= b;
    assert c < 1.0 ==> Times(b, c) <= b;
    hide Ratio, Times;
  }

  /** A run slowed by c against the run itself, on any percentile: a regression exactly when the slowdown
      reaches the percentage threshold and, in milliseconds, both floors; an improvement exactly in the
      mirror case. */
  lemma SlowdownVerdict(samples: seq<real>, p: real, c: real, multiplier: real, declared: Number, o: Options)
    requires samples != [] && 0.0 <= p <= 100.0 && c > 0.0 && o.thresholdPct > 0.0
    requires o.noiseAllowanceMs == NoiseAllowance(Summarize(samples, declared), multiplier)
    ensures Percentile(Sorted(samples), p).Some?
    ensures var b := Percentile(Sorted(samples), p).value;
      var delta := Times(b, c) - b;
      var v := CompareMetric(Some(b), Percentile(Sorted(Scale(samples, c)), p), o);
      && (v == Regression <==> b > 0.0 && (c - 1.0) * 100.0 >= o.thresholdPct
                               && delta >= o.absoluteFloorMs && delta >= o.noiseAllowanceMs)
      && (v == Improvement <==> b > 0.0 && (1.0 - c) * 100.0 >= o.thresholdPct
                                && -delta >= o.absoluteFloorMs && -delta >= o.noiseAllowanceMs)
  {
    hide Times, Percentile, Sorted, Scale, Summarize, NoiseAllowance;
    PercentileScales(samples, p, c);
    var b := Percentile(Sorted(samples), p).value;
    if b > 0.0 {
      hide CompareMetric;
      VerdictOnFactor(b, c, o);
    }
  }

  /** The verdict in products, for any current value: an unusable baseline is never judged; a usable one
      is improved or regressed exactly when the change reaches the percentage of the baseline and, in
      milliseconds, both floors; a current value that is no number counts as a regression. */
  lemma VerdictIff(baseline: Number, current: Number, o: Options)
    ensures baseline.None? || baseline.value <= 0.0 ==> CompareMetric(baseline, current, o) == Unchanged
    ensures baseline.Some? && baseline.value > 0.0 && current.None? ==> CompareMetric(baseline, current, o) == Regression
    ensures baseline.Some? && baseline.value > 0.0 && current.Some? ==>
      var b, x, v := baseline.value, current.value, CompareMetric(baseline, current, o);
      var clears := && (x - b >= o.absoluteFloorMs || b - x >= o.absoluteFloorMs)
                    && (x - b >= o.noiseAllowanceMs || b - x >= o.noiseAllowanceMs);
      && (v == Improvement <==> (b - x) * 100.0 >= o.thresholdPct * b && clears)
      && (v == Regression <==> (x - b) * 100.0 >= o.thresholdPct * b && clears && v != Improvement)
  {
    if baseline.Some? && baseline.value > 0.0 && current.Some? {
      var b, x := baseline.value, current.value;
      PercentOf(x - b, b, o.thresholdPct);
      hide Ratio;
    }
  }

  lemma PercentOf(d: real, b: real, pct: real)
    requires b > 0.0
    ensures Ratio(d, b) * 100.0 >= pct <==> d * 100.0 >= pct * b
    ensures Ratio(d, b) * 100.0 <= -pct <==> -d * 100.0 >= pct * b
  {
    var r := Ratio(d, b) * 100.0;
    RatioTimes(d, b);
    ScaleIff(r, pct, b);
    ScaleIff(-pct, r, b);
    hide Ratio;
  }

  lemma RatioTimes(d: real, b: real)
    requires b > 0.0
    ensures Times(Ratio(d, b) * 100.0, b) == d * 100.0
  {
    var q := d / b;
    assert q * b == d;
  }

  lemma ScaleIff(x: real, y: real, b: real)
    requires b > 0.0
    ensures x >= y <==> Times(x, b) >= Times(y, b)
    ensures Times(-x, b) == -Times(x, b) && Times(y, b) == y * b
  {
    if x >= y { MulMono(y, x, b); } else { MulStrict(x, y, b); }
  }

  /** The allowance covers the declared one; without one, the default multiplier of 2 allows exactly the
      gap from p50 to p95, and any multiplier its half as many gaps. */
  lemma AllowanceIsGap(samples: seq<real>, multiplier: real, declared: Number)
    requires samples != [] && multiplier >= 0.0
    ensures var s := Summarize(samples, declared);
      && s.p50.Some? && s.p95.Some?
      && (declared.Some? ==> NoiseAllowance(s, multiplier) >= declared.value)
      && (declared.None? ==> NoiseAllowance(s, 2.0) == s.p95.value - s.p50.value)
      && (declared.None? ==> 2.0 * NoiseAllowance(s, multiplier) == multiplier * NoiseAllowance(s, 2.0))
  {
    hide Percentile, Sorted;
    SortedSpec(samples);
    PercentileMonotone(Sorted(samples), 50.0, 95.0);
    GapAllowance(Summarize(samples, declared), multiplier);
  }

  lemma GapAllowance(s: Stats, multiplier: real)
    requires s.p50.Some? && s.p95.Some? && s.p50.value <= s.p95.value && multiplier >= 0.0
    ensures s.minAllowanceMs.Some? ==> NoiseAllowance(s, multiplier) >= s.minAllowanceMs.value
    ensures s.minAllowanceMs.None? ==>
              && NoiseAllowance(s, 2.0) == s.p95.value - s.p50.value
              && 2.0 * NoiseAllowance(s, multiplier) == multiplier * (s.p95.value - s.p50.value)
  {
    var gap := s.p95.value - s.p50.value;
    MulMono(0.0, gap, multiplier);
    var product := gap * multiplier;
    assert product >= 0.0;
    assert gap > 0.0 ==> NoiseAllowance(s, multiplier) == Max(product / 2.0, if s.minAllowanceMs.Some? then s.minAllowanceMs.value else 0.0);
    assert product == multiplier * gap;
  }

  /** A run compared with itself is unchanged exactly when the baseline is unusable or some gate is
      positive; with both gates at zero it would be reported as an improvement. */
  lemma SelfComparison(b: Number, o: Options)
    requires b.Some?
    ensures CompareMetric(b, b, o) ==
            if b.value <= 0.0 || o.thresholdPct > 0.0 || Max(o.absoluteFloorMs, o.noiseAllowanceMs) > 0.0
            then Unchanged else Improvement
  {
    if b.value > 0.0 { assert (b.value - b.value) / b.value * 100.0 == 0.0; }
  }

  /** A spread-derived allowance of more than the run's own p50-p95 gap: the gap is never reported. */
  lemma GapIsNoise(samples: seq<real>, multiplier: real, declared: Number, o: Options)
    requires samples != [] && multiplier > 2.0
    requires o.noiseAllowanceMs == NoiseAllowance(Summarize(samples, declared), multiplier)
    requires Summarize(samples, declared).p50 != Summarize(samples, declared).p95
    ensures var s := Summarize(samples, declared);
      CompareMetric(s.p50, s.p95, o) == Unchanged && CompareMetric(s.p95, s.p50, o) == Unchanged
  {
    hide Percentile, Sorted, Ratio;
    SortedSpec(samples);
    var s := Sorted(samples);
    PercentileMonotone(s, 50.0, 95.0);
    AllowanceExceedsGap(Summarize(samples, declared), multiplier);
  }

  lemma AllowanceExceedsGap(s: Stats, multiplier: real)
    requires s.p50.Some? && s.p95.Some? && s.p50.value < s.p95.value && multiplier > 2.0
    ensures NoiseAllowance(s, multiplier) > s.p95.value - s.p50.value
  {
    var gap := s.p95.value - s.p50.value;
    MulStrict(2.0, multiplier, gap);
    var product := gap * multiplier;
    assert product > gap * 2.0;
    assert NoiseAllowance(s, multiplier) >= product / 2.0;
  }

  /** min <= p50 <= p95 <= p99 <= max and min <= mean <= max, over the samples that were taken. */
  lemma SummaryOrdered(samples: seq<real>, declared: Number)
    requires samples != []
    ensures var s := Summarize(samples, declared);
      && s.samples == |samples| && s.min.Some? && s.max.Some? && s.mean.Some? && s.p50.Some? && s.p95.Some? && s.p99.Some?
      && s.min.value <= s.p50.value <= s.p95.value <= s.p99.value <= s.max.value
      && s.min.value <= s.mean.value <= s.max.value
      && s.min.value in samples && s.max.value in samples
      && (forall x :: x in samples ==> s.min.value <= x <= s.max.value)
      && s.mean.value * |samples| as real == Sum(samples)
      && (forall k: nat :: |samples| == 100 * k + 1 && k >= 1 ==>
            s.p50.value == Sorted(samples)[50 * k] && s.p95.value == Sorted(samples)[95 * k]
            && s.p99.value == Sorted(samples)[99 * k])
  {
    hide Percentile, Sorted, Sum;
    SumSorted(samples);
    MeanTimesCount(Sum(Sorted(samples)), |samples| as real);
    forall k: nat | |samples| == 100 * k + 1 && k >= 1
      ensures |Sorted(samples)| == |samples| && 99 * k < |samples|
      ensures Percentile(Sorted(samples), 50.0) == Some(Sorted(samples)[50 * k])
      ensures Percentile(Sorted(samples), 95.0) == Some(Sorted(samples)[95 * k])
      ensures Percentile(Sorted(samples), 99.0) == Some(Sorted(samples)[99 * k])
    {
      SortedSpec(samples);
      PercentileOnSample(Sorted(samples), k, 50);
      PercentileOnSample(Sorted(samples), k, 95);
      PercentileOnSample(Sorted(samples), k, 99);
    }
    SortedSpec(samples);
    var s := Sorted(samples);
    PercentileInRange(s, 50.0);
    PercentileInRange(s, 99.0);
    PercentileMonotone(s, 50.0, 95.0);
    PercentileMonotone(s, 95.0, 99.0);
    MeanInRange(s);
    SameElements(s, samples);
  }

  lemma MeanTimesCount(sum: real, n: real)
    requires n > 0.0
    ensures sum / n * n == sum
  {
  }

  lemma {:induction false} SumInsert(x: real, s: seq<real>)
    ensures Sum(Insert(x, s)) == x + Sum(s)
  {
    if s != [] && x > s[0] {
      SumInsert(x, s[1..]);
      assert ([s[0]] + Insert(x, s[1..]))[1..] == Insert(x, s[1..]);
    } else {
      assert ([x] + s)[1..] == s;
    }
  }

  lemma {:induction false} SumSorted(s: seq<real>)
    ensures Sum(Sorted(s)) == Sum(s)
  {
    if s != [] {
      SumSorted(s[1..]);
      SumInsert(s[0], Sorted(s[1..]));
    }
  }

  lemma SameElements(a: seq<real>, b: seq<real>)
    requires multiset(a) == multiset(b)
    ensures forall x :: x in a <==> x in b
  {
    forall x ensures x in a <==> x in b { assert x in a <==> x in multiset(a); }
  }

  lemma MeanInRange(s: seq<real>)
    requires Ascending(s) && s != []
    ensures s[0] <= Sum(s) / |s| as real <= s[|s| - 1]
  {
    SumBounds(s, s[0], s[|s| - 1]);
    DivideBounds(Sum(s), |s| as real, s[0], s[|s| - 1]);
  }

  lemma DivideBounds(sum: real, n: real, lo: real, hi: real)
    requires n > 0.0 && lo * n <= sum <= hi * n
    ensures lo <= sum / n <= hi
  {
    assert sum / n * n == sum;
  }

  lemma {:induction false} SumBounds(s: seq<real>, lo: real, hi: real)
    requires forall i :: 0 <= i < |s| ==> lo <= s[i] <= hi
    ensures lo * |s| as real <= Sum(s) <= hi * |s| as real
  {
    if s != [] {
      SumBounds(s[1..], lo, hi);
      assert |s| as real == |s[1..]| as real + 1.0;
      assert lo * |s| as real == lo * |s[1..]| as real + lo;
      assert hi * |s| as real == hi * |s[1..]| as real + hi;
    }
  }
}
