/**
 * Interpolated percentiles and the seeded bootstrap interval (nb-flux-stats.ts).
 *
 * All values are exact reals. A statistic that is not a finite number is `None`.
 */
module Bootstrap {
  import opened Wrappers
  import opened Sorting

  // ----- sorting

  function Itself(x: real): real { x }

  function Ranked(xs: seq<real>): (r: seq<real>)
    ensures |r| == |xs|
  { Sort(xs, Itself) }

  lemma {:induction false} RankedIsOrdered(xs: seq<real>)
    ensures Ordered(Ranked(xs), Itself) && multiset(Ranked(xs)) == multiset(xs)
  {
    hide Ordered;
    SortSorts(xs, Itself);
  }

  lemma {:induction false} HeadIsLeast(xs: seq<real>, y: real)
    requires Ordered(xs, Itself) && y in multiset(xs)
    ensures xs != [] && xs[0] <= y
  {
    assert y in xs;
  }

  /** An ascending list is determined by its elements. */
  lemma {:induction false} OrderedIsUnique(xs: seq<real>, ys: seq<real>)
    requires Ordered(xs, Itself) && Ordered(ys, Itself) && multiset(xs) == multiset(ys)
    ensures xs == ys
  {
    if xs == [] {
      assert |multiset(ys)| == |ys|;
    } else {
      assert xs[0] in multiset(ys);
      HeadIsLeast(ys, xs[0]);
      assert ys[0] in multiset(xs);
      HeadIsLeast(xs, ys[0]);
      SameTail(xs, ys);
      OrderedIsUnique(xs[1..], ys[1..]);
    }
  }

  lemma {:induction false} SameTail(xs: seq<real>, ys: seq<real>)
    requires xs != [] && ys != [] && xs[0] == ys[0] && multiset(xs) == multiset(ys)
    ensures multiset(xs[1..]) == multiset(ys[1..]) && xs == [xs[0]] + xs[1..] && ys == [ys[0]] + ys[1..]
  {
    assert multiset(xs[1..]) == multiset(xs) - multiset{xs[0]} by { assert xs == [xs[0]] + xs[1..]; }
    assert multiset(ys[1..]) == multiset(ys) - multiset{ys[0]} by { assert ys == [ys[0]] + ys[1..]; }
  }

  // ----- percentiles

  function Unit(q: real): real { if q < 0.0 then 0.0 else if q > 1.0 then 1.0 else q }

  function Position(q: real, n: nat): (p: real)
    requires n > 0
    ensures 0.0 <= p <= (n - 1) as real
  {
    PositionRange(Unit(q), (n - 1) as real);
    Unit(q) * (n - 1) as real
  }

  lemma {:induction false} PositionRange(u: real, m: real)
    requires 0.0 <= u <= 1.0 && m >= 0.0
    ensures 0.0 <= u * m <= m
  {
    assert u * m <= 1.0 * m;
  }

  function Ceil(p: real): int { if p == p.Floor as real then p.Floor else p.Floor + 1 }

  function Mixed(a: real, b: real, w: real): real { a * (1.0 - w) + b * w }

  /** The value at a position between two elements of a sorted list. */
  function Interpolate(sorted: seq<real>, p: real): real
    requires sorted != [] && 0.0 <= p <= (|sorted| - 1) as real
  {
    var lower, upper := p.Floor, Ceil(p);
    if lower == upper then sorted[lower]
    else
      var weight := p - lower as real;
      Mixed(sorted[lower], sorted[upper], weight)
  }

  function Percentile(values: seq<real>, q: real): (r: Option<real>)
    ensures r.Some? <==> values != []
  {
    if values == [] then None else Some(Interpolate(Ranked(values), Position(q, |values|)))
  }

  /** Only which values there are matters, not their order. */
  lemma {:induction false} OrderDoesNotMatter(xs: seq<real>, ys: seq<real>, q: real)
    requires multiset(xs) == multiset(ys)
    ensures Percentile(xs, q) == Percentile(ys, q)
  {
    RankedIsOrdered(xs);
    RankedIsOrdered(ys);
    OrderedIsUnique(Ranked(xs), Ranked(ys));
    assert |multiset(xs)| == |xs| && |multiset(ys)| == |ys|;
  }

  lemma {:induction false} TimesDifference(a: real, x: real, y: real)
    ensures a * (x - y) == a * x - a * y
  {}

  lemma {:induction false} DifferenceTimes(a: real, b: real, y: real)
    ensures (b - a) * y == b * y - a * y
  {}

  lemma {:induction false} TimesOne(a: real)
    ensures a * 1.0 == a
  {}

  lemma {:induction false} ProductNotNegative(d: real, w: real)
    requires d >= 0.0 && w >= 0.0
    ensures d * w >= 0.0
  {}

  /** A weighted mean is its first part, moved by a share of the difference. */
  lemma {:induction false} MixIs(a: real, b: real, w: real)
    ensures Mixed(a, b, w) == a + (b - a) * w == b - (b - a) * (1.0 - w)
  {
    TimesDifference(a, 1.0, w);
    TimesOne(a);
    DifferenceTimes(a, b, w);
    TimesDifference(b - a, 1.0, w);
    TimesOne(b - a);
  }

  lemma {:induction false} Mix(a: real, b: real, w: real)
    requires a <= b && 0.0 <= w <= 1.0
    ensures a <= Mixed(a, b, w) <= b
  {
    MixIs(a, b, w);
    ProductNotNegative(b - a, w);
    ProductNotNegative(b - a, 1.0 - w);
  }

  lemma {:induction false} MixGrows(a: real, b: real, v: real, w: real)
    requires a <= b && v <= w
    ensures Mixed(a, b, v) <= Mixed(a, b, w)
  {
    MixIs(a, b, v);
    MixIs(a, b, w);
    TimesDifference(b - a, w, v);
    ProductNotNegative(b - a, w - v);
  }

  /** The interpolated value lies between its two neighbours. */
  lemma {:induction false} BetweenNeighbours(sorted: seq<real>, p: real)
    requires sorted != [] && Ordered(sorted, Itself) && 0.0 <= p <= (|sorted| - 1) as real
    ensures sorted[p.Floor] <= Interpolate(sorted, p) <= sorted[Ceil(p)]
  {
    hide Interpolate, Mixed;
    if p == p.Floor as real {
      InterpolateAt(sorted, p.Floor);
    } else {
      var k, w := InterpolateIs(sorted, p);
      assert Itself(sorted[k]) <= Itself(sorted[k + 1]);
      Mix(sorted[k], sorted[k + 1], w);
    }
  }

  lemma {:induction false} InterpolateAt(sorted: seq<real>, k: nat)
    requires k < |sorted|
    ensures Interpolate(sorted, k as real) == sorted[k]
  {}

  lemma {:induction false} InterpolateIs(sorted: seq<real>, p: real) returns (k: nat, w: real)
    requires sorted != [] && 0.0 <= p <= (|sorted| - 1) as real && p != p.Floor as real
    ensures k == p.Floor && w == p - k as real && k + 1 < |sorted| && Ceil(p) == k + 1 && 0.0 <= w <= 1.0
    ensures Interpolate(sorted, p) == Mixed(sorted[k], sorted[k + 1], w)
  {
    hide Mixed;
    k, w := p.Floor, p - p.Floor as real;
  }

  lemma {:induction false} InterpolateMonotone(sorted: seq<real>, p: real, r: real)
    requires sorted != [] && Ordered(sorted, Itself) && 0.0 <= p <= r <= (|sorted| - 1) as real
    ensures Interpolate(sorted, p) <= Interpolate(sorted, r)
  {
    BetweenNeighbours(sorted, p);
    BetweenNeighbours(sorted, r);
    if p.Floor == r.Floor {
      var low := p.Floor as real;
      if p != low { MixGrows(sorted[p.Floor], sorted[p.Floor + 1], p - low, r - low); }
    } else {
      assert Ceil(p) <= r.Floor;
    }
  }

  lemma {:induction false} ProductGrows(u: real, v: real, m: real)
    requires u <= v && m >= 0.0
    ensures u * m <= v * m
  {
    DifferenceTimes(u, v, m);
    ProductNotNegative(v - u, m);
  }

  lemma {:induction false} PositionGrows(q: real, r: real, n: nat, m: real)
    requires q <= r && n > 0 && m == (n - 1) as real
    ensures Position(q, n) <= Position(r, n)
  {
    ProductGrows(Unit(q), Unit(r), m);
    assert Position(q, n) == Unit(q) * m;
    assert Position(r, n) == Unit(r) * m;
  }

  /** A larger quantile never gives a smaller value. */
  lemma {:induction false} PercentileMonotone(values: seq<real>, q: real, r: real)
    requires values != [] && q <= r
    ensures Percentile(values, q).value <= Percentile(values, r).value
  {
    hide Interpolate;
    RankedIsOrdered(values);
    PositionGrows(q, r, |values|, (|values| - 1) as real);
    InterpolateMonotone(Ranked(values), Position(q, |values|), Position(r, |values|));
  }

  /** Percentiles stay within any bounds on the values. */
  lemma {:induction false} PercentileWithin(values: seq<real>, q: real, lo: real, hi: real)
    requires values != [] && forall v :: v in values ==> lo <= v <= hi
    ensures lo <= Percentile(values, q).value <= hi
  {
    hide Interpolate;
    RankedIsOrdered(values);
    var sorted, p := Ranked(values), Position(q, |values|);
    BetweenNeighbours(sorted, p);
    assert sorted[p.Floor] in multiset(sorted) && sorted[Ceil(p)] in multiset(sorted);
    assert sorted[p.Floor] in values && sorted[Ceil(p)] in values;
  }

  /** At the knots the percentile is the value of that rank: the minimum at 0, the maximum at 1. */
  lemma {:induction false} PercentileAtKnot(values: seq<real>, k: nat)
    requires |values| >= 2 && k < |values|
    ensures Percentile(values, k as real / (|values| - 1) as real) == Some(Ranked(values)[k])
  {
    var m := (|values| - 1) as real;
    var q := k as real / m;
    QuotientTimes(k as real, m);
    assert Position(q, |values|) == k as real;
  }

  lemma {:induction false} QuotientTimes(k: real, m: real)
    requires 0.0 <= k <= m && m > 0.0
    ensures Unit(k / m) * m == k
  {
    var q := k / m;
    assert q * m == k;
    if q > 1.0 { assert q * m > 1.0 * m; }
    if q < 0.0 { assert q * m < 0.0 * m; }
  }

  ghost predicate Ascending(xs: seq<real>) { forall i, j :: 0 <= i < j < |xs| ==> xs[i] <= xs[j] }

  lemma {:induction false} RankedIs(values: seq<real>, sorted: seq<real>)
    requires Ascending(sorted) && multiset(sorted) == multiset(values)
    ensures Ranked(values) == sorted && |sorted| == |values|
  {
    RankedIsOrdered(values);
    OrderedIsUnique(Ranked(values), sorted);
  }

  /**
   * Main result: with the values in ascending order, the percentile lies on the straight line between the two
   * values whose ranks enclose `q * (n - 1)`.
   */
  lemma {:induction false} PercentileIsLinear(values: seq<real>, sorted: seq<real>, q: real, position: real, k: nat)
    requires Ascending(sorted) && multiset(sorted) == multiset(values)
    requires position == q * (|sorted| - 1) as real && k + 1 < |sorted| && k as real <= position <= (k + 1) as real
    ensures Percentile(values, q) == Some(sorted[k] + (sorted[k + 1] - sorted[k]) * (position - k as real))
  {
    hide Interpolate, Position;
    RankedIs(values, sorted);
    assert (k + 1) as real <= (|sorted| - 1) as real && k as real >= 0.0;
    PositionIs(q, |sorted|, position);
    assert Percentile(values, q) == Some(Interpolate(sorted, position));
    InterpolateIsLinear(sorted, position, k);
  }

  lemma {:induction false} PositionIs(q: real, n: nat, position: real)
    requires n > 1 && position == q * (n - 1) as real && 0.0 <= position <= (n - 1) as real
    ensures Position(q, n) == position
  {
    SignOfProduct(q, (n - 1) as real);
  }

  lemma {:induction false} InterpolateIsLinear(sorted: seq<real>, p: real, k: nat)
    requires k + 1 < |sorted| && k as real <= p <= (k + 1) as real
    ensures Interpolate(sorted, p) == sorted[k] + (sorted[k + 1] - sorted[k]) * (p - k as real)
  {
    hide Interpolate, Mixed;
    var a, b := sorted[k], sorted[k + 1];
    if p == (k + 1) as real {
      InterpolateAt(sorted, k + 1);
      TimesOne(b - a);
      assert p - k as real == 1.0;
    } else if p == k as real {
      InterpolateAt(sorted, k);
      assert p - k as real == 0.0;
    } else {
      FloorIs(p, k);
      var f, w := InterpolateIs(sorted, p);
      MixIs(a, b, w);
    }
  }

  lemma {:induction false} FloorIs(p: real, k: nat)
    requires k as real < p < (k + 1) as real
    ensures p.Floor == k && p != p.Floor as real
  {}

  lemma {:induction false} SignOfProduct(q: real, m: real)
    requires m > 0.0
    ensures q < 0.0 ==> q * m < 0.0
    ensures q > 1.0 ==> q * m > m
  {
    if q > 1.0 { ProductPositive(q - 1.0, m); DifferenceTimes(1.0, q, m); TimesOne(m); }
  }

  lemma {:induction false} ProductPositive(d: real, w: real)
    requires d > 0.0 && w > 0.0
    ensures d * w > 0.0
  {}

  /** Outside of the unit interval it is the least or the greatest value. */
  lemma {:induction false} PercentileOutside(values: seq<real>, sorted: seq<real>, q: real)
    requires Ascending(sorted) && multiset(sorted) == multiset(values) && values != []
    ensures q <= 0.0 || |sorted| == 1 ==> Percentile(values, q) == Some(sorted[0])
    ensures q >= 1.0 ==> Percentile(values, q) == Some(sorted[|sorted|-1])
  {
    hide Interpolate;
    RankedIs(values, sorted);
    var m := (|sorted| - 1) as real;
    if q <= 0.0 || |sorted| == 1 {
      assert Unit(q) * m == 0.0;
      assert Position(q, |values|) == 0.0;
      InterpolateAt(sorted, 0);
    }
    if q >= 1.0 {
      TimesOne(m);
      assert Unit(q) * m == m;
      assert Position(q, |values|) == m;
      InterpolateAt(sorted, |sorted| - 1);
    }
  }

  // ----- how many values lie on each side

  lemma {:induction false} CountAppend(xs: seq<real>, ys: seq<real>, p: real -> bool)
    ensures Count(xs + ys, p) == Count(xs, p) + Count(ys, p)
  {
    if xs == [] {
      assert xs + ys == ys;
    } else {
      assert (xs + ys)[1..] == xs[1..] + ys;
      CountAppend(xs[1..], ys, p);
    }
  }

  lemma {:induction false} WithoutOne(before: seq<real>, x: real, after: seq<real>)
    ensures multiset(before + after) == multiset(before + ([x] + after)) - multiset{x}
  {}

  lemma {:induction false} CountPermutes(xs: seq<real>, ys: seq<real>, p: real -> bool)
    requires multiset(xs) == multiset(ys)
    ensures Count(xs, p) == Count(ys, p)
  {
    hide Count;
    if xs == [] {
      assert |multiset(ys)| == |ys|;
    } else {
      assert xs[0] in multiset(ys);
      var i :| 0 <= i < |ys| && ys[i] == xs[0];
      CountWithoutOne(xs, 0, p);
      CountWithoutOne(ys, i, p);
      CountPermutes(xs[..0] + xs[1..], ys[..i] + ys[i+1..], p);
    }
  }

  lemma {:induction false} CountWithoutOne(xs: seq<real>, i: nat, p: real -> bool)
    requires i < |xs|
    ensures var rest := xs[..i] + xs[i+1..];
            && |rest| == |xs| - 1 && multiset(rest) == multiset(xs) - multiset{xs[i]}
            && Count(xs, p) == Count(rest, p) + Count([xs[i]], p)
  {
    hide Count;
    WithoutOne(xs[..i], xs[i], xs[i+1..]);
    assert xs == xs[..i] + ([xs[i]] + xs[i+1..]);
    CountAppend(xs[..i], [xs[i]] + xs[i+1..], p);
    CountAppend([xs[i]], xs[i+1..], p);
    CountAppend(xs[..i], xs[i+1..], p);
  }

  lemma {:induction false} CountNone(xs: seq<real>, p: real -> bool)
    requires forall i :: 0 <= i < |xs| ==> !p(xs[i])
    ensures Count(xs, p) == 0
  {
    if xs != [] { CountNone(xs[1..], p); }
  }

  /** In ascending order, at most `k` values lie below the one of rank `k`, and at most the others above it. */
  lemma {:induction false} CountsAtRank(sorted: seq<real>, k: nat, v: real)
    requires Ascending(sorted) && k < |sorted|
    ensures v <= sorted[k] ==> Count(sorted, (x: real) => x < v) <= k
    ensures v >= sorted[k] ==> Count(sorted, (x: real) => x > v) <= |sorted| - 1 - k
  {
    if v <= sorted[k] {
      CountAppend(sorted[..k], sorted[k..], (x: real) => x < v);
      assert sorted == sorted[..k] + sorted[k..];
      CountNone(sorted[k..], (x: real) => x < v);
    }
    if v >= sorted[k] {
      CountAppend(sorted[..k+1], sorted[k+1..], (x: real) => x > v);
      assert sorted == sorted[..k+1] + sorted[k+1..];
      CountNone(sorted[..k+1], (x: real) => x > v);
    }
  }

  /** At most `q * (n - 1)` values, rounded up, lie below the percentile, and at most the other share above it. */
  lemma {:induction false} PercentileSplits(values: seq<real>, q: real)
    requires values != [] && 0.0 <= q <= 1.0
    ensures var v, m := Percentile(values, q).value, (|values| - 1) as real;
            && Count(values, (x: real) => x < v) as real < q * m + 1.0
            && Count(values, (x: real) => x > v) as real < (1.0 - q) * m + 1.0
  {
    hide Percentile, Count, Ascending, Ceil;
    var v, m := Percentile(values, q).value, (|values| - 1) as real;
    var sorted, p := Neighbours(values, q);
    CountsAtPosition(sorted, p, v);
    CountPermutes(sorted, values, (x: real) => x < v);
    CountPermutes(sorted, values, (x: real) => x > v);
    DifferenceTimes(q, 1.0, m);
  }

  lemma {:induction false} Neighbours(values: seq<real>, q: real) returns (sorted: seq<real>, p: real)
    requires values != [] && 0.0 <= q <= 1.0
    ensures Ascending(sorted) && multiset(sorted) == multiset(values) && |sorted| == |values|
    ensures p == q * (|values| - 1) as real && 0.0 <= p <= (|sorted| - 1) as real
    ensures sorted[p.Floor] <= Percentile(values, q).value <= sorted[Ceil(p)]
  {
    hide Interpolate;
    sorted, p := Ranked(values), Position(q, |values|);
    RankedIsOrdered(values);
    OrderedIsAscending(sorted);
    WithinUnit(q, |values|);
    BetweenNeighbours(sorted, p);
  }

  lemma {:induction false} CountsAtPosition(sorted: seq<real>, p: real, v: real)
    requires Ascending(sorted) && sorted != [] && 0.0 <= p <= (|sorted| - 1) as real
    requires sorted[p.Floor] <= v <= sorted[Ceil(p)]
    ensures Count(sorted, (x: real) => x < v) as real < p + 1.0
    ensures Count(sorted, (x: real) => x > v) as real < (|sorted| - 1) as real - p + 1.0
  {
    hide Count, Ascending;
    CountsAtRank(sorted, Ceil(p), v);
    CountsAtRank(sorted, p.Floor, v);
    CeilIsNear(p);
  }

  lemma {:induction false} WithinUnit(q: real, n: nat)
    requires 0.0 <= q <= 1.0 && n > 0
    ensures Position(q, n) == q * (n - 1) as real
  {}

  lemma {:induction false} CeilIsNear(p: real)
    ensures (Ceil(p) as real) < p + 1.0 && (p.Floor as real) > p - 1.0
  {}

  lemma {:induction false} OrderedIsAscending(xs: seq<real>)
    requires Ordered(xs, Itself)
    ensures Ascending(xs)
  {
    forall i, j | 0 <= i < j < |xs| ensures xs[i] <= xs[j] { assert Itself(xs[i]) <= Itself(xs[j]); }
  }

  // ----- the generator and the bootstrap

  /** One step of mulberry32: the next state, and 32 random bits. */
  function Next(state: bv32): (bv32, bv32) {
    var s := state + 0x6d2b79f5;
    var t := (s ^ (s >> 15)) * (1 | s);
    var u := (t + (t ^ (t >> 7)) * (61 | t)) ^ t;
    (s, u ^ (u >> 14))
  }

  const RANGE: nat := 0x1_0000_0000

  /** `Math.floor(random() * n)`, on the 32 bits the generator divides by its range. */
  function Pick(bits: bv32, n: nat): (i: nat)
    requires n > 0
    ensures i < n
  {
    var b: int := bits as int;
    PickRange(b, n);
    b * n / RANGE
  }

  lemma {:induction false} PickRange(b: int, n: nat)
    requires 0 <= b < RANGE && n > 0
    ensures 0 <= b * n / RANGE < n
  {
    ProductBelow(b, n, RANGE);
    QuotientBelow(b * n, n, RANGE);
  }

  lemma {:induction false} ProductBelow(b: nat, n: nat, c: nat)
    requires b < c && n > 0
    ensures 0 <= b * n < n * c
  {
    assert n * c == b * n + (c - b) * n;
  }

  lemma {:induction false} ProductSign(d: int, c: nat)
    ensures d >= 0 ==> d * c >= 0
  {}

  lemma {:induction false} QuotientBelow(x: nat, n: nat, c: nat)
    requires c > 0 && x < n * c
    ensures 0 <= x / c < n
  {
    var q := x / c;
    assert q * c <= x;
    assert q * c == n * c + (q - n) * c;
    ProductSign(q - n, c);
  }

  /** `k` clusters drawn with replacement, and the state after. */
  function Draw<T>(clusters: seq<T>, state: bv32, k: nat): (r: (seq<T>, bv32))
    requires clusters != []
    ensures |r.0| == k && forall c :: c in r.0 ==> c in clusters
  {
    hide Next, Pick;
    if k == 0 then ([], state)
    else
      var (earlier, s) := Draw(clusters, state, k - 1);
      (earlier + [clusters[Pick(Next(s).1, |clusters|)]], Next(s).0)
  }

  /** The finite estimates of `n` resamples, and the state after. */
  function Estimates<T>(clusters: seq<T>, statistic: seq<T> -> Option<real>, state: bv32, n: nat): (seq<real>, bv32)
    requires clusters != []
  {
    if n == 0 then ([], state)
    else
      var (earlier, s) := Estimates(clusters, statistic, state, n - 1);
      var (sample, after) := Draw(clusters, s, |clusters|);
      (match statistic(sample) case Some(e) => earlier + [e] case None => earlier, after)
  }

  datatype Interval = Interval(lower: real, upper: real)

  function IntervalOf(estimates: seq<real>): (i: Option<Interval>)
    ensures i.Some? <==> estimates != []
  {
    if estimates == [] then None
    else Some(Interval(Percentile(estimates, 0.025).value, Percentile(estimates, 0.975).value))
  }

  method BootstrapInterval<T>(clusters: seq<T>, statistic: seq<T> -> Option<real>, seed: bv32, iterations: nat)
      returns (r: Option<Interval>)
    ensures r == if clusters == [] then None else IntervalOf(Estimates(clusters, statistic, seed, iterations).0)
  {
    hide Next, Pick, Percentile;
    if clusters == [] || iterations < 1 { return None; }
    var state := seed;
    var estimates: seq<real> := [];
    for iteration := 0 to iterations
      invariant (estimates, state) == Estimates(clusters, statistic, seed, iteration)
    {
      ghost var before := state;
      var sample: seq<T> := [];
      for k := 0 to |clusters|
        invariant (sample, state) == Draw(clusters, before, k)
      {
        var bits := Next(state).1;
        sample, state := sample + [clusters[Pick(bits, |clusters|)]], Next(state).0;
      }
      var estimate := statistic(sample);
      if estimate.Some? { estimates := estimates + [estimate.value]; }
    }
    if estimates == [] { return None; }
    return Some(Interval(Percentile(estimates, 0.025).value, Percentile(estimates, 0.975).value));
  }

  // ----- what the draws are

  /** The generator on three seeds. */
  lemma {:induction false} FirstBits()
    ensures Next(0) == (0x6d2b79f5, 0x4434b462)
    ensures Next(1) == (0x6d2b79f6, 0xa087eaf3)
    ensures Next(0xffff_ffff) == (0x6d2b79f4, 0xe57bf3d3)
  {}

  /** The index drawn is the part of the range, cut in `n` equal ones, that the bits lie in. */
  lemma {:induction false} PickIff(bits: bv32, n: nat, i: nat)
    requires n > 0
    ensures Pick(bits, n) == i <==> 4294967296 * i <= (bits as int) * n < 4294967296 * (i + 1)
  {
    var x: int := (bits as int) * n;
    assert x / RANGE == i <==> RANGE * i <= x < RANGE * (i + 1);
  }

  function StateAfter(seed: bv32, n: nat): bv32 { if n == 0 then seed else Next(StateAfter(seed, n - 1)).0 }

  /** What is drawn with the `n`-th random number. */
  function Drawn<T>(clusters: seq<T>, seed: bv32, n: nat): T
    requires clusters != []
  { clusters[Pick(Next(StateAfter(seed, n)).1, |clusters|)] }

  /** The resample `m`: the random numbers are used one after another, each of them once. */
  function ResampleOf<T>(clusters: seq<T>, seed: bv32, m: nat): seq<T>
    requires clusters != []
  { seq(|clusters|, (i: nat) => Drawn(clusters, seed, m * |clusters| + i)) }

  /** The statistic of each resample, by its number. */
  function Estimated<T>(clusters: seq<T>, statistic: seq<T> -> Option<real>, seed: bv32): nat -> Option<real>
    requires clusters != []
  { (m: nat) => statistic(ResampleOf(clusters, seed, m)) }

  /** The finite ones of the first `n`. */
  function Finite(estimated: nat -> Option<real>, n: nat): seq<real> {
    if n == 0 then []
    else Finite(estimated, n - 1) + (match estimated(n - 1) case Some(x) => [x] case None => [])
  }

  lemma {:induction false} StateGoesOn(seed: bv32, m: nat, n: nat)
    ensures StateAfter(StateAfter(seed, m), n) == StateAfter(seed, m + n)
  {
    hide Next;
    if n > 0 { StateGoesOn(seed, m, n - 1); }
  }

  lemma {:induction false} DrawIs<T>(clusters: seq<T>, seed: bv32, m: nat, k: nat)
    requires clusters != []
    ensures var (sample, after) := Draw(clusters, StateAfter(seed, m), k);
            after == StateAfter(seed, m + k) && |sample| == k
            && forall i :: 0 <= i < k ==> sample[i] == Drawn(clusters, seed, m + i)
  {
    hide Next, Pick;
    if k > 0 {
      DrawIs(clusters, seed, m, k - 1);
      StateGoesOn(seed, m, k);
    }
  }

  /** The estimates are the finite values of the statistic on the resamples, in order. */
  lemma {:induction false} EstimatesAre<T>(clusters: seq<T>, statistic: seq<T> -> Option<real>, seed: bv32, n: nat)
    requires clusters != []
    ensures Estimates(clusters, statistic, seed, n)
            == (Finite(Estimated(clusters, statistic, seed), n), StateAfter(seed, n * |clusters|))
  {
    hide Next, Pick, Draw, Drawn, ResampleOf, StateAfter;
    if n == 0 {
      NoState(seed, |clusters|);
    } else {
      EstimatesAre(clusters, statistic, seed, n - 1);
      ResampleDrawn(clusters, seed, n - 1);
      EstimatesNext(clusters, statistic, seed, n);
    }
  }

  lemma {:induction false} EstimatesNext<T>(clusters: seq<T>, statistic: seq<T> -> Option<real>, seed: bv32, n: nat)
    requires clusters != [] && n > 0
    ensures var (earlier, s) := Estimates(clusters, statistic, seed, n - 1);
            var (sample, after) := Draw(clusters, s, |clusters|);
            Estimates(clusters, statistic, seed, n)
            == (earlier + (match statistic(sample) case Some(e) => [e] case None => []), after)
  {
    hide Draw;
    var earlier := Estimates(clusters, statistic, seed, n - 1).0;
    assert earlier + [] == earlier;
  }

  lemma {:induction false} ResampleDrawn<T>(clusters: seq<T>, seed: bv32, m: nat)
    requires clusters != []
    ensures Draw(clusters, StateAfter(seed, m * |clusters|), |clusters|)
            == (ResampleOf(clusters, seed, m), StateAfter(seed, (m + 1) * |clusters|))
  {
    hide Next, Pick, Draw, Drawn, StateAfter;
    DrawIs(clusters, seed, m * |clusters|, |clusters|);
    NextBlock(m + 1, |clusters|);
    var sample := Draw(clusters, StateAfter(seed, m * |clusters|), |clusters|).0;
    assert sample == ResampleOf(clusters, seed, m);
  }

  lemma {:induction false} NoState(seed: bv32, k: nat)
    ensures StateAfter(seed, 0 * k) == seed
  {}

  lemma {:induction false} NextBlock(n: nat, k: nat)
    requires n > 0
    ensures (n - 1) * k + k == n * k
  {}

  /** `sample` is drawn from `clusters`, as many as there are. */
  ghost predicate Resample<T>(clusters: seq<T>, sample: seq<T>) {
    |sample| == |clusters| && forall c :: c in sample ==> c in clusters
  }

  /** On resamples, the statistic stays between `lo` and `hi` whenever it is finite. */
  ghost predicate Respects<T(!new)>(clusters: seq<T>, statistic: seq<T> -> Option<real>, lo: real, hi: real) {
    forall sample :: Resample(clusters, sample) && statistic(sample).Some? ==> lo <= statistic(sample).value <= hi
  }

  lemma {:induction false} EstimatesWithin<T(!new)>(clusters: seq<T>, statistic: seq<T> -> Option<real>, seed: bv32,
                                                      n: nat, lo: real, hi: real)
    requires clusters != []
    requires Respects(clusters, statistic, lo, hi)
    ensures forall e :: e in Estimates(clusters, statistic, seed, n).0 ==> lo <= e <= hi
  {
    hide Next, Pick;
    if n > 0 {
      EstimatesWithin(clusters, statistic, seed, n - 1, lo, hi);
      var s := Estimates(clusters, statistic, seed, n - 1).1;
      var sample := Draw(clusters, s, |clusters|).0;
      assert Resample(clusters, sample);
    }
  }

  /** Every interval is the right way round, whatever the statistic and the seed. */
  lemma {:induction false} IntervalIsOrdered(estimates: seq<real>)
    requires IntervalOf(estimates).Some?
    ensures IntervalOf(estimates).value.lower <= IntervalOf(estimates).value.upper
  {
    hide Percentile;
    PercentileMonotone(estimates, 0.025, 0.975);
  }

  /** Of `n` estimates, fewer than one and a fortieth of `n - 1` lie below the interval, and as few above it. */
  lemma {:induction false} IntervalCovers(estimates: seq<real>)
    requires IntervalOf(estimates).Some?
    ensures var i, m := IntervalOf(estimates).value, (|estimates| - 1) as real;
            && Count(estimates, (x: real) => x < i.lower) as real < m / 40.0 + 1.0
            && Count(estimates, (x: real) => x > i.upper) as real < m / 40.0 + 1.0
  {
    hide Percentile, Count;
    PercentileSplits(estimates, 0.025);
    PercentileSplits(estimates, 0.975);
  }

  /** And it stays within any bounds the statistic respects on resamples. */
  lemma {:induction false} IntervalIsSound<T(!new)>(clusters: seq<T>, statistic: seq<T> -> Option<real>, seed: bv32,
                                                    n: nat, lo: real, hi: real)
    requires clusters != [] && IntervalOf(Estimates(clusters, statistic, seed, n).0).Some?
    requires Respects(clusters, statistic, lo, hi)
    ensures var i := IntervalOf(Estimates(clusters, statistic, seed, n).0).value; lo <= i.lower <= i.upper <= hi
  {
    hide Percentile, Estimates;
    var estimates := Estimates(clusters, statistic, seed, n).0;
    EstimatesWithin(clusters, statistic, seed, n, lo, hi);
    IntervalIsOrdered(estimates);
    PercentileWithin(estimates, 0.025, lo, hi);
    PercentileWithin(estimates, 0.975, lo, hi);
  }
}
