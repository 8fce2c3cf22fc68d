/** Paired comparison of two models (evaluator/results.py:80-234, 369-403) over the reals. A square
    root enters as a number whose square is the radicand; random draws are arbitrary. */
module PairedStatistics {
  import opened Options
  import Sorting
  import Text

  /** The default of the interval's width parameter z. */
  const NORMAL_QUANTILE: real := 1.959963984540054

  // ---- the Wilson interval ----

  function Radicand(p: real, n: nat, z: real): real
    requires n > 0
  {
    p * (1.0 - p) / n as real + z * z / (4.0 * n as real * n as real)
  }

  function Denominator(n: nat, z: real): (d: real)
    requires n > 0
  {
    1.0 + z * z / n as real
  }

  function Centre(p: real, n: nat, z: real): real
    requires n > 0
  {
    p + z * z / (2.0 * n as real)
  }

  function WilsonLow(p: real, n: nat, root: real, z: real): real
    requires n > 0
  {
    (Centre(p, n, z) - z * root) / Denominator(n, z)
  }

  function WilsonHigh(p: real, n: nat, root: real, z: real): real
    requires n > 0
  {
    (Centre(p, n, z) + z * root) / Denominator(n, z)
  }

  ghost predicate IsRoot(root: real, p: real, n: nat, z: real)
    requires n > 0
  {
    root >= 0.0 && root * root == Radicand(p, n, z)
  }

  /** The score test: x is no further from p than z standard errors, measured at x itself. */
  ghost predicate Plausible(x: real, p: real, n: nat, z: real) {
    n as real * ((x - p) * (x - p)) <= z * z * (x * (1.0 - x))
  }

  /** The square of the margin, in terms of w = z * z / n. */
  ghost predicate IsMargin(m: real, p: real, w: real) {
    m >= 0.0 && m * m == w * (p * (1.0 - p)) + w * w / 4.0
  }

  lemma MarginSquared(p: real, n: nat, root: real, z: real, w: real)
    requires n > 0 && z > 0.0 && IsRoot(root, p, n, z) && w == z * z / n as real
    ensures IsMargin(z * root, p, w)
  {
    var k := n as real;
    var q := p * (1.0 - p);
    assert (z * root) * (z * root) == (z * z) * (root * root);
    assert z * z == w * k;
    assert (w * k) * (q / k) == w * q;
    Quarter(w, k);
  }

  lemma Quarter(w: real, k: real)
    requires k > 0.0
    ensures (w * k) * ((w * k) / (4.0 * k * k)) == w * w / 4.0
  {
    var t := (w * k) / (4.0 * k * k);
    assert (4.0 * (k * t)) * k == w * k;
    Cancel(4.0 * (k * t), w, k);
    assert (w * k) * t == w * (k * t);
  }

  lemma Cancel(a: real, b: real, k: real)
    requires k > 0.0 && a * k == b * k
    ensures a == b
  {}

  lemma SquareWithin(y: real, m: real)
    requires m >= 0.0
    ensures -m <= y <= m <==> y * y <= m * m
  {
    if -m <= y <= m {
      assert (m - y) * (m + y) >= 0.0;
    } else if y > m {
      LargerSquare(y, m);
    } else {
      LargerSquare(-y, m);
      assert -y * -y == y * y;
    }
  }

  lemma LargerSquare(u: real, m: real)
    requires u > m >= 0.0
    ensures u * u > m * m
  {
    Positive(u - m, u + m);
    assert (u - m) * (u + m) == u * u - m * m;
  }

  lemma Positive(a: real, b: real)
    requires a > 0.0 && b > 0.0
    ensures a * b > 0.0
  {}

  /** How far the score test is from its threshold. */
  ghost function Excess(x: real, p: real, w: real): real { (x - p) * (x - p) - w * (x * (1.0 - x)) }

  /** The polynomial identity behind the interval. */
  lemma Completed(x: real, p: real, w: real, m: real)
    requires IsMargin(m, p, w)
    ensures var y := (1.0 + w) * x - (p + w / 2.0); y * y - m * m == (1.0 + w) * Excess(x, p, w)
  {}

  lemma SameSign(d: real, e: real)
    requires d > 0.0
    ensures d * e <= 0.0 <==> e <= 0.0
  {}

  lemma Bounds(x: real, c: real, m: real, d: real)
    requires d > 0.0
    ensures (c - m) / d <= x <= (c + m) / d <==> -m <= d * x - c <= m
  {
    var low, high := (c - m) / d, (c + m) / d;
    assert low * d == c - m && high * d == c + m;
    SameSign(d, low - x);
    SameSign(d, x - high);
    assert d * (low - x) == low * d - d * x && d * (x - high) == d * x - high * d;
  }

  lemma MarginNonNegative(m: real, p: real, w: real)
    requires IsMargin(m, p, w)
    ensures m >= 0.0
  {}

  lemma WithinMargin(x: real, p: real, w: real, m: real)
    requires w >= 0.0 && IsMargin(m, p, w)
    ensures -m <= (1.0 + w) * x - (p + w / 2.0) <= m <==> Excess(x, p, w) <= 0.0
  {
    hide IsMargin, Excess;
    MarginNonNegative(m, p, w);
    var y := (1.0 + w) * x - (p + w / 2.0);
    SquareWithin(y, m);
    Completed(x, p, w, m);
    SameSign(1.0 + w, Excess(x, p, w));
  }

  lemma ScoreForm(x: real, p: real, n: nat, z: real, w: real)
    requires n > 0 && w == z * z / n as real
    ensures Plausible(x, p, n, z) <==> Excess(x, p, w) <= 0.0
  {
    var k := n as real;
    var e := Excess(x, p, w);
    assert z * z == k * w;
    assert k * e == k * ((x - p) * (x - p)) - (k * w) * (x * (1.0 - x));
    SameSign(k, e);
  }

  lemma HalfOf(n: nat, z: real, w: real)
    requires n > 0 && w == z * z / n as real
    ensures w >= 0.0 && z * z / (2.0 * n as real) == w / 2.0
  {
    var k := n as real;
    var t := z * z / (2.0 * k);
    assert (2.0 * t) * k == w * k;
    Cancel(2.0 * t, w, k);
    SameSign(k, -w);
  }

  ghost predicate InInterval(x: real, p: real, n: nat, root: real, z: real)
    requires n > 0
  {
    WilsonLow(p, n, root, z) <= x <= WilsonHigh(p, n, root, z)
  }

  ghost predicate Near(x: real, p: real, w: real, m: real) { -m <= (1.0 + w) * x - (p + w / 2.0) <= m }

  lemma IntervalIsNear(x: real, p: real, n: nat, root: real, z: real, w: real)
    requires n > 0 && w == z * z / n as real
    ensures InInterval(x, p, n, root, z) <==> Near(x, p, w, z * root)
  {
    HalfOf(n, z, w);
    Bounds(x, p + w / 2.0, z * root, 1.0 + w);
  }

  lemma NearIsPlausible(x: real, p: real, n: nat, z: real, w: real, m: real)
    requires n > 0 && w == z * z / n as real && IsMargin(m, p, w)
    ensures Near(x, p, w, m) <==> Plausible(x, p, n, z)
  {
    hide IsMargin, Excess, Plausible;
    HalfOf(n, z, w);
    ScoreForm(x, p, n, z, w);
    WithinMargin(x, p, w, m);
  }

  /** The interval holds exactly the values that the score test does not reject. */
  lemma WilsonIsScoreInterval(x: real, p: real, n: nat, root: real, z: real)
    requires n > 0 && z > 0.0 && IsRoot(root, p, n, z)
    ensures WilsonLow(p, n, root, z) <= x <= WilsonHigh(p, n, root, z) <==> Plausible(x, p, n, z)
  {
    hide Plausible, IsRoot, WilsonLow, WilsonHigh, IsMargin, Near;
    var w := z * z / n as real;
    MarginSquared(p, n, root, z, w);
    IntervalIsNear(x, p, n, root, z, w);
    NearIsPlausible(x, p, n, z, w, z * root);
  }

  lemma PlausibleInUnit(x: real, p: real, n: nat, z: real)
    requires n > 0 && z > 0.0 && Plausible(x, p, n, z)
    ensures 0.0 <= x <= 1.0
  {
    hide Plausible;
    var q := x * (1.0 - x);
    PlausibleProduct(x, p, n, z);
    SignOf(z, z * q);
    SignOf(z, q);
    if x < 0.0 { Positive(-x, 1.0 - x); } else if x > 1.0 { Positive(x, x - 1.0); }
  }

  lemma PlausibleProduct(x: real, p: real, n: nat, z: real)
    requires n > 0 && Plausible(x, p, n, z)
    ensures z * (z * (x * (1.0 - x))) >= 0.0
  {
    SquareNonNegative(x - p);
    NonNegative(n as real, (x - p) * (x - p));
    Associate(z, x * (1.0 - x));
  }

  lemma SquareNonNegative(y: real)
    ensures y * y >= 0.0
  {}

  lemma Associate(z: real, q: real)
    ensures z * z * q == z * (z * q)
  {}

  lemma NonNegative(a: real, b: real)
    requires a >= 0.0 && b >= 0.0
    ensures a * b >= 0.0
  {}

  lemma SignOf(k: real, q: real)
    requires k > 0.0
    ensures k * q >= 0.0 ==> q >= 0.0
  {
    if q < 0.0 {
      Positive(k, -q);
      assert k * -q == -(k * q);
    }
  }

  lemma RateIsPlausible(p: real, n: nat, z: real)
    requires n > 0 && z > 0.0 && 0.0 <= p <= 1.0
    ensures Plausible(p, p, n, z)
  {
    Positive(z, z);
    NonNegative(p, 1.0 - p);
    NonNegative(z * z, p * (1.0 - p));
    var d := p - p;
    assert n as real * (d * d) == 0.0;
  }

  /** The bounds are probabilities before any clamping, and they enclose the rate. */
  lemma WilsonEncloses(p: real, n: nat, root: real, z: real)
    requires n > 0 && z > 0.0 && 0.0 <= p <= 1.0 && IsRoot(root, p, n, z)
    ensures 0.0 <= WilsonLow(p, n, root, z) <= p <= WilsonHigh(p, n, root, z) <= 1.0
  {
    hide WilsonLow, WilsonHigh, IsRoot, Plausible;
    var low, high := WilsonLow(p, n, root, z), WilsonHigh(p, n, root, z);
    RateIsPlausible(p, n, z);
    WilsonIsScoreInterval(p, p, n, root, z);
    WilsonIsScoreInterval(low, p, n, root, z);
    WilsonIsScoreInterval(high, p, n, root, z);
    PlausibleInUnit(low, p, n, z);
    PlausibleInUnit(high, p, n, z);
  }

  /** Exchanging the two models mirrors the interval around one half. */
  lemma WilsonMirrors(p: real, n: nat, root: real, z: real)
    requires n > 0 && IsRoot(root, p, n, z)
    ensures IsRoot(root, 1.0 - p, n, z)
    ensures WilsonLow(1.0 - p, n, root, z) == 1.0 - WilsonHigh(p, n, root, z)
    ensures WilsonHigh(1.0 - p, n, root, z) == 1.0 - WilsonLow(p, n, root, z)
  {
    assert (1.0 - p) * (1.0 - (1.0 - p)) == p * (1.0 - p);
    var w, m, d := z * z / n as real, z * root, Denominator(n, z);
    HalfOf(n, z, w);
    var c := Centre(p, n, z);
    assert Centre(1.0 - p, n, z) == d - c;
    OneMinusQuotient(c + m, d);
    OneMinusQuotient(c - m, d);
  }

  lemma OneMinusQuotient(a: real, d: real)
    requires d > 0.0
    ensures (d - a) / d == 1.0 - a / d
  {
    var t := a / d;
    assert (1.0 - t) * d == d - a;
    Cancel((d - a) / d, 1.0 - t, d);
  }

  // ---- outcomes ----

  /** 1 for a win of the candidate, 0 for a win of the baseline, one half for a tie. */
  function Outcome(candidate: real, baseline: real, tolerance: real): real {
    var delta := candidate - baseline;
    if (if delta < 0.0 then -delta else delta) <= tolerance then 0.5 else if delta > 0.0 then 1.0 else 0.0
  }

  function Outcomes(candidate: seq<real>, baseline: seq<real>, tolerance: real): (r: seq<real>)
    requires |candidate| == |baseline|
    ensures |r| == |candidate|
  {
    seq(|candidate|, i requires 0 <= i < |candidate| => Outcome(candidate[i], baseline[i], tolerance))
  }

  function Sum(values: seq<real>): real {
    if values == [] then 0.0 else Sum(values[..|values| - 1]) + values[|values| - 1]
  }

  function Mean(values: seq<real>): real
    requires values != []
  {
    Sum(values) / |values| as real
  }

  function Occurrences(values: seq<real>, v: real): nat {
    if values == [] then 0
    else Occurrences(values[..|values| - 1], v) + if values[|values| - 1] == v then 1 else 0
  }

  ghost predicate AreOutcomes(values: seq<real>) {
    forall i :: 0 <= i < |values| ==> values[i] == 0.0 || values[i] == 0.5 || values[i] == 1.0
  }

  lemma {:induction false} SumFromCounts(values: seq<real>)
    requires AreOutcomes(values)
    ensures Sum(values) == Occurrences(values, 1.0) as real + 0.5 * Occurrences(values, 0.5) as real
    ensures Occurrences(values, 1.0) + Occurrences(values, 0.5) + Occurrences(values, 0.0) == |values|
  {
    if values != [] {
      var n := |values| - 1;
      SumFromCounts(values[..n]);
    }
  }

  ghost predicate InUnit(values: seq<real>) { forall i :: 0 <= i < |values| ==> 0.0 <= values[i] <= 1.0 }

  lemma {:induction false} SumBounded(values: seq<real>)
    requires InUnit(values)
    ensures 0.0 <= Sum(values) <= |values| as real
  {
    if values != [] {
      var n := |values| - 1;
      SumBounded(values[..n]);
    }
  }

  lemma MeanInUnit(values: seq<real>)
    requires InUnit(values) && values != []
    ensures 0.0 <= Mean(values) <= 1.0
  {
    SumBounded(values);
    QuotientInUnit(Sum(values), |values| as real);
  }

  lemma QuotientInUnit(a: real, k: real)
    requires 0.0 <= a <= k && k > 0.0
    ensures 0.0 <= a / k <= 1.0
  {
    var t := a / k;
    assert t * k == a;
    if t < 0.0 { Positive(-t, k); }
    if t > 1.0 { Positive(t - 1.0, k); }
  }

  // ---- the bootstrap interval ----

  predicate RealLe(a: real, b: real) { a <= b }

  function Order(): (real, real) -> bool { (a, b) => RealLe(a, b) }

  /** `int(0.025 * (m - 1))` and `int(0.975 * (m - 1))`, exactly. */
  function LowIndex(m: nat): (i: nat)
    requires m > 0
    ensures i < m
  {
    (m - 1) / 40
  }

  function HighIndex(m: nat): (i: nat)
    requires m > 0
    ensures LowIndex(m) <= i < m
  {
    39 * (m - 1) / 40
  }

  /** The two quantiles are mirror images of each other only when 40 divides the last index; with the
      default of three seeds and 2000 samples it does not. */
  lemma QuantilesMirrorIff(m: nat)
    requires m > 0
    ensures HighIndex(m) == m - 1 - LowIndex(m) <==> (m - 1) % 40 == 0
    ensures HighIndex(6000) != 6000 - 1 - LowIndex(6000)
  {
    var q, r := (m - 1) / 40, (m - 1) % 40;
    assert 39 * (m - 1) == 40 * (39 * q) + 39 * r;
  }

  /** One resampled mean; the draws are indices into the outcomes. */
  function Estimate(outcomes: seq<real>, draws: seq<nat>): real
    requires outcomes != [] && |draws| == |outcomes|
  {
    Mean(seq(|outcomes|, i requires 0 <= i < |outcomes| => outcomes[draws[i] % |outcomes|]))
  }

  function Draws(generator: (int, nat, nat) -> nat, seed: int, turn: nat, n: nat): (r: seq<nat>)
    ensures |r| == n
  {
    seq(n, i requires 0 <= i < n => generator(seed, turn, i))
  }

  function SeedEstimates(outcomes: seq<real>, generator: (int, nat, nat) -> nat, seed: int,
                         samples: nat): (r: seq<real>)
    requires outcomes != []
    ensures |r| == samples
  {
    seq(samples, t requires 0 <= t < samples => Estimate(outcomes, Draws(generator, seed, t, |outcomes|)))
  }

  function Estimates(outcomes: seq<real>, generator: (int, nat, nat) -> nat, seeds: seq<int>,
                     samples: nat): (r: seq<real>)
    requires outcomes != []
    ensures |r| == |seeds| * samples
  {
    if seeds == [] then []
    else
      var n := |seeds| - 1;
      assert |seeds| * samples == n * samples + samples;
      Estimates(outcomes, generator, seeds[..n], samples) + SeedEstimates(outcomes, generator, seeds[n], samples)
  }

  /** What is resampled: for the s-th seed and the t-th turn, the mean of the outcomes at the positions
      that the seed's generator draws in that turn. */
  lemma {:induction false} EstimatesSay(outcomes: seq<real>, generator: (int, nat, nat) -> nat, seeds: seq<int>,
                                        samples: nat, s: nat, t: nat, drawn: seq<real>)
    requires outcomes != [] && s < |seeds| && t < samples && |drawn| == |outcomes|
    requires forall i: nat :: i < |drawn| ==> drawn[i] == outcomes[generator(seeds[s], t, i) % |outcomes|]
    ensures 0 <= s * samples + t < |seeds| * samples
    ensures Estimates(outcomes, generator, seeds, samples)[s * samples + t] == Mean(drawn)
    decreases |seeds|
  {
    var n := |seeds| - 1;
    Position(s, n, samples, t);
    if s < n {
      EstimatesSay(outcomes, generator, seeds[..n], samples, s, t, drawn);
    } else {
      var draws := Draws(generator, seeds[s], t, |outcomes|);
      assert seq(|outcomes|, i requires 0 <= i < |outcomes| => outcomes[draws[i] % |outcomes|]) == drawn;
    }
  }

  lemma Position(s: nat, n: nat, samples: nat, t: nat)
    requires s <= n && t < samples
    ensures 0 <= s * samples + t < (n + 1) * samples && n * samples <= (n + 1) * samples
    ensures s < n ==> s * samples + t < n * samples
  {
    assert (n + 1) * samples == n * samples + samples;
    assert s * samples <= n * samples;
    if s < n { assert (s + 1) * samples <= n * samples; }
  }

  method BootstrapInterval(outcomes: seq<real>, generator: (int, nat, nat) -> nat, seeds: seq<int>, samples: int)
    returns (interval: Option<(real, real)>)
    requires outcomes != []
    ensures interval.None? <==> samples < 100 || seeds == []
    ensures interval.Some? ==>
              var sorted := Sorting.Sort(Estimates(outcomes, generator, seeds, samples), Order());
              sorted != [] && interval.value == (sorted[LowIndex(|sorted|)], sorted[HighIndex(|sorted|)])
  {
    if samples < 100 {
      return None;
    }
    hide SeedEstimates, LowIndex, HighIndex;
    var estimates := [];
    for i := 0 to |seeds|
      invariant estimates == Estimates(outcomes, generator, seeds[..i], samples)
    {
      assert seeds[..i + 1][..i] == seeds[..i];
      var more := Resample(outcomes, generator, seeds[i], samples);
      estimates := estimates + more;
    }
    assert seeds[..|seeds|] == seeds;
    if estimates == [] {
      assert |seeds| * samples == 0;
      return None;
    }
    Sorting.SameMembers(estimates, Sorting.Sort(estimates, Order()));
    estimates := Sorting.Sort(estimates, Order());
    interval := Some((estimates[LowIndex(|estimates|)], estimates[HighIndex(|estimates|)]));
  }

  method Resample(outcomes: seq<real>, generator: (int, nat, nat) -> nat, seed: int, samples: nat)
    returns (estimates: seq<real>)
    requires outcomes != []
    ensures estimates == SeedEstimates(outcomes, generator, seed, samples)
  {
    hide Estimate, Draws;
    estimates := [];
    for t := 0 to samples
      invariant |estimates| == t
      invariant forall k :: 0 <= k < t ==> estimates[k] == Estimate(outcomes, Draws(generator, seed, k, |outcomes|))
    {
      estimates := estimates + [Estimate(outcomes, Draws(generator, seed, t, |outcomes|))];
    }
  }

  lemma EstimateInUnit(outcomes: seq<real>, draws: seq<nat>)
    requires outcomes != [] && |draws| == |outcomes| && InUnit(outcomes)
    ensures 0.0 <= Estimate(outcomes, draws) <= 1.0
  {
    MeanInUnit(seq(|outcomes|, i requires 0 <= i < |outcomes| => outcomes[draws[i] % |outcomes|]));
  }

  lemma {:induction false} EstimatesInUnit(outcomes: seq<real>, generator: (int, nat, nat) -> nat, seeds: seq<int>,
                                           samples: nat)
    requires outcomes != [] && InUnit(outcomes)
    ensures InUnit(Estimates(outcomes, generator, seeds, samples))
  {
    hide Estimate;
    if seeds != [] {
      var n := |seeds| - 1;
      EstimatesInUnit(outcomes, generator, seeds[..n], samples);
      var more := SeedEstimates(outcomes, generator, seeds[n], samples);
      forall t | 0 <= t < samples ensures 0.0 <= more[t] <= 1.0 {
        EstimateInUnit(outcomes, Draws(generator, seeds[n], t, |outcomes|));
      }
    }
  }

  /** The bounds are the two order statistics of all resampled means. */
  ghost predicate IsBootstrap(outcomes: seq<real>, generator: (int, nat, nat) -> nat, seeds: seq<int>, samples: int,
                              low: real, high: real)
    requires outcomes != []
  {
    && samples >= 0
    && var sorted := Sorting.Sort(Estimates(outcomes, generator, seeds, samples), Order());
       sorted != [] && low == sorted[LowIndex(|sorted|)] && high == sorted[HighIndex(|sorted|)]
  }

  /** The positions of the bounds: a fortieth, and thirty-nine fortieths, of the last one, rounded down. */
  lemma QuantilePositions(m: nat)
    requires m > 0
    ensures 40 * LowIndex(m) <= m - 1 < 40 * LowIndex(m) + 40
    ensures 40 * HighIndex(m) <= 39 * (m - 1) < 40 * HighIndex(m) + 40
  {}

  lemma {:induction false} SumOfOne(s: seq<real>, v: real)
    requires forall x :: x in s ==> x == v
    ensures Sum(s) == v * |s| as real
  {
    if s != [] {
      var n := |s| - 1;
      forall x | x in s[..n] ensures x == v { assert x in s; }
      SumOfOne(s[..n], v);
      assert s[n] in s && v * n as real + v == v * (n as real + 1.0);
    }
  }

  lemma ConstantEstimate(outcomes: seq<real>, draws: seq<nat>, v: real)
    requires outcomes != [] && |draws| == |outcomes| && forall x :: x in outcomes ==> x == v
    ensures Estimate(outcomes, draws) == v
  {
    var picked := seq(|outcomes|, i requires 0 <= i < |outcomes| => outcomes[draws[i] % |outcomes|]);
    forall x | x in picked ensures x == v {
      var i :| 0 <= i < |picked| && picked[i] == x;
      assert outcomes[draws[i] % |outcomes|] in outcomes;
    }
    SumOfOne(picked, v);
  }

  /** Drawing every outcome once in its place gives the mean of the outcomes. */
  lemma EstimateOfAll(outcomes: seq<real>, draws: seq<nat>)
    requires outcomes != [] && |draws| == |outcomes| && forall i :: 0 <= i < |draws| ==> draws[i] == i
    ensures Estimate(outcomes, draws) == Mean(outcomes)
  {
    forall i | 0 <= i < |outcomes| ensures draws[i] % |outcomes| == i { SmallRemainder(i, |outcomes|); }
    assert seq(|outcomes|, i requires 0 <= i < |outcomes| => outcomes[draws[i] % |outcomes|]) == outcomes;
  }

  lemma SmallRemainder(i: nat, n: nat)
    requires i < n
    ensures i % n == i
  {}

  lemma {:induction false} ConstantEstimates(outcomes: seq<real>, generator: (int, nat, nat) -> nat, seeds: seq<int>,
                                             samples: nat, v: real)
    requires outcomes != [] && forall x :: x in outcomes ==> x == v
    ensures forall x :: x in Estimates(outcomes, generator, seeds, samples) ==> x == v
  {
    hide Estimate;
    if seeds != [] {
      var n := |seeds| - 1;
      ConstantEstimates(outcomes, generator, seeds[..n], samples, v);
      var more := SeedEstimates(outcomes, generator, seeds[n], samples);
      forall t | 0 <= t < samples ensures more[t] == v {
        ConstantEstimate(outcomes, Draws(generator, seeds[n], t, |outcomes|), v);
      }
    }
  }

  /** Outcomes that are all the same have that outcome as both bounds. In particular a candidate that
      always loses has a high bound of zero and has regressed for every margin below one half; one
      that always wins has a low bound of one and has not, for a margin of at least minus one half. */
  lemma ConstantOutcomes(outcomes: seq<real>, generator: (int, nat, nat) -> nat, seeds: seq<int>, samples: int,
                         v: real, c: Comparison, root: real, z: real, margin: real)
    requires outcomes != [] && forall x :: x in outcomes ==> x == v
    requires IsBootstrap(outcomes, generator, seeds, samples, c.bootstrapLow, c.bootstrapHigh)
    requires Measures(c, outcomes, root, z, margin)
    ensures c.bootstrapLow == v && c.bootstrapHigh == v
    ensures v == 0.0 && margin < 0.5 ==> c.regressed
    ensures v == 1.0 && margin >= -0.5 ==> !c.regressed
  {
    ConstantEstimates(outcomes, generator, seeds, samples, v);
    var estimates := Estimates(outcomes, generator, seeds, samples);
    hide Estimates, LowIndex, HighIndex, Occurrences, Mean, WilsonLow, WilsonHigh, Sorting.Sort;
    var sorted := Sorting.Sort(estimates, Order());
    Sorting.SameMembers(sorted, estimates);
    assert sorted[LowIndex(|sorted|)] in sorted && sorted[HighIndex(|sorted|)] in sorted;
  }

  /** The bootstrap bounds are probabilities in order. */
  lemma BootstrapOrdered(outcomes: seq<real>, generator: (int, nat, nat) -> nat, seeds: seq<int>, samples: nat)
    requires outcomes != [] && InUnit(outcomes)
    ensures var sorted := Sorting.Sort(Estimates(outcomes, generator, seeds, samples), Order());
      sorted != [] ==> 0.0 <= sorted[LowIndex(|sorted|)] <= sorted[HighIndex(|sorted|)] <= 1.0
  {
    var estimates := Estimates(outcomes, generator, seeds, samples);
    var sorted := Sorting.Sort(estimates, Order());
    EstimatesInUnit(outcomes, generator, seeds, samples);
    hide Estimates, LowIndex, HighIndex;
    SortedInUnit(estimates);
  }

  lemma OrderIsTotal()
    ensures Sorting.TotalOrder(Order())
  {}

  lemma SortedInUnit(estimates: seq<real>)
    requires InUnit(estimates)
    ensures var sorted := Sorting.Sort(estimates, Order());
      InUnit(sorted) && forall i, j :: 0 <= i <= j < |sorted| ==> sorted[i] <= sorted[j]
  {
    hide Sorting.Sort, Sorting.TotalOrder;
    var sorted := Sorting.Sort(estimates, Order());
    OrderIsTotal();
    Sorting.SameMembers(sorted, estimates);
    forall i | 0 <= i < |sorted| ensures 0.0 <= sorted[i] <= 1.0 { assert sorted[i] in sorted; }
    Sorting.SortOrdered(estimates, Order());
    forall i, j | 0 <= i < j < |sorted| ensures sorted[i] <= sorted[j] { assert Order()(sorted[i], sorted[j]); }
  }

  // ---- the comparison ----

  datatype Comparison = Comparison(capability: string, sampleCount: int, candidateWins: int, ties: int,
                                   baselineWins: int, winRate: real, wilsonLow: real, wilsonHigh: real,
                                   bootstrapLow: real, bootstrapHigh: real, seeds: seq<int>, regressed: bool)

  predicate Probability(x: real) { 0.0 <= x <= 1.0 }

  /** What `__post_init__` demands. */
  ghost predicate Accepted(c: Comparison) {
    && !Text.Blank(c.capability) && c.sampleCount >= 1
    && c.candidateWins >= 0 && c.ties >= 0 && c.baselineWins >= 0
    && c.candidateWins + c.ties + c.baselineWins == c.sampleCount
    && Probability(c.winRate) && Probability(c.wilsonLow) && Probability(c.wilsonHigh)
    && Probability(c.bootstrapLow) && Probability(c.bootstrapHigh)
    && c.wilsonLow <= c.wilsonHigh && c.bootstrapLow <= c.bootstrapHigh
    && c.seeds != [] && |Sorting.Elements(c.seeds)| == |c.seeds|
    && var expected := (c.candidateWins as real + 0.5 * c.ties as real) / c.sampleCount as real;
       -0.000000000001 <= c.winRate - expected <= 0.000000000001
  }

  datatype Scores = Scores(candidate: seq<real>, baseline: seq<real>, tolerance: real)

  predicate Paired(s: Scores) { |s.candidate| == |s.baseline| && s.candidate != [] }

  function OutcomesOf(s: Scores): (r: seq<real>)
    requires Paired(s)
    ensures r != []
  {
    Outcomes(s.candidate, s.baseline, s.tolerance)
  }

  lemma OutcomesShape(s: Scores)
    requires Paired(s)
    ensures AreOutcomes(OutcomesOf(s)) && InUnit(OutcomesOf(s)) && |OutcomesOf(s)| == |s.candidate|
  {}

  /** The comparison that the outcomes call for. */
  ghost predicate Measures(c: Comparison, outcomes: seq<real>, root: real, z: real, margin: real)
    requires outcomes != []
  {
    && c.sampleCount == |outcomes|
    && c.candidateWins == Occurrences(outcomes, 1.0) && c.ties == Occurrences(outcomes, 0.5)
    && c.baselineWins == Occurrences(outcomes, 0.0)
    && c.winRate == Mean(outcomes)
    && c.wilsonLow == WilsonLow(c.winRate, |outcomes|, root, z)
    && c.wilsonHigh == WilsonHigh(c.winRate, |outcomes|, root, z)
    && c.regressed == (c.bootstrapHigh < 0.5 - margin)
  }

  method CountOutcomes(s: Scores) returns (outcomes: seq<real>, candidateWins: nat, ties: nat, baselineWins: nat)
    requires Paired(s)
    ensures outcomes == OutcomesOf(s)
    ensures candidateWins == Occurrences(outcomes, 1.0) && ties == Occurrences(outcomes, 0.5)
            && baselineWins == Occurrences(outcomes, 0.0)
  {
    outcomes, candidateWins, ties, baselineWins := [], 0, 0, 0;
    ghost var all := OutcomesOf(s);
    for i := 0 to |s.candidate|
      invariant outcomes == all[..i]
      invariant candidateWins == Occurrences(outcomes, 1.0) && ties == Occurrences(outcomes, 0.5)
                && baselineWins == Occurrences(outcomes, 0.0)
    {
      var delta := s.candidate[i] - s.baseline[i];
      var outcome;
      if (if delta < 0.0 then -delta else delta) <= s.tolerance {
        ties, outcome := ties + 1, 0.5;
      } else if delta > 0.0 {
        candidateWins, outcome := candidateWins + 1, 1.0;
      } else {
        baselineWins, outcome := baselineWins + 1, 0.0;
      }
      assert (outcomes + [outcome])[..i] == outcomes;
      outcomes := outcomes + [outcome];
    }
  }

  method Clamped(p: real, n: nat, root: real, z: real) returns (low: real, high: real)
    requires n > 0 && z > 0.0 && 0.0 <= p <= 1.0 && IsRoot(root, p, n, z)
    ensures low == WilsonLow(p, n, root, z) && high == WilsonHigh(p, n, root, z)
  {
    WilsonEncloses(p, n, root, z);
    hide WilsonLow, WilsonHigh;
    low := if WilsonLow(p, n, root, z) > 0.0 then WilsonLow(p, n, root, z) else 0.0;
    high := if WilsonHigh(p, n, root, z) < 1.0 then WilsonHigh(p, n, root, z) else 1.0;
  }

  /** `from_scores` builds a comparison exactly for non-empty score vectors of one length, a
      capability, at least 100 samples and distinct seeds; what it builds passes its own checks. */
  method FromScores(capability: string, s: Scores, seeds: seq<int>, samples: int, margin: real,
                    generator: (int, nat, nat) -> nat, root: real, z: real := NORMAL_QUANTILE)
    returns (c: Option<Comparison>)
    requires z > 0.0
    requires Paired(s) ==> IsRoot(root, Mean(OutcomesOf(s)), |s.candidate|, z)
    ensures c.Some? <==>
      Paired(s) && !Text.Blank(capability) && samples >= 100 && seeds != [] && Sorting.Distinct(seeds)
    ensures c.Some? ==> Accepted(c.value) && Measures(c.value, OutcomesOf(s), root, z, margin)
                        && c.value.capability == capability && c.value.seeds == seeds
    ensures c.Some? ==>
      IsBootstrap(OutcomesOf(s), generator, seeds, samples, c.value.bootstrapLow, c.value.bootstrapHigh)
  {
    if |s.candidate| != |s.baseline| || s.candidate == [] {
      return None;
    }
    hide OutcomesOf, WilsonLow, WilsonHigh, IsRoot, Accepted, Measures, Estimates, Occurrences, LowIndex, HighIndex;
    OutcomesShape(s);
    var outcomes, candidateWins, ties, baselineWins := CountOutcomes(s);
    var p := Mean(outcomes);
    MeanInUnit(outcomes);
    hide Mean, InUnit;
    var low, high := Clamped(p, |outcomes|, root, z);
    var bootstrap := BootstrapInterval(outcomes, generator, seeds, samples);
    if bootstrap.None? {
      return None;
    }
    BootstrapOrdered(outcomes, generator, seeds, samples);
    Sorting.DistinctCardinality(seeds);
    var built := Comparison(capability, |outcomes|, candidateWins, ties, baselineWins, p, low, high,
                            bootstrap.value.0, bootstrap.value.1, seeds, bootstrap.value.1 < 0.5 - margin);
    if Text.Blank(capability) || |Sorting.Elements(seeds)| != |seeds| {
      return None;
    }
    BuiltIsMeasured(built, outcomes, root, z, margin);
    BuiltIsAccepted(built, outcomes, root, z, margin);
    return Some(built);
  }

  lemma BuiltIsMeasured(c: Comparison, outcomes: seq<real>, root: real, z: real, margin: real)
    requires outcomes != [] && c.sampleCount == |outcomes|
    requires c.candidateWins == Occurrences(outcomes, 1.0) && c.ties == Occurrences(outcomes, 0.5)
             && c.baselineWins == Occurrences(outcomes, 0.0)
    requires c.winRate == Mean(outcomes) && c.regressed == (c.bootstrapHigh < 0.5 - margin)
    requires c.wilsonLow == WilsonLow(c.winRate, |outcomes|, root, z)
      && c.wilsonHigh == WilsonHigh(c.winRate, |outcomes|, root, z)
    ensures Measures(c, outcomes, root, z, margin)
  {
    hide Occurrences, WilsonLow, WilsonHigh, Mean;
  }

  /** A measured comparison passes `__post_init__`. */
  lemma BuiltIsAccepted(c: Comparison, outcomes: seq<real>, root: real, z: real, margin: real)
    requires z > 0.0 && outcomes != [] && AreOutcomes(outcomes) && InUnit(outcomes)
      && Measures(c, outcomes, root, z, margin)
    requires IsRoot(root, c.winRate, |outcomes|, z) && !Text.Blank(c.capability)
    requires c.seeds != [] && |Sorting.Elements(c.seeds)| == |c.seeds|
    requires 0.0 <= c.bootstrapLow <= c.bootstrapHigh <= 1.0
    ensures Accepted(c)
  {
    MeanInUnit(outcomes);
    WilsonEncloses(c.winRate, |outcomes|, root, z);
    SumFromCounts(outcomes);
    hide WilsonLow, WilsonHigh, IsRoot, Occurrences, Sum, Text.Blank, AreOutcomes, InUnit;
  }

  // ---- exchanging the models ----

  lemma {:induction false} MirroredSum(a: seq<real>, b: seq<real>)
    requires |a| == |b| && forall i :: 0 <= i < |a| ==> b[i] == 1.0 - a[i]
    ensures Sum(b) == |a| as real - Sum(a)
    ensures Occurrences(b, 1.0) == Occurrences(a, 0.0) && Occurrences(b, 0.0) == Occurrences(a, 1.0)
            && Occurrences(b, 0.5) == Occurrences(a, 0.5)
  {
    if a != [] {
      MirroredSum(a[..|a| - 1], b[..|b| - 1]);
    }
  }

  predicate Mirrored(s: Scores)
    requires Paired(s)
  {
    forall i :: 0 <= i < |s.candidate| ==>
      Outcome(s.baseline[i], s.candidate[i], s.tolerance) == 1.0 - Outcome(s.candidate[i], s.baseline[i], s.tolerance)
  }

  /** Exchanging candidate and baseline exchanges wins and losses pair by pair exactly when the
      tolerance is not negative or no pair has equal scores: with a negative tolerance an equal
      pair counts for the baseline either way. */
  lemma ExchangeMirrorsIff(s: Scores)
    requires Paired(s)
    ensures Mirrored(s) <==>
      s.tolerance >= 0.0 || forall i :: 0 <= i < |s.candidate| ==> s.candidate[i] != s.baseline[i]
  {
    if s.tolerance < 0.0 && exists i :: 0 <= i < |s.candidate| && s.candidate[i] == s.baseline[i] {
      var i :| 0 <= i < |s.candidate| && s.candidate[i] == s.baseline[i];
      assert Outcome(s.baseline[i], s.candidate[i], s.tolerance) == 0.0;
      assert Outcome(s.candidate[i], s.baseline[i], s.tolerance) == 0.0;
    }
  }

  /** In that case the win rate and the Wilson interval mirror around one half. */
  lemma ExchangeMirrorsInterval(s: Scores, root: real, z: real)
    requires Paired(s) && Mirrored(s) && IsRoot(root, Mean(OutcomesOf(s)), |s.candidate|, z)
    ensures var t := Scores(s.baseline, s.candidate, s.tolerance);
      var p, q, n := Mean(OutcomesOf(s)), Mean(OutcomesOf(t)), |s.candidate|;
      && q == 1.0 - p && IsRoot(root, q, n, z)
      && WilsonLow(q, n, root, z) == 1.0 - WilsonHigh(p, n, root, z)
      && WilsonHigh(q, n, root, z) == 1.0 - WilsonLow(p, n, root, z)
  {
    var t := Scores(s.baseline, s.candidate, s.tolerance);
    var a, b, n := OutcomesOf(s), OutcomesOf(t), |s.candidate|;
    MirroredSum(a, b);
    OneMinusQuotient(Sum(a), n as real);
    hide OutcomesOf, WilsonLow, WilsonHigh, IsRoot, Sum;
    WilsonMirrors(Mean(a), n, root, z);
  }

  /** Equal scores under a negative tolerance: the baseline wins whichever model is named first. */
  lemma EqualPairNotMirrored()
    ensures !Mirrored(Scores([0.5], [0.5], -0.1))
  {
    var s := Scores([0.5], [0.5], -0.1);
    assert s.candidate[0] == s.baseline[0];
    ExchangeMirrorsIff(s);
  }
}
