/** Unclamped variable difficulty against a steady worker, whose share rate is inversely
    proportional to its difficulty: the controller never overshoots the difficulty that meets the
    target rate, and reaches the dead band in a number of adjustments that is logarithmic in how
    far off it started. */
module VardiffConvergence {
  import opened Wrappers
  import opened Vardiff

  /** Rate times difficulty is what it would be at the ideal difficulty and the expected rate,
      over a window long enough for the rule to act on. */
  ghost predicate Steady(o: Observation, d: real, ideal: real, expectedSpm: real) {
    && o.elapsed >= MIN_ELAPSED && o.shares >= MIN_SHARES
    && (o.shares / o.elapsed) * 60.0 * d == Max(expectedSpm, 1.0) * ideal
  }

  predicate InBand(d: real, ideal: real) {
    LOWER_RATIO * d < ideal < UPPER_RATIO * d
  }

  // ---------- Products ----------

  /** A product under a name, so that a proof can leave it alone. */
  function Times(x: real, y: real): real {
    x * y
  }

  lemma TimesOrder(d: real, x: real, y: real)
    requires d > 0.0 && x <= y
    ensures Times(d, x) <= Times(d, y) && (x < y ==> Times(d, x) < Times(d, y))
  {
    ScaleOrder(d, x, y);
  }

  lemma TimesLaws(x: real, y: real, z: real)
    ensures Times(x, y) == Times(y, x) && Times(x, Times(y, z)) == Times(Times(x, y), z) && Times(1.0, x) == x
  {
  }

  lemma SquareStrict(x: real, y: real)
    requires 0.0 <= x < y
    ensures Times(x, x) < Times(y, y)
  {
    TimesOrder(y, x, y);
    TimesLaws(x, y, x);
    if x > 0.0 {
      TimesOrder(x, x, y);
      hide Times;
    } else {
      assert Times(x, x) == 0.0;
      assert Times(y, y) > 0.0;
    }
  }

  // ---------- One adjustment ----------

  lemma SteadyRatio(o: Observation, d: real, ideal: real, expectedSpm: real)
    requires d > 0.0 && Steady(o, d, ideal, expectedSpm)
    ensures Times(Ratio(o.shares, o.elapsed, expectedSpm), d) == ideal
  {
    var e, spm := Max(expectedSpm, 1.0), (o.shares / o.elapsed) * 60.0;
    DivideOut(spm, d, e, ideal);
  }

  lemma DivideOut(spm: real, d: real, e: real, ideal: real)
    requires e >= 1.0 && spm * d == e * ideal
    ensures (spm / e) * d == ideal
  {
    var q := spm / e;
    assert spm == q * e;
    assert e * (q * d) == e * ideal;
    assert e * (q * d - ideal) == 0.0;
  }

  lemma FilterPasses(d: real, next: real)
    requires d > 0.0 && Abs(next - d) >= 0.1 * d
    ensures !(Abs(next - d) / d < 0.10)
  {
    QuotientAtLeast(Abs(next - d), d);
  }

  lemma QuotientAtLeast(y: real, d: real)
    requires d > 0.0 && y >= 0.1 * d
    ensures y / d >= 0.10
  {
    var q := y / d;
    assert y == q * d;
  }

  /** Outside the band, a proposal that is ten percent off is what the rule answers. */
  lemma AdjustedTo(d: real, ratio: real, root: real, floor: real, q: real)
    requires d > 10.0 * EPSILON && q == Times(d, Clamp(root, MAX_STEP_DOWN, MAX_STEP_UP))
    requires 0.0 < ratio <= LOWER_RATIO || ratio >= UPPER_RATIO
    requires Abs((if q < floor then floor else q) - d) >= 0.1 * d
    ensures Adjusted(d, ratio, root, false, floor) == Some(if q < floor then floor else q)
  {
    hide Clamp;
    FilterPasses(d, if q < floor then floor else q);
  }

  lemma FilterStops(d: real, next: real)
    requires d > 0.0 && Abs(next - d) < 0.1 * d
    ensures Abs(next - d) / d < 0.10
  {
    QuotientUnder(Abs(next - d), d);
  }

  lemma QuotientUnder(y: real, d: real)
    requires d > 0.0 && y < 0.1 * d
    ensures y / d < 0.10
  {
    var q := y / d;
    assert y == q * d;
  }

  /** Outside the band the rule leaves the difficulty alone if and only if the worker is too slow and
      the floor is within ten percent of the difficulty. */
  lemma HeldBackIff(d: real, ratio: real, root: real, floor: real)
    requires d > 10.0 * EPSILON && IsRoot(root, ratio) && (0.0 < ratio <= LOWER_RATIO || ratio >= UPPER_RATIO)
    ensures Adjusted(d, ratio, root, false, floor) == None <==> ratio <= LOWER_RATIO && 0.9 * d < floor < 1.1 * d
  {
    StepBounds(root, ratio);
    hide IsRoot;
    var q := Proposal(d, Clamp(root, MAX_STEP_DOWN, MAX_STEP_UP));
    var next := if q < floor then floor else q;
    if Abs(next - d) >= 0.1 * d {
      AdjustedTo(d, ratio, root, floor, q);
      hide Adjusted, Clamp;
    } else {
      FilterStops(d, next);
      hide Clamp;
    }
  }

  lemma RootTwice(d: real, ratio: real, root: real, ideal: real)
    requires Times(ratio, d) == ideal && IsRoot(root, ratio)
    ensures ideal == Times(root, Times(root, d))
  {
    TimesLaws(root, root, d);
    assert Times(root, root) == ratio;
  }

  /** The worker's difficulty is off by the square of `root`: what both adjustments start from. */
  ghost predicate Off(d: real, root: real, p: real, ideal: real) {
    d > 10.0 * EPSILON && root > 0.0 && ideal > 0.0 && p == Times(root, d) && ideal == Times(root, p)
  }

  /** Where the rule goes from too low a difficulty: up by the root of the ratio or by two, or to
      the floor if that is higher, and not past the ideal. */
  lemma GoesUp(d: real, ratio: real, root: real, p: real, floor: real, ideal: real) returns (d': real)
    requires Off(d, root, p, ideal) && 1.1 < root && ratio >= UPPER_RATIO && floor <= ideal
    ensures Adjusted(d, ratio, root, false, floor) == Some(d')
    ensures d < d' <= ideal && (root <= 2.0 ==> p <= d') && (root > 2.0 ==> 2.0 * d <= d')
  {
    var step := Clamp(root, MAX_STEP_DOWN, MAX_STEP_UP);
    var q := Times(d, step);
    TimesOrder(d, 1.1, step);
    TimesOrder(d, step, root);
    TimesLaws(d, root, p);
    assert Times(d, 1.1) == 1.1 * d && Times(d, 2.0) == 2.0 * d;
    hide Times, Adjusted;
    TimesOrder(p, 1.0, root);
    TimesLaws(p, root, p);
    TimesLaws(p, 1.0, p);
    d' := if q < floor then floor else q;
    AdjustedTo(d, ratio, root, floor, q);
  }

  /** Where the rule goes from too high a difficulty: down by the root of the ratio or by half,
      and not past the ideal, so the floor has no part in it. */
  lemma GoesDown(d: real, ratio: real, root: real, p: real, floor: real, ideal: real) returns (d': real)
    requires Off(d, root, p, ideal) && root < 0.87 && 0.0 < ratio <= LOWER_RATIO && floor <= ideal
    ensures Adjusted(d, ratio, root, false, floor) == Some(d')
    ensures ideal <= d' < d && (root >= 0.5 ==> d' == p) && (root < 0.5 ==> 2.0 * d' == d)
  {
    var step := Clamp(root, MAX_STEP_DOWN, MAX_STEP_UP);
    d' := Times(d, step);
    TimesOrder(d, step, 0.87);
    TimesOrder(d, root, step);
    TimesLaws(d, root, p);
    assert Times(d, 0.87) == 0.87 * d && Times(d, 0.5) == 0.5 * d && Times(d, 0.0) == 0.0;
    TimesOrder(d, 0.0, root);
    hide Times, Adjusted;
    TimesOrder(p, root, 1.0);
    TimesLaws(p, root, p);
    TimesLaws(p, 1.0, p);
    AdjustedTo(d, ratio, root, floor, d');
  }

  // ---------- How far off ----------

  /** `y` is at most four times `x` doubled `m` times. */
  predicate UpTo(m: nat, x: real, y: real) {
    if m == 0 then y <= 4.0 * x else UpTo(m - 1, 2.0 * x, y)
  }

  /** What is left after the last `n` adjustments: each takes the square root of how far off the
      difficulty is, or a factor of two. */
  predicate Zone(n: nat, d: real, ideal: real) {
    if n == 0 then InBand(d, ideal)
    else if n == 1 then 0.5625 * d < ideal < 1.5625 * d
    else if n == 2 then 0.31640625 * d < ideal < 2.44140625 * d
    else UpTo(n - 3, d, ideal) && UpTo(n - 3, ideal, d)
  }

  lemma {:induction false} UpToGrows(m: nat, x: real, y: real, x': real)
    requires UpTo(m, x, y) && x <= x'
    ensures UpTo(m, x', y)
  {
    if m > 0 {
      UpToGrows(m - 1, 2.0 * x, y, 2.0 * x');
    }
  }

  lemma {:induction false} UpToClose(m: nat, x: real, y: real)
    requires 0.0 < x && y <= 4.0 * x
    ensures UpTo(m, x, y)
  {
    if m > 0 {
      UpToClose(m - 1, 2.0 * x, y);
    }
  }

  lemma {:induction false} UpToHalves(m: nat, x: real, y: real)
    requires UpTo(m, 2.0 * x, 2.0 * y)
    ensures UpTo(m, x, y)
  {
    if m > 0 {
      UpToHalves(m - 1, 2.0 * x, y);
    }
  }

  /** `UpTo` in closed form. */
  lemma {:induction false} UpToPow2(m: nat, x: real, y: real)
    ensures UpTo(m, x, y) <==> y <= Times(Pow2(m + 2), x)
  {
    if m == 0 {
      assert Pow2(2) == 2.0 * Pow2(1) == 4.0;
    } else {
      var q := Pow2(m + 1);
      assert Pow2(m + 2) == 2.0 * q by {
        Pow2Doubles(m + 1);
      }
      UpToPow2(m - 1, 2.0 * x, y);
      assert Times(2.0 * q, x) == Times(q, 2.0 * x);
    }
  }

  lemma {:induction false} ZonesNest(n: nat, d: real, ideal: real)
    requires d > 0.0 && ideal > 0.0 && Zone(n, d, ideal)
    ensures Zone(n + 1, d, ideal)
  {
    if n >= 3 {
      UpToNests(n - 3, d, ideal);
      UpToNests(n - 3, ideal, d);
    }
  }

  lemma UpToNests(m: nat, x: real, y: real)
    requires 0.0 < x && UpTo(m, x, y)
    ensures UpTo(m + 1, x, y)
  {
    UpToGrows(m, x, y, 2.0 * x);
  }

  /** The square of a bound on the root bounds how far off the difficulty is. */
  lemma RootCompare(d: real, root: real, p: real, ideal: real, bound: real)
    requires Off(d, root, p, ideal) && bound > 0.0
    ensures root >= bound ==> ideal >= Times(Times(bound, bound), d)
    ensures root <= bound ==> ideal <= Times(Times(bound, bound), d)
  {
    var sq, b := Times(root, root), Times(bound, bound);
    TimesLaws(root, root, d);
    TimesLaws(sq, d, d);
    TimesLaws(b, d, d);
    if root < bound {
      SquareStrict(root, bound);
      hide Times;
      TimesOrder(d, sq, b);
    } else if root > bound {
      SquareStrict(bound, root);
      hide Times;
      TimesOrder(d, b, sq);
    }
  }

  lemma RootInZone(n: nat, d: real, root: real, p: real, ideal: real)
    requires Off(d, root, p, ideal) && 1 <= n <= 3 && Zone(n, d, ideal)
    ensures n == 1 ==> 0.75 < root < 1.25
    ensures n == 2 ==> 0.5625 < root < 1.5625
    ensures n == 3 ==> 0.4 < root < 2.2
  {
    var low := if n == 1 then 0.75 else if n == 2 then 0.5625 else 0.4;
    var high := if n == 1 then 1.25 else if n == 2 then 1.5625 else 2.2;
    RootCompare(d, root, p, ideal, low);
    RootCompare(d, root, p, ideal, high);
    assert Times(low, low) == if n == 1 then 0.5625 else if n == 2 then 0.31640625 else 0.16;
    assert Times(high, high) == if n == 1 then 1.5625 else if n == 2 then 2.44140625 else 4.84;
    assert Times(0.5625, d) == 0.5625 * d && Times(0.31640625, d) == 0.31640625 * d && Times(0.16, d) == 0.16 * d;
    assert Times(1.5625, d) == 1.5625 * d && Times(2.44140625, d) == 2.44140625 * d && Times(4.84, d) == 4.84 * d;
    hide Times;
  }

  /** What a bound on the root says of the difficulty it is taken to. */
  lemma RootBounds(root: real, d': real, high: real)
    requires d' > 0.0
    ensures root <= high ==> Times(root, d') <= Times(d', high)
    ensures root < high ==> Times(root, d') < Times(d', high)
    ensures root >= high ==> Times(root, d') >= Times(d', high)
    ensures root > high ==> Times(root, d') > Times(d', high)
  {
    TimesLaws(root, d', d');
    hide Times;
    if root <= high {
      TimesOrder(d', root, high);
    } else {
      TimesOrder(d', high, root);
    }
  }

  lemma UpNear(n: nat, d: real, root: real, p: real, ideal: real, d': real)
    requires Off(d, root, p, ideal) && n > 0 && Zone(n, d, ideal) && root <= 2.0 && p <= d' && 0.0 < d'
    ensures ideal <= 2.0 * d' && (n == 1 ==> ideal < 1.25 * d') && (n == 2 ==> ideal < 1.5625 * d')
  {
    if n <= 2 {
      RootInZone(n, d, root, p, ideal);
    }
    assert Times(d', 1.25) == 1.25 * d' && Times(d', 1.5625) == 1.5625 * d' && Times(d', 2.0) == 2.0 * d';
    hide Times, Zone;
    TimesOrder(root, p, d');
    RootBounds(root, d', 1.25);
    RootBounds(root, d', 1.5625);
    RootBounds(root, d', 2.0);
  }

  lemma UpShrinks(n: nat, d: real, root: real, p: real, ideal: real, d': real)
    requires Off(d, root, p, ideal) && 1.1 < root && n > 0 && Zone(n, d, ideal)
    requires d < d' <= ideal && (root <= 2.0 ==> p <= d') && (root > 2.0 ==> 2.0 * d <= d')
    ensures Zone(n - 1, d', ideal)
  {
    if root <= 2.0 {
      UpNear(n, d, root, p, ideal, d');
      hide Off;
      if n > 3 {
        UpToClose(n - 4, d', ideal);
        UpToClose(n - 4, ideal, d');
      }
    } else {
      if n <= 2 {
        RootInZone(n, d, root, p, ideal);
      }
      hide Off;
      if n > 3 {
        UpToGrows(n - 4, 2.0 * d, ideal, d');
        UpToClose(n - 4, ideal, d');
      }
    }
  }

  lemma DownNear(n: nat, d: real, root: real, ideal: real, d': real)
    requires Off(d, root, d', ideal) && n > 0 && Zone(n, d, ideal) && 0.5 <= root && 0.0 < d'
    ensures d' <= 2.0 * ideal && (n == 1 ==> ideal > 0.75 * d') && (n == 2 ==> ideal > 0.5625 * d')
  {
    if n <= 2 {
      RootInZone(n, d, root, d', ideal);
    }
    assert Times(d', 0.75) == 0.75 * d' && Times(d', 0.5625) == 0.5625 * d' && Times(d', 0.5) == 0.5 * d';
    hide Times, Zone;
    RootBounds(root, d', 0.75);
    RootBounds(root, d', 0.5625);
    RootBounds(root, d', 0.5);
  }

  lemma DownShrinks(n: nat, d: real, root: real, p: real, ideal: real, d': real)
    requires Off(d, root, p, ideal) && root < 0.87 && n > 0 && Zone(n, d, ideal)
    requires ideal <= d' < d && (root >= 0.5 ==> d' == p) && (root < 0.5 ==> 2.0 * d' == d)
    ensures Zone(n - 1, d', ideal)
  {
    if root >= 0.5 {
      DownNear(n, d, root, ideal, d');
      hide Off;
      if n > 3 {
        UpToClose(n - 4, d', ideal);
        UpToClose(n - 4, ideal, d');
      }
    } else {
      if n <= 2 {
        RootInZone(n, d, root, p, ideal);
      }
      assert ideal > 0.0;
      hide Off;
      if n > 3 {
        UpToHalves(n - 4, ideal, d');
        UpToClose(n - 4, d', ideal);
      }
    }
  }

  // ---------- Runs ----------

  /** From `d` towards `ideal` and not past it. */
  predicate Towards(d: real, d': real, ideal: real) {
    d <= d' <= ideal || ideal <= d' <= d
  }

  /** The dead band of the rule is the band around the ideal. */
  lemma BandRatio(d: real, ratio: real, ideal: real)
    requires d > 0.0 && ideal > 0.0 && Times(ratio, d) == ideal
    ensures ratio > 0.0 && (InBand(d, ideal) <==> LOWER_RATIO < ratio < UPPER_RATIO)
  {
    assert Times(d, 0.75) == 0.75 * d && Times(d, 1.25) == 1.25 * d && Times(d, 0.0) == 0.0;
    hide Times;
    RootBounds(ratio, d, 0.0);
    RootBounds(ratio, d, 0.75);
    RootBounds(ratio, d, 1.25);
  }

  lemma SteadyAdjusted(d: real, ratio: real, root: real, floor: real, ideal: real, n: nat) returns (d': real)
    requires floor <= ideal && d > 10.0 * EPSILON && ideal > 0.0
    requires Times(ratio, d) == ideal && IsRoot(root, ratio) && !InBand(d, ideal)
    ensures Adjusted(d, ratio, root, false, floor) == Some(d') && d' != d && Towards(d, d', ideal)
    ensures n > 0 && Zone(n, d, ideal) ==> Zone(n - 1, d', ideal)
  {
    BandRatio(d, ratio, ideal);
    StepBounds(root, ratio);
    assert root > 0.0;
    RootTwice(d, ratio, root, ideal);
    hide IsRoot;
    var p := Times(root, d);
    hide Times;
    hide Adjusted, Zone;
    if ratio >= UPPER_RATIO {
      d' := GoesUp(d, ratio, root, p, floor, ideal);
      if n > 0 && Zone(n, d, ideal) {
        UpShrinks(n, d, root, p, ideal, d');
      }
    } else {
      d' := GoesDown(d, ratio, root, p, floor, ideal);
      if n > 0 && Zone(n, d, ideal) {
        DownShrinks(n, d, root, p, ideal, d');
      }
    }
  }

  /** One tick: nothing in the band; outside it, a strict move that does not overshoot and takes the
      difficulty one zone closer. */
  lemma SteadyTick(p: Port, d: real, o: Observation, ideal: real, n: nat)
    requires !p.clampPow2 && p.floor <= ideal && d > 10.0 * EPSILON && ideal > 0.0
    requires Sound(o, p.expectedSpm) && Steady(o, d, ideal, p.expectedSpm)
    ensures var d' := Ticked(d, o, p.expectedSpm, p.clampPow2, p.floor);
      && Towards(d, d', ideal) && (d' == d <==> InBand(d, ideal))
      && (Zone(n, d, ideal) ==> Zone(if n == 0 then 0 else n - 1, d', ideal))
  {
    var ratio := Ratio(o.shares, o.elapsed, p.expectedSpm);
    SteadyRatio(o, d, ideal, p.expectedSpm);
    assert NextDiff(d, o.shares, o.elapsed, p.expectedSpm, false, p.floor, o.root) == Adjusted(d, ratio, o.root, false, p.floor);
    assert IsRoot(o.root, ratio);
    hide NextDiff, Ratio, Steady, IsRoot;
    BandRatio(d, ratio, ideal);
    if InBand(d, ideal) {
      hide Times;
      InBandDown(if n == 0 then 0 else n - 1, d, ideal);
    } else {
      hide Adjusted, Times;
      var d' := SteadyAdjusted(d, ratio, o.root, p.floor, ideal, n);
    }
  }

  lemma {:induction false} InBandDown(n: nat, d: real, ideal: real)
    requires d > 0.0 && ideal > 0.0 && InBand(d, ideal)
    ensures Zone(n, d, ideal)
  {
    if n > 0 {
      InBandDown(n - 1, d, ideal);
      ZonesNest(n - 1, d, ideal);
    }
  }

  ghost predicate IsSteadyRun(p: Port, obs: seq<Observation>, d: seq<real>, ideal: real) {
    && IsRun(p, obs, d)
    && forall m :: 0 <= m < |obs| ==> Steady(obs[m], d[m], ideal, p.expectedSpm)
  }

  /** Against a steady worker, every difficulty of a run lies between the first one and the ideal,
      moving towards it with every tick and stopping for good in the band; a difficulty that starts
      within a factor of `2^(k + 2)` of the ideal is in the band after `k + 3` adjustments. */
  lemma {:induction false} SteadyRunConverges(p: Port, obs: seq<Observation>, d: seq<real>, ideal: real, k: nat, m: nat)
    requires IsSteadyRun(p, obs, d, ideal) && m < |obs|
    requires !p.clampPow2 && p.floor <= ideal && d[0] > 10.0 * EPSILON && ideal > 10.0 * EPSILON
    requires ideal <= Pow2(k + 2) * d[0] && d[0] <= Pow2(k + 2) * ideal
    ensures Towards(d[0], d[m], ideal) && Towards(d[m], d[m + 1], ideal)
    ensures d[m + 1] == d[m] <==> InBand(d[m], ideal)
    ensures m >= k + 3 ==> InBand(d[m], ideal)
  {
    SteadyRunZones(p, obs, d, ideal, k, m);
    assert IsStep(p, obs, d, m);
    hide Sound, Steady, Zone, Ticked;
    SteadyTick(p, d[m], obs[m], ideal, 0);
    if m >= k + 3 {
      assert Zone(0, d[m], ideal);
    }
  }

  lemma {:induction false} SteadyRunZones(p: Port, obs: seq<Observation>, d: seq<real>, ideal: real, k: nat, m: nat)
    requires IsSteadyRun(p, obs, d, ideal) && m <= |obs|
    requires !p.clampPow2 && p.floor <= ideal && d[0] > 10.0 * EPSILON && ideal > 10.0 * EPSILON
    requires ideal <= Pow2(k + 2) * d[0] && d[0] <= Pow2(k + 2) * ideal
    ensures Towards(d[0], d[m], ideal) && Zone(if m >= k + 3 then 0 else k + 3 - m, d[m], ideal)
  {
    if m == 0 {
      UpToPow2(k, d[0], ideal);
      UpToPow2(k, ideal, d[0]);
    } else {
      SteadyRunZones(p, obs, d, ideal, k, m - 1);
      assert IsStep(p, obs, d, m - 1);
      hide Sound, Steady, Zone, Ticked;
      SteadyTick(p, d[m - 1], obs[m - 1], ideal, if m - 1 >= k + 3 then 0 else k + 3 - (m - 1));
    }
  }
}
