/** Variable difficulty with the power-of-two clamp on, against a steady worker: it settles, or doubles
    and halves for ever. */
module VardiffClamped {
  import opened Wrappers
  import opened Vardiff
  import opened VardiffConvergence

  // ---------- One tick ----------

  lemma FloorExponent(c: int)
    ensures CeilLog2(Pow2(c)) == c
  {
    Pow2Doubles(c - 1);
    CeilLog2Unique(Pow2(c), c);
  }

  lemma ClampBounds(root: real)
    ensures 1.1 < root ==> 1.1 < Clamp(root, MAX_STEP_DOWN, MAX_STEP_UP) <= 2.0
    ensures root < 0.87 ==> 0.5 <= Clamp(root, MAX_STEP_DOWN, MAX_STEP_UP) < 0.87
  {
  }

  /** What the rule answers outside the band when the shaped proposal is clear of its filters, or is
      the difficulty itself. */
  lemma AnswerIs(d: real, ratio: real, root: real, floor: real, q: real, next: real)
    requires d > 0.0 && (0.0 < ratio <= LOWER_RATIO || ratio >= UPPER_RATIO)
    requires q == d * Clamp(root, MAX_STEP_DOWN, MAX_STEP_UP) && next == Shaped(d, q, true, floor)
    requires next == d || (Abs(next - d) >= 0.1 * d && Abs(next - d) > EPSILON)
    ensures Adjusted(d, ratio, root, true, floor) == if next == d then None else Some(next)
  {
    hide Shaped;
    if next != d {
      FilterPasses(d, next);
    }
  }

  /** From a power of two, too fast a worker doubles the difficulty. */
  lemma DoublesWhenFast(a: int, d: real, ratio: real, root: real, floor: real)
    requires d == Pow2(a) && EPSILON < floor <= d && 1.1 < root && ratio >= UPPER_RATIO
    ensures Adjusted(d, ratio, root, true, floor) == Some(Pow2(a + 1))
  {
    hide Pow2, Shaped, Clamp, Adjusted;
    ClampBounds(root);
    var q := Proposal(d, Clamp(root, MAX_STEP_DOWN, MAX_STEP_UP));
    ShapedUp(a, d, q, floor);
    Pow2Doubles(a);
    AnswerIs(d, ratio, root, floor, q, Pow2(a + 1));
  }

  /** Too slow a worker halves it, except on the floor. */
  lemma HalvesWhenSlow(a: int, d: real, ratio: real, root: real, c: int)
    requires d == Pow2(a) && c <= a && EPSILON < Pow2(c) && root < 0.87 && 0.0 < ratio <= LOWER_RATIO
    ensures Adjusted(d, ratio, root, true, Pow2(c)) == if c < a then Some(Pow2(a - 1)) else None
  {
    hide Pow2, Shaped, Clamp, Adjusted, CeilLog2;
    ClampBounds(root);
    var q := Proposal(d, Clamp(root, MAX_STEP_DOWN, MAX_STEP_UP));
    FloorExponent(c);
    Pow2Doubles(a - 1);
    if c < a {
      Pow2Increases(c, a);
      if c < a - 1 {
        Pow2Increases(c, a - 1);
      }
    }
    ShapedDown(a, q, Pow2(c));
    AnswerIs(d, ratio, root, Pow2(c), q, if c < a then Pow2(a - 1) else d);
  }

  /** One tick on exponents: up when the worker is too fast, down when it is too slow and above the
      floor. */
  function Moved(a: int, c: int, ideal: real): int {
    if ideal >= UPPER_RATIO * Pow2(a) then a + 1
    else if ideal <= LOWER_RATIO * Pow2(a) && c < a then a - 1
    else a
  }

  ghost predicate Clamped(p: Port, c: int) {
    p.clampPow2 && p.floor == Pow2(c) && EPSILON < p.floor
  }

  lemma RatioSides(d: real, ratio: real, ideal: real)
    requires d > 0.0 && ideal > 0.0 && Times(ratio, d) == ideal
    ensures ratio > 0.0 && (ratio >= UPPER_RATIO <==> ideal >= UPPER_RATIO * d)
    ensures ratio <= LOWER_RATIO <==> ideal <= LOWER_RATIO * d
  {
    assert Times(d, 0.75) == 0.75 * d && Times(d, 1.25) == 1.25 * d && Times(d, 0.0) == 0.0;
    hide Times;
    RootBounds(ratio, d, 0.0);
    RootBounds(ratio, d, 0.75);
    RootBounds(ratio, d, 1.25);
  }

  lemma ClampedTick(p: Port, c: int, a: int, o: Observation, ideal: real)
    requires Clamped(p, c) && c <= a && ideal > 0.0
    requires Sound(o, p.expectedSpm) && Steady(o, Pow2(a), ideal, p.expectedSpm)
    ensures Ticked(Pow2(a), o, p.expectedSpm, p.clampPow2, p.floor) == Pow2(Moved(a, c, ideal))
  {
    var d, ratio := Pow2(a), Ratio(o.shares, o.elapsed, p.expectedSpm);
    SteadyRatio(o, d, ideal, p.expectedSpm);
    assert NextDiff(d, o.shares, o.elapsed, p.expectedSpm, true, p.floor, o.root) == Adjusted(d, ratio, o.root, true, p.floor);
    assert IsRoot(o.root, ratio);
    hide NextDiff, Ratio, Steady, Pow2, Times;
    RatioSides(d, ratio, ideal);
    StepBounds(o.root, ratio);
    if c < a {
      Pow2Increases(c, a);
    }
    if ratio >= UPPER_RATIO {
      hide Adjusted;
      DoublesWhenFast(a, d, ratio, o.root, p.floor);
    } else if ratio <= LOWER_RATIO {
      hide Adjusted;
      HalvesWhenSlow(a, d, ratio, o.root, c);
    }
  }

  // ---------- Where it goes ----------

  /** The exponent the clamp leads to: the least whose difficulty is not more than a third under the
      ideal, or the floor's. */
  function Home(ideal: real, c: int): int
    requires ideal > 0.0
  {
    var h := CeilLog2(ideal / 1.5);
    if h < c then c else h
  }

  /** The ideal lies between the bands of a difficulty and of its double. */
  ghost predicate BetweenBands(ideal: real, c: int) {
    exists k: int :: c <= k && UPPER_RATIO * Pow2(k) <= ideal <= 1.5 * Pow2(k)
  }

  lemma HomeBounds(ideal: real, c: int)
    requires ideal > 0.0
    ensures var h := Home(ideal, c);
            && c <= h && ideal <= 1.5 * Pow2(h) && (c < h ==> 0.75 * Pow2(h) < ideal)
            && (0.75 * Pow2(h) < ideal ==> h == CeilLog2(ideal / 1.5))
  {
    var k := CeilLog2(ideal / 1.5);
    hide Pow2, CeilLog2;
    Pow2Doubles(k - 1);
    if k < c {
      Pow2Increases(k, c);
    }
  }

  /** The ideal is between two bands exactly if it is past the band at home. */
  lemma BetweenBandsIff(ideal: real, c: int)
    requires ideal > 0.0
    ensures BetweenBands(ideal, c) <==> ideal >= UPPER_RATIO * Pow2(Home(ideal, c))
  {
    HomeBounds(ideal, c);
    hide Pow2;
    if k: int :| c <= k && UPPER_RATIO * Pow2(k) <= ideal <= 1.5 * Pow2(k) {
      Pow2Doubles(k - 1);
      CeilLog2Unique(ideal / 1.5, k);
    }
  }

  /** A tick goes one exponent towards home, and from there up by one, or nowhere. */
  lemma MovedHome(a: int, c: int, ideal: real)
    requires c <= a && ideal > 0.0
    ensures var h := Home(ideal, c);
            Moved(a, c, ideal) == if a < h then a + 1 else if h < a then a - 1
                                  else if ideal >= UPPER_RATIO * Pow2(h) then h + 1 else h
  {
    var h := Home(ideal, c);
    HomeBounds(ideal, c);
    hide Pow2, Home;
    if a < h {
      Pow2Increases(a, h);
    } else if h < a {
      Pow2Increases(h, a);
    }
  }

  // ---------- Runs ----------

  function Gap(a: int, h: int): nat {
    if a < h then h - a else a - h
  }

  /** The exponent after `m` ticks from `a`: one closer to home with each, and then at home, or at home
      and above it by turns. */
  function LevelAt(a: int, h: int, turns: bool, m: nat): int {
    if m < Gap(a, h) then if a < h then a + m else a - m
    else if turns then h + (m - Gap(a, h)) % 2 else h
  }

  lemma NextLevel(a: int, h: int, turns: bool, m: nat)
    ensures var b := LevelAt(a, h, turns, m);
            LevelAt(a, h, turns, m + 1)
            == if b < h then b + 1 else if h < b then b - 1 else if turns then h + 1 else h
  {
  }

  lemma LevelFloor(a: int, h: int, turns: bool, m: nat, c: int)
    requires c <= a && c <= h
    ensures c <= LevelAt(a, h, turns, m)
  {
  }

  /** Every steady clamped run, tick by tick. */
  lemma {:induction false} ClampedRun(p: Port, c: int, obs: seq<Observation>, d: seq<real>, ideal: real, a: int, m: nat)
    requires IsSteadyRun(p, obs, d, ideal) && Clamped(p, c) && d[0] == Pow2(a) && c <= a && ideal > 0.0 && m < |d|
    ensures d[m] == Pow2(LevelAt(a, Home(ideal, c), BetweenBands(ideal, c), m))
  {
    hide Pow2, Home, BetweenBands, Sound, Steady, Ticked, Clamped, LevelAt, Moved;
    var h, turns := Home(ideal, c), BetweenBands(ideal, c);
    if m == 0 {
      LevelStart(a, h, turns);
    } else {
      ClampedRun(p, c, obs, d, ideal, a, m - 1);
      assert IsStep(p, obs, d, m - 1);
      var b := LevelAt(a, h, turns, m - 1);
      HomeFloor(ideal, c);
      LevelFloor(a, h, turns, m - 1, c);
      ClampedStep(p, c, b, obs, d, m - 1, ideal);
      MovedLevel(b, c, ideal);
      NextLevel(a, h, turns, m - 1);
    }
  }

  lemma HomeFloor(ideal: real, c: int)
    requires ideal > 0.0
    ensures c <= Home(ideal, c)
  {
    hide CeilLog2;
  }

  lemma MovedLevel(b: int, c: int, ideal: real)
    requires c <= b && ideal > 0.0
    ensures var h := Home(ideal, c);
            Moved(b, c, ideal) == if b < h then b + 1 else if h < b then b - 1 else if BetweenBands(ideal, c) then h + 1 else h
  {
    hide Pow2, Home, BetweenBands, Moved;
    MovedHome(b, c, ideal);
    BetweenBandsIff(ideal, c);
  }

  lemma ClampedStep(p: Port, c: int, b: int, obs: seq<Observation>, d: seq<real>, m: nat, ideal: real)
    requires m < |obs| < |d| && IsStep(p, obs, d, m) && Steady(obs[m], d[m], ideal, p.expectedSpm)
    requires Clamped(p, c) && c <= b && ideal > 0.0 && d[m] == Pow2(b)
    ensures d[m + 1] == Pow2(Moved(b, c, ideal))
  {
    hide Pow2, Moved, Sound, Steady, Ticked, Clamped;
    ClampedTick(p, c, b, obs[m], ideal);
  }

  lemma LevelStart(a: int, h: int, turns: bool)
    ensures LevelAt(a, h, turns, 0) == a
  {
  }

  /** With the clamp on, a floor that is a power of two and a start on one, a steady worker's difficulty
      comes to rest if and only if no difficulty on the ladder has the ideal between 1.25 and 1.5
      times it. It then rests in the band, or on the floor when the ideal is under that; otherwise it
      doubles and halves by turns for ever. Either is so from the time it takes to walk there. */
  lemma SettlesIff(p: Port, c: int, obs: seq<Observation>, d: seq<real>, ideal: real, a: int, m: nat)
    requires IsSteadyRun(p, obs, d, ideal) && Clamped(p, c) && d[0] == Pow2(a) && c <= a && ideal > 0.0
    requires Gap(a, Home(ideal, c)) <= m < |obs|
    ensures d[m + 1] == d[m] <==> !BetweenBands(ideal, c)
    ensures !BetweenBands(ideal, c) ==> InBand(d[m], ideal) || (d[m] == p.floor && ideal <= LOWER_RATIO * p.floor)
    ensures BetweenBands(ideal, c) ==> d[m + 1] == 2.0 * d[m] || d[m] == 2.0 * d[m + 1]
  {
    hide Pow2, Home, BetweenBands, LevelAt, IsStep, Steady;
    var h, turns := Home(ideal, c), BetweenBands(ideal, c);
    ClampedRun(p, c, obs, d, ideal, a, m);
    ClampedRun(p, c, obs, d, ideal, a, m + 1);
    LevelsAtHome(a, h, turns, m);
    Pow2Doubles(h);
    BetweenBandsIff(ideal, c);
    HomeBounds(ideal, c);
  }

  lemma LevelsAtHome(a: int, h: int, turns: bool, m: nat)
    requires Gap(a, h) <= m
    ensures var b, b' := LevelAt(a, h, turns, m), LevelAt(a, h, turns, m + 1);
            if turns then (b == h && b' == h + 1) || (b == h + 1 && b' == h) else b == b' == h
  {
  }
}
