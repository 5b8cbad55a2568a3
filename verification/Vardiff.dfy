/** Variable difficulty: the adjustment rule of `vardiff_compute_next_diff`, the power-of-two
    clamp, and the floor the server prepares for it. Difficulties are real numbers; rounding is
    not modelled, but the `f64::EPSILON` threshold of the source is kept. */
module Vardiff {
  import opened Wrappers

  const MIN_ELAPSED := 30.0
  const MAX_ELAPSED_NO_SHARES := 90.0
  const MIN_SHARES := 3.0
  const LOWER_RATIO := 0.75
  const UPPER_RATIO := 1.25
  const MAX_STEP_UP := 2.0
  const MAX_STEP_DOWN := 0.5

  /** 2^-52. */
  const EPSILON: real := 1.0 / 4503599627370496.0

  function Abs(x: real): real {
    if x < 0.0 then -x else x
  }

  function Max(x: real, y: real): real {
    if x < y then y else x
  }

  function Clamp(x: real, low: real, high: real): real {
    if x < low then low else if x > high then high else x
  }

  // ---------- Powers of two ----------

  function Pow2(e: int): (p: real)
    ensures p > 0.0
    decreases if e < 0 then -e else e
  {
    if e == 0 then 1.0 else if e > 0 then 2.0 * Pow2(e - 1) else Pow2(e + 1) / 2.0
  }

  lemma Pow2Doubles(e: int)
    ensures Pow2(e + 1) == 2.0 * Pow2(e)
  {
  }

  lemma {:induction false} Pow2Increases(a: int, b: int)
    requires a < b
    ensures 2.0 * Pow2(a) <= Pow2(b)
    decreases b - a
  {
    Pow2Doubles(b - 1);
    if a < b - 1 {
      Pow2Increases(a, b - 1);
    }
  }

  /** How far `x` is from the interval between one and two. */
  function Distance(x: real): (n: nat)
    requires x > 0.0
  {
    if x >= 1.0 then x.Floor else InverseFloor(x)
  }

  function InverseFloor(x: real): (n: nat)
    requires 0.0 < x < 1.0
  {
    assert 1.0 / x > 0.0;
    (1.0 / x).Floor
  }

  lemma DoublingApproaches(x: real)
    requires 0.0 < x && x * 2.0 < 1.0
    ensures InverseFloor(x * 2.0) < InverseFloor(x)
  {
    var y := 1.0 / x;
    assert y * x == 1.0;
    assert 1.0 / (x * 2.0) == y / 2.0;
    assert y > 2.0 by {
      assert y * (1.0 - x * 2.0) > 0.0;
      assert y * (1.0 - x * 2.0) == y - 2.0;
    }
  }

  /** `x.log2().floor()`. */
  function FloorLog2(x: real): (e: int)
    requires x > 0.0
    ensures Pow2(e) <= x < Pow2(e + 1)
    decreases x < 1.0, Distance(x)
  {
    if x >= 2.0 then
      var e := FloorLog2(x / 2.0);
      Pow2Doubles(e); Pow2Doubles(e + 1);
      e + 1
    else if x < 1.0 then
      assert x * 2.0 < 1.0 ==> Distance(x * 2.0) < Distance(x) by { if x * 2.0 < 1.0 { DoublingApproaches(x); } }
      var e := FloorLog2(x * 2.0);
      Pow2Doubles(e - 1); Pow2Doubles(e);
      e - 1
    else
      0
  }

  /** `x.log2().ceil()`. */
  function CeilLog2(x: real): (e: int)
    requires x > 0.0
    ensures Pow2(e - 1) < x <= Pow2(e)
  {
    var e := FloorLog2(x);
    Pow2Doubles(e - 1);
    if Pow2(e) == x then e else e + 1
  }

  ghost predicate IsPow2(x: real) {
    exists e: int :: x == Pow2(e)
  }

  // ---------- The adjustment rule ----------

  /** `vardiff_pow2_clamp_towards`. */
  function Pow2ClampTowards(current: real, next: real, floor: real): real {
    if next <= 0.0 then floor
    else
      var clamped := Pow2(if next >= current then CeilLog2(next) else FloorLog2(next));
      if clamped < floor then floor else clamped
  }

  /** The clamp gives the floor or a power of two, and nothing under the floor. */
  lemma ClampShape(current: real, next: real, floor: real)
    ensures var r := Pow2ClampTowards(current, next, floor); r >= floor && (r == floor || IsPow2(r))
  {
    hide Pow2, FloorLog2, CeilLog2;
  }

  /** A proposed difficulty after the floor and, when it is on, the power-of-two clamp. */
  function Shaped(current: real, proposed: real, clampPow2: bool, floor: real): real {
    var next := if proposed < floor then floor else proposed;
    if clampPow2 then Pow2ClampTowards(current, next, floor) else next
  }

  function Ratio(shares: real, elapsed: real, expectedSpm: real): real
    requires elapsed > 0.0
  {
    ((shares / elapsed) * 60.0) / Max(expectedSpm, 1.0)
  }

  predicate IsRoot(root: real, x: real) {
    root >= 0.0 && root * root == x
  }

  /** The part of the rule that looks at the ratio of observed to expected share rate; `root` is
      its square root. */
  function Adjusted(current: real, ratio: real, root: real, clampPow2: bool, floor: real): Option<real>
    requires current > 0.0
  {
    if ratio <= 0.0 then None
    else if LOWER_RATIO < ratio < UPPER_RATIO then None
    else
      var next := Shaped(current, current * Clamp(root, MAX_STEP_DOWN, MAX_STEP_UP), clampPow2, floor);
      if Abs(next - current) / current < 0.10 then None
      else if Abs(next - current) > EPSILON then Some(next) else None
  }

  /** `vardiff_compute_next_diff`, with the square root it takes passed in. */
  function NextDiff(current: real, shares: real, elapsed: real, expectedSpm: real,
                    clampPow2: bool, floor: real, root: real): Option<real>
  {
    if current <= 0.0 || elapsed <= 0.0 then None
    else if shares == 0.0 && elapsed >= MAX_ELAPSED_NO_SHARES then
      var next := Shaped(current, current * MAX_STEP_DOWN, clampPow2, floor);
      if Abs(next - current) > EPSILON then Some(next) else None
    else if elapsed < MIN_ELAPSED || shares < MIN_SHARES then None
    else Adjusted(current, Ratio(shares, elapsed, expectedSpm), root, clampPow2, floor)
  }

  /** What one tick of the vardiff thread sees of a worker. */
  datatype Observation = Observation(shares: real, elapsed: real, root: real)

  ghost predicate Sound(o: Observation, expectedSpm: real) {
    o.shares >= 0.0 && o.elapsed >= 0.0
    && (o.elapsed > 0.0 ==> IsRoot(o.root, Ratio(o.shares, o.elapsed, expectedSpm)))
  }

  /** The difficulty after the tick: the new one, or the old one when there is none. */
  function Ticked(d: real, o: Observation, expectedSpm: real, clampPow2: bool, floor: real): real {
    match NextDiff(d, o.shares, o.elapsed, expectedSpm, clampPow2, floor, o.root)
    case None => d
    case Some(next) => next
  }

  datatype Port = Port(expectedSpm: real, clampPow2: bool, floor: real)

  /** `d` is the history of a worker's difficulty under the observations `obs`. */
  ghost predicate IsRun(p: Port, obs: seq<Observation>, d: seq<real>) {
    && |d| == |obs| + 1
    && forall m :: 0 <= m < |obs| ==> IsStep(p, obs, d, m)
  }

  ghost predicate IsStep(p: Port, obs: seq<Observation>, d: seq<real>, m: nat)
    requires m < |obs| < |d|
  {
    Sound(obs[m], p.expectedSpm) && d[m + 1] == Ticked(d[m], obs[m], p.expectedSpm, p.clampPow2, p.floor)
  }

  // ---------- When it moves ----------

  /** Grounds for a change: ninety seconds without a share, or thirty with at least three of them that
      came at least 1.25 times as fast as expected or at most 0.75 times. */
  ghost predicate Grounds(o: Observation, expectedSpm: real) {
    || (o.shares == 0.0 && o.elapsed >= 90.0)
    || (o.shares >= 3.0 && o.elapsed >= 30.0 && !(0.75 < Ratio(o.shares, o.elapsed, expectedSpm) < 1.25))
  }

  lemma TickHolds(d: real, o: Observation, p: Port)
    requires !Grounds(o, p.expectedSpm)
    ensures Ticked(d, o, p.expectedSpm, p.clampPow2, p.floor) == d
  {
    hide Shaped, Ratio;
  }

  /** A difficulty stays through every stretch of ticks that give no grounds. */
  lemma {:induction false} Unmoved(p: Port, obs: seq<Observation>, d: seq<real>, a: nat, b: nat)
    requires IsRun(p, obs, d) && a <= b < |d|
    requires forall m :: a <= m < b ==> !Grounds(obs[m], p.expectedSpm)
    ensures d[b] == d[a]
    decreases b
  {
    hide Ticked, Sound, Grounds;
    if a < b {
      Unmoved(p, obs, d, a, b - 1);
      assert IsStep(p, obs, d, b - 1);
      TickHolds(d[b - 1], obs[b - 1], p);
    }
  }

  // ---------- The floor ----------

  /** `listen_and_serve_impl`: the port's minimum, which is also the vardiff floor. */
  method PrepareMinDiff(minShareDiff: real, pow2Clamp: bool) returns (minDiff: real)
    ensures minShareDiff == 0.0 ==> minDiff == 4.0
    ensures pow2Clamp && minShareDiff > 0.0 ==> minDiff <= minShareDiff < 2.0 * minDiff
    ensures pow2Clamp && minShareDiff >= 0.0 ==> IsPow2(minDiff) && Aligned(minDiff)
    ensures (!pow2Clamp && minShareDiff != 0.0) || minShareDiff < 0.0 ==> minDiff == minShareDiff
  {
    minDiff := minShareDiff;
    if pow2Clamp && minDiff > 0.0 {
      var e := FloorLog2(minDiff);
      minDiff := Pow2(e);
      Pow2Doubles(e);
      PowersAligned(e);
    }
    if minDiff == 0.0 {
      minDiff := 4.0;
      assert Pow2(2) == 4.0;
      PowersAligned(2);
    }
  }

  /** The least power of two that is not under the floor is within epsilon of it; a floor that is
      a power of two is its own. */
  predicate Aligned(floor: real) {
    floor > 0.0 && Pow2(CeilLog2(floor)) - floor <= EPSILON
  }

  lemma CeilLog2Unique(x: real, e: int)
    requires x > 0.0 && Pow2(e - 1) < x <= Pow2(e)
    ensures CeilLog2(x) == e
  {
    var f := CeilLog2(x);
    if e < f {
      Pow2Increases(e - 1, f - 1);
      Pow2Doubles(e - 1);
    } else if f < e {
      Pow2Increases(f - 1, e - 1);
      Pow2Doubles(f - 1);
    }
  }

  lemma FloorLog2Unique(x: real, e: int)
    requires x > 0.0 && Pow2(e) <= x < Pow2(e + 1)
    ensures FloorLog2(x) == e
  {
    var f := FloorLog2(x);
    if e < f {
      Pow2Increases(e, f);
      Pow2Doubles(e);
    } else if f < e {
      Pow2Increases(f, e);
      Pow2Doubles(f);
    }
  }

  lemma PowersAligned(e: int)
    ensures Aligned(Pow2(e))
  {
    Pow2Doubles(e - 1);
    CeilLog2Unique(Pow2(e), e);
  }

  // ---------- Power-of-two runs ----------

  lemma FloorLevel(a: int, floor: real)
    requires 0.0 < floor <= Pow2(a)
    ensures CeilLog2(floor) <= a
  {
    var c := CeilLog2(floor);
    if a < c {
      Pow2Increases(a, c);
      Pow2Doubles(c - 1);
    }
  }

  /** A proposal between half the difficulty and the difficulty becomes exactly half, or the
      floor when half is under it. */
  lemma ShapedDown(a: int, proposed: real, floor: real)
    requires 0.0 < floor <= Pow2(a) && Pow2(a - 1) <= proposed < Pow2(a)
    ensures Shaped(Pow2(a), proposed, true, floor) == if CeilLog2(floor) < a then Pow2(a - 1) else floor
  {
    hide Pow2;
    var c := CeilLog2(floor);
    FloorLevel(a, floor);
    var next := if proposed < floor then floor else proposed;
    if c < a {
      if c < a - 1 { Pow2Increases(c, a - 1); }
      assert next == proposed;
      FloorLog2Unique(next, a - 1);
    } else if next == Pow2(a) {
      Pow2Doubles(a - 1);
      CeilLog2Unique(next, a);
    } else {
      FloorLog2Unique(next, a - 1);
    }
  }

  /** A proposal above the difficulty and up to its double becomes exactly the double. */
  lemma ShapedUp(a: int, d: real, proposed: real, floor: real)
    requires d == Pow2(a) && 0.0 < floor <= d < proposed <= 2.0 * d
    ensures Shaped(d, proposed, true, floor) == Pow2(a + 1)
  {
    Pow2Doubles(a);
    CeilLog2Unique(proposed, a + 1);
  }

  lemma SquareMonotone(x: real, y: real)
    requires 0.0 <= x <= y
    ensures x * x <= y * y
  {
    assert x * x <= x * y <= y * y;
  }

  /** Outside the band the root is more than ten percent off, so only the floor can bring a proposal
      within the ten-percent filter. */
  lemma StepBounds(root: real, ratio: real)
    requires IsRoot(root, ratio)
    ensures ratio >= UPPER_RATIO ==> 1.1 < root
    ensures ratio <= LOWER_RATIO ==> root < 0.87
  {
    if root <= 1.1 {
      SquareMonotone(root, 1.1);
    }
    if root >= 0.87 {
      SquareMonotone(0.87, root);
    }
  }

  /** What a tick may turn a power of two into: itself, its double, its half; or, at the lowest
      level, the floor across a gap larger than epsilon. */
  ghost predicate Reached(a: int, floor: real, d': real)
    requires floor > 0.0
  {
    || d' == Pow2(a) || d' == Pow2(a + 1) || (CeilLog2(floor) < a && d' == Pow2(a - 1))
    || (CeilLog2(floor) == a && d' == floor && Pow2(a) - floor > EPSILON)
  }

  lemma DownReaches(a: int, d: real, proposed: real, floor: real)
    requires d == Pow2(a) && 0.0 < floor <= d && d * 0.5 <= proposed < d
    ensures var next := Shaped(d, proposed, true, floor);
            Abs(next - d) > EPSILON ==> Reached(a, floor, next)
  {
    Pow2Doubles(a - 1);
    FloorLevel(a, floor);
    ShapedDown(a, proposed, floor);
    hide Shaped, CeilLog2;
  }

  lemma ProposalReaches(a: int, d: real, proposed: real, floor: real)
    requires d == Pow2(a) && 0.0 < floor <= d && (d * 0.5 <= proposed < d || d < proposed <= 2.0 * d)
    ensures var next := Shaped(d, proposed, true, floor);
            Abs(next - d) > EPSILON ==> Reached(a, floor, next)
  {
    if proposed < d {
      DownReaches(a, d, proposed, floor);
    } else {
      ShapedUp(a, d, proposed, floor);
    }
  }

  /** The proposal for a clamped step, outside the ten-percent filter on either side. */
  lemma Proposal(d: real, step: real) returns (p: real)
    requires d > 0.0 && (0.5 <= step < 0.87 || 1.1 < step <= 2.0)
    ensures p == d * step
    ensures if step < 1.0 then d * 0.5 <= p < d * 0.87 else d * 1.1 < p <= d * 2.0
  {
    p := if step < 1.0 then ScaledWithin(d, step, 0.5, 0.87) else ScaledWithin(d, step, 1.1, 2.0);
  }

  function ScaledWithin(d: real, x: real, low: real, high: real): (p: real)
    requires d > 0.0 && low <= x <= high
    ensures p == d * x && d * low <= p <= d * high
    ensures low < x ==> d * low < p
    ensures x < high ==> p < d * high
  {
    ScaleOrder(d, low, x);
    ScaleOrder(d, x, high);
    d * x
  }

  lemma ScaleOrder(d: real, x: real, y: real)
    requires d > 0.0 && x <= y
    ensures d * x <= d * y && (x < y ==> d * x < d * y)
  {
  }

  /** Whenever the rule changes the difficulty, it is from a proposal outside the filter. */
  lemma AdjustedProposal(d: real, ratio: real, root: real, clampPow2: bool, floor: real) returns (p: real)
    requires d > 0.0
    requires (ratio >= UPPER_RATIO ==> 1.1 < root) && (ratio <= LOWER_RATIO ==> root < 0.87)
    ensures var r := Adjusted(d, ratio, root, clampPow2, floor);
            r.Some? ==> r.value == Shaped(d, p, clampPow2, floor) && Abs(r.value - d) > EPSILON
                        && (d * 0.5 <= p < d * 0.87 || d * 1.1 < p <= d * 2.0)
    ensures ratio <= LOWER_RATIO ==> p < d
  {
    hide Shaped;
    var step := Clamp(root, MAX_STEP_DOWN, MAX_STEP_UP);
    if LOWER_RATIO >= ratio || ratio >= UPPER_RATIO {
      p := Proposal(d, step);
    } else {
      p := d;
    }
  }

  lemma AdjustedReaches(a: int, d: real, ratio: real, root: real, floor: real)
    requires d == Pow2(a) && 0.0 < floor <= d && IsRoot(root, ratio)
    ensures var r := Adjusted(d, ratio, root, true, floor);
            r.Some? ==> Reached(a, floor, r.value)
  {
    StepBounds(root, ratio);
    hide IsRoot, Shaped, Adjusted, Reached;
    var p := AdjustedProposal(d, ratio, root, true, floor);
    if Adjusted(d, ratio, root, true, floor).Some? {
      ProposalReaches(a, d, p, floor);
    }
  }

  lemma SameReached(a: int, floor: real)
    requires floor > 0.0
    ensures Reached(a, floor, Pow2(a))
  {
  }

  /** From a power of two not under the floor, one tick. */
  lemma TickOnPow2(p: Port, a: int, d: real, o: Observation)
    requires d == Pow2(a) && p.clampPow2 && 0.0 < p.floor <= d && Sound(o, p.expectedSpm)
    ensures Reached(a, p.floor, Ticked(d, o, p.expectedSpm, true, p.floor))
  {
    hide Shaped, Adjusted, Ratio, Pow2, Reached;
    SameReached(a, p.floor);
    DownReaches(a, d, d * MAX_STEP_DOWN, p.floor);
    if o.elapsed >= MIN_ELAPSED {
      AdjustedReaches(a, d, Ratio(o.shares, o.elapsed, p.expectedSpm), o.root, p.floor);
    }
  }

  /** With the clamp on and an aligned floor, every difficulty of every run is a power of two not
      under the floor, and each change exactly doubles or halves. */
  lemma {:induction false} PowersOfTwoKept(p: Port, obs: seq<Observation>, d: seq<real>, n: nat)
    requires IsRun(p, obs, d) && p.clampPow2 && Aligned(p.floor) && n < |d|
    requires IsPow2(d[0]) && d[0] >= p.floor
    ensures IsPow2(d[n]) && d[n] >= p.floor
    ensures n > 0 ==> d[n] == d[n - 1] || d[n] == 2.0 * d[n - 1] || 2.0 * d[n] == d[n - 1]
  {
    if n > 0 {
      PowersOfTwoKept(p, obs, d, n - 1);
      assert IsStep(p, obs, d, n - 1);
      var a: int :| d[n - 1] == Pow2(a);
      TickOnPow2(p, a, d[n - 1], obs[n - 1]);
      Pow2Doubles(a - 1);
      Pow2Doubles(a);
      var c := CeilLog2(p.floor);
      if c < a - 1 { Pow2Increases(c, a - 1); }
    }
  }

  /** A worker that sent nothing for ninety seconds. */
  const SILENT: Observation := Observation(0.0, 90.0, 0.0)

  lemma SilentSound(expectedSpm: real)
    ensures Sound(SILENT, expectedSpm)
  {
    assert (0.0 / 90.0) * 60.0 == 0.0;
    assert 0.0 / Max(expectedSpm, 1.0) == 0.0;
  }

  /** One silent tick: half, down to the floor. */
  lemma SilentTick(p: Port, a: int, d: real)
    requires d == Pow2(a) && p.clampPow2 && 0.0 < p.floor <= d && !Aligned(p.floor)
    ensures Ticked(d, SILENT, p.expectedSpm, true, p.floor) == if CeilLog2(p.floor) < a then Pow2(a - 1) else p.floor
  {
    var c := CeilLog2(p.floor);
    assert Pow2(c) > EPSILON;
    hide Shaped, CeilLog2, Adjusted, Ratio, Pow2;
    Pow2Doubles(a - 1);
    FloorLevel(a, p.floor);
    ShapedDown(a, d * MAX_STEP_DOWN, p.floor);
    if c < a - 1 {
      Pow2Increases(c, a - 1);
    }
  }

  lemma {:induction false} SilentDescent(p: Port, a: int, d0: real) returns (obs: seq<Observation>, d: seq<real>)
    requires d0 == Pow2(a) && p.clampPow2 && 0.0 < p.floor <= d0 && !Aligned(p.floor)
    ensures IsRun(p, obs, d) && d[0] == d0 && d[|d| - 1] == p.floor
    decreases a - CeilLog2(p.floor)
  {
    hide Ticked, Sound, CeilLog2;
    var c := CeilLog2(p.floor);
    FloorLevel(a, p.floor);
    SilentTick(p, a, d0);
    SilentSound(p.expectedSpm);
    if c == a {
      obs, d := [SILENT], [d0, p.floor];
    } else {
      if c < a - 1 {
        Pow2Increases(c, a - 1);
      }
      var obs', d' := SilentDescent(p, a - 1, Pow2(a - 1));
      obs, d := [SILENT] + obs', [d0] + d';
      forall m | 0 <= m < |obs|
        ensures IsStep(p, obs, d, m)
      {
        if m > 0 {
          assert IsStep(p, obs', d', m - 1);
        }
      }
    }
  }

  lemma UnalignedFloorIsNoPower(floor: real)
    requires floor > 0.0 && !Aligned(floor)
    ensures !IsPow2(floor)
  {
    forall e: int
      ensures floor != Pow2(e)
    {
      if floor == Pow2(e) {
        PowersAligned(e);
      }
    }
  }

  /** Every run from this difficulty stays on powers of two. */
  ghost predicate StaysOnPowers(p: Port, start: real) {
    forall obs, d, n :: IsRun(p, obs, d) && d[0] == start && 0 <= n < |d| ==> IsPow2(d[n])
  }

  /** The clamp keeps difficulties on powers of two exactly for the floors the server prepares
      for it, up to epsilon. */
  lemma ClampNeedsAlignedFloor(p: Port, start: real)
    requires p.clampPow2 && 0.0 < p.floor <= start && IsPow2(start)
    ensures StaysOnPowers(p, start) <==> Aligned(p.floor)
  {
    if Aligned(p.floor) {
      forall obs, d, n | IsRun(p, obs, d) && d[0] == start && 0 <= n < |d|
        ensures IsPow2(d[n])
      {
        PowersOfTwoKept(p, obs, d, n);
      }
    } else {
      var a: int :| start == Pow2(a);
      var obs, d := SilentDescent(p, a, start);
      UnalignedFloorIsNoPower(p.floor);
      assert !IsPow2(d[|d| - 1]);
    }
  }

  /** A slow or silent worker at the floor. */
  predicate Slow(o: Observation, expectedSpm: real) {
    || (o.shares == 0.0 && o.elapsed >= MAX_ELAPSED_NO_SHARES)
    || (o.elapsed >= MIN_ELAPSED && o.shares >= MIN_SHARES && Ratio(o.shares, o.elapsed, expectedSpm) <= LOWER_RATIO)
  }

  lemma ShapedAtFloor(floor: real, proposed: real, clampPow2: bool)
    requires floor > 0.0 && proposed < floor
    ensures Shaped(floor, proposed, clampPow2, floor) == if clampPow2 then Pow2(CeilLog2(floor)) else floor
  {
  }

  /** A slow or silent worker at the floor is left there, unless the clamp meets a floor it is not
      aligned with: then the difficulty of a silent worker goes up. */
  lemma SlowAtFloor(p: Port, o: Observation)
    requires p.floor > 0.0 && Sound(o, p.expectedSpm) && Slow(o, p.expectedSpm)
    requires !p.clampPow2 || Aligned(p.floor)
    ensures Ticked(p.floor, o, p.expectedSpm, p.clampPow2, p.floor) == p.floor
  {
    var f := p.floor;
    ShapedAtFloor(f, f * MAX_STEP_DOWN, p.clampPow2);
    hide Shaped, Adjusted, Ratio, Clamp;
    if o.elapsed >= MIN_ELAPSED && o.shares >= MIN_SHARES {
      var ratio := Ratio(o.shares, o.elapsed, p.expectedSpm);
      StepBounds(o.root, ratio);
      var q := AdjustedProposal(f, ratio, o.root, p.clampPow2, f);
      ShapedAtFloor(f, q, p.clampPow2);
    }
  }

  lemma SilentRises(p: Port)
    requires p.clampPow2 && p.floor > 0.0 && !Aligned(p.floor)
    ensures Sound(SILENT, p.expectedSpm)
    ensures Ticked(p.floor, SILENT, p.expectedSpm, true, p.floor) == Pow2(CeilLog2(p.floor)) > p.floor
  {
    SilentSound(p.expectedSpm);
    ShapedAtFloor(p.floor, p.floor * MAX_STEP_DOWN, true);
    hide Shaped;
  }

  /** Every slow or silent worker at the floor is left there. */
  ghost predicate SlowStays(p: Port) {
    forall o: Observation | Sound(o, p.expectedSpm) && Slow(o, p.expectedSpm) ::
      Ticked(p.floor, o, p.expectedSpm, p.clampPow2, p.floor) == p.floor
  }

  /** The floor holds exactly without the clamp or when the clamp finds it a power of two. */
  lemma FloorHolds(p: Port)
    requires p.floor > 0.0
    ensures SlowStays(p) <==> !p.clampPow2 || Aligned(p.floor)
  {
    if !p.clampPow2 || Aligned(p.floor) {
      forall o: Observation | Sound(o, p.expectedSpm) && Slow(o, p.expectedSpm)
        ensures Ticked(p.floor, o, p.expectedSpm, p.clampPow2, p.floor) == p.floor
      {
        SlowAtFloor(p, o);
      }
    } else {
      SilentRises(p);
      hide Ticked, Aligned, Sound;
      assert Slow(SILENT, p.expectedSpm);
    }
  }
}
