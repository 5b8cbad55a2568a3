/** The run-length encoding of the parents-by-level vector of a header: a run `(cum, level)` stands
    for its level from the end of the run before it up to `cum`. */
module CompressedParents {
  import opened Wrappers

  const MAX_LEVELS: nat := 255
  const MAX_UNCOMPRESSED_PARENTS: nat := 255 * 2048

  datatype Run<L> = Run(cum: nat, level: L)

  function ExpandedLen<L>(runs: seq<Run<L>>): nat {
    if runs == [] then 0 else runs[|runs| - 1].cum
  }

  /** Cumulative counts that strictly increase from one on and fit a byte, and no run that continues
      the one before it. */
  ghost predicate Canonical<L>(runs: seq<Run<L>>) {
    && (forall i :: 0 <= i < |runs| ==> 1 <= runs[i].cum <= MAX_LEVELS)
    && (forall i, j :: 0 <= i < j < |runs| ==> runs[i].cum < runs[j].cum)
    && (forall i, j :: 0 <= i < j < |runs| && j == i + 1 ==> runs[i].level != runs[j].level)
  }

  function Repeat<L>(level: L, n: nat): (r: seq<L>)
    ensures |r| == n && forall i :: 0 <= i < n ==> r[i] == level
  {
    seq(n, i => level)
  }

  /** The levels so far, and those of one more run. */
  function Extend<L>(levels: seq<L>, run: Run<L>): seq<L> {
    if run.cum <= |levels| then levels else levels + Repeat(run.level, run.cum - |levels|)
  }

  /** `expanded_iter`. */
  function Expand<L>(runs: seq<Run<L>>): seq<L> {
    if runs == [] then [] else Extend(Expand(runs[..|runs| - 1]), runs[|runs| - 1])
  }

  lemma ExpandPush<L>(prev: seq<Run<L>>, last: Run<L>)
    ensures Expand(prev + [last]) == Extend(Expand(prev), last)
  {
    var runs := prev + [last];
    assert runs[..|runs| - 1] == prev;
  }

  lemma PrefixCanonical<L>(prev: seq<Run<L>>, last: Run<L>)
    requires Canonical(prev + [last])
    ensures Canonical(prev) && ExpandedLen(prev) < last.cum <= MAX_LEVELS
    ensures prev != [] ==> prev[|prev| - 1].level != last.level
  {
    var n, runs := |prev|, prev + [last];
    assert runs[n] == last && forall i :: 0 <= i < n ==> prev[i] == runs[i];
  }

  lemma AddCanonical<L>(runs: seq<Run<L>>, last: Run<L>)
    requires Canonical(runs) && ExpandedLen(runs) < last.cum <= MAX_LEVELS
    requires runs != [] ==> runs[|runs| - 1].level != last.level
    ensures Canonical(runs + [last])
  {
    var n, r := |runs|, runs + [last];
    forall i, j | 0 <= i < j < |r| ensures r[i].cum < r[j].cum && (j == i + 1 ==> r[i].level != r[j].level) {
      if j == n && i < n - 1 {
        assert runs[i].cum < runs[n - 1].cum;
      }
    }
  }

  lemma NoRuns<L>()
    ensures Canonical<L>([]) && Expand<L>([]) == []
  {
  }

  lemma {:induction false} ExpandLength<L>(runs: seq<Run<L>>)
    requires Canonical(runs)
    ensures |Expand(runs)| == ExpandedLen(runs)
  {
    hide Canonical, Expand, Repeat;
    if runs == [] {
      NoRuns<L>();
    } else {
      var prev, last := runs[..|runs| - 1], runs[|runs| - 1];
      assert runs == prev + [last];
      PrefixCanonical(prev, last);
      ExpandLength(prev);
      ExpandPush(prev, last);
    }
  }

  /** The last run and the ones before it. */
  lemma LastRun<L>(runs: seq<Run<L>>, prev: seq<Run<L>>, last: Run<L>)
    requires Canonical(runs) && runs == prev + [last]
    ensures Canonical(prev) && ExpandedLen(prev) == |Expand(prev)| < last.cum <= MAX_LEVELS
    ensures Expand(runs) == Expand(prev) + Repeat(last.level, last.cum - |Expand(prev)|)
  {
    hide Canonical, Expand, Repeat;
    PrefixCanonical(prev, last);
    ExpandLength(prev);
    ExpandPush(prev, last);
  }

  /** Where the levels of a run are. */
  lemma {:induction false} ExpandAt<L>(runs: seq<Run<L>>, k: nat, i: nat)
    requires Canonical(runs) && k < |runs| && i < runs[k].cum && (k > 0 ==> runs[k - 1].cum <= i)
    ensures i < |Expand(runs)| && Expand(runs)[i] == runs[k].level
  {
    hide Canonical, Expand, Repeat;
    var n := |runs| - 1;
    var prev, last := runs[..n], runs[n];
    assert runs == prev + [last];
    LastRun(runs, prev, last);
    assert n > 0 ==> prev[n - 1] == runs[n - 1];
    if k < n {
      ExpandAt(prev, k, i);
    }
  }

  lemma LengthBounds<L>(runs: seq<Run<L>>)
    requires Canonical(runs)
    ensures ExpandedLen(runs) <= MAX_LEVELS && (runs != [] ==> 1 <= ExpandedLen(runs))
  {
  }

  /** The encoding is determined by what it stands for. */
  lemma {:induction false} ExpandInjective<L>(a: seq<Run<L>>, b: seq<Run<L>>)
    requires Canonical(a) && Canonical(b) && Expand(a) == Expand(b)
    ensures a == b
  {
    hide Canonical, Expand, Repeat;
    if a == [] || b == [] {
      ExpandLength(a);
      ExpandLength(b);
      LengthBounds(a);
      LengthBounds(b);
    } else {
      var a', b' := a[..|a| - 1], b[..|b| - 1];
      var x, y := a[|a| - 1], b[|b| - 1];
      assert a == a' + [x] && b == b' + [y];
      LastRun(a, a', x);
      LastRun(b, b', y);
      SameLast(Expand(a'), x.level, x.cum - |Expand(a')|, Expand(b'), y.level, y.cum - |Expand(b')|);
      LastLevel(a, b, a', b', x, y);
      LastLevel(b, a, b', a', y, x);
      SamePrefix(Expand(a'), Expand(b'), Expand(a));
      ExpandInjective(a', b');
    }
  }

  lemma SameLast<L>(p: seq<L>, u: L, m: nat, q: seq<L>, v: L, n: nat)
    requires p + Repeat(u, m) == q + Repeat(v, n) && m > 0 && n > 0
    ensures u == v && |p| + m == |q| + n
  {
    var s, t := p + Repeat(u, m), q + Repeat(v, n);
    assert s[|s| - 1] == u && t[|t| - 1] == v;
  }

  lemma SamePrefix<L>(p: seq<L>, q: seq<L>, s: seq<L>)
    requires p <= s && q <= s && |p| == |q|
    ensures p == q
  {
  }

  /** The level just before the last run is another one. */
  lemma LevelBefore<L>(runs: seq<Run<L>>, prev: seq<Run<L>>, last: Run<L>)
    requires Canonical(runs) && runs == prev + [last] && Expand(prev) != []
    ensures |Expand(prev)| < |Expand(runs)| && Expand(runs)[|Expand(prev)| - 1] != last.level
  {
    hide Canonical, Expand, Repeat;
    NoRuns<L>();
    LastRun(runs, prev, last);
    PrefixCanonical(prev, last);
    var k := |prev| - 1;
    assert prev == prev[..k] + [prev[k]];
    LastRun(prev, prev[..k], prev[k]);
  }

  lemma TailLevel<L>(p: seq<L>, level: L, n: nat, i: nat)
    requires |p| <= i < |p| + n
    ensures (p + Repeat(level, n))[i] == level
  {
  }

  /** The last run of one cannot start before the last run of the other. */
  lemma LastLevel<L>(a: seq<Run<L>>, b: seq<Run<L>>, a': seq<Run<L>>, b': seq<Run<L>>, x: Run<L>, y: Run<L>)
    requires Canonical(a) && Canonical(b) && Expand(a) == Expand(b) && a == a' + [x] && b == b' + [y] && x == y
    ensures |Expand(a')| >= |Expand(b')|
  {
    hide Canonical, Expand, Repeat;
    LastRun(a, a', x);
    LastRun(b, b', y);
    if |Expand(a')| < |Expand(b')| {
      TailLevel(Expand(a'), x.level, x.cum - |Expand(a')|, |Expand(b')| - 1);
      LevelBefore(b, b', y);
    }
  }

  // ---------- Access ----------

  /** The first run that reaches past `index`. */
  method RunOf<L>(runs: seq<Run<L>>, index: nat) returns (k: nat)
    requires Canonical(runs) && index < ExpandedLen(runs)
    ensures k < |runs| && index < runs[k].cum && (k > 0 ==> runs[k - 1].cum <= index)
  {
    k := 0;
    while runs[k].cum - 1 < index
      invariant k < |runs| && (k > 0 ==> runs[k - 1].cum <= index)
      decreases |runs| - k
    {
      k := k + 1;
    }
  }

  /** `get` reads the expansion without building it. */
  method Get<L>(runs: seq<Run<L>>, index: nat) returns (r: Option<L>)
    requires Canonical(runs)
    ensures r == if index < |Expand(runs)| then Some(Expand(runs)[index]) else None
  {
    ExpandLength(runs);
    if runs == [] || index >= runs[|runs| - 1].cum {
      return None;
    }
    if index == 0 {
      ExpandAt(runs, 0, 0);
      return Some(runs[0].level);
    }
    var i := RunOf(runs, index);
    ExpandAt(runs, i, index);
    return Some(runs[i].level);
  }

  // ---------- Adding a level ----------

  /** Another run, up to `cum` levels. */
  lemma AddRun<L>(runs: seq<Run<L>>, level: L, cum: nat)
    requires Canonical(runs) && ExpandedLen(runs) < cum <= MAX_LEVELS
    requires runs != [] ==> runs[|runs| - 1].level != level
    ensures var r := runs + [Run(cum, level)];
      Canonical(r) && |Expand(runs)| == ExpandedLen(runs) && Expand(r) == Expand(runs) + Repeat(level, cum - |Expand(runs)|)
  {
    hide Canonical, Expand, Repeat;
    AddCanonical(runs, Run(cum, level));
    ExpandLength(runs);
    ExpandPush(runs, Run(cum, level));
  }

  lemma RepeatMore<L>(level: L, n: nat)
    ensures Repeat(level, n + 1) == Repeat(level, n) + [level]
  {
  }

  lemma LengthenLast<L>(prev: seq<Run<L>>, level: L, cum: nat)
    requires Canonical(prev) && ExpandedLen(prev) < cum < MAX_LEVELS
    requires prev != [] ==> prev[|prev| - 1].level != level
    ensures var r, r' := prev + [Run(cum, level)], prev + [Run(cum + 1, level)];
      Canonical(r) && Canonical(r') && Expand(r') == Expand(r) + [level]
  {
    hide Expand, Canonical, Repeat;
    AddRun(prev, level, cum);
    AddRun(prev, level, cum + 1);
    RepeatMore(level, cum - |Expand(prev)|);
  }

  lemma LengthenRun<L>(runs: seq<Run<L>>)
    requires Canonical(runs) && runs != [] && ExpandedLen(runs) < MAX_LEVELS
    ensures var last := runs[|runs| - 1];
      var r := runs[|runs| - 1 := Run(last.cum + 1, last.level)];
      Canonical(r) && Expand(r) == Expand(runs) + [last.level]
  {
    hide Canonical, Expand;
    var n := |runs| - 1;
    var last, prev := runs[n], runs[..n];
    assert prev + [last] == runs;
    PrefixCanonical(prev, last);
    LengthenLast(prev, last.level, last.cum);
    assert prev + [Run(last.cum, last.level)] == runs;
    assert prev + [Run(last.cum + 1, last.level)] == runs[n := Run(last.cum + 1, last.level)];
  }

  lemma AddLevel<L>(runs: seq<Run<L>>, level: L)
    requires Canonical(runs) && ExpandedLen(runs) < MAX_LEVELS
    requires runs != [] ==> runs[|runs| - 1].level != level
    ensures var r := runs + [Run(ExpandedLen(runs) + 1, level)]; Canonical(r) && Expand(r) == Expand(runs) + [level]
  {
    hide Canonical, Expand;
    AddRun(runs, level, ExpandedLen(runs) + 1);
    assert Repeat(level, 1) == [level];
  }

  /** `push`; at 255 levels the source panics. */
  method Push<L(==)>(runs: seq<Run<L>>, level: L) returns (r: Option<seq<Run<L>>>)
    requires Canonical(runs)
    ensures r.None? <==> |Expand(runs)| == 255
    ensures r.Some? ==> Canonical(r.value) && Expand(r.value) == Expand(runs) + [level]
  {
    hide Expand, Canonical, Repeat;
    ExpandLength(runs);
    LengthBounds(runs);
    var n := |runs|;
    if n == 0 {
      AddLevel(runs, level);
      assert runs + [Run(1, level)] == [Run(1, level)];
      return Some([Run(1, level)]);
    }
    var last := runs[n - 1];
    if last.cum == MAX_LEVELS {
      return None;
    }
    if last.level == level {
      LengthenRun(runs);
      return Some(runs[n - 1 := Run(last.cum + 1, level)]);
    } else {
      AddLevel(runs, level);
      return Some(runs + [Run(last.cum + 1, level)]);
    }
  }

  // ---------- From the plain vector ----------

  /** How many parents the levels hold together. */
  function TotalSize<L>(levels: seq<L>, size: L -> nat): nat {
    if levels == [] then 0 else TotalSize(levels[..|levels| - 1], size) + size(levels[|levels| - 1])
  }

  datatype Checked<L> = Compressed(runs: seq<Run<L>>) | LevelsExceeded | SizeExceeded | NotIncreasing | NotFullyCompressed

  lemma NextRun<L>(levels: seq<L>, runs: seq<Run<L>>, i: nat, j: nat)
    requires i < j <= |levels| <= MAX_LEVELS && Canonical(runs) && Expand(runs) == levels[..i]
    requires runs != [] ==> runs[|runs| - 1].level != levels[i]
    requires forall k :: i <= k < j ==> levels[k] == levels[i]
    ensures var r := runs + [Run(j, levels[i])]; Canonical(r) && Expand(r) == levels[..j]
  {
    hide Expand, Canonical;
    ExpandLength(runs);
    AddRun(runs, levels[i], j);
    assert levels[..j] == levels[..i] + Repeat(levels[i], j - i);
  }

  method Summed<L>(levels: seq<L>, size: L -> nat) returns (total: nat)
    ensures total == TotalSize(levels, size)
  {
    total := 0;
    var i := 0;
    while i < |levels|
      invariant i <= |levels| && total == TotalSize(levels[..i], size)
    {
      assert levels[..i + 1][..i] == levels[..i];
      total := total + size(levels[i]);
      i := i + 1;
    }
    assert levels[..i] == levels;
  }

  /** `rle_cumulative`: equal neighbours are counted together, and the counts summed up. */
  method RunLengths<L(==)>(levels: seq<L>) returns (runs: seq<Run<L>>)
    requires |levels| <= MAX_LEVELS
    ensures Canonical(runs) && Expand(runs) == levels
  {
    runs := [];
    var i := 0;
    hide Expand, Canonical;
    NoRuns<L>();
    while i < |levels|
      invariant i <= |levels| && Canonical(runs) && Expand(runs) == levels[..i]
      invariant runs != [] && i < |levels| ==> runs[|runs| - 1].level != levels[i]
    {
      var j := i + 1;
      while j < |levels| && levels[j] == levels[i]
        invariant i < j <= |levels| && forall k :: i <= k < j ==> levels[k] == levels[i]
      {
        j := j + 1;
      }
      NextRun(levels, runs, i, j);
      runs, i := runs + [Run(j, levels[i])], j;
    }
    assert levels[..i] == levels;
  }

  /** `TryFrom` for the plain vector: more than 255 levels, and then too many parents over all levels,
      are refused; anything else is encoded. */
  method Compress<L(==)>(levels: seq<L>, size: L -> nat) returns (r: Checked<L>)
    ensures r == LevelsExceeded <==> |levels| > 255
    ensures r == SizeExceeded <==> |levels| <= 255 && TotalSize(levels, size) > 255 * 2048
    ensures |levels| <= 255 && TotalSize(levels, size) <= 255 * 2048 ==>
              r.Compressed? && Canonical(r.runs) && Expand(r.runs) == levels
  {
    if |levels| > MAX_LEVELS {
      return LevelsExceeded;
    }
    var total := Summed(levels, size);
    if total > MAX_UNCOMPRESSED_PARENTS {
      return SizeExceeded;
    }
    var runs := RunLengths(levels);
    return Compressed(runs);
  }

  // ---------- From an encoding ----------

  /** The parents the runs stand for: each level's, once for every level of its run. */
  function Weight<L>(runs: seq<Run<L>>, size: L -> nat): nat {
    if runs == [] then 0
    else
      var prev, last := runs[..|runs| - 1], runs[|runs| - 1];
      Weight(prev, size) + (if last.cum < ExpandedLen(prev) then 0 else last.cum - ExpandedLen(prev)) * size(last.level)
  }

  lemma {:induction false} RepeatSize<L>(levels: seq<L>, level: L, n: nat, size: L -> nat)
    ensures TotalSize(levels + Repeat(level, n), size) == TotalSize(levels, size) + n * size(level)
  {
    if n == 0 {
      assert levels + Repeat(level, 0) == levels;
    } else {
      RepeatSize(levels, level, n - 1, size);
      RepeatMore(level, n - 1);
      var s := levels + Repeat(level, n);
      assert s == (levels + Repeat(level, n - 1)) + [level];
      assert s[..|s| - 1] == levels + Repeat(level, n - 1);
      assert n * size(level) == (n - 1) * size(level) + size(level);
    }
  }

  /** Counting run by run is counting the parents of the expansion. */
  lemma {:induction false} WeightIsSize<L>(runs: seq<Run<L>>, size: L -> nat)
    requires Canonical(runs)
    ensures Weight(runs, size) == TotalSize(Expand(runs), size)
  {
    if runs != [] {
      hide Canonical, Expand, Repeat;
      var prev, last := runs[..|runs| - 1], runs[|runs| - 1];
      assert runs == prev + [last];
      LastRun(runs, prev, last);
      WeightIsSize(prev, size);
      RepeatSize(Expand(prev), last.level, last.cum - |Expand(prev)|, size);
    }
  }

  lemma PrefixBroken<L>(runs: seq<Run<L>>, i: nat)
    requires 0 < i < |runs| && (runs[i].cum <= runs[i - 1].cum || runs[i].level == runs[i - 1].level)
    ensures !Canonical(runs)
  {
  }

  /** Up to `i` the runs are canonical, and there the counts stop increasing. */
  ghost predicate StopsIncreasing<L>(runs: seq<Run<L>>, i: nat) {
    i < |runs| && Canonical(runs[..i]) && runs[i].cum <= ExpandedLen(runs[..i])
  }

  /** Up to `i` the runs are canonical, and there one continues the one before it. */
  ghost predicate RepeatsLevel<L>(runs: seq<Run<L>>, i: nat) {
    0 < i < |runs| && Canonical(runs[..i]) && runs[i - 1].cum < runs[i].cum && runs[i - 1].level == runs[i].level
  }

  lemma PrefixOf<L>(runs: seq<Run<L>>, i: nat, j: nat)
    requires i <= j <= |runs| && Canonical(runs[..j])
    ensures Canonical(runs[..i])
  {
    var a, b := runs[..i], runs[..j];
    assert forall k :: 0 <= k < i ==> a[k] == b[k];
  }

  lemma FaultBreaks<L>(runs: seq<Run<L>>, i: nat)
    requires StopsIncreasing(runs, i) || RepeatsLevel(runs, i)
    ensures !Canonical(runs[..i + 1])
  {
    var a := runs[..i + 1];
    if i > 0 {
      assert a[i - 1] == runs[i - 1] && a[i] == runs[i];
      PrefixBroken(a, i);
    } else {
      assert a[0] == runs[0];
      FirstZero(a);
    }
  }

  /** Canonical runs have no fault, and others one. */
  lemma OneFault<L>(runs: seq<Run<L>>, i: nat, j: nat)
    requires (StopsIncreasing(runs, i) || RepeatsLevel(runs, i)) && (StopsIncreasing(runs, j) || RepeatsLevel(runs, j))
    ensures i == j && !Canonical(runs)
  {
    FaultBreaks(runs, i);
    FaultBreaks(runs, j);
    assert runs[..|runs|] == runs;
    hide Canonical;
    if i < j {
      PrefixOf(runs, i + 1, j);
    } else if j < i {
      PrefixOf(runs, j + 1, i);
    } else if Canonical(runs) {
      PrefixOf(runs, i + 1, |runs|);
    }
  }

  lemma Faultless<L>(runs: seq<Run<L>>)
    requires Canonical(runs)
    ensures forall i: nat :: !StopsIncreasing(runs, i) && !RepeatsLevel(runs, i)
  {
    forall i: nat ensures !StopsIncreasing(runs, i) && !RepeatsLevel(runs, i) {
      if StopsIncreasing(runs, i) || RepeatsLevel(runs, i) {
        OneFault(runs, i, i);
      }
    }
  }

  lemma Stopped<L>(runs: seq<Run<L>>, i: nat)
    requires StopsIncreasing(runs, i)
    ensures !Canonical(runs) && forall j: nat :: !RepeatsLevel(runs, j)
  {
    OneFault(runs, i, i);
    forall j: nat ensures !RepeatsLevel(runs, j) {
      if RepeatsLevel(runs, j) {
        OneFault(runs, i, j);
      }
    }
  }

  lemma Repeated<L>(runs: seq<Run<L>>, i: nat)
    requires RepeatsLevel(runs, i)
    ensures !Canonical(runs) && forall j: nat :: !StopsIncreasing(runs, j)
  {
    OneFault(runs, i, i);
    forall j: nat ensures !StopsIncreasing(runs, j) {
      if StopsIncreasing(runs, j) {
        OneFault(runs, i, j);
      }
    }
  }

  lemma PrefixGrows<L>(runs: seq<Run<L>>, i: nat)
    requires 0 < i < |runs| && Canonical(runs[..i])
    requires runs[i - 1].cum < runs[i].cum <= MAX_LEVELS && runs[i].level != runs[i - 1].level
    ensures Canonical(runs[..i + 1])
  {
    hide Canonical;
    assert runs[..i + 1] == runs[..i] + [runs[i]];
    AddCanonical(runs[..i], runs[i]);
  }

  lemma OneRun<L>(run: Run<L>)
    ensures Canonical([run]) <==> 1 <= run.cum <= MAX_LEVELS
  {
    assert [run][0] == run;
  }

  lemma FirstZero<L>(runs: seq<Run<L>>)
    requires runs != [] && runs[0].cum == 0
    ensures !Canonical(runs)
  {
  }

  method Weighed<L>(runs: seq<Run<L>>, size: L -> nat) returns (total: nat)
    requires Canonical(runs)
    ensures total == TotalSize(Expand(runs), size)
  {
    hide Expand, TotalSize, Weight, Canonical;
    WeightIsSize(runs, size);
    WeightStart(size);
    total := 0;
    var i, before := 0, 0;
    while i < |runs|
      invariant i <= |runs| && total == Weight(runs[..i], size) && before == ExpandedLen(runs[..i])
    {
      WeightStep(runs, i, size);
      total, before := total + (runs[i].cum - before) * size(runs[i].level), runs[i].cum;
      i := i + 1;
    }
    assert runs[..i] == runs;
  }

  lemma WeightStart<L>(size: L -> nat)
    ensures Weight([], size) == 0
  {
  }

  lemma WeightStep<L>(runs: seq<Run<L>>, i: nat, size: L -> nat)
    requires Canonical(runs) && i < |runs|
    ensures ExpandedLen(runs[..i]) < runs[i].cum == ExpandedLen(runs[..i + 1])
    ensures Weight(runs[..i + 1], size) == Weight(runs[..i], size) + (runs[i].cum - ExpandedLen(runs[..i])) * size(runs[i].level)
  {
    assert i > 0 ==> runs[i - 1].cum < runs[i].cum;
    assert 1 <= runs[i].cum;
    hide Canonical;
    assert runs[..i + 1][..i] == runs[..i];
  }

  /** The checks of `TryFrom` on the order and the levels of the runs. */
  method Ordered<L(==)>(runs: seq<Run<L>>) returns (r: Checked<L>)
    requires forall i :: 0 <= i < |runs| ==> runs[i].cum <= MAX_LEVELS
    ensures r == Compressed(runs) <==> Canonical(runs)
    ensures r != Compressed(runs) ==> r == NotIncreasing || r == NotFullyCompressed
    ensures r == NotIncreasing <==> exists i: nat :: StopsIncreasing(runs, i)
    ensures r == NotFullyCompressed <==> exists i: nat :: RepeatsLevel(runs, i)
  {
    hide Canonical;
    if runs == [] {
      NoRuns<L>();
      Faultless(runs);
      return Compressed(runs);
    }
    if runs[0].cum == 0 {
      NoRuns<L>();
      assert StopsIncreasing(runs, 0);
      Stopped(runs, 0);
      return NotIncreasing;
    }
    OneRun(runs[0]);
    assert runs[..1] == [runs[0]];
    var i := 1;
    while i < |runs|
      invariant 1 <= i <= |runs| && Canonical(runs[..i])
    {
      if runs[i].cum <= runs[i - 1].cum {
        assert StopsIncreasing(runs, i);
        Stopped(runs, i);
        return NotIncreasing;
      }
      if runs[i - 1].level == runs[i].level {
        assert RepeatsLevel(runs, i);
        Repeated(runs, i);
        return NotFullyCompressed;
      }
      PrefixGrows(runs, i);
      i := i + 1;
    }
    assert runs[..i] == runs;
    Faultless(runs);
    return Compressed(runs);
  }

  /** `TryFrom` for runs whose counts are bytes: exactly the canonical encodings of no more parents
      than the plain vector may hold are let in, unchanged. */
  method Accept<L(==)>(runs: seq<Run<L>>, size: L -> nat) returns (r: Checked<L>)
    requires forall i :: 0 <= i < |runs| ==> runs[i].cum <= MAX_LEVELS
    ensures r == Compressed(runs) <==> Canonical(runs) && TotalSize(Expand(runs), size) <= 255 * 2048
    ensures r == SizeExceeded <==> Canonical(runs) && TotalSize(Expand(runs), size) > 255 * 2048
    ensures r == NotIncreasing || r == NotFullyCompressed <==> !Canonical(runs)
    ensures r == NotIncreasing <==> exists i: nat :: StopsIncreasing(runs, i)
    ensures r == NotFullyCompressed <==> exists i: nat :: RepeatsLevel(runs, i)
  {
    r := Ordered(runs);
    if r == Compressed(runs) {
      var total := Weighed(runs, size);
      if total > MAX_UNCOMPRESSED_PARENTS {
        r := SizeExceeded;
      }
    }
  }
}
