/** The label sets of the mined-block gauge: a history of the most recent 512, in step with the
    gauge's live series. */
module GaugeHistory {
  import opened Collections

  const LIMIT: nat := 512

  /** Where `x` is first, or the length when it is nowhere. */
  function Find<L(==)>(s: seq<L>, x: L): (p: nat)
    ensures p <= |s| && (p < |s| ==> s[p] == x) && forall i :: 0 <= i < p ==> s[i] != x
  {
    if s == [] || s[0] == x then 0 else Find(s[1..], x) + 1
  }

  function Without<L(==)>(s: seq<L>, x: L): seq<L> {
    var p := Find(s, x);
    if p == |s| then s else s[..p] + s[p + 1..]
  }

  /** Everything ever recorded, the most recent first and each once. */
  function Recent<L(==)>(log: seq<L>): seq<L> {
    if log == [] then [] else [log[|log| - 1]] + Without(Recent(log[..|log| - 1]), log[|log| - 1])
  }

  function First<L>(s: seq<L>, n: nat): seq<L> {
    if |s| <= n then s else s[..n]
  }

  // ---------- Lists ----------

  lemma FindUnique<L>(s: seq<L>, x: L, p: nat)
    requires p <= |s| && (p < |s| ==> s[p] == x) && forall i :: 0 <= i < p ==> s[i] != x
    ensures Find(s, x) == p
  {
    hide Find;
    var q := Find(s, x);
  }

  /** Where the entry at `i` of the shortened list is in the whole one. */
  function Origin<L(==)>(s: seq<L>, x: L, i: nat): nat {
    if i < Find(s, x) then i else i + 1
  }

  lemma WithoutAt<L>(s: seq<L>, x: L, i: nat)
    requires i < |Without(s, x)|
    ensures Find(s, x) < |s| ==> Origin(s, x, i) < |s| && Without(s, x)[i] == s[Origin(s, x, i)]
    ensures Find(s, x) == |s| ==> Without(s, x)[i] == s[i]
  {
    hide Find;
  }

  /** Taking out at `p`, and the first `n` of the rest, when `p` is among the first. */
  lemma CutEarly<L>(s: seq<L>, p: nat, n: nat)
    requires p <= n && p < |s|
    ensures p < |First(s, n + 1)|
    ensures var t := First(s, n + 1); First(t[..p] + t[p + 1..], n) == First(s[..p] + s[p + 1..], n)
  {
  }

  lemma CutLate<L>(s: seq<L>, p: nat, n: nat)
    requires n < p < |s|
    ensures First(First(s, n + 1), n) == First(s[..p] + s[p + 1..], n)
  {
  }

  /** Recording on the truncated list is recording on the whole one and truncating. */
  lemma WithoutFirst<L>(s: seq<L>, x: L, n: nat)
    ensures First(Without(First(s, n + 1), x), n) == First(Without(s, x), n)
  {
    hide Find;
    var p, t := Find(s, x), First(s, n + 1);
    assert t <= s;
    if p < |s| {
      if p <= n {
        FindUnique(t, x, p);
        CutEarly(s, p, n);
      } else {
        FindUnique(t, x, |t|);
        CutLate(s, p, n);
      }
    } else {
      FindUnique(t, x, |t|);
    }
  }

  lemma ConsElements<L>(x: L, t: seq<L>)
    ensures forall y :: y in [x] + t <==> y == x || y in t
    ensures NoDuplicates([x] + t) <==> NoDuplicates(t) && x !in t
  {
    var s := [x] + t;
    assert forall i :: 0 <= i < |t| ==> t[i] == s[i + 1];
    if NoDuplicates(s) {
      forall i, j | 0 <= i < j < |t| ensures t[i] != t[j] {
        DistinctPair(s, i + 1, j + 1);
      }
      forall i | 0 <= i < |t| ensures t[i] != x {
        DistinctPair(s, 0, i + 1);
      }
    }
    if NoDuplicates(t) && x !in t {
      forall i, j | 0 <= i < j < |s| ensures s[i] != s[j] {
        assert s[j] == t[j - 1];
        if i > 0 {
          assert s[i] == t[i - 1];
        } else {
          assert t[j - 1] in t;
        }
      }
    }
  }

  lemma DistinctPair<L>(s: seq<L>, i: nat, j: nat)
    requires NoDuplicates(s) && i < j < |s|
    ensures s[i] != s[j]
  {
  }

  lemma WithoutElements<L>(s: seq<L>, x: L)
    requires NoDuplicates(s)
    ensures NoDuplicates(Without(s, x)) && forall y :: y in Without(s, x) <==> y in s && y != x
  {
    var p, w := Find(s, x), Without(s, x);
    hide Find;
    if p < |s| {
      assert s == s[..p] + [x] + s[p + 1..];
      forall i | 0 <= i < |w| ensures w[i] in s && w[i] != x {
        assert w[i] == s[if i < p then i else i + 1];
      }
    }
  }

  /** Each label once, and exactly those that were recorded. */
  ghost predicate Lists<L(!new)>(r: seq<L>, log: seq<L>) {
    NoDuplicates(r) && forall y :: y in r <==> y in log
  }

  lemma RecordLists<L(!new)>(log: seq<L>, q: seq<L>, x: L)
    requires Lists(q, log)
    ensures Lists([x] + Without(q, x), log + [x])
  {
    WithoutElements(q, x);
    hide Without;
    ConsElements(x, Without(q, x));
    hide NoDuplicates;
    assert forall y :: y in log + [x] <==> y in log || y == x;
  }

  lemma {:induction false} RecentLists<L(!new)>(log: seq<L>)
    ensures Lists(Recent(log), log)
  {
    hide Without;
    if log != [] {
      var n := |log| - 1;
      RecentLists(log[..n]);
      hide Lists;
      assert log == log[..n] + [log[n]];
      RecordLists(log[..n], Recent(log[..n]), log[n]);
    }
  }

  // ---------- What the order is ----------

  /** `u` was recorded last at `i`, and `v` not since. */
  ghost predicate Newer<L(!new)>(log: seq<L>, u: L, v: L) {
    v in log && exists i :: 0 <= i < |log| && log[i] == u && v !in log[i..]
  }

  lemma NewerStep<L(!new)>(log: seq<L>, x: L, u: L, v: L)
    requires v != x && ((u == x && v in log) || Newer(log, u, v))
    ensures Newer(log + [x], u, v)
  {
    var log' := log + [x];
    if u == x && v in log {
      var i := |log|;
      assert log'[i] == u && log'[i..] == [x];
    } else {
      var i :| 0 <= i < |log| && log[i] == u && v !in log[i..];
      assert log'[i] == u && log'[i..] == log[i..] + [x];
    }
  }

  /** What comes earlier in the list was recorded again after the last recording of what comes
      later. */
  ghost predicate NewestFirst<L(!new)>(log: seq<L>, r: seq<L>) {
    forall i, j :: 0 <= i < j < |r| ==> Newer(log, r[i], r[j])
  }

  lemma WithoutOrdered<L(!new)>(log: seq<L>, q: seq<L>, x: L)
    requires NewestFirst(log, q)
    ensures NewestFirst(log, Without(q, x))
  {
    hide Newer, Find;
    var w := Without(q, x);
    forall i, j | 0 <= i < j < |w| ensures Newer(log, w[i], w[j]) {
      WithoutAt(q, x, i);
      WithoutAt(q, x, j);
    }
  }

  lemma ConsOrdered<L(!new)>(log: seq<L>, x: L, w: seq<L>)
    requires NewestFirst(log, w) && forall y :: y in w ==> y in log && y != x
    ensures NewestFirst(log + [x], [x] + w)
  {
    hide Newer;
    var r := [x] + w;
    forall i, j | 0 <= i < j < |r| ensures Newer(log + [x], r[i], r[j]) {
      assert r[j] == w[j - 1] && w[j - 1] in w;
      if i > 0 {
        assert r[i] == w[i - 1];
      }
      NewerStep(log, x, r[i], r[j]);
    }
  }

  lemma RecordOrdered<L(!new)>(log: seq<L>, q: seq<L>, x: L)
    requires NewestFirst(log, q) && Lists(q, log)
    ensures NewestFirst(log + [x], [x] + Without(q, x))
  {
    hide NewestFirst;
    WithoutElements(q, x);
    hide Without, NoDuplicates;
    WithoutOrdered(log, q, x);
    ConsOrdered(log, x, Without(q, x));
  }

  lemma {:induction false} RecentOrder<L(!new)>(log: seq<L>)
    ensures NewestFirst(log, Recent(log))
  {
    hide Without, NoDuplicates;
    if log != [] {
      var n := |log| - 1;
      RecentOrder(log[..n]);
      RecentLists(log[..n]);
      assert log == log[..n] + [log[n]];
      hide NewestFirst, Lists;
      RecordOrdered(log[..n], Recent(log[..n]), log[n]);
    }
  }

  // ---------- The gauge ----------

  lemma RecentPush<L>(log: seq<L>, x: L)
    ensures Recent(log + [x]) == [x] + Without(Recent(log), x)
  {
    hide Without;
    assert (log + [x])[..|log|] == log;
  }

  lemma FirstDistinct<L>(s: seq<L>, n: nat)
    requires NoDuplicates(s)
    ensures NoDuplicates(First(s, n))
  {
  }

  lemma ConsWithout<L>(b: seq<L>, x: L)
    requires NoDuplicates(b)
    ensures NoDuplicates([x] + Without(b, x)) && Elements([x] + Without(b, x)) == Elements(b) + {x}
  {
    WithoutElements(b, x);
    hide Without;
    ConsElements(x, Without(b, x));
    hide NoDuplicates;
  }

  /** Recording `x` on the truncated list. */
  lemma Recorded<L(!new)>(log: seq<L>, b: seq<L>, x: L)
    requires b == First(Recent(log), LIMIT)
    ensures var all := [x] + Without(b, x);
      && First(all, LIMIT) == First(Recent(log + [x]), LIMIT)
      && NoDuplicates(all) && Elements(all) == Elements(b) + {x}
  {
    var r := Recent(log);
    RecentLists(log);
    hide Recent, Without, NoDuplicates, Elements;
    FirstDistinct(r, LIMIT);
    ConsWithout(b, x);
    WithoutFirst(r, x, LIMIT - 1);
    RecentPush(log, x);
    FirstCons(x, Without(b, x), LIMIT - 1);
    FirstCons(x, Without(r, x), LIMIT - 1);
    hide First;
  }

  lemma FirstCons<L>(x: L, s: seq<L>, n: nat)
    ensures First([x] + s, n + 1) == [x] + First(s, n)
  {
  }

  lemma DropLast<L>(s: seq<L>)
    requires s != [] && NoDuplicates(s)
    ensures Elements(s[..|s| - 1]) == Elements(s) - {s[|s| - 1]} && NoDuplicates(s[..|s| - 1])
  {
    var t, x := s[..|s| - 1], s[|s| - 1];
    assert s == t + [x] && x !in t;
  }

  class Gauge<L(==, !new)> {
    var history: seq<L>
    var series: set<L>
    ghost var log: seq<L>

    /** The history is the first 512 of the list, and the live series are the sets in it. */
    ghost predicate Valid()
      reads this
    {
      history == First(Recent(log), 512) && series == Elements(history)
    }

    constructor ()
      ensures Valid() && log == []
    {
      history, series, log := [], {}, [];
    }

    /** `record_block_found` with `remember_block_gauge_labels`. */
    method Record(labels: L)
      requires Valid()
      modifies this
      ensures Valid() && log == old(log) + [labels]
    {
      hide Recent, Elements, NoDuplicates, Without, First;
      Recorded(log, history, labels);
      series := series + {labels};
      var others := Removed(history, labels);
      history, series := Truncated([labels] + others, series);
      log := log + [labels];
    }
  }

  /** The loop that drops the oldest. */
  method Truncated<L(==)>(all: seq<L>, live: set<L>) returns (history: seq<L>, series: set<L>)
    requires NoDuplicates(all) && live == Elements(all)
    ensures history == First(all, LIMIT) && series == Elements(history)
  {
    history, series := all, live;
    while |history| > LIMIT
      invariant history <= all && (|history| >= LIMIT || history == all) && NoDuplicates(history) && series == Elements(history)
      decreases |history|
    {
      DropLast(history);
      hide NoDuplicates, Elements;
      var oldest := history[|history| - 1];
      history := history[..|history| - 1];
      series := series - {oldest};
    }
  }

  method Removed<L(==)>(s: seq<L>, x: L) returns (r: seq<L>)
    ensures r == Without(s, x)
  {
    var at := 0;
    while at < |s| && s[at] != x
      invariant at <= |s| && forall i :: 0 <= i < at ==> s[i] != x
    {
      at := at + 1;
    }
    FindUnique(s, x, at);
    r := if at < |s| then s[..at] + s[at + 1..] else s;
  }

  // ---------- Recordings that overlap ----------

  /** A recording sets its series first, without the lock of the history, and then enters itself in
      the history: `pending` are the label sets between the two. */
  datatype Shared<L> = Shared(history: seq<L>, series: set<L>, pending: multiset<L>)

  datatype Half<L> = SetSeries(labels: L) | Remember(labels: L)

  predicate CanDo<L>(s: Shared<L>, a: Half<L>) {
    a.Remember? ==> a.labels in s.pending
  }

  function Entered<L(==)>(s: Shared<L>, x: L): seq<L> {
    [x] + Without(s.history, x)
  }

  /** What the loop drops from the back. */
  function Dropped<L(==)>(all: seq<L>): set<L> {
    if |all| <= LIMIT then {} else Elements(all[LIMIT..])
  }

  function Do<L(==)>(s: Shared<L>, a: Half<L>): Shared<L>
    requires CanDo(s, a)
  {
    match a
    case SetSeries(x) => Shared(s.history, s.series + {x}, s.pending + multiset{x})
    case Remember(x) =>
      Shared(First(Entered(s, x), LIMIT), s.series - Dropped(Entered(s, x)), s.pending - multiset{x})
  }

  ghost predicate IsRun<L(!new)>(acts: seq<Half<L>>, s: seq<Shared<L>>) {
    && |s| == |acts| + 1
    && s[0] == Shared([], {}, multiset{})
    && forall m :: 0 <= m < |acts| ==> IsStep(acts, s, m)
  }

  ghost predicate IsStep<L(!new)>(acts: seq<Half<L>>, s: seq<Shared<L>>, m: nat)
    requires m < |acts| < |s|
  {
    CanDo(s[m], acts[m]) && s[m + 1] == Do(s[m], acts[m])
  }

  /** The live series are those of the history and of recordings under way. */
  ghost predicate InStep<L(!new)>(s: Shared<L>) {
    forall y :: y in s.series <==> y in s.history || y in s.pending
  }

  /** The step drops a label set that another recording has just set again. */
  ghost predicate Clashes<L(!new)>(s: Shared<L>, a: Half<L>)
    requires CanDo(s, a)
  {
    a.Remember? && exists y :: y in Dropped(Entered(s, a.labels)) && y in s.pending - multiset{a.labels}
  }

  lemma SplitAt<L>(all: seq<L>)
    requires NoDuplicates(all)
    ensures forall y :: y in all <==> y in First(all, LIMIT) || y in Dropped(all)
    ensures forall y :: !(y in First(all, LIMIT) && y in Dropped(all))
  {
    if |all| > LIMIT {
      assert all == all[..LIMIT] + all[LIMIT..];
      forall y | y in all[..LIMIT] ensures y !in all[LIMIT..] {
        assert forall i, j :: 0 <= i < LIMIT <= j < |all| ==> all[i] != all[j];
      }
    }
  }

  lemma EnteredList<L>(s: Shared<L>, x: L)
    requires NoDuplicates(s.history)
    ensures NoDuplicates(Entered(s, x)) && NoDuplicates(First(Entered(s, x), LIMIT))
    ensures forall y :: y in First(Entered(s, x), LIMIT) || y in Dropped(Entered(s, x)) <==> y in s.history || y == x
    ensures forall y :: !(y in First(Entered(s, x), LIMIT) && y in Dropped(Entered(s, x)))
    ensures x in First(Entered(s, x), LIMIT)
  {
    ConsWithout(s.history, x);
    assert forall y :: y in Entered(s, x) <==> y in Elements(Entered(s, x));
    assert forall y :: y in s.history <==> y in Elements(s.history);
    FirstCons(x, Without(s.history, x), LIMIT - 1);
    hide Without, NoDuplicates, Elements;
    SplitAt(Entered(s, x));
    FirstDistinct(Entered(s, x), LIMIT);
  }

  lemma KeepsStep<L(!new)>(s: Shared<L>, a: Half<L>)
    requires CanDo(s, a) && NoDuplicates(s.history) && InStep(s) && !Clashes(s, a)
    ensures InStep(Do(s, a))
  {
    if a.Remember? {
      EnteredList(s, a.labels);
    }
    hide Entered, Dropped, NoDuplicates, First;
  }

  lemma ClashBreaks<L(!new)>(s: Shared<L>, a: Half<L>)
    requires CanDo(s, a) && Clashes(s, a)
    ensures !InStep(Do(s, a))
  {
    hide Entered, Dropped, First;
    var y :| y in Dropped(Entered(s, a.labels)) && y in s.pending - multiset{a.labels};
    assert y in Do(s, a).pending && y !in Do(s, a).series;
  }

  /** The label sets entered so far, in the order of the history's lock. */
  function Remembered<L>(acts: seq<Half<L>>): seq<L> {
    if acts == [] then []
    else
      var last := acts[|acts| - 1];
      Remembered(acts[..|acts| - 1]) + if last.Remember? then [last.labels] else []
  }

  lemma RememberedStep<L(!new)>(acts: seq<Half<L>>, n: nat)
    requires n < |acts|
    ensures Remembered(acts[..n + 1]) == Remembered(acts[..n]) + if acts[n].Remember? then [acts[n].labels] else []
  {
    assert acts[..n + 1][..n] == acts[..n];
  }

  lemma NothingRemembered<L(!new)>(acts: seq<Half<L>>)
    ensures First(Recent(Remembered(acts[..0])), LIMIT) == []
  {
    assert acts[..0] == [];
  }

  lemma EnteredNext<L(!new)>(log: seq<L>, s: Shared<L>, x: L)
    requires s.history == First(Recent(log), LIMIT)
    ensures First(Entered(s, x), LIMIT) == First(Recent(log + [x]), LIMIT)
  {
    hide Recent, Without, NoDuplicates, Elements, First;
    Recorded(log, s.history, x);
  }

  /** Whatever the interleaving, the history is the first 512 of the list of all label sets entered,
      the most recently entered first and each once. */
  lemma {:induction false} HistoryExact<L(!new)>(acts: seq<Half<L>>, s: seq<Shared<L>>, n: nat)
    requires IsRun(acts, s) && n < |s|
    ensures s[n].history == First(Recent(Remembered(acts[..n])), 512)
  {
    hide Recent, First, Remembered, Entered, Dropped;
    if n == 0 {
      NothingRemembered(acts);
    } else {
      HistoryExact(acts, s, n - 1);
      assert IsStep(acts, s, n - 1);
      RememberedStep(acts, n - 1);
      var log := Remembered(acts[..n - 1]);
      assert log + [] == log;
      if acts[n - 1].Remember? {
        EnteredNext(log, s[n - 1], acts[n - 1].labels);
      }
    }
  }

  /** So it lists no label set twice. */
  lemma HistoryDistinct<L(!new)>(acts: seq<Half<L>>, s: seq<Shared<L>>, n: nat)
    requires IsRun(acts, s) && n < |s|
    ensures NoDuplicates(s[n].history)
  {
    hide NoDuplicates, Recent, First, Remembered, IsStep;
    HistoryExact(acts, s, n);
    RecentLists(Remembered(acts[..n]));
    FirstDistinct(Recent(Remembered(acts[..n])), LIMIT);
  }

  lemma {:induction false} InStepUntil<L(!new)>(acts: seq<Half<L>>, s: seq<Shared<L>>, n: nat)
    requires IsRun(acts, s) && n < |s| && forall m :: 0 <= m < n ==> IsStep(acts, s, m) && !Clashes(s[m], acts[m])
    ensures InStep(s[n])
  {
    if n > 0 {
      InStepUntil(acts, s, n - 1);
      HistoryDistinct(acts, s, n - 1);
      assert IsStep(acts, s, n - 1);
      hide NoDuplicates, Do, Clashes, InStep;
      KeepsStep(s[n - 1], acts[n - 1]);
    }
  }

  /** With recordings that overlap, the series stay in step with the history through a whole run if
      and only if no step drops a label set that another recording has just set again. */
  lemma InStepIff<L(!new)>(acts: seq<Half<L>>, s: seq<Shared<L>>)
    requires IsRun(acts, s)
    ensures (forall n :: 0 <= n < |s| ==> InStep(s[n]))
            <==> (forall m :: 0 <= m < |acts| ==> IsStep(acts, s, m) && !Clashes(s[m], acts[m]))
  {
    hide InStep, Do, Clashes;
    if forall n :: 0 <= n < |s| ==> InStep(s[n]) {
      forall m | 0 <= m < |acts| ensures IsStep(acts, s, m) && !Clashes(s[m], acts[m]) {
        assert IsStep(acts, s, m);
        if Clashes(s[m], acts[m]) {
          ClashBreaks(s[m], acts[m]);
        }
      }
    }
    if forall m :: 0 <= m < |acts| ==> IsStep(acts, s, m) && !Clashes(s[m], acts[m]) {
      forall n | 0 <= n < |s| ensures InStep(s[n]) {
        InStepUntil(acts, s, n);
      }
    }
  }

  ghost predicate Reached<L(!new)>(s: Shared<L>) {
    exists acts: seq<Half<L>>, states: seq<Shared<L>> :: IsRun(acts, states) && states[|acts|] == s
  }

  lemma ReachedStart<L(!new)>()
    ensures Reached<L>(Shared([], {}, multiset{}))
  {
    var acts: seq<Half<L>>, states: seq<Shared<L>> := [], [Shared([], {}, multiset{})];
    assert IsRun(acts, states) && states[|acts|] == states[0];
  }

  lemma ReachedNext<L(!new)>(s: Shared<L>, a: Half<L>)
    requires Reached(s) && CanDo(s, a)
    ensures Reached(Do(s, a))
  {
    hide Do;
    var acts: seq<Half<L>>, states: seq<Shared<L>> :| IsRun(acts, states) && states[|acts|] == s;
    var acts', states' := acts + [a], states + [Do(s, a)];
    forall m | 0 <= m < |acts'| ensures IsStep(acts', states', m) {
      if m < |acts| {
        assert IsStep(acts, states, m);
      }
    }
    assert IsRun(acts', states') && states'[|acts'|] == Do(s, a);
  }

  lemma WithoutAbsent<L>(s: seq<L>, x: L)
    requires x !in s
    ensures Without(s, x) == s
  {
    FindUnique(s, x, |s|);
  }

  /** Recording a new label set when there is room, or dropping exactly the oldest when there is not. */
  lemma EnterNew<L>(s: Shared<L>, x: L)
    requires x !in s.history && x in s.pending && |s.history| <= LIMIT
    ensures |s.history| < LIMIT ==>
              Do(s, Remember(x)) == Shared([x] + s.history, s.series, s.pending - multiset{x})
    ensures |s.history| == LIMIT ==>
              Do(s, Remember(x)) == Shared([x] + s.history[..LIMIT - 1], s.series - {s.history[LIMIT - 1]}, s.pending - multiset{x})
  {
    WithoutAbsent(s.history, x);
    hide Without;
    var all := [x] + s.history;
    if |s.history| == LIMIT {
      assert all[LIMIT..] == [s.history[LIMIT - 1]];
      assert all[..LIMIT] == [x] + s.history[..LIMIT - 1];
    }
  }

  /** After recording distinct label sets one by one. */
  function Filled<L(==)>(keys: seq<L>): Shared<L> {
    Shared(Backwards(keys), Elements(keys), multiset{})
  }

  function Backwards<L>(keys: seq<L>): (r: seq<L>)
    ensures |r| == |keys| && forall i :: 0 <= i < |r| ==> r[i] == keys[|keys| - 1 - i]
  {
    seq(|keys|, i requires 0 <= i < |keys| => keys[|keys| - 1 - i])
  }

  lemma BackwardsElements<L>(keys: seq<L>)
    ensures forall y :: y in Backwards(keys) <==> y in keys
  {
    forall i | 0 <= i < |keys| ensures keys[i] in Backwards(keys) {
      assert Backwards(keys)[|keys| - 1 - i] == keys[i];
    }
  }

  lemma {:induction false} FilledReached<L(!new)>(keys: seq<L>)
    requires NoDuplicates(keys) && |keys| <= LIMIT
    ensures Reached(Filled(keys))
  {
    if keys == [] {
      ReachedStart<L>();
      assert Filled(keys) == Shared([], {}, multiset{});
    } else {
      var n := |keys| - 1;
      var prev, x := keys[..n], keys[n];
      assert keys == prev + [x] && NoDuplicates(prev) && x !in prev;
      FilledReached(prev);
      hide NoDuplicates, Reached;
      FillOne(prev, x);
    }
  }

  lemma FillOne<L(!new)>(prev: seq<L>, x: L)
    requires x !in prev && |prev| < LIMIT && Reached(Filled(prev))
    ensures Reached(Filled(prev + [x]))
  {
    hide Reached;
    var s0 := Filled(prev);
    BackwardsElements(prev);
    ReachedNext(s0, SetSeries(x));
    var s1 := Do(s0, SetSeries(x));
    EnterNew(s1, x);
    ReachedNext(s1, Remember(x));
    assert s1.pending - multiset{x} == multiset{};
    assert Elements(prev) + {x} == Elements(prev + [x]);
    assert [x] + Backwards(prev) == Backwards(prev + [x]);
  }

  /** It does happen: with the history full, the oldest label set is set again, and dropped by another
      recording before it is entered. It then heads the history without a series. */
  lemma SeriesLost<L(!new)>(keys: seq<L>) returns (s: Shared<L>)
    requires NoDuplicates(keys) && |keys| == LIMIT + 1
    ensures Reached(s) && s.pending == multiset{} && s.history != [] && s.history[0] == keys[0] && keys[0] !in s.series
  {
    var x, z, full := keys[0], keys[LIMIT], keys[..LIMIT];
    assert z !in full && x in full && NoDuplicates(full) && x != z;
    FilledReached(full);
    BackwardsElements(full);
    hide NoDuplicates, Reached;
    var s0 := Filled(full);
    ReachedNext(s0, SetSeries(x));
    var s1 := Do(s0, SetSeries(x));
    ReachedNext(s1, SetSeries(z));
    var s2 := Do(s1, SetSeries(z));
    EnterNew(s2, z);
    ReachedNext(s2, Remember(z));
    var s3 := Do(s2, Remember(z));
    OnlyLast(keys, s0.history);
    assert s3.history == [z] + s0.history[..LIMIT - 1] && x !in s3.history && x in s3.pending && x !in s3.series;
    hide Do, Filled;
    EnterNew(s3, x);
    ReachedNext(s3, Remember(x));
    s := Do(s3, Remember(x));
    assert s.pending == multiset{};
  }

  lemma OnlyLast<L>(keys: seq<L>, h: seq<L>)
    requires NoDuplicates(keys) && |keys| == LIMIT + 1 && h == Backwards(keys[..LIMIT])
    ensures h[LIMIT - 1] == keys[0] && keys[0] !in h[..LIMIT - 1]
  {
    forall i | 0 <= i < LIMIT - 1 ensures h[i] != keys[0] {
      DistinctPair(keys, 0, LIMIT - 1 - i);
    }
  }
}
