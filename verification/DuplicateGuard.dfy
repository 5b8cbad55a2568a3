/** `DuplicateSubmitGuard`: a submission is admitted once per submit key, within a time window
    and a capacity. The class is the guard as it is written; `Submitted` and `Settled` are the
    two lock-protected sections that use it, and the lemmas are about every run of those. */
module DuplicateGuard {
  import opened Collections
  import opened ExpiringQueue
  import opened Wrappers

  datatype Outcome = InFlight | Accepted | Stale | LowDiff | Bad

  type Guard = Queue<Outcome>

  const EMPTY: Guard := Queue(map[], [])

  // ---------- Operations on values ----------

  function Recall(g: Guard, key: Key): Option<Outcome> {
    if key in g.entries then Some(g.entries[key].outcome) else None
  }

  function InsertedInFlight(g: Guard, lim: Limits, key: Key, now: nat): Guard {
    var p := Prune(g, lim, now);
    if key in p.entries then p
    else Queue(p.entries[key := Entry(now, InFlight)], p.order + [key])
  }

  /** The admission section: `get`, and `insert_inflight` when that finds nothing. */
  function Submitted(g: Guard, lim: Limits, key: Key, now: nat): Guard {
    var p := Prune(g, lim, now);
    if key in p.entries then p else InsertedInFlight(p, lim, key, now)
  }

  /** `set_outcome`: a touched key keeps its place in the queue. */
  function Settled(g: Guard, lim: Limits, key: Key, now: nat, outcome: Outcome): Guard {
    var p := Prune(g, lim, now);
    if key in p.entries then p.(entries := p.entries[key := Entry(now, outcome)]) else p
  }

  class DuplicateSubmitGuard {
    const lim: Limits
    var entries: map<Key, Entry<Outcome>>
    var order: seq<Key>

    constructor (ttl: nat, maxEntries: nat)
      ensures lim == Limits(ttl, maxEntries) && State() == EMPTY
    {
      lim := Limits(ttl, maxEntries);
      entries := map[];
      order := [];
    }

    function State(): Guard
      reads this
    {
      Queue(entries, order)
    }

    method DoPrune(now: nat)
      modifies this
      ensures State() == Prune(old(State()), lim, now)
    {
      var r := RunPrune(State(), lim, now);
      entries, order := r.entries, r.order;
    }

    method Get(key: Key, now: nat) returns (o: Option<Outcome>)
      modifies this
      ensures State() == Prune(old(State()), lim, now)
      ensures o == Recall(State(), key)
    {
      DoPrune(now);
      o := if key in entries then Some(entries[key].outcome) else None;
    }

    method InsertInFlight(key: Key, now: nat)
      modifies this
      ensures State() == InsertedInFlight(old(State()), lim, key, now)
    {
      DoPrune(now);
      if key in entries {
        return;
      }
      entries := entries[key := Entry(now, InFlight)];
      order := order + [key];
    }

    method SetOutcome(key: Key, now: nat, outcome: Outcome)
      modifies this
      ensures State() == Settled(old(State()), lim, key, now, outcome)
    {
      DoPrune(now);
      if key in entries {
        entries := entries[key := Entry(now, outcome)];
      }
    }

    /** The section of `handle_submit` that holds the guard's lock. */
    method Submit(key: Key, now: nat) returns (duplicate: Option<Outcome>)
      modifies this
      ensures State() == Submitted(old(State()), lim, key, now)
      ensures duplicate == Recall(Prune(old(State()), lim, now), key)
    {
      duplicate := Get(key, now);
      if duplicate == None {
        InsertInFlight(key, now);
      }
    }
  }

  // ---------- Runs ----------

  /** The lock-protected sections, in the order the lock is taken; `now` was read earlier, so
      nothing is assumed about the order of the instants. */
  datatype Op =
    | Submit(key: Key, now: nat)
    | Settle(key: Key, now: nat, outcome: Outcome)

  function Step(lim: Limits, g: Guard, op: Op): Guard {
    match op
    case Submit(key, now) => Submitted(g, lim, key, now)
    case Settle(key, now, outcome) => Settled(g, lim, key, now, outcome)
  }

  /** The answer an operation gets: the remembered outcome, or none. */
  function Answer(lim: Limits, g: Guard, op: Op): Option<Outcome> {
    Recall(Prune(g, lim, op.now), op.key)
  }

  /** A run as its callers see it: the operations and the answers they got. */
  datatype Trace = Trace(ops: seq<Op>, answers: seq<Option<Outcome>>)

  /** The trace is what the guard does, going through the states `g` from the empty guard on. */
  ghost predicate IsRun(lim: Limits, t: Trace, g: seq<Guard>) {
    && |g| == |t.ops| + 1 == |t.answers| + 1
    && g[0] == EMPTY
    && forall m :: 0 <= m < |t.ops| ==> IsStep(lim, t, g, m)
  }

  ghost predicate IsStep(lim: Limits, t: Trace, g: seq<Guard>, m: nat)
    requires m < |t.ops| == |t.answers| < |g|
  {
    && t.answers[m] == Answer(lim, g[m], t.ops[m])
    && g[m + 1] == Step(lim, g[m], t.ops[m])
  }

  predicate Admitted(t: Trace, m: nat)
    requires m < |t.ops| == |t.answers|
  {
    t.ops[m].Submit? && t.answers[m] == None
  }

  lemma StepExact(lim: Limits, g: Guard, op: Op)
    requires Exact(g)
    ensures Exact(Step(lim, g, op))
  {
    var p := Prune(g, lim, op.now);
    PruneExact(g, lim, op.now);
    PruneExact(p, lim, op.now);
  }

  lemma StepSize(lim: Limits, g: Guard, op: Op)
    requires Exact(g)
    ensures |Step(lim, g, op).entries| <= lim.maxEntries + 1
  {
    var p := Prune(g, lim, op.now);
    PruneBounds(g, lim, op.now);
    PruneExact(g, lim, op.now);
    PruneBounds(p, lim, op.now);
  }

  /** When a key the guard holds is admitted again: exactly when it and every key queued before it
      have expired, or at least `maxEntries` keys are queued behind it. */
  lemma AdmissionDecided(lim: Limits, g: Guard, now: nat, pos: nat)
    requires Exact(g) && pos < |g.order|
    ensures Answer(lim, g, Submit(g.order[pos], now)) == None
            <==> (forall i :: 0 <= i <= pos ==> Droppable(g, g.order[i], lim.ttl, now)) || |g.order| - pos - 1 >= lim.maxEntries
  {
    PruneLeaves(g, lim, now, pos);
    hide Prune, Droppable, Exact;
  }

  lemma EmptyExact()
    ensures Exact(EMPTY)
  {
  }

  /** In every run queue and map stay in bijection and hold at most `maxEntries + 1` keys. */
  lemma {:induction false} RunExact(lim: Limits, t: Trace, g: seq<Guard>, n: nat)
    requires IsRun(lim, t, g) && n < |g|
    ensures Exact(g[n])
    ensures |g[n].entries| == |g[n].order| <= lim.maxEntries + 1
  {
    hide Step, Answer, Exact;
    if n == 0 {
      EmptyExact();
    } else {
      RunExact(lim, t, g, n - 1);
      assert IsStep(lim, t, g, n - 1);
      StepExact(lim, g[n - 1], t.ops[n - 1]);
      StepSize(lim, g[n - 1], t.ops[n - 1]);
    }
    ExactSize(g[n]);
  }

  // ---------- Two admissions of one key ----------

  /** What a reader of the run alone expects the guard to know about the key admitted at `i`
      just before operation `n`: when it was last touched, and the outcome it was given. */
  function Expected(ops: seq<Op>, i: nat, n: nat): Entry<Outcome>
    requires i < n <= |ops|
  {
    if n == i + 1 then Entry(ops[i].now, InFlight)
    else if ops[n - 1].Settle? && ops[n - 1].key == ops[i].key then Entry(ops[n - 1].now, ops[n - 1].outcome)
    else Expected(ops, i, n - 1)
  }

  /** The other keys admitted strictly between operations `i` and `n`. */
  function OthersAdmitted(t: Trace, i: nat, n: nat): set<Key>
    requires i < n <= |t.ops| == |t.answers|
  {
    if n == i + 1 then {}
    else if Admitted(t, n - 1) && t.ops[n - 1].key != t.ops[i].key
    then OthersAdmitted(t, i, n - 1) + {t.ops[n - 1].key}
    else OthersAdmitted(t, i, n - 1)
  }

  /** No operation from `i + 1` to `j` runs more than the ttl after the key was last touched. */
  ghost predicate Fresh(lim: Limits, ops: seq<Op>, i: nat, j: nat)
    requires i < j < |ops|
  {
    forall m :: i < m <= j ==> Age(ops[m].now, Expected(ops, i, m).ts) <= lim.ttl
  }

  /** `key` is held with entry `e`, and everything queued behind it is among `others`. */
  ghost predicate Held(g: Guard, key: Key, e: Entry<Outcome>, others: set<Key>) {
    && Exact(g)
    && key in g.entries && g.entries[key] == e
    && exists pos :: HeldAt(g, key, others, pos)
  }

  ghost predicate HeldAt(g: Guard, key: Key, others: set<Key>, pos: nat) {
    && pos < |g.order| && g.order[pos] == key
    && forall x :: pos < x < |g.order| ==> g.order[x] in others
  }

  lemma BehindIsSmall(g: Guard, key: Key, others: set<Key>, pos: nat)
    requires Exact(g) && HeldAt(g, key, others, pos)
    ensures |g.order| - pos - 1 <= |others|
  {
    var behind := g.order[pos + 1..];
    DistinctCount(behind);
    SubsetSize(Elements(behind), others);
  }

  /** A key that is fresh, with fewer than `maxEntries` others behind it, survives a prune. */
  lemma PruneHolds(g: Guard, lim: Limits, now: nat, key: Key, e: Entry<Outcome>, others: set<Key>)
    requires Held(g, key, e, others)
    requires Age(now, e.ts) <= lim.ttl && |others| < lim.maxEntries
    ensures Held(Prune(g, lim, now), key, e, others)
  {
    hide Prune, Exact, Age;
    var pos: nat :| HeldAt(g, key, others, pos);
    BehindIsSmall(g, key, others, pos);
    var n := PruneKeeps(g, lim, now, pos);
    PruneExact(g, lim, now);
    var p := Prune(g, lim, now);
    assert forall x :: 0 <= x < |p.order| ==> p.order[x] == g.order[n + x];
    assert HeldAt(p, key, others, pos - n);
  }

  lemma StepHolds(lim: Limits, g: Guard, op: Op, key: Key, e: Entry<Outcome>, others: set<Key>)
    requires Held(g, key, e, others)
    requires Age(op.now, e.ts) <= lim.ttl && |others| < lim.maxEntries
    ensures Recall(Prune(g, lim, op.now), key) == Some(e.outcome)
    ensures Held(Step(lim, g, op), key,
                 if op.Settle? && op.key == key then Entry(op.now, op.outcome) else e,
                 if op.Submit? && op.key !in Prune(g, lim, op.now).entries then others + {op.key} else others)
  {
    PruneHolds(g, lim, op.now, key, e, others);
    var p := Prune(g, lim, op.now);
    if op.Settle? {
      var pos: nat :| HeldAt(p, key, others, pos);
      assert HeldAt(Step(lim, g, op), key, others, pos);
    } else if op.key !in p.entries {
      PruneHolds(p, lim, op.now, key, e, others);
      PruneOnlyRemoves(p, lim, op.now, op.key);
      PushHolds(Prune(p, lim, op.now), key, e, others, op.key, Entry(op.now, InFlight));
    }
  }

  lemma PushHolds(g: Guard, key: Key, e: Entry<Outcome>, others: set<Key>, k: Key, x: Entry<Outcome>)
    requires Held(g, key, e, others) && k !in g.entries
    ensures Held(Queue(g.entries[k := x], g.order + [k]), key, e, others + {k})
  {
    var pos: nat :| HeldAt(g, key, others, pos);
    assert HeldAt(Queue(g.entries[k := x], g.order + [k]), key, others + {k}, pos);
  }

  lemma HeldAtAdmission(lim: Limits, g: Guard, op: Op)
    requires Exact(g) && op.Submit? && Answer(lim, g, op) == None
    ensures Held(Step(lim, g, op), op.key, Entry(op.now, InFlight), {})
  {
    StepExact(lim, g, op);
    var p := Prune(g, lim, op.now);
    PruneOnlyRemoves(p, lim, op.now, op.key);
    assert HeldAt(Step(lim, g, op), op.key, {}, |Prune(p, lim, op.now).order|);
  }

  lemma {:induction false} OthersGrow(t: Trace, i: nat, n: nat, j: nat)
    requires i < n <= j <= |t.ops| == |t.answers|
    ensures |OthersAdmitted(t, i, n)| <= |OthersAdmitted(t, i, j)|
  {
    if n < j {
      OthersGrow(t, i, n, j - 1);
      SubsetSize(OthersAdmitted(t, i, j - 1), OthersAdmitted(t, i, j));
    }
  }

  lemma HeldFirst(lim: Limits, t: Trace, g: seq<Guard>, i: nat)
    requires i < |t.ops| == |t.answers| < |g| && IsStep(lim, t, g, i) && Admitted(t, i) && Exact(g[i])
    ensures Held(g[i + 1], t.ops[i].key, Expected(t.ops, i, i + 1), OthersAdmitted(t, i, i + 1))
  {
    hide Prune, Step, Held, Exact;
    HeldAtAdmission(lim, g[i], t.ops[i]);
  }

  lemma HeldNext(lim: Limits, t: Trace, g: seq<Guard>, i: nat, n: nat)
    requires i < n < |t.ops| == |t.answers| < |g| && IsStep(lim, t, g, n)
    requires Held(g[n], t.ops[i].key, Expected(t.ops, i, n), OthersAdmitted(t, i, n))
    requires Age(t.ops[n].now, Expected(t.ops, i, n).ts) <= lim.ttl && |OthersAdmitted(t, i, n)| < lim.maxEntries
    ensures Held(g[n + 1], t.ops[i].key, Expected(t.ops, i, n + 1), OthersAdmitted(t, i, n + 1))
  {
    hide Prune, Step, Held, Age;
    StepHolds(lim, g[n], t.ops[n], t.ops[i].key, Expected(t.ops, i, n), OthersAdmitted(t, i, n));
  }

  /** While the key stays fresh and fewer than `maxEntries` others come in, the guard knows it
      exactly as a reader of the run does. */
  lemma {:induction false} RunHolds(lim: Limits, t: Trace, g: seq<Guard>, i: nat, n: nat, j: nat)
    requires IsRun(lim, t, g) && i < n <= j < |t.ops| && Admitted(t, i)
    requires Fresh(lim, t.ops, i, j) && |OthersAdmitted(t, i, j)| < lim.maxEntries
    ensures Held(g[n], t.ops[i].key, Expected(t.ops, i, n), OthersAdmitted(t, i, n))
    decreases n
  {
    hide Prune, Step, Held, Expected, OthersAdmitted, Age;
    assert IsStep(lim, t, g, n - 1);
    if n == i + 1 {
      RunExact(lim, t, g, i);
      HeldFirst(lim, t, g, i);
    } else {
      RunHolds(lim, t, g, i, n - 1, j);
      OthersGrow(t, i, n - 1, j);
      HeldNext(lim, t, g, i, n - 1);
    }
  }

  /** A resubmission inside the window gets the outcome the first submission last settled on. */
  lemma ResubmissionRemembered(lim: Limits, t: Trace, g: seq<Guard>, i: nat, j: nat)
    requires IsRun(lim, t, g) && i < j < |t.ops|
    requires Admitted(t, i) && t.ops[j].key == t.ops[i].key
    requires Fresh(lim, t.ops, i, j) && |OthersAdmitted(t, i, j)| < lim.maxEntries
    ensures t.answers[j] == Some(Expected(t.ops, i, j).outcome)
  {
    hide Step;
    assert IsStep(lim, t, g, j);
    RunHolds(lim, t, g, i, j, j);
    PruneHolds(g[j], lim, t.ops[j].now, t.ops[i].key, Expected(t.ops, i, j), OthersAdmitted(t, i, j));
  }

  /** Two admissions of one key are separated by an operation that runs more than the ttl after
      the key was last touched, or by the admission of at least `maxEntries` other keys. */
  lemma AdmissionsSeparated(lim: Limits, t: Trace, g: seq<Guard>, i: nat, j: nat)
    requires IsRun(lim, t, g) && i < j < |t.ops| && t.ops[j].key == t.ops[i].key
    requires Admitted(t, i) && Admitted(t, j)
    ensures (exists m :: i < m <= j && Age(t.ops[m].now, Expected(t.ops, i, m).ts) > lim.ttl)
            || |OthersAdmitted(t, i, j)| >= lim.maxEntries
  {
    if Fresh(lim, t.ops, i, j) && |OthersAdmitted(t, i, j)| < lim.maxEntries {
      ResubmissionRemembered(lim, t, g, i, j);
    }
  }
}
