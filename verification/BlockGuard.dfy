/** `BlockSubmitGuard` and the mark / RPC / remove protocol of `submit_block`. Unlike the
    duplicate guard, `remove` takes a hash out of the map only: its place in the queue stays as a
    tombstone, and marking the hash again queues it a second time. */
module BlockGuard {
  import opened Collections
  import opened ExpiringQueue
  import Text

  /** The source keeps a bare instant per hash: the outcome part is empty. */
  type Guard = Queue<()>

  const EMPTY: Guard := Queue(map[], [])

  function Marked(g: Guard, lim: Limits, hash: Key, now: nat): Guard {
    var p := Prune(g, lim, now);
    if hash in p.entries then p
    else Queue(p.entries[hash := Entry(now, ())], p.order + [hash])
  }

  predicate CanMark(g: Guard, lim: Limits, hash: Key, now: nat) {
    hash !in Prune(g, lim, now).entries
  }

  function Removed(g: Guard, lim: Limits, hash: Key, now: nat): Guard {
    var p := Prune(g, lim, now);
    p.(entries := p.entries - {hash})
  }

  class BlockSubmitGuard {
    const lim: Limits
    var entries: map<Key, Entry<()>>
    var order: seq<Key>

    constructor (ttl: nat, maxEntries: nat)
      ensures lim == Limits(ttl, maxEntries) && State() == EMPTY
    {
      lim := Limits(ttl, maxEntries);
      entries := map[];
      order := [];
    }

    function State(): Guard
      reads this
    {
      Queue(entries, order)
    }

    method DoPrune(now: nat)
      modifies this
      ensures State() == Prune(old(State()), lim, now)
    {
      var r := RunPrune(State(), lim, now);
      entries, order := r.entries, r.order;
    }

    method TryMark(hash: Key, now: nat) returns (marked: bool)
      modifies this
      ensures marked <==> CanMark(old(State()), lim, hash, now)
      ensures State() == Marked(old(State()), lim, hash, now)
    {
      DoPrune(now);
      if hash in entries {
        return false;
      }
      entries := entries[hash := Entry(now, ())];
      order := order + [hash];
      marked := true;
    }

    method Remove(hash: Key, now: nat)
      modifies this
      ensures State() == Removed(old(State()), lim, hash, now)
    {
      DoPrune(now);
      entries := entries - {hash};
    }
  }

  // ---------- The protocol ----------

  /** How the call ends: with the node's report, or with an error of the RPC client. */
  datatype NodeAnswer = Report(success: bool) | RpcError(cause: string)

  /** The context the source wraps every error of the RPC client in; printing the error prints the
      context and not the cause. */
  const CONTEXT := "Failed to submit block"

  function ErrorText(a: NodeAnswer): string
    requires a.RpcError?
  {
    CONTEXT
  }

  predicate LooksDuplicate(text: string) {
    Text.Contains(text, "ErrDuplicateBlock") || Text.Contains(text, "duplicate")
  }

  /** Whether `submit_block` takes the mark back. */
  predicate TakesBack(a: NodeAnswer) {
    match a
    case Report(success) => !success
    case RpcError(_) => !LooksDuplicate(ErrorText(a))
  }

  lemma LooksDuplicateIff(text: string)
    ensures LooksDuplicate(text)
            <==> (exists a, b :: text == a + "ErrDuplicateBlock" + b) || (exists a, b :: text == a + "duplicate" + b)
  {
    hide Text.Contains;
    Text.ContainsIff(text, "ErrDuplicateBlock");
    Text.ContainsIff(text, "duplicate");
  }

  lemma NotDuplicate(text: string)
    requires 'E' !in text && 'p' !in text
    ensures !LooksDuplicate(text)
  {
    hide Text.Contains;
    if Text.Contains(text, "ErrDuplicateBlock") {
      Text.ContainsFirst(text, "ErrDuplicateBlock", 0);
    }
    if Text.Contains(text, "duplicate") {
      Text.ContainsFirst(text, "duplicate", 2);
    }
  }

  /** The mark is kept for a successful report only: the text that is searched for a duplicate never
      names one. */
  lemma KeptIffSuccess(a: NodeAnswer)
    ensures !TakesBack(a) <==> a == Report(true)
  {
    hide LooksDuplicate;
    assert 'E' !in CONTEXT && 'p' !in CONTEXT;
    NotDuplicate(CONTEXT);
  }

  datatype Flight = Flight(hash: Key, since: nat)

  /** The global guard, and the calls that are waiting for the node. */
  datatype Protocol = Protocol(guard: Guard, flights: map<nat, Flight>)

  datatype Op =
    | Mark(task: nat, hash: Key, now: nat)
    | Finish(task: nat, answer: NodeAnswer, now: nat)

  predicate Enabled(s: Protocol, op: Op) {
    match op
    case Mark(task, _, _) => task !in s.flights
    case Finish(task, _, _) => task in s.flights
  }

  function Step(lim: Limits, s: Protocol, op: Op): Protocol
    requires Enabled(s, op)
  {
    match op
    case Mark(task, hash, now) =>
      Protocol(Marked(s.guard, lim, hash, now),
               if CanMark(s.guard, lim, hash, now) then s.flights[task := Flight(hash, now)] else s.flights)
    case Finish(task, answer, now) =>
      Protocol(if TakesBack(answer) then Removed(s.guard, lim, s.flights[task].hash, now) else s.guard,
               s.flights - {task})
  }

  /** Whether the operation takes the guard's lock, and so prunes. */
  predicate Prunes(op: Op) {
    op.Mark? || TakesBack(op.answer)
  }

  ghost predicate IsRun(lim: Limits, ops: seq<Op>, s: seq<Protocol>) {
    && |s| == |ops| + 1
    && s[0] == Protocol(EMPTY, map[])
    && forall m :: 0 <= m < |ops| ==> IsStep(lim, ops, s, m)
  }

  ghost predicate IsStep(lim: Limits, ops: seq<Op>, s: seq<Protocol>, m: nat)
    requires m < |ops| < |s|
  {
    Enabled(s[m], ops[m]) && s[m + 1] == Step(lim, s[m], ops[m])
  }

  /** At operation `m` what the expiry phase leaves fits the capacity, so nothing is evicted early.
      That may count marks that are expired but queued behind one that is not. */
  ghost predicate Fits(lim: Limits, ops: seq<Op>, s: seq<Protocol>, m: nat)
    requires m < |ops| < |s|
  {
    |DropExpired(s[m].guard, lim.ttl, ops[m].now).entries| <= lim.maxEntries
  }

  /** At operation `m` no call has been waiting for longer than the ttl. */
  ghost predicate Timely(lim: Limits, ops: seq<Op>, s: seq<Protocol>, m: nat)
    requires m < |ops| < |s|
  {
    forall t :: t in s[m].flights ==> Age(ops[m].now, s[m].flights[t].since) <= lim.ttl
  }

  /** Operation `m` puts its hash in flight. */
  ghost predicate Sends(lim: Limits, ops: seq<Op>, s: seq<Protocol>, m: nat, hash: Key)
    requires m < |ops| < |s|
  {
    ops[m].Mark? && ops[m].hash == hash && CanMark(s[m].guard, lim, hash, ops[m].now)
  }

  /** Operation `m` ends a call on the hash in a way that takes its mark back. */
  ghost predicate GivesUp(ops: seq<Op>, s: seq<Protocol>, m: nat, hash: Key)
    requires m < |ops| < |s|
  {
    && ops[m].Finish? && TakesBack(ops[m].answer)
    && ops[m].task in s[m].flights && s[m].flights[ops[m].task].hash == hash
  }

  // ---------- What every run keeps ----------

  lemma StepCovered(lim: Limits, s: Protocol, op: Op)
    requires Enabled(s, op) && Covered(s.guard)
    ensures Covered(Step(lim, s, op).guard)
    ensures Prunes(op) ==> |Step(lim, s, op).guard.entries| <= lim.maxEntries + 1
  {
    PruneBounds(s.guard, lim, op.now);
    if op.Finish? && TakesBack(op.answer) {
      var p := Prune(s.guard, lim, op.now);
      var hash := s.flights[op.task].hash;
      SmallerMap(p.entries, hash);
    }
  }

  lemma SmallerMap<K, V>(m: map<K, V>, k: K)
    ensures |m - {k}| <= |m|
  {
    if k in m {
      assert m.Keys == (m - {k}).Keys + {k};
    } else {
      assert m - {k} == m;
    }
  }

  /** In every run each marked hash is in the queue, and at most `maxEntries + 1` are marked. */
  lemma {:induction false} RunCovered(lim: Limits, ops: seq<Op>, s: seq<Protocol>, n: nat)
    requires IsRun(lim, ops, s) && n < |s|
    ensures Covered(s[n].guard) && |s[n].guard.entries| <= lim.maxEntries + 1
  {
    if n > 0 {
      hide Step, Enabled;
      assert IsStep(lim, ops, s, n - 1);
      RunCovered(lim, ops, s, n - 1);
      StepCovered(lim, s[n - 1], ops[n - 1]);
      if !Prunes(ops[n - 1]) {
        FinishKeepsGuard(lim, s[n - 1], ops[n - 1]);
      }
    }
  }

  lemma FinishKeepsGuard(lim: Limits, s: Protocol, op: Op)
    requires Enabled(s, op) && !Prunes(op)
    ensures Step(lim, s, op).guard == s.guard
  {
  }

  // ---------- One hash, one call ----------

  ghost predicate Holds(g: Guard, hash: Key, since: nat) {
    hash in g.entries && g.entries[hash].ts == since
  }

  lemma PruneHolds(g: Guard, lim: Limits, now: nat, hash: Key, since: nat)
    requires Holds(g, hash, since) && Age(now, since) <= lim.ttl
    requires |DropExpired(g, lim.ttl, now).entries| <= lim.maxEntries
    ensures Holds(Prune(g, lim, now), hash, since)
  {
    ExpiryKeepsLive(g, lim.ttl, now, hash);
  }

  /** A mark within the ttl survives any step but one that gives its hash up. */
  lemma StepHolds(lim: Limits, ops: seq<Op>, s: seq<Protocol>, m: nat, hash: Key, since: nat)
    requires m < |ops| < |s| && IsStep(lim, ops, s, m) && Fits(lim, ops, s, m)
    requires Holds(s[m].guard, hash, since) && !GivesUp(ops, s, m, hash)
    requires Prunes(ops[m]) ==> Age(ops[m].now, since) <= lim.ttl
    ensures Holds(s[m + 1].guard, hash, since) && !Sends(lim, ops, s, m, hash)
  {
    if Prunes(ops[m]) {
      hide Prune;
      PruneHolds(s[m].guard, lim, ops[m].now, hash, since);
    }
  }

  lemma MarkHolds(lim: Limits, ops: seq<Op>, s: seq<Protocol>, m: nat, hash: Key)
    requires m < |ops| < |s| && IsStep(lim, ops, s, m) && Sends(lim, ops, s, m, hash)
    ensures Holds(s[m + 1].guard, hash, ops[m].now)
  {
  }

  lemma {:induction false} HeldUntil(lim: Limits, ops: seq<Op>, s: seq<Protocol>, i: nat, n: nat, hash: Key)
    requires IsRun(lim, ops, s) && i < n <= |ops| && Sends(lim, ops, s, i, hash)
    requires forall m :: i < m < n ==> Fits(lim, ops, s, m) && !GivesUp(ops, s, m, hash)
    requires forall m :: i < m < n && Prunes(ops[m]) ==> Age(ops[m].now, ops[i].now) <= lim.ttl
    ensures Holds(s[n].guard, hash, ops[i].now)
  {
    hide Holds, Sends, GivesUp, Fits;
    assert IsStep(lim, ops, s, n - 1);
    if n == i + 1 {
      MarkHolds(lim, ops, s, i, hash);
    } else {
      HeldUntil(lim, ops, s, i, n - 1, hash);
      StepHolds(lim, ops, s, n - 1, hash, ops[i].now);
    }
  }

  /** A hash is sent twice only if in between a call on it gave up, or the guard was used more
      than the ttl after the first mark, whatever tombstones and repeats the queue holds. */
  lemma SendsSeparated(lim: Limits, ops: seq<Op>, s: seq<Protocol>, i: nat, j: nat, hash: Key)
    requires IsRun(lim, ops, s) && i < j < |ops|
    requires Sends(lim, ops, s, i, hash) && Sends(lim, ops, s, j, hash)
    requires forall m :: i < m <= j ==> Fits(lim, ops, s, m)
    ensures exists m :: i < m <= j && (GivesUp(ops, s, m, hash)
                                       || (Prunes(ops[m]) && Age(ops[m].now, ops[i].now) > lim.ttl))
  {
    if forall m :: i < m <= j ==> !GivesUp(ops, s, m, hash) && (Prunes(ops[m]) ==> Age(ops[m].now, ops[i].now) <= lim.ttl) {
      hide Holds, Sends, GivesUp, Fits;
      HeldUntil(lim, ops, s, i, j, hash);
      assert IsStep(lim, ops, s, j);
      StepHolds(lim, ops, s, j, hash, ops[i].now);
    }
  }

  /** Every call in flight holds the mark it made, and no two hold the same hash. */
  ghost predicate Exclusive(s: Protocol) {
    && (forall t :: t in s.flights ==> Holds(s.guard, s.flights[t].hash, s.flights[t].since))
    && (forall t, u :: t in s.flights && u in s.flights && s.flights[t].hash == s.flights[u].hash ==> t == u)
  }

  lemma StepExclusive(lim: Limits, ops: seq<Op>, s: seq<Protocol>, m: nat)
    requires m < |ops| < |s| && IsStep(lim, ops, s, m)
    requires Fits(lim, ops, s, m) && Timely(lim, ops, s, m) && Exclusive(s[m])
    ensures Exclusive(s[m + 1])
  {
    forall t | t in s[m + 1].flights && t in s[m].flights
      ensures Holds(s[m + 1].guard, s[m].flights[t].hash, s[m].flights[t].since)
      ensures !Sends(lim, ops, s, m, s[m].flights[t].hash)
    {
      assert !GivesUp(ops, s, m, s[m].flights[t].hash);
      StepHolds(lim, ops, s, m, s[m].flights[t].hash, s[m].flights[t].since);
    }
    if ops[m].Mark? && Sends(lim, ops, s, m, ops[m].hash) {
      MarkHolds(lim, ops, s, m, ops[m].hash);
    }
  }

  /** When every call finishes within the ttl of its mark and nothing is evicted for space, at
      most one call per block hash is ever waiting for the node. */
  lemma {:induction false} AtMostOneInFlight(lim: Limits, ops: seq<Op>, s: seq<Protocol>, n: nat)
    requires IsRun(lim, ops, s) && n < |s|
    requires forall m :: 0 <= m < n ==> Fits(lim, ops, s, m) && Timely(lim, ops, s, m)
    ensures Exclusive(s[n])
  {
    if n > 0 {
      hide Exclusive, Fits, Timely;
      assert IsStep(lim, ops, s, n - 1);
      AtMostOneInFlight(lim, ops, s, n - 1);
      StepExclusive(lim, ops, s, n - 1);
    }
  }

  /** The hash is marked and nobody is waiting on it. */
  ghost predicate Retired(s: Protocol, hash: Key, since: nat) {
    Holds(s.guard, hash, since) && forall t :: t in s.flights ==> s.flights[t].hash != hash
  }

  lemma StepRetired(lim: Limits, ops: seq<Op>, s: seq<Protocol>, m: nat, hash: Key, since: nat)
    requires m < |ops| < |s| && IsStep(lim, ops, s, m) && Fits(lim, ops, s, m)
    requires Retired(s[m], hash, since) && (Prunes(ops[m]) ==> Age(ops[m].now, since) <= lim.ttl)
    ensures Retired(s[m + 1], hash, since) && !Sends(lim, ops, s, m, hash)
  {
    assert !GivesUp(ops, s, m, hash);
    StepHolds(lim, ops, s, m, hash, since);
  }

  lemma {:induction false} RetiredUntil(lim: Limits, ops: seq<Op>, s: seq<Protocol>, f: nat, n: nat, hash: Key, since: nat)
    requires IsRun(lim, ops, s) && f <= n < |s| && Retired(s[f], hash, since)
    requires forall m :: f <= m < n ==> Fits(lim, ops, s, m)
    requires forall m :: f <= m < n && Prunes(ops[m]) ==> Age(ops[m].now, since) <= lim.ttl
    ensures Retired(s[n], hash, since)
    decreases n
  {
    if f < n {
      hide Retired, Fits;
      assert IsStep(lim, ops, s, n - 1);
      RetiredUntil(lim, ops, s, f, n - 1, hash, since);
      StepRetired(lim, ops, s, n - 1, hash, since);
    }
  }

  /** Under the same two conditions a hash the node accepted is not sent again until the guard is
      used more than the ttl after its mark. */
  lemma AcceptedNotResent(lim: Limits, ops: seq<Op>, s: seq<Protocol>, f: nat, j: nat)
    requires IsRun(lim, ops, s) && f < j < |ops|
    requires forall m :: 0 <= m <= j ==> Fits(lim, ops, s, m) && Timely(lim, ops, s, m)
    requires ops[f].Finish? && ops[f].answer == Report(true) && ops[f].task in s[f].flights
    requires Sends(lim, ops, s, j, s[f].flights[ops[f].task].hash)
    ensures exists m :: f < m <= j && Prunes(ops[m]) && Age(ops[m].now, s[f].flights[ops[f].task].since) > lim.ttl
  {
    var hash, since := s[f].flights[ops[f].task].hash, s[f].flights[ops[f].task].since;
    KeptIffSuccess(ops[f].answer);
    hide TakesBack;
    AtMostOneInFlight(lim, ops, s, f);
    assert IsStep(lim, ops, s, f);
    assert Retired(s[f + 1], hash, since);
    if forall m :: f < m <= j && Prunes(ops[m]) ==> Age(ops[m].now, since) <= lim.ttl {
      hide Retired, Fits, Sends;
      RetiredUntil(lim, ops, s, f + 1, j, hash, since);
      assert IsStep(lim, ops, s, j);
      StepRetired(lim, ops, s, j, hash, since);
    }
  }

  // ---------- What the queue does not keep ----------

  /** A prune changes nothing while the front is live and there is room. */
  lemma PruneQuiet(g: Guard, lim: Limits, now: nat)
    requires g.order == [] || Holds(g, g.order[0], now)
    requires |g.entries| <= lim.maxEntries
    ensures Prune(g, lim, now) == g
  {
  }

  /** One entry over capacity, a prune evicts the hash at the front, wherever its mark stands. */
  lemma PruneEvictsFront(g: Guard, lim: Limits, now: nat)
    requires g.order != [] && Holds(g, g.order[0], now)
    requires |g.entries| == lim.maxEntries + 1
    ensures Prune(g, lim, now) == DropFront(g)
  {
    assert g.entries.Keys == DropFront(g).entries.Keys + {g.order[0]};
    assert DropExcess(DropFront(g), lim.maxEntries) == DropFront(g);
  }

  lemma MarkQuiet(lim: Limits, s: Protocol, op: Op)
    requires op.Mark? && op.task !in s.flights && op.hash !in s.guard.entries
    requires s.guard.order == [] || Holds(s.guard, s.guard.order[0], op.now)
    requires |s.guard.entries| <= lim.maxEntries
    ensures Step(lim, s, op) == Protocol(Queue(s.guard.entries[op.hash := Entry(op.now, ())], s.guard.order + [op.hash]),
                                         s.flights[op.task := Flight(op.hash, op.now)])
  {
    PruneQuiet(s.guard, lim, op.now);
  }

  /** Behind a live front, marking a hash and giving it up leaves the map as it was and the queue
      one tombstone longer. */
  lemma TombstoneStays(g: Guard, lim: Limits, hash: Key, now: nat)
    requires g.order != [] && Holds(g, g.order[0], now) && hash !in g.entries && |g.entries| < lim.maxEntries
    ensures Removed(Marked(g, lim, hash, now), lim, hash, now) == Queue(g.entries, g.order + [hash])
  {
    hide Prune;
    PruneQuiet(g, lim, now);
    var h := Queue(g.entries[hash := Entry(now, ())], g.order + [hash]);
    assert h.order[0] == g.order[0];
    PruneQuiet(h, lim, now);
    assert h.entries - {hash} == g.entries;
  }

  function Repeat(hash: Key, n: nat): seq<Key> {
    if n == 0 then [] else Repeat(hash, n - 1) + [hash]
  }

  /** The guard after a block `a` that stays marked and `n` failed attempts at `b`. */
  function AfterFailures(lim: Limits, a: Key, b: Key, n: nat): Guard {
    if n == 0 then Marked(EMPTY, lim, a, 0)
    else Removed(Marked(AfterFailures(lim, a, b, n - 1), lim, b, 0), lim, b, 0)
  }

  /** The queue has no length bound, with a single live entry. */
  lemma {:induction false} TombstonesAccumulate(lim: Limits, a: Key, b: Key, n: nat)
    requires lim.maxEntries >= 2 && a != b
    ensures AfterFailures(lim, a, b, n) == Queue(map[a := Entry(0, ())], [a] + Repeat(b, n))
  {
    hide Prune, Marked, Removed;
    if n == 0 {
      FirstMark(lim, a);
    } else {
      TombstonesAccumulate(lim, a, b, n - 1);
      OneMoreTombstone(lim, a, b, Repeat(b, n - 1));
      assert [a] + Repeat(b, n - 1) + [b] == [a] + Repeat(b, n);
    }
  }

  lemma FirstMark(lim: Limits, a: Key)
    ensures Marked(EMPTY, lim, a, 0) == Queue(map[a := Entry(0, ())], [a])
  {
    hide Prune;
    PruneQuiet(EMPTY, lim, 0);
  }

  lemma OneMoreTombstone(lim: Limits, a: Key, b: Key, tombs: seq<Key>)
    requires lim.maxEntries >= 2 && a != b
    ensures var g: Guard := Queue(map[a := Entry(0, ())], [a] + tombs);
            Removed(Marked(g, lim, b, 0), lim, b, 0) == Queue(g.entries, g.order + [b])
  {
    hide Prune, Marked, Removed;
    var g: Guard := Queue(map[a := Entry(0, ())], [a] + tombs);
    assert |g.entries| == 1;
    TombstoneStays(g, lim, b, 0);
  }

  // ---------- Exactly when a mark is forgotten ----------

  /** A prune at `now` drops the mark of a hash: every place up to its first one may go, or the
      marks without a place before that are over capacity. A hash that was marked, given up and
      marked again counts from the place of the first mark. */
  ghost predicate Forgets(g: Guard, lim: Limits, hash: Key, now: nat) {
    exists pos ::
      && FirstPlace(g.order, hash, pos)
      && ((forall i :: 0 <= i <= pos ==> Droppable(g, g.order[i], lim.ttl, now)) || LiveFrom(g, pos) > lim.maxEntries)
  }

  lemma PlaceOf(order: seq<Key>, k: Key) returns (pos: nat)
    requires k in order
    ensures FirstPlace(order, k, pos)
  {
    pos := 0;
    while order[pos] != k
      invariant pos < |order| && k !in order[..pos] && k in order[pos..]
      decreases |order| - pos
    {
      pos := pos + 1;
    }
  }

  lemma PlaceUnique(order: seq<Key>, k: Key, a: nat, b: nat)
    requires FirstPlace(order, k, a) && FirstPlace(order, k, b)
    ensures a == b
  {
    assert forall i :: 0 <= i < a ==> order[i] in order[..a];
    assert forall i :: 0 <= i < b ==> order[i] in order[..b];
  }

  lemma ForgetsIff(g: Guard, lim: Limits, hash: Key, now: nat)
    requires Covered(g) && hash in g.entries
    ensures hash !in Prune(g, lim, now).entries <==> Forgets(g, lim, hash, now)
  {
    var pos := PlaceOf(g.order, hash);
    LivePruned(g, lim, now, hash, pos);
    hide Prune, LiveFrom, Droppable, FirstPlace;
    if Forgets(g, lim, hash, now) {
      var p: nat :| && FirstPlace(g.order, hash, p)
                    && ((forall i :: 0 <= i <= p ==> Droppable(g, g.order[i], lim.ttl, now)) || LiveFrom(g, p) > lim.maxEntries);
      PlaceUnique(g.order, hash, pos, p);
    }
  }

  // ---------- Exactly when a hash is sent twice ----------

  /** No two calls in flight are on one hash. */
  ghost predicate Unique(s: Protocol) {
    forall t, u :: t in s.flights && u in s.flights && s.flights[t].hash == s.flights[u].hash ==> t == u
  }

  /** The mark of the hash is gone already, or the prune at `now` forgets it. */
  ghost predicate Unmarked(g: Guard, lim: Limits, hash: Key, now: nat) {
    hash !in g.entries || Forgets(g, lim, hash, now)
  }

  lemma UnmarkedIff(g: Guard, lim: Limits, hash: Key, now: nat)
    requires Covered(g)
    ensures CanMark(g, lim, hash, now) <==> Unmarked(g, lim, hash, now)
  {
    hide Prune, Forgets, Covered;
    PruneOnlyRemoves(g, lim, now, hash);
    if hash in g.entries {
      ForgetsIff(g, lim, hash, now);
    }
  }

  /** Operation `m` marks a hash that a call in flight is on, and whose mark does not stop it. */
  ghost predicate Resends(lim: Limits, ops: seq<Op>, s: seq<Protocol>, m: nat)
    requires m < |ops| < |s|
  {
    && ops[m].Mark?
    && (exists t :: t in s[m].flights && s[m].flights[t].hash == ops[m].hash)
    && Unmarked(s[m].guard, lim, ops[m].hash, ops[m].now)
  }

  lemma ResendingBreaks(lim: Limits, ops: seq<Op>, s: seq<Protocol>, m: nat)
    requires m < |ops| < |s| && IsStep(lim, ops, s, m) && Covered(s[m].guard) && Resends(lim, ops, s, m)
    ensures !Unique(s[m + 1])
  {
    UnmarkedIff(s[m].guard, lim, ops[m].hash, ops[m].now);
    hide CanMark, Marked, Unmarked, Covered;
    var t :| t in s[m].flights && s[m].flights[t].hash == ops[m].hash;
    assert t in s[m + 1].flights && ops[m].task in s[m + 1].flights && t != ops[m].task;
  }

  lemma OthersStayUnique(lim: Limits, ops: seq<Op>, s: seq<Protocol>, m: nat)
    requires m < |ops| < |s| && IsStep(lim, ops, s, m) && Covered(s[m].guard) && Unique(s[m]) && !Resends(lim, ops, s, m)
    ensures Unique(s[m + 1])
  {
    if ops[m].Mark? {
      UnmarkedIff(s[m].guard, lim, ops[m].hash, ops[m].now);
    }
    hide CanMark, Marked, Removed, TakesBack, Unmarked, Covered;
  }

  lemma {:induction false} UniqueUntil(lim: Limits, ops: seq<Op>, s: seq<Protocol>, n: nat)
    requires IsRun(lim, ops, s) && n < |s| && forall m :: 0 <= m < n ==> !Resends(lim, ops, s, m)
    ensures Unique(s[n])
  {
    if n > 0 {
      hide Step, Enabled, Resends, Unique, Covered;
      UniqueUntil(lim, ops, s, n - 1);
      RunCovered(lim, ops, s, n - 1);
      assert IsStep(lim, ops, s, n - 1);
      OthersStayUnique(lim, ops, s, n - 1);
    }
  }

  /** Through a whole run no hash is in flight twice if and only if no operation marks a hash that is
      in flight and whose mark is gone or forgotten by then. */
  lemma UniqueIff(lim: Limits, ops: seq<Op>, s: seq<Protocol>)
    requires IsRun(lim, ops, s)
    ensures (forall n :: 0 <= n < |s| ==> Unique(s[n])) <==> (forall m :: 0 <= m < |ops| ==> !Resends(lim, ops, s, m))
  {
    hide Step, Enabled, Unique, Resends, Covered;
    if forall n :: 0 <= n < |s| ==> Unique(s[n]) {
      forall m | 0 <= m < |ops| ensures !Resends(lim, ops, s, m) {
        if Resends(lim, ops, s, m) {
          RunCovered(lim, ops, s, m);
          assert IsStep(lim, ops, s, m);
          ResendingBreaks(lim, ops, s, m);
        }
      }
    }
    if forall m :: 0 <= m < |ops| ==> !Resends(lim, ops, s, m) {
      forall n | 0 <= n < |s| ensures Unique(s[n]) {
        UniqueUntil(lim, ops, s, n);
      }
    }
  }

  // ---------- Exactly when a mark in flight is lost ----------

  /** Operation `m` forgets the mark of a call that stays in flight. */
  ghost predicate Loses(lim: Limits, ops: seq<Op>, s: seq<Protocol>, m: nat)
    requires m < |ops| < |s|
  {
    && Prunes(ops[m])
    && exists t :: t in s[m].flights && (ops[m].Finish? ==> ops[m].task != t) && Forgets(s[m].guard, lim, s[m].flights[t].hash, ops[m].now)
  }

  lemma LosingBreaks(lim: Limits, ops: seq<Op>, s: seq<Protocol>, m: nat)
    requires m < |ops| < |s| && IsStep(lim, ops, s, m) && Covered(s[m].guard) && Exclusive(s[m]) && Loses(lim, ops, s, m)
    ensures !Exclusive(s[m + 1])
  {
    var t :| t in s[m].flights && (ops[m].Finish? ==> ops[m].task != t) && Forgets(s[m].guard, lim, s[m].flights[t].hash, ops[m].now);
    var hash := s[m].flights[t].hash;
    ForgetsIff(s[m].guard, lim, hash, ops[m].now);
    hide Prune, Forgets;
    assert t in s[m + 1].flights && s[m + 1].flights[t] == s[m].flights[t];
    if hash in s[m + 1].guard.entries {
      assert ops[m].Mark? && ops[m].hash == hash && ops[m].task in s[m + 1].flights && ops[m].task != t;
    }
  }

  lemma KeepingKeeps(lim: Limits, ops: seq<Op>, s: seq<Protocol>, m: nat)
    requires m < |ops| < |s| && IsStep(lim, ops, s, m) && Covered(s[m].guard) && Exclusive(s[m]) && !Loses(lim, ops, s, m)
    ensures Exclusive(s[m + 1])
  {
    forall t | t in s[m].flights && (ops[m].Finish? ==> ops[m].task != t) && Prunes(ops[m])
      ensures Holds(Prune(s[m].guard, lim, ops[m].now), s[m].flights[t].hash, s[m].flights[t].since)
    {
      ForgetsIff(s[m].guard, lim, s[m].flights[t].hash, ops[m].now);
      hide Prune, Forgets, Step;
      PruneOnlyRemoves(s[m].guard, lim, ops[m].now, s[m].flights[t].hash);
    }
    hide Prune, Loses, TakesBack;
    if ops[m].Mark? {
      MarkKeeps(lim, s[m], ops[m]);
    } else {
      FinishKeeps(lim, s[m], ops[m]);
    }
  }

  lemma MarkKeeps(lim: Limits, s: Protocol, op: Op)
    requires op.Mark? && Enabled(s, op) && Exclusive(s)
    requires forall t :: t in s.flights ==> Holds(Prune(s.guard, lim, op.now), s.flights[t].hash, s.flights[t].since)
    ensures Exclusive(Step(lim, s, op))
  {
    hide Prune;
  }

  lemma FinishKeeps(lim: Limits, s: Protocol, op: Op)
    requires op.Finish? && Enabled(s, op) && Exclusive(s)
    requires TakesBack(op.answer) ==>
      forall t :: t in s.flights && t != op.task ==> Holds(Prune(s.guard, lim, op.now), s.flights[t].hash, s.flights[t].since)
    ensures Exclusive(Step(lim, s, op))
  {
    hide Prune, TakesBack;
  }

  /** In a run every call in flight holds its own mark, and no two are on one hash, in every state
      if and only if no operation forgets the mark of a call that stays in flight. */
  lemma ExclusiveIff(lim: Limits, ops: seq<Op>, s: seq<Protocol>)
    requires IsRun(lim, ops, s)
    ensures (forall n :: 0 <= n < |s| ==> Exclusive(s[n])) <==> (forall m :: 0 <= m < |ops| ==> !Loses(lim, ops, s, m))
  {
    hide Exclusive, Loses;
    if forall n :: 0 <= n < |s| ==> Exclusive(s[n]) {
      forall m | 0 <= m < |ops| ensures !Loses(lim, ops, s, m) {
        if Loses(lim, ops, s, m) {
          RunCovered(lim, ops, s, m);
          assert IsStep(lim, ops, s, m);
          LosingBreaks(lim, ops, s, m);
        }
      }
    }
    if forall m :: 0 <= m < |ops| ==> !Loses(lim, ops, s, m) {
      forall n | 0 <= n < |s| ensures Exclusive(s[n]) {
        KeptUntil(lim, ops, s, n);
      }
    }
  }

  lemma {:induction false} KeptUntil(lim: Limits, ops: seq<Op>, s: seq<Protocol>, n: nat)
    requires IsRun(lim, ops, s) && n < |s| && forall m :: 0 <= m < n ==> !Loses(lim, ops, s, m)
    ensures Exclusive(s[n])
  {
    if n > 0 {
      hide Exclusive, Loses;
      KeptUntil(lim, ops, s, n - 1);
      RunCovered(lim, ops, s, n - 1);
      assert IsStep(lim, ops, s, n - 1);
      KeepingKeeps(lim, ops, s, n - 1);
    }
  }

  // ---------- The conditions are needed ----------

  /** A hash whose call outlives the ttl is sent again although there is room. */
  lemma LateCallBreaksExclusion(lim: Limits, a: Key) returns (ops: seq<Op>, s: seq<Protocol>)
    requires lim.maxEntries >= 1
    ensures IsRun(lim, ops, s) && |ops| == 2 && (forall m :: 0 <= m < |ops| ==> Fits(lim, ops, s, m))
    ensures 0 in s[1].flights && s[1].flights[0].hash == a && Sends(lim, ops, s, 1, a)
  {
    var late := lim.ttl + 1;
    ops := [Mark(0, a, 0), Mark(1, a, late)];
    var s0 := Protocol(EMPTY, map[]);
    var g := Queue(map[a := Entry(0, ())], [a]);
    var s1 := Protocol(g, map[0 := Flight(a, 0)]);
    assert Prune(EMPTY, lim, 0) == EMPTY;
    assert Step(lim, s0, ops[0]) == s1;
    assert DropFront(g) == EMPTY && DropExpired(g, lim.ttl, late) == DropExpired(EMPTY, lim.ttl, late) == EMPTY;
    assert Prune(g, lim, late) == EMPTY;
    s := [s0, s1, Step(lim, s1, ops[1])];
    assert s1.flights[0].hash == a;
    assert IsStep(lim, ops, s, 0) && IsStep(lim, ops, s, 1);
    assert |EMPTY.entries| == 0;
    assert Fits(lim, ops, s, 0) && Fits(lim, ops, s, 1);
  }

  /** A hash the node did not take, whatever the node or the client said of it, can be sent again at
      once. */
  lemma RefusedIsSentAgain(lim: Limits, a: Key, answer: NodeAnswer, now: nat) returns (ops: seq<Op>, s: seq<Protocol>)
    requires lim.maxEntries >= 1 && answer != Report(true)
    ensures IsRun(lim, ops, s) && |ops| == 3 && ops[1] == Finish(0, answer, now)
    ensures Sends(lim, ops, s, 0, a) && GivesUp(ops, s, 1, a) && Sends(lim, ops, s, 2, a)
  {
    var g, h: Guard := Queue(map[a := Entry(now, ())], [a]), Queue(map[], [a]);
    var s0, s1, s2 := Protocol(EMPTY, map[]), Protocol(g, map[0 := Flight(a, now)]), Protocol(h, map[]);
    ops := [Mark(0, a, now), Finish(0, answer, now), Mark(1, a, now)];
    KeptIffSuccess(answer);
    FirstMarked(lim, a, now);
    FirstRefused(lim, a, answer, now);
    FrontTombstone(lim, a, now);
    hide Step, Prune, TakesBack;
    s := ThreeSteps(lim, ops, s0, s1, s2);
  }

  lemma ThreeSteps(lim: Limits, ops: seq<Op>, s0: Protocol, s1: Protocol, s2: Protocol) returns (s: seq<Protocol>)
    requires |ops| == 3 && s0 == Protocol(EMPTY, map[])
    requires Enabled(s0, ops[0]) && s1 == Step(lim, s0, ops[0])
    requires Enabled(s1, ops[1]) && s2 == Step(lim, s1, ops[1]) && Enabled(s2, ops[2])
    ensures IsRun(lim, ops, s) && s[0] == s0 && s[1] == s1 && s[2] == s2
  {
    hide Step, Enabled;
    s := [s0, s1, s2, Step(lim, s2, ops[2])];
    forall m | 0 <= m < 3 ensures IsStep(lim, ops, s, m) {
      assert m == 0 || m == 1 || m == 2;
    }
  }

  lemma FirstMarked(lim: Limits, a: Key, now: nat)
    ensures Prune(EMPTY, lim, now) == EMPTY
    ensures Step(lim, Protocol(EMPTY, map[]), Mark(0, a, now))
            == Protocol(Queue(map[a := Entry(now, ())], [a]), map[0 := Flight(a, now)])
  {
    MarkedOnce(lim, a, now);
    hide Prune;
  }

  lemma FirstRefused(lim: Limits, a: Key, answer: NodeAnswer, now: nat)
    requires lim.maxEntries >= 1 && TakesBack(answer)
    ensures Step(lim, Protocol(Queue(map[a := Entry(now, ())], [a]), map[0 := Flight(a, now)]), Finish(0, answer, now))
            == Protocol(Queue(map[], [a]), map[])
  {
    var g: Guard := Queue(map[a := Entry(now, ())], [a]);
    PruneQuiet(g, lim, now);
    hide Prune, TakesBack;
    assert g.entries - {a} == map[] && map[0 := Flight(a, now)] - {0} == map[];
  }

  lemma MarkedOnce(lim: Limits, a: Key, now: nat)
    ensures Prune(EMPTY, lim, now) == EMPTY
    ensures Marked(EMPTY, lim, a, now) == Queue(map[a := Entry(now, ())], [a])
  {
  }

  lemma FrontTombstone(lim: Limits, a: Key, now: nat)
    ensures Prune(Queue(map[], [a]), lim, now) == EMPTY
  {
    var h: Guard := Queue(map[], [a]);
    assert DropFront(h) == EMPTY;
    assert DropExpired(h, lim.ttl, now) == DropExpired(EMPTY, lim.ttl, now) == EMPTY;
  }

  /** The state after marking the given hashes at time zero, none of them answered. */
  function Filled(keys: seq<Key>): Protocol {
    Protocol(Queue(map k | k in keys :: Entry(0, ()), keys), map i: nat | i < |keys| :: Flight(keys[i], 0))
  }

  lemma FilledSize(keys: seq<Key>)
    requires NoDuplicates(keys)
    ensures |Filled(keys).guard.entries| == |keys|
  {
    DistinctCount(keys);
    assert Filled(keys).guard.entries.Keys == Elements(keys);
  }

  lemma NewKey(keys: seq<Key>, k: Key)
    requires NoDuplicates(keys + [k])
    ensures NoDuplicates(keys) && k !in keys
  {
    var keys' := keys + [k];
    assert forall i :: 0 <= i < |keys| ==> keys[i] == keys'[i];
    assert keys'[|keys|] == k;
  }

  lemma FilledMore(keys: seq<Key>, k: Key)
    requires k !in keys
    ensures Filled(keys + [k])
            == Protocol(Queue(Filled(keys).guard.entries[k := Entry(0, ())], keys + [k]),
                        Filled(keys).flights[|keys| := Flight(k, 0)])
  {
    var keys' := keys + [k];
    assert forall x :: x in keys' <==> x in keys || x == k;
    assert Filled(keys').guard.entries == Filled(keys).guard.entries[k := Entry(0, ())];
    assert Filled(keys').flights == Filled(keys).flights[|keys| := Flight(k, 0)];
  }

  lemma FilledFront(keys: seq<Key>)
    ensures keys == [] || Holds(Filled(keys).guard, keys[0], 0)
  {
  }

  lemma FillOne(lim: Limits, keys: seq<Key>, k: Key)
    requires NoDuplicates(keys + [k]) && |keys| <= lim.maxEntries
    ensures Step(lim, Filled(keys), Mark(|keys|, k, 0)) == Filled(keys + [k])
  {
    NewKey(keys, k);
    FilledSize(keys);
    FilledMore(keys, k);
    FilledFront(keys);
    var s := Filled(keys);
    assert s.guard.order == keys && k !in s.guard.entries && |keys| !in s.flights;
    hide Filled, Step, Holds;
    MarkQuiet(lim, s, Mark(|keys|, k, 0));
  }

  lemma {:induction false} FillRun(lim: Limits, keys: seq<Key>) returns (ops: seq<Op>, s: seq<Protocol>)
    requires NoDuplicates(keys) && |keys| <= lim.maxEntries + 1
    ensures IsRun(lim, ops, s) && |ops| == |keys| && s[|ops|] == Filled(keys)
    ensures forall m :: 0 <= m < |ops| ==> ops[m].now == 0 && Timely(lim, ops, s, m)
    decreases |keys|
  {
    if keys == [] {
      ops, s := [], [Protocol(EMPTY, map[])];
      assert Filled(keys).guard == EMPTY && Filled(keys).flights == map[];
    } else {
      var n := |keys| - 1;
      var prev, k := keys[..n], keys[n];
      assert keys == prev + [k];
      var ops0, s0 := FillRun(lim, prev);
      FillOne(lim, prev, k);
      ops, s := ExtendRun(lim, ops0, s0, Mark(n, k, 0));
    }
  }

  lemma ExtendRun(lim: Limits, ops0: seq<Op>, s0: seq<Protocol>, op: Op) returns (ops: seq<Op>, s: seq<Protocol>)
    requires IsRun(lim, ops0, s0) && Enabled(s0[|ops0|], op) && op.now == 0
    requires forall m :: 0 <= m < |ops0| ==> ops0[m].now == 0 && Timely(lim, ops0, s0, m)
    ensures ops == ops0 + [op] && s == s0 + [Step(lim, s0[|ops0|], op)] && IsRun(lim, ops, s)
    ensures forall m :: 0 <= m < |ops| ==> ops[m].now == 0 && Timely(lim, ops, s, m)
  {
    hide Step;
    ops, s := ops0 + [op], s0 + [Step(lim, s0[|ops0|], op)];
    forall m | 0 <= m < |ops| ensures IsStep(lim, ops, s, m) && ops[m].now == 0 && Timely(lim, ops, s, m) {
      if m < |ops0| {
        assert IsStep(lim, ops0, s0, m) && Timely(lim, ops0, s0, m);
      }
    }
  }

  /** Over capacity the first hash is sent again although its call is still waiting and timely: it
      takes as many other hashes as the guard has room for. */
  lemma EvictionResends(lim: Limits, keys: seq<Key>) returns (ops: seq<Op>, s: seq<Protocol>)
    requires NoDuplicates(keys) && |keys| == lim.maxEntries + 1
    ensures IsRun(lim, ops, s) && |ops| == |keys| + 1 && (forall m :: 0 <= m < |ops| ==> Timely(lim, ops, s, m))
    ensures 0 in s[|keys|].flights && s[|keys|].flights[0].hash == keys[0] && Sends(lim, ops, s, |keys|, keys[0])
  {
    var n := |keys|;
    var ops0, s0 := FillRun(lim, keys);
    FilledSize(keys);
    PruneEvictsFront(Filled(keys).guard, lim, 0);
    ops, s := ExtendRun(lim, ops0, s0, Mark(n, keys[0], 0));
    assert s[n] == s0[n] == Filled(keys);
  }

  /** There are such hashes for every capacity, the configured 50,000 included. */
  lemma EvictionBreaksExclusion(lim: Limits) returns (ops: seq<Op>, s: seq<Protocol>)
    ensures IsRun(lim, ops, s) && (forall m :: 0 <= m < |ops| ==> Timely(lim, ops, s, m)) && !Exclusive(s[|ops|])
  {
    var keys: seq<Key> := seq(lim.maxEntries + 1, i requires i >= 0 => Text.Decimal(i));
    forall i, j | 0 <= i < j < |keys| ensures keys[i] != keys[j] {
      Text.DecimalRoundTrip(i);
      Text.DecimalRoundTrip(j);
    }
    ops, s := EvictionResends(lim, keys);
    var n := |keys|;
    assert IsStep(lim, ops, s, n);
    hide Prune;
    assert s[n + 1].flights[0].hash == s[n + 1].flights[ops[n].task].hash && ops[n].task != 0;
  }
}
