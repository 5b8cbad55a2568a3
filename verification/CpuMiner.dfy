/** The internal CPU miner: a publisher puts block templates into a slot with a version, and
    threads take them out and try the nonces of their lanes on them. Every section under the slot's
    lock, and every other access to something shared, is one step. */
module CpuMiner {
  import opened Wrappers
  import opened NonceLanes

  const VERSIONS: nat := 0x1_0000_0000_0000_0000

  datatype Work = Work(id: nat, block: string)

  datatype Slot = Slot(version: nat, work: Option<Work>)

  function Publish(slot: Slot, w: Work): Slot {
    Slot((slot.version + 1) % VERSIONS, Some(w))
  }

  /** What `wait_for_update` answers once it stops waiting. */
  function Update(slot: Slot, lastSeen: nat): (nat, Option<Work>) {
    if slot.version == lastSeen then (lastSeen, None) else (slot.version, slot.work)
  }

  predicate Awake(slot: Slot, lastSeen: nat, shutdown: bool) {
    slot.version != lastSeen || shutdown
  }

  class SharedWork {
    var work: Option<Work>
    var version: nat

    constructor ()
      ensures State() == Slot(0, None)
    {
      work := None;
      version := 0;
    }

    function State(): Slot
      reads this
    {
      Slot(version, work)
    }

    method PublishWork(w: Work)
      modifies this
      ensures State() == Publish(old(State()), w)
    {
      version := (version + 1) % VERSIONS;
      work := Some(w);
    }

    /** `wait_for_update` from where its wait is over. */
    method TakeUpdate(lastSeen: nat, shutdown: bool) returns (ver: nat, w: Option<Work>)
      requires Awake(State(), lastSeen, shutdown)
      ensures (ver, w) == Update(State(), lastSeen)
    {
      if shutdown && version == lastSeen {
        return lastSeen, None;
      }
      return version, work;
    }
  }

  // ---------- The machine ----------

  datatype Phase =
    | Top         // at the head of the outer loop
    | Waiting     // in `wait_for_update`
    | Checking    // at the head of the inner loop
    | Testing     // about to try the nonce
    | Rechecking  // nonce advanced
    | Comparing   // about to look at the slot's version
    | Done

  /** A miner thread; `tries` and `received` record how often its nonce has advanced and which
      versions it was given. */
  datatype Thread = Thread(phase: Phase, last: nat, work: Option<Work>, nonce: nat, tries: nat, received: seq<nat>)

  datatype Sent = Sent(thread: nat, version: nat, work: Work, nonce: nat, tries: nat)

  /** `published` and `sent` are everything ever published and everything sent to the submitter. */
  datatype Miner = Miner(slot: Slot, shutdown: bool, nextId: nat, threads: seq<Thread>, published: seq<Work>, sent: seq<Sent>)

  datatype Action = FetchTemplate(block: string) | Shutdown | Run(t: nat)

  function Threads(configured: nat): (n: nat)
    ensures n >= 1 && n >= configured && (n == 1 || n == configured)
  {
    if configured > 1 then configured else 1
  }

  function Start(configured: nat): Miner {
    var n := Threads(configured);
    Miner(Slot(0, None), false, 0, seq(n, i => Thread(Top, 0, None, (i * STRIDE) % NONCES, 0, [])), [], [])
  }

  predicate Enabled(s: Miner, a: Action) {
    a.Run? ==>
      && a.t < |s.threads|
      && var th := s.threads[a.t];
      th.phase != Done && (th.phase == Waiting ==> Awake(s.slot, th.last, s.shutdown))
  }

  predicate Working(th: Thread) {
    th.phase == Checking || th.phase == Testing || th.phase == Rechecking || th.phase == Comparing
  }

  /** One step of a thread that neither waits nor has found a block. */
  function Moved(pow: (string, nat) -> bool, s: Miner, th: Thread, n: nat): Thread {
    match th.phase
    case Top => th.(phase := if s.shutdown then Done else Waiting)
    case Waiting =>
      var (ver, w) := Update(s.slot, th.last);
      th.(phase := if w.Some? then Checking else Top, last := ver, work := w,
          received := if ver == th.last then th.received else th.received + [ver])
    case Checking => th.(phase := if s.shutdown then Done else Testing)
    case Testing =>
      if th.work.Some? && pow(th.work.value.block, th.nonce) then th.(phase := Top)
      else th.(phase := Rechecking, nonce := (th.nonce + n) % NONCES, tries := th.tries + 1)
    case Rechecking => th.(phase := if s.shutdown then Done else Comparing)
    case Comparing => th.(phase := if s.slot.version != th.last then Top else Checking)
    case Done => th
  }

  predicate Finds(pow: (string, nat) -> bool, th: Thread) {
    th.phase == Testing && th.work.Some? && pow(th.work.value.block, th.nonce)
  }

  function Step(pow: (string, nat) -> bool, s: Miner, a: Action): Miner
    requires Enabled(s, a)
  {
    match a
    case FetchTemplate(block) =>
      var w := Work(s.nextId, block);
      s.(nextId := (s.nextId + 1) % VERSIONS, slot := Publish(s.slot, w), published := s.published + [w])
    case Shutdown => s.(shutdown := true)
    case Run(t) =>
      var th := s.threads[t];
      var s' := s.(threads := s.threads[t := Moved(pow, s, th, |s.threads|)]);
      if Finds(pow, th) then s'.(sent := s.sent + [Sent(t, th.last, th.work.value, th.nonce, th.tries)]) else s'
  }

  ghost predicate IsRun(pow: (string, nat) -> bool, configured: nat, actions: seq<Action>, states: seq<Miner>) {
    && |states| == |actions| + 1
    && states[0] == Start(configured)
    && forall m :: 0 <= m < |actions| ==> IsStep(pow, actions, states, m)
  }

  ghost predicate IsStep(pow: (string, nat) -> bool, actions: seq<Action>, states: seq<Miner>, m: nat)
    requires m < |actions| < |states|
  {
    Enabled(states[m], actions[m]) && states[m + 1] == Step(pow, states[m], actions[m])
  }

  // ---------- Invariant ----------

  predicate Increasing(v: seq<nat>) {
    forall i, j :: 0 <= i < j < |v| ==> v[i] < v[j]
  }

  /** The slot holds what was published under its version, and ids count the publications. */
  ghost predicate SlotInv(s: Miner) {
    && s.slot.version == |s.published| == s.nextId
    && s.slot.work == (if s.published == [] then None else Some(s.published[|s.published| - 1]))
    && forall v :: 0 <= v < |s.published| ==> s.published[v].id == v
  }

  /** A thread's versions increase up to the last one it was given, whose work it works on. */
  ghost predicate VersionsInv(published: seq<Work>, th: Thread) {
    && Increasing(th.received)
    && (forall i :: 0 <= i < |th.received| ==> 1 <= th.received[i] <= |published|)
    && th.last == (if th.received == [] then 0 else th.received[|th.received| - 1])
    && (Working(th) ==> th.received != [] && th.work == Some(published[th.last - 1]))
  }

  ghost predicate ThreadInv(n: nat, published: seq<Work>, th: Thread, t: nat) {
    th.nonce == Nonce(n, t, th.tries) && VersionsInv(published, th)
  }

  ghost predicate ThreadsInv(s: Miner) {
    forall t :: 0 <= t < |s.threads| ==> ThreadInv(|s.threads|, s.published, s.threads[t], t)
  }

  /** A block that was sent was found, in its thread's lane, on the work of a version the thread had
      been given; while the thread works on its last version it has not yet sent a block for it. */
  ghost predicate SentInv(pow: (string, nat) -> bool, s: Miner, b: Sent) {
    && b.thread < |s.threads|
    && 1 <= b.version <= |s.published| && b.work == s.published[b.version - 1]
    && pow(b.work.block, b.nonce) && b.nonce == Nonce(|s.threads|, b.thread, b.tries)
    && b.version in s.threads[b.thread].received
    && b.version <= s.threads[b.thread].last
    && (Working(s.threads[b.thread]) ==> b.version < s.threads[b.thread].last)
  }

  ghost predicate SentsInv(pow: (string, nat) -> bool, s: Miner) {
    forall a :: 0 <= a < |s.sent| ==> SentInv(pow, s, s.sent[a])
  }

  ghost predicate OrderInv(sent: seq<Sent>) {
    forall a, b :: 0 <= a < b < |sent| && sent[a].thread == sent[b].thread ==> sent[a].version < sent[b].version
  }

  ghost predicate Inv(pow: (string, nat) -> bool, s: Miner) {
    SlotInv(s) && ThreadsInv(s) && SentsInv(pow, s) && OrderInv(s.sent)
  }

  lemma StartInv(pow: (string, nat) -> bool, configured: nat)
    ensures Inv(pow, Start(configured)) && |Start(configured).threads| == Threads(configured)
  {
  }

  lemma MovedVersions(pow: (string, nat) -> bool, s: Miner, th: Thread, n: nat)
    requires SlotInv(s) && VersionsInv(s.published, th) && (th.phase == Waiting ==> Awake(s.slot, th.last, s.shutdown))
    ensures VersionsInv(s.published, Moved(pow, s, th, n))
  {
    var th' := Moved(pow, s, th, n);
    if th.phase == Waiting && s.slot.version != th.last {
      var v := |s.published|;
      assert th' == th.(phase := Checking, last := v, work := Some(s.published[v - 1]), received := th.received + [v]);
      hide Moved, Update;
    } else {
      assert th'.received == th.received && th'.last == th.last && (Working(th') ==> Working(th) && th'.work == th.work);
      hide Moved, Update, Increasing, Working, SlotInv;
    }
  }

  lemma MovedLane(pow: (string, nat) -> bool, s: Miner, th: Thread, n: nat, t: nat)
    requires th.nonce == Nonce(n, t, th.tries)
    ensures var th' := Moved(pow, s, th, n); th'.nonce == Nonce(n, t, th'.tries)
  {
    assert Nonce(n, t, th.tries + 1) == (Nonce(n, t, th.tries) + n) % NONCES;
    hide Update;
  }

  lemma PublishInv(pow: (string, nat) -> bool, s: Miner, block: string)
    requires Inv(pow, s) && |s.published| + 1 < VERSIONS
    ensures Inv(pow, Step(pow, s, FetchTemplate(block)))
  {
    var s' := Step(pow, s, FetchTemplate(block));
    forall t | 0 <= t < |s'.threads| ensures ThreadInv(|s'.threads|, s'.published, s'.threads[t], t) {
      assert ThreadInv(|s.threads|, s.published, s.threads[t], t);
    }
    forall a | 0 <= a < |s'.sent| ensures SentInv(pow, s', s'.sent[a]) {
      assert SentInv(pow, s, s.sent[a]);
    }
  }

  /** A step keeps the versions given so far, and gives a thread that comes to work a newer one. */
  lemma MovedReceived(pow: (string, nat) -> bool, s: Miner, th: Thread, n: nat)
    requires SlotInv(s) && VersionsInv(s.published, th) && (th.phase == Waiting ==> Awake(s.slot, th.last, s.shutdown))
    ensures var th' := Moved(pow, s, th, n);
      && th.received <= th'.received && th.last <= th'.last
      && (Working(th') ==> Working(th) || th.last < th'.last)
      && (Finds(pow, th) ==> !Working(th') && th'.last == th.last && th.last in th'.received)
  {
  }

  /** What a step of thread `t` changes. */
  lemma RunShape(pow: (string, nat) -> bool, s: Miner, t: nat)
    requires Enabled(s, Run(t))
    ensures var s', th := Step(pow, s, Run(t)), s.threads[t];
      && s'.threads == s.threads[t := Moved(pow, s, th, |s.threads|)]
      && s'.sent == s.sent + (if Finds(pow, th) then [Sent(t, th.last, th.work.value, th.nonce, th.tries)] else [])
      && s'.published == s.published && s'.slot == s.slot && s'.nextId == s.nextId
  {
    hide Moved;
  }

  lemma MovedInv(pow: (string, nat) -> bool, s: Miner, t: nat)
    requires SlotInv(s) && Enabled(s, Run(t)) && ThreadInv(|s.threads|, s.published, s.threads[t], t)
    ensures ThreadInv(|s.threads|, s.published, Moved(pow, s, s.threads[t], |s.threads|), t)
  {
    hide Moved, Nonce, SlotInv, Increasing;
    MovedVersions(pow, s, s.threads[t], |s.threads|);
    MovedLane(pow, s, s.threads[t], |s.threads|, t);
  }

  lemma RunInv(pow: (string, nat) -> bool, s: Miner, t: nat)
    requires Inv(pow, s) && Enabled(s, Run(t))
    ensures Inv(pow, Step(pow, s, Run(t)))
  {
    var s', th := Step(pow, s, Run(t)), s.threads[t];
    assert ThreadInv(|s.threads|, s.published, th, t);
    RunShape(pow, s, t);
    hide Step, Moved, Nonce, SentsInv, OrderInv, Increasing;
    assert SlotInv(s');
    MovedReceived(pow, s, th, |s.threads|);
    hide SlotInv, Working, Finds;
    MovedInv(pow, s, t);
    hide ThreadInv, VersionsInv;
    ThreadsKept(s, s', t);
    SentsKept(pow, s, s', t);
  }

  lemma ThreadsKept(s: Miner, s': Miner, t: nat)
    requires ThreadsInv(s) && t < |s.threads| == |s'.threads| && s'.published == s.published
    requires s'.threads == s.threads[t := s'.threads[t]] && ThreadInv(|s.threads|, s.published, s'.threads[t], t)
    ensures ThreadsInv(s')
  {
    hide ThreadInv;
    forall t' | 0 <= t' < |s'.threads| ensures ThreadInv(|s'.threads|, s'.published, s'.threads[t'], t') {
      assert ThreadInv(|s.threads|, s.published, s.threads[t'], t');
    }
  }

  lemma SentsKept(pow: (string, nat) -> bool, s: Miner, s': Miner, t: nat)
    requires SentsInv(pow, s) && OrderInv(s.sent) && t < |s.threads| == |s'.threads| && s'.published == s.published
    requires s'.threads == s.threads[t := s'.threads[t]] && ThreadInv(|s.threads|, s.published, s.threads[t], t)
    requires var th, th' := s.threads[t], s'.threads[t];
      && th.received <= th'.received && th.last <= th'.last
      && (Working(th') ==> Working(th) || th.last < th'.last)
      && (Finds(pow, th) ==> !Working(th') && th'.last == th.last && th.last in th'.received)
      && s'.sent == s.sent + (if Finds(pow, th) then [Sent(t, th.last, th.work.value, th.nonce, th.tries)] else [])
    ensures SentsInv(pow, s') && OrderInv(s'.sent)
  {
    hide Nonce;
    forall a | 0 <= a < |s'.sent| ensures SentInv(pow, s', s'.sent[a]) {
      if a < |s.sent| {
        assert SentInv(pow, s, s.sent[a]);
      }
    }
    forall a, b | 0 <= a < b < |s'.sent| && s'.sent[a].thread == s'.sent[b].thread
      ensures s'.sent[a].version < s'.sent[b].version
    {
      assert SentInv(pow, s, s.sent[a]);
    }
  }

  // ---------- Runs ----------

  /** In every run that publishes fewer templates than there are versions, every state keeps the
      invariant. */
  lemma {:induction false} RunsKeepInv(pow: (string, nat) -> bool, configured: nat,
      actions: seq<Action>, states: seq<Miner>, n: nat)
    requires IsRun(pow, configured, actions, states) && n <= |actions| && |states[n].published| < VERSIONS
    ensures Inv(pow, states[n]) && |states[n].threads| == Threads(configured)
  {
    if n == 0 {
      StartInv(pow, configured);
    } else {
      assert IsStep(pow, actions, states, n - 1);
      var s := states[n - 1];
      StepGrows(pow, s, actions[n - 1]);
      hide Step, Inv;
      RunsKeepInv(pow, configured, actions, states, n - 1);
      StepInv(pow, s, actions[n - 1]);
    }
  }

  lemma StepGrows(pow: (string, nat) -> bool, s: Miner, a: Action)
    requires Enabled(s, a)
    ensures s.published <= Step(pow, s, a).published && |Step(pow, s, a).threads| == |s.threads|
  {
    hide Moved;
  }

  lemma StepInv(pow: (string, nat) -> bool, s: Miner, a: Action)
    requires Inv(pow, s) && Enabled(s, a) && |Step(pow, s, a).published| < VERSIONS
    ensures Inv(pow, Step(pow, s, a))
  {
    match a
    case FetchTemplate(block) =>
      PublishInv(pow, s, block);
    case Shutdown =>
      var s' := Step(pow, s, a);
      forall i | 0 <= i < |s'.sent| ensures SentInv(pow, s', s'.sent[i]) {
        assert SentInv(pow, s, s.sent[i]);
      }
    case Run(t) =>
      RunInv(pow, s, t);
  }

  /** What a thread works on is what was published under the version it was given last, the
      versions it is given strictly increase, and no template of an earlier version is left in the
      slot. */
  lemma WorkMatchesVersion(pow: (string, nat) -> bool, configured: nat,
      actions: seq<Action>, states: seq<Miner>, n: nat, t: nat)
    requires IsRun(pow, configured, actions, states) && n <= |actions| && |states[n].published| < VERSIONS
    requires t < Threads(configured)
    ensures var s := states[n];
      && |s.threads| == Threads(configured) && s.slot.version == |s.published|
      && (s.published != [] ==> s.slot.work == Some(s.published[s.slot.version - 1]))
    ensures var s, th := states[n], states[n].threads[t];
      && Increasing(th.received)
      && (Working(th) ==> th.received != [] && th.last == th.received[|th.received| - 1]
                          && 1 <= th.last <= |s.published| && th.work == Some(s.published[th.last - 1]))
  {
    RunsKeepInv(pow, configured, actions, states, n);
    assert ThreadInv(|states[n].threads|, states[n].published, states[n].threads[t], t);
  }

  /** Every block sent passes its test, on the work of a version its thread was given; a thread
      sends at most one block per version, and in the order of the versions. */
  lemma OneBlockPerVersion(pow: (string, nat) -> bool, configured: nat, actions: seq<Action>, states: seq<Miner>, n: nat)
    requires IsRun(pow, configured, actions, states) && n <= |actions| && |states[n].published| < VERSIONS
    ensures var s := states[n];
      forall a :: 0 <= a < |s.sent| ==>
        && 1 <= s.sent[a].version <= |s.published| && s.sent[a].work == s.published[s.sent[a].version - 1]
        && pow(s.sent[a].work.block, s.sent[a].nonce)
        && s.sent[a].thread < |s.threads| && s.sent[a].version in s.threads[s.sent[a].thread].received
    ensures var s := states[n];
      forall a, b :: 0 <= a < b < |s.sent| && s.sent[a].thread == s.sent[b].thread ==> s.sent[a].version < s.sent[b].version
  {
    RunsKeepInv(pow, configured, actions, states, n);
    var s := states[n];
    hide IsRun;
    forall a | 0 <= a < |s.sent|
      ensures && 1 <= s.sent[a].version <= |s.published| && s.sent[a].work == s.published[s.sent[a].version - 1]
              && pow(s.sent[a].work.block, s.sent[a].nonce)
              && s.sent[a].thread < |s.threads| && s.sent[a].version in s.threads[s.sent[a].thread].received
    {
      assert SentInv(pow, s, s.sent[a]);
    }
  }

  /** When the lanes are disjoint, no two blocks that are sent have the same template and nonce. */
  lemma SentBlocksDistinct(pow: (string, nat) -> bool, configured: nat,
      actions: seq<Action>, states: seq<Miner>, n: nat, a: nat, b: nat)
    requires IsRun(pow, configured, actions, states) && n <= |actions| && |states[n].published| < VERSIONS
    requires a < b < |states[n].sent| && PowerOfTwo(Threads(configured))
    ensures states[n].sent[a].work.id != states[n].sent[b].work.id || states[n].sent[a].nonce != states[n].sent[b].nonce
  {
    RunsKeepInv(pow, configured, actions, states, n);
    var s, x, y := states[n], states[n].sent[a], states[n].sent[b];
    assert SentInv(pow, s, x) && SentInv(pow, s, y);
    if x.thread != y.thread {
      LanesForever(Threads(configured));
      LanesApart(Threads(configured), x.thread, y.thread, x.tries, y.tries);
    }
  }

  lemma LanesApart(n: nat, i: nat, j: nat, k: nat, l: nat)
    requires DisjointForever(n) && i < n && j < n && i != j
    ensures Nonce(n, i, k) != Nonce(n, j, l)
  {
    hide Nonce;
    if i < j {
      assert Nonce(n, i, k) != Nonce(n, j, l);
    } else {
      assert Nonce(n, j, l) != Nonce(n, i, k);
    }
  }

  // ---------- New work ----------

  /** The nonces a thread may still try before it looks at the version of the slot. */
  function TriesLeft(p: Phase): nat {
    if p == Checking || p == Testing then 1 else 0
  }

  lemma OutdatedStep(pow: (string, nat) -> bool, s: Miner, th: Thread, n: nat)
    requires s.slot.version != th.last
    ensures var th' := Moved(pow, s, th, n);
      th'.last == th.last ==> th'.tries + TriesLeft(th'.phase) <= th.tries + TriesLeft(th.phase)
  {
  }

  lemma {:induction false} VersionsGrow(pow: (string, nat) -> bool, configured: nat,
      actions: seq<Action>, states: seq<Miner>, m: nat, n: nat, t: nat)
    requires IsRun(pow, configured, actions, states) && m <= n <= |actions| && |states[n].published| < VERSIONS
    requires t < Threads(configured)
    ensures |states[m].threads| == |states[n].threads| == Threads(configured) && |states[m].published| < VERSIONS
    ensures states[m].slot.version <= states[n].slot.version
    ensures states[m].threads[t].last <= states[n].threads[t].last <= states[n].slot.version
    decreases n
  {
    RunsKeepInv(pow, configured, actions, states, n);
    assert ThreadInv(|states[n].threads|, states[n].published, states[n].threads[t], t);
    if m < n {
      assert IsStep(pow, actions, states, n - 1);
      StepGrows(pow, states[n - 1], actions[n - 1]);
      RunsKeepInv(pow, configured, actions, states, n - 1);
      LastStep(pow, states[n - 1], actions[n - 1], t);
      hide Step, Inv;
      VersionsGrow(pow, configured, actions, states, m, n - 1, t);
    }
  }

  lemma LastStep(pow: (string, nat) -> bool, s: Miner, a: Action, t: nat)
    requires Inv(pow, s) && Enabled(s, a) && t < |s.threads| && |Step(pow, s, a).published| < VERSIONS
    ensures var s' := Step(pow, s, a);
      |s'.threads| == |s.threads| && s.threads[t].last <= s'.threads[t].last && s.slot.version <= s'.slot.version
  {
    assert ThreadInv(|s.threads|, s.published, s.threads[t], t);
    hide Nonce, Increasing, Moved, Finds, Working, SentsInv, OrderInv;
    if a == Run(t) {
      MovedReceived(pow, s, s.threads[t], |s.threads|);
    }
  }

  /** Once there is newer work a thread tries at most one more nonce on the old. */
  lemma {:induction false} OneMoreTry(pow: (string, nat) -> bool, configured: nat,
      actions: seq<Action>, states: seq<Miner>, m: nat, n: nat, t: nat)
    requires IsRun(pow, configured, actions, states) && m <= n <= |actions| && |states[n].published| < VERSIONS
    requires t < Threads(configured) && |states[m].threads| == |states[n].threads| == Threads(configured)
    requires states[m].slot.version != states[m].threads[t].last == states[n].threads[t].last
    ensures states[n].threads[t].tries + TriesLeft(states[n].threads[t].phase)
            <= states[m].threads[t].tries + TriesLeft(states[m].threads[t].phase)
    ensures states[n].threads[t].tries <= states[m].threads[t].tries + 1
    decreases n
  {
    if m < n {
      VersionsGrow(pow, configured, actions, states, n - 1, n, t);
      VersionsGrow(pow, configured, actions, states, m, n - 1, t);
      VersionsGrow(pow, configured, actions, states, m, m, t);
      assert IsStep(pow, actions, states, n - 1);
      OneMoreStep(pow, states[n - 1], actions[n - 1], t);
      hide Step, IsRun, TriesLeft;
      OneMoreTry(pow, configured, actions, states, m, n - 1, t);
    }
  }

  lemma OneMoreStep(pow: (string, nat) -> bool, s: Miner, a: Action, t: nat)
    requires Enabled(s, a) && t < |s.threads| && s.slot.version != s.threads[t].last
    ensures |Step(pow, s, a).threads| == |s.threads|
    ensures var th, th' := s.threads[t], Step(pow, s, a).threads[t];
      th'.last == th.last ==> th'.tries + TriesLeft(th'.phase) <= th.tries + TriesLeft(th.phase)
  {
    OutdatedStep(pow, s, s.threads[t], |s.threads|);
    hide Moved, TriesLeft;
  }

  // ---------- Shutdown ----------

  /** The steps a thread has left after a shutdown. */
  function StepsLeft(p: Phase): nat {
    match p
    case Done => 0
    case Top => 1
    case Checking => 1
    case Rechecking => 1
    case _ => 2
  }

  lemma ShutdownFalls(pow: (string, nat) -> bool, s: Miner, th: Thread, n: nat)
    requires s.shutdown && th.phase != Done
    ensures StepsLeft(Moved(pow, s, th, n).phase) < StepsLeft(th.phase)
  {
    hide Update;
  }

  /** How many of the actions from `m` to `n` are the thread's. */
  function OwnRuns(actions: seq<Action>, t: nat, m: nat, n: nat): nat
    requires m <= n <= |actions|
    decreases n
  {
    if m == n then 0 else OwnRuns(actions, t, m, n - 1) + if actions[n - 1] == Run(t) then 1 else 0
  }

  lemma ShutdownStep(pow: (string, nat) -> bool, s: Miner, a: Action, t: nat)
    requires Enabled(s, a) && s.shutdown && t < |s.threads|
    ensures var s' := Step(pow, s, a);
      && s'.shutdown && |s'.threads| == |s.threads|
      && StepsLeft(s'.threads[t].phase) + (if a == Run(t) then 1 else 0) <= StepsLeft(s.threads[t].phase)
  {
    if a.Run? {
      ShutdownFalls(pow, s, s.threads[a.t], |s.threads|);
    }
    hide Moved, StepsLeft;
  }

  lemma {:induction false} StopsFrom(pow: (string, nat) -> bool, configured: nat,
      actions: seq<Action>, states: seq<Miner>, m: nat, n: nat, t: nat)
    requires IsRun(pow, configured, actions, states) && m <= n <= |actions| && states[m].shutdown && t < |states[m].threads|
    ensures states[n].shutdown && |states[n].threads| == |states[m].threads|
    ensures states[n].threads[t].phase == Done || Enabled(states[n], Run(t))
    ensures OwnRuns(actions, t, m, n) + StepsLeft(states[n].threads[t].phase) <= StepsLeft(states[m].threads[t].phase) <= 2
    decreases n
  {
    if m < n {
      assert IsStep(pow, actions, states, n - 1);
      hide Step;
      StopsFrom(pow, configured, actions, states, m, n - 1, t);
      ShutdownStep(pow, states[n - 1], actions[n - 1], t);
    }
  }

  lemma {:induction false} ThreadsStay(pow: (string, nat) -> bool, configured: nat,
      actions: seq<Action>, states: seq<Miner>, n: nat)
    requires IsRun(pow, configured, actions, states) && n <= |actions|
    ensures |states[n].threads| == Threads(configured)
  {
    if n > 0 {
      assert IsStep(pow, actions, states, n - 1);
      StepGrows(pow, states[n - 1], actions[n - 1]);
      hide Step;
      ThreadsStay(pow, configured, actions, states, n - 1);
    }
  }

  /** After a shutdown every thread has a step to take until it is done, and is done after two at most. */
  lemma ShutdownStops(pow: (string, nat) -> bool, configured: nat,
      actions: seq<Action>, states: seq<Miner>, m: nat, n: nat, t: nat)
    requires IsRun(pow, configured, actions, states) && m < n <= |actions| && actions[m] == Shutdown && t < Threads(configured)
    ensures |states[n].threads| == Threads(configured)
    ensures states[n].threads[t].phase == Done || Enabled(states[n], Run(t))
    ensures OwnRuns(actions, t, m + 1, n) <= 2
    ensures OwnRuns(actions, t, m + 1, n) == 2 ==> states[n].threads[t].phase == Done
  {
    ThreadsStay(pow, configured, actions, states, m + 1);
    assert IsStep(pow, actions, states, m);
    assert states[m + 1].shutdown;
    StopsFrom(pow, configured, actions, states, m + 1, n, t);
  }
}
