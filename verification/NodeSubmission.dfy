/** The share pipeline and the block guard together: the call to the node is `submit_block`, with its
    mark, its RPC and its answer. */
module NodeSubmission {
  import opened ExpiringQueue
  import opened SharePipeline
  import opened ShareTask
  import opened WalkBack
  import BlockGuard
  import ShareCounts
  import ShareGuard
  import ShareSearch

  datatype Joint = Joint(pipe: Pipeline, node: BlockGuard.Protocol)

  /** The pipeline's parameters, the limits of the block guard, and the block hash of a job with a
      nonce, which is left open. */
  datatype Setup = Setup(cfg: Config, lim: Limits, hash: (Job, nat) -> Key)

  const START := Joint(SharePipeline.START, BlockGuard.Protocol(BlockGuard.EMPTY, map[]))

  /** A step of the pipeline that is not the node's reply, or one of the two halves of `submit_block`. */
  datatype Event =
    | Inner(step: Step)
    | TryMark(id: nat, now: nat)
    | Answered(id: nat, answer: BlockGuard.NodeAnswer, now: nat)

  function HashOf(u: Setup, t: Task): Key {
    u.hash(Credited(t), NonceOf(t))
  }

  predicate Waiting(j: Joint, id: nat) {
    id in j.pipe.tasks && j.pipe.tasks[id].phase.Submitting?
  }

  predicate CanHappen(j: Joint, e: Event) {
    match e
    case Inner(step) => !step.Replied? && Enabled(j.pipe, step)
    case TryMark(id, _) => Waiting(j, id) && id !in j.node.flights
    case Answered(id, _, _) => Waiting(j, id) && id in j.node.flights
  }

  /** `try_mark` finds the hash marked: `submit_block` returns the duplicate error at once. */
  predicate Refused(u: Setup, j: Joint, e: Event) {
    e.TryMark? && e.id in j.pipe.tasks && !BlockGuard.CanMark(j.node.guard, u.lim, HashOf(u, j.pipe.tasks[e.id]), e.now)
  }

  /** What the handler hears: a report that is not a success comes back as an error too. */
  function ReplyTo(answer: BlockGuard.NodeAnswer): NodeReply {
    if answer == BlockGuard.Report(true) then Success else OtherError
  }

  /** The event's step of the pipeline, if it has one. */
  predicate MovesPipe(u: Setup, j: Joint, e: Event) {
    e.TryMark? ==> Refused(u, j, e)
  }

  function PipeStep(e: Event): Step {
    match e
    case Inner(step) => step
    case TryMark(id, _) => Replied(id, DuplicateBlock)
    case Answered(id, answer, _) => Replied(id, ReplyTo(answer))
  }

  function NodeOp(u: Setup, j: Joint, e: Event): BlockGuard.Op
    requires !e.Inner? && CanHappen(j, e)
  {
    match e
    case TryMark(id, now) => BlockGuard.Mark(id, HashOf(u, j.pipe.tasks[id]), now)
    case Answered(id, answer, now) => BlockGuard.Finish(id, answer, now)
  }

  function After(u: Setup, j: Joint, e: Event): Joint
    requires CanHappen(j, e)
  {
    Joint(if MovesPipe(u, j, e) then Next(u.cfg, j.pipe, PipeStep(e)) else j.pipe,
          if e.Inner? then j.node else BlockGuard.Step(u.lim, j.node, NodeOp(u, j, e)))
  }

  ghost predicate IsRun(u: Setup, es: seq<Event>, j: seq<Joint>) {
    && |j| == |es| + 1
    && j[0] == START
    && forall m :: 0 <= m < |es| ==> Happens(u, es, j, m)
  }

  ghost predicate Happens(u: Setup, es: seq<Event>, j: seq<Joint>, m: nat)
    requires m < |es| < |j|
  {
    CanHappen(j[m], es[m]) && j[m + 1] == After(u, j[m], es[m])
  }

  // ---------- Both parts do what they do alone ----------

  /** The pipeline goes through states of its own runs. */
  lemma {:induction false} PipeReached(u: Setup, es: seq<Event>, j: seq<Joint>, n: nat)
    requires IsRun(u, es, j) && n < |j|
    ensures Reachable(u.cfg, j[n].pipe)
  {
    hide Reachable, Next, Enabled, BlockGuard.Step, Refused;
    if n == 0 {
      ReachStart(u.cfg);
    } else {
      PipeReached(u, es, j, n - 1);
      assert Happens(u, es, j, n - 1);
      PipeEnabled(u, j[n - 1], es[n - 1]);
      if MovesPipe(u, j[n - 1], es[n - 1]) {
        ReachStep(u.cfg, j[n - 1].pipe, PipeStep(es[n - 1]));
      }
    }
  }

  lemma PipeEnabled(u: Setup, j: Joint, e: Event)
    requires CanHappen(j, e)
    ensures Enabled(j.pipe, PipeStep(e))
  {
  }

  ghost predicate NodeReachable(lim: Limits, p: BlockGuard.Protocol) {
    exists ops: seq<BlockGuard.Op>, states: seq<BlockGuard.Protocol> ::
      BlockGuard.IsRun(lim, ops, states) && states[|ops|] == p
  }

  lemma NodeStart(lim: Limits)
    ensures NodeReachable(lim, START.node)
  {
    var ops: seq<BlockGuard.Op>, states := [], [START.node];
    assert BlockGuard.IsRun(lim, ops, states) && states[|ops|] == START.node;
  }

  lemma NodeStep(lim: Limits, p: BlockGuard.Protocol, op: BlockGuard.Op)
    requires NodeReachable(lim, p) && BlockGuard.Enabled(p, op)
    ensures NodeReachable(lim, BlockGuard.Step(lim, p, op))
  {
    hide BlockGuard.Step, BlockGuard.Enabled;
    var ops, states :| BlockGuard.IsRun(lim, ops, states) && states[|ops|] == p;
    var ops', states' := ops + [op], states + [BlockGuard.Step(lim, p, op)];
    forall m | 0 <= m < |ops'| ensures BlockGuard.IsStep(lim, ops', states', m) {
      if m < |ops| {
        assert BlockGuard.IsStep(lim, ops, states, m);
      }
    }
    assert BlockGuard.IsRun(lim, ops', states') && states'[|ops'|] == BlockGuard.Step(lim, p, op);
  }

  /** The block guard and the calls in flight go through states of the guard's own protocol. */
  lemma {:induction false} NodeReached(u: Setup, es: seq<Event>, j: seq<Joint>, n: nat)
    requires IsRun(u, es, j) && n < |j|
    ensures NodeReachable(u.lim, j[n].node)
  {
    hide NodeReachable, Next, BlockGuard.Step, HashOf, Refused;
    if n == 0 {
      NodeStart(u.lim);
    } else {
      NodeReached(u, es, j, n - 1);
      assert Happens(u, es, j, n - 1);
      if !es[n - 1].Inner? {
        NodeStep(u.lim, j[n - 1].node, NodeOp(u, j[n - 1], es[n - 1]));
      }
    }
  }

  lemma NodeCovered(lim: Limits, p: BlockGuard.Protocol)
    requires NodeReachable(lim, p)
    ensures Covered(p.guard)
  {
    var ops, states :| BlockGuard.IsRun(lim, ops, states) && states[|ops|] == p;
    BlockGuard.RunCovered(lim, ops, states, |ops|);
  }

  lemma PipeCounts(cfg: Config, p: Pipeline)
    requires Reachable(cfg, p)
    ensures ShareCounts.Inv(p)
  {
    var steps: seq<Step>, states: seq<Pipeline> :| SharePipeline.IsRun(cfg, steps, states) && states[|steps|] == p;
    ShareCounts.RunInv(cfg, steps, states, |steps|);
  }

  // ---------- Who a mark belongs to ----------

  /** The submission's block is with the node, or was taken by it. */
  predicate Holder(u: Setup, j: Joint, id: nat, hash: Key) {
    id in j.pipe.tasks && HashOf(u, j.pipe.tasks[id]) == hash && (id in j.node.flights || id in j.pipe.sink.taken)
  }

  ghost predicate Owned(u: Setup, j: Joint, hash: Key) {
    exists id :: Holder(u, j, id, hash)
  }

  ghost predicate FlightsFit(u: Setup, j: Joint) {
    forall id :: id in j.node.flights ==> Waiting(j, id) && j.node.flights[id].hash == HashOf(u, j.pipe.tasks[id])
  }

  ghost predicate MarksFit(u: Setup, j: Joint) {
    forall hash :: hash in j.node.guard.entries ==> Owned(u, j, hash)
  }

  /** No event changes what block a submission that is past its walk stands for. */
  lemma HashStays(u: Setup, p: Pipeline, step: Step, id: nat)
    requires Enabled(p, step) && id in p.tasks && !Walking(p.tasks[id])
    ensures var p' := Next(u.cfg, p, step);
            id in p'.tasks && !Walking(p'.tasks[id]) && HashOf(u, p'.tasks[id]) == HashOf(u, p.tasks[id])
  {
    TasksStay(u.cfg, p, step, id);
    if OwnStep(step, id) {
      OwnTasks(u.cfg, p, step);
      CreditStays(u.cfg, p, step);
      ShareSearch.SameNonce(p.tasks[id], OwnNext(u.cfg, p, step));
      hide Next, OwnNext, Enabled, NonceOf;
    } else {
      TaskBefore(u.cfg, p, step, id);
    }
  }

  lemma CreditStays(cfg: Config, p: Pipeline, step: Step)
    requires Enabled(p, step) && OfTask(step) && !Walking(p.tasks[step.id])
    ensures var t, t' := p.tasks[step.id], OwnNext(cfg, p, step);
            !Walking(t') && t'.curJob == t.curJob && t'.nonceText == t.nonceText
  {
    hide Program, WithRecord, Tested, AskedPrevious;
  }

  lemma TakenStays(cfg: Config, p: Pipeline, step: Step, id: nat)
    requires Enabled(p, step) && id in p.sink.taken
    ensures id in Next(cfg, p, step).sink.taken
  {
    hide Credited;
  }

  predicate OwnEvent(e: Event, id: nat) {
    !e.Inner? && e.id == id
  }

  /** A submission that waits for the node is moved by its own half of the call only. */
  lemma WaitingStays(u: Setup, j: Joint, e: Event, id: nat)
    requires CanHappen(j, e) && Waiting(j, id) && !OwnEvent(e, id)
    ensures id in After(u, j, e).pipe.tasks && After(u, j, e).pipe.tasks[id] == j.pipe.tasks[id]
  {
    PipeEnabled(u, j, e);
    hide BlockGuard.Step, NodeOp, Refused;
    if MovesPipe(u, j, e) {
      var step := PipeStep(e);
      assert !OwnStep(step, id);
      TasksStay(u.cfg, j.pipe, step, id);
      TaskBefore(u.cfg, j.pipe, step, id);
    }
  }

  lemma FlightsBefore(u: Setup, j: Joint, e: Event, id: nat)
    requires CanHappen(j, e) && id in After(u, j, e).node.flights
    ensures if id in j.node.flights then !OwnEvent(e, id) && After(u, j, e).node.flights[id] == j.node.flights[id]
            else e.TryMark? && e.id == id && !Refused(u, j, e) && Waiting(j, id)
                 && After(u, j, e).node.flights[id].hash == HashOf(u, j.pipe.tasks[id])
  {
    hide Next, HashOf, BlockGuard.CanMark, BlockGuard.Marked, BlockGuard.Removed, BlockGuard.TakesBack;
  }

  lemma FlightsStep(u: Setup, j: Joint, e: Event)
    requires CanHappen(j, e) && FlightsFit(u, j)
    ensures FlightsFit(u, After(u, j, e))
  {
    var j' := After(u, j, e);
    forall id | id in j'.node.flights ensures Waiting(j', id) && j'.node.flights[id].hash == HashOf(u, j'.pipe.tasks[id]) {
      FlightsBefore(u, j, e, id);
      hide HashOf, Refused;
      if id in j.node.flights {
        hide After, CanHappen;
        WaitingStays(u, j, e, id);
      }
    }
    hide After, HashOf;
  }

  lemma PastWalk(u: Setup, j: Joint, id: nat)
    requires FlightsFit(u, j) && ShareCounts.Inv(j.pipe) && (id in j.node.flights || id in j.pipe.sink.taken)
    ensures id in j.pipe.tasks && !Walking(j.pipe.tasks[id])
    ensures id in j.pipe.sink.taken ==> !Waiting(j, id)
  {
    assert id in j.pipe.sink.taken ==> id in j.pipe.tasks && ShareCounts.ViaBlock(j.pipe.tasks[id]);
    hide ShareCounts.Inv, HashOf;
  }

  /** A holder stays one, unless its call ends badly. */
  lemma HolderStays(u: Setup, j: Joint, e: Event, id: nat, hash: Key)
    requires CanHappen(j, e) && FlightsFit(u, j) && ShareCounts.Inv(j.pipe) && Holder(u, j, id, hash)
    requires !(e.Answered? && e.id == id && e.answer != BlockGuard.Report(true))
    ensures Holder(u, After(u, j, e), id, hash)
  {
    PipeEnabled(u, j, e);
    hide ShareCounts.Inv, FlightsFit, Walking;
    PastWalk(u, j, id);
    if MovesPipe(u, j, e) {
      HashStays(u, j.pipe, PipeStep(e), id);
      if id in j.pipe.sink.taken {
        TakenStays(u.cfg, j.pipe, PipeStep(e), id);
      }
    }
    if id !in j.pipe.sink.taken {
      StillHeld(u, j, e, id);
    }
    hide Next, HashOf, Refused, BlockGuard.Step;
  }

  lemma StillHeld(u: Setup, j: Joint, e: Event, id: nat)
    requires CanHappen(j, e) && id in j.node.flights && id !in j.pipe.sink.taken
    requires !(e.Answered? && e.id == id && e.answer != BlockGuard.Report(true))
    ensures id in After(u, j, e).node.flights || id in After(u, j, e).pipe.sink.taken
  {
    hide HashOf, BlockGuard.CanMark, BlockGuard.Marked, BlockGuard.Removed, NextTasks;
  }

  lemma MarksBefore(u: Setup, j: Joint, e: Event, hash: Key)
    requires CanHappen(j, e) && hash in After(u, j, e).node.guard.entries
    ensures hash in j.node.guard.entries || (e.TryMark? && !Refused(u, j, e) && hash == HashOf(u, j.pipe.tasks[e.id]))
    ensures e.Answered? && e.answer != BlockGuard.Report(true) ==> hash != j.node.flights[e.id].hash
  {
    if !e.Inner? {
      PruneOnlyRemoves(j.node.guard, u.lim, e.now, hash);
    }
    if e.Answered? {
      BlockGuard.KeptIffSuccess(e.answer);
    }
    hide HashOf, Prune, BlockGuard.TakesBack, Next;
  }

  lemma MarksStep(u: Setup, j: Joint, e: Event)
    requires CanHappen(j, e) && FlightsFit(u, j) && MarksFit(u, j) && ShareCounts.Inv(j.pipe)
    ensures MarksFit(u, After(u, j, e))
  {
    var j' := After(u, j, e);
    forall hash | hash in j'.node.guard.entries ensures Owned(u, j', hash) {
      MarksBefore(u, j, e, hash);
      if hash in j.node.guard.entries {
        assert Owned(u, j, hash);
        var id :| Holder(u, j, id, hash);
        assert !(e.Answered? && e.id == id && e.answer != BlockGuard.Report(true));
        hide After, CanHappen, Holder, ShareCounts.Inv, FlightsFit, MarksFit;
        HolderStays(u, j, e, id, hash);
      } else {
        NewHolder(u, j, e);
      }
    }
    hide After, Owned;
  }

  lemma NewHolder(u: Setup, j: Joint, e: Event)
    requires CanHappen(j, e) && e.TryMark? && !Refused(u, j, e)
    ensures Holder(u, After(u, j, e), e.id, HashOf(u, j.pipe.tasks[e.id]))
  {
    hide HashOf, BlockGuard.CanMark, BlockGuard.Marked, Next;
  }

  lemma StartFits(u: Setup)
    ensures FlightsFit(u, START) && MarksFit(u, START)
  {
  }

  lemma {:induction false} RunFits(u: Setup, es: seq<Event>, j: seq<Joint>, n: nat)
    requires IsRun(u, es, j) && n < |j|
    ensures FlightsFit(u, j[n]) && MarksFit(u, j[n])
  {
    hide After, CanHappen, FlightsFit, MarksFit, ShareCounts.Inv, Reachable;
    if n == 0 {
      StartFits(u);
    } else {
      RunFits(u, es, j, n - 1);
      assert Happens(u, es, j, n - 1);
      PipeReached(u, es, j, n - 1);
      PipeCounts(u.cfg, j[n - 1].pipe);
      FlightsStep(u, j[n - 1], es[n - 1]);
      MarksStep(u, j[n - 1], es[n - 1]);
    }
  }

  // ---------- Refusals ----------

  /** The submission holds the mark of this block, and a prune at `now` does not forget it. */
  ghost predicate HoldsMark(u: Setup, j: Joint, id: nat, hash: Key, now: nat) {
    && Holder(u, j, id, hash) && hash in j.node.guard.entries
    && !BlockGuard.Forgets(j.node.guard, u.lim, hash, now)
  }

  /** `submit_block` refuses a block exactly if another submission of the same block is waiting for
      the node or was taken by it, and its mark is not forgotten by then. */
  lemma RefusedIff(u: Setup, es: seq<Event>, j: seq<Joint>, n: nat)
    requires IsRun(u, es, j) && n < |es| && es[n].TryMark?
    ensures es[n].id in j[n].pipe.tasks
    ensures Refused(u, j[n], es[n])
            <==> exists id :: id != es[n].id && HoldsMark(u, j[n], id, HashOf(u, j[n].pipe.tasks[es[n].id]), es[n].now)
  {
    assert Happens(u, es, j, n);
    RunFits(u, es, j, n);
    NodeReached(u, es, j, n);
    NodeCovered(u.lim, j[n].node);
    PipeReached(u, es, j, n);
    PipeCounts(u.cfg, j[n].pipe);
    hide After, IsRun, Reachable, NodeReachable;
    RefusedBecause(u, j[n], es[n]);
  }

  ghost predicate Collisionless(hash: (Job, nat) -> Key) {
    forall a: Job, m: nat, b: Job, n: nat :: hash(a, m) == hash(b, n) ==> a == b && m == n
  }

  /** If no two blocks have one hash, a block is refused only for another submission of the same job with
      the same nonce, which is waiting for the node or was taken by it. */
  lemma RefusedSameWork(u: Setup, es: seq<Event>, j: seq<Joint>, n: nat) returns (id: nat)
    requires IsRun(u, es, j) && n < |es| && es[n].TryMark? && Refused(u, j[n], es[n]) && Collisionless(u.hash)
    ensures es[n].id in j[n].pipe.tasks && id in j[n].pipe.tasks && id != es[n].id
    ensures var t, t' := j[n].pipe.tasks[es[n].id], j[n].pipe.tasks[id]; Credited(t') == Credited(t) && NonceOf(t') == NonceOf(t)
    ensures id in j[n].node.flights || id in j[n].pipe.sink.taken
  {
    RefusedIff(u, es, j, n);
    hide IsRun, Refused, Credited, NonceOf, BlockGuard.Forgets;
    id :| id != es[n].id && HoldsMark(u, j[n], id, HashOf(u, j[n].pipe.tasks[es[n].id]), es[n].now);
  }

  lemma RefusedBecause(u: Setup, j: Joint, e: Event)
    requires CanHappen(j, e) && e.TryMark? && FlightsFit(u, j) && MarksFit(u, j) && Covered(j.node.guard) && ShareCounts.Inv(j.pipe)
    ensures Refused(u, j, e) <==> exists id :: id != e.id && HoldsMark(u, j, id, HashOf(u, j.pipe.tasks[e.id]), e.now)
  {
    var hash := HashOf(u, j.pipe.tasks[e.id]);
    assert e.id !in j.pipe.sink.taken by {
      assert !ShareCounts.ViaBlock(j.pipe.tasks[e.id]);
    }
    hide ShareCounts.Inv, HashOf, Covered;
    PruneOnlyRemoves(j.node.guard, u.lim, e.now, hash);
    if hash in j.node.guard.entries {
      BlockGuard.ForgetsIff(j.node.guard, u.lim, hash, e.now);
      assert Owned(u, j, hash);
      var id :| Holder(u, j, id, hash);
      hide BlockGuard.Forgets, Prune;
      assert id != e.id;
      if Refused(u, j, e) {
        assert HoldsMark(u, j, id, hash, e.now);
      }
    } else {
      hide BlockGuard.Forgets, Prune;
    }
  }

  // ---------- The verdict on a block ----------

  /** The walk found a block, and its verdict is in. */
  predicate Concluded(t: Task) {
    t.phase.Recording? && t.found.Some? && t.found.value.Block?
  }

  lemma ConcludedStep(u: Setup, p: Pipeline, step: Step, id: nat)
    requires Enabled(p, step) && ShareCounts.Inv(p) && id in Next(u.cfg, p, step).tasks && Concluded(Next(u.cfg, p, step).tasks[id])
    ensures id in p.tasks
    ensures if Concluded(p.tasks[id]) then Next(u.cfg, p, step).tasks[id].phase.outcome == p.tasks[id].phase.outcome
            else step.Replied? && step.id == id && Next(u.cfg, p, step).tasks[id].phase == AfterReply(step.reply)
  {
    if OwnStep(step, id) {
      OwnTasks(u.cfg, p, step);
      hide ShareCounts.Inv;
      OwnConcluded(u.cfg, p, step);
    } else {
      TaskBefore(u.cfg, p, step, id);
    }
  }

  lemma OwnConcluded(cfg: Config, p: Pipeline, step: Step)
    requires Enabled(p, step) && OfTask(step) && Concluded(OwnNext(cfg, p, step))
    ensures if Concluded(p.tasks[step.id]) then OwnNext(cfg, p, step).phase.outcome == p.tasks[step.id].phase.outcome
            else step.Replied? && OwnNext(cfg, p, step).phase == AfterReply(step.reply)
  {
    hide Program, WithRecord, MeetsNetwork, LastRound, PoolTarget, NonceOf, AfterReply, ClientOf;
  }

  /** What the handler made of a block the walk found: stale if and only if `submit_block` refused it,
      accepted if and only if the node reported success, and bad for every other answer. */
  lemma {:induction false} BlockVerdict(u: Setup, es: seq<Event>, j: seq<Joint>, n: nat, id: nat) returns (m: nat)
    requires IsRun(u, es, j) && n < |j| && id in j[n].pipe.tasks && Concluded(j[n].pipe.tasks[id])
    ensures m < n && OwnEvent(es[m], id) && Waiting(j[m], id)
    ensures var o := j[n].pipe.tasks[id].phase.outcome;
            && (o.Stale? <==> es[m].TryMark?) && (es[m].TryMark? ==> Refused(u, j[m], es[m]))
            && (o.Accepted? <==> es[m].Answered? && es[m].answer == BlockGuard.Report(true))
            && (o.Bad? <==> es[m].Answered? && es[m].answer != BlockGuard.Report(true))
  {
    hide Next, Enabled, Concluded, Refused, BlockGuard.Step, ShareCounts.Inv, Reachable, NodeOp;
    assert n > 0;
    assert Happens(u, es, j, n - 1);
    PipeReached(u, es, j, n - 1);
    PipeCounts(u.cfg, j[n - 1].pipe);
    var e := es[n - 1];
    m := n - 1;
    if MovesPipe(u, j[n - 1], e) {
      PipeEnabled(u, j[n - 1], e);
      ConcludedStep(u, j[n - 1].pipe, PipeStep(e), id);
      if Concluded(j[n - 1].pipe.tasks[id]) {
        m := BlockVerdict(u, es, j, n - 1, id);
      }
    } else {
      m := BlockVerdict(u, es, j, n - 1, id);
    }
  }

  predicate StaleIn(p: Pipeline, id: nat) {
    id in p.tasks && p.tasks[id].phase.Recording? && p.tasks[id].phase.outcome.Stale?
  }

  /** A refused submission is stale from then on. */
  lemma {:induction false} RefusedStaysStale(u: Setup, es: seq<Event>, j: seq<Joint>, m: nat, n: nat)
    requires IsRun(u, es, j) && m < n < |j| && es[m].TryMark? && Refused(u, j[m], es[m])
    ensures StaleIn(j[n].pipe, es[m].id)
    decreases n
  {
    hide After, Refused, CanHappen, StaleIn;
    assert Happens(u, es, j, n - 1);
    if n == m + 1 {
      RefusedTurnsStale(u, j[m], es[m]);
    } else {
      RefusedStaysStale(u, es, j, m, n - 1);
      StaleStays(u, j[n - 1], es[n - 1], es[m].id);
    }
  }

  lemma StaleStays(u: Setup, j: Joint, e: Event, id: nat)
    requires CanHappen(j, e) && StaleIn(j.pipe, id)
    ensures StaleIn(After(u, j, e).pipe, id)
  {
    hide After, CanHappen;
    VerdictsStay(u, j, e, id);
  }

  lemma RefusedTurnsStale(u: Setup, j: Joint, e: Event)
    requires CanHappen(j, e) && e.TryMark? && Refused(u, j, e)
    ensures StaleIn(After(u, j, e).pipe, e.id)
  {
    hide Refused, BlockGuard.Step, NodeOp;
    OwnTasks(u.cfg, j.pipe, PipeStep(e));
  }

  lemma VerdictsStay(u: Setup, j: Joint, e: Event, id: nat)
    requires CanHappen(j, e) && id in j.pipe.tasks && j.pipe.tasks[id].phase.Recording?
    ensures var p := After(u, j, e).pipe;
            id in p.tasks && p.tasks[id].phase.Recording? && p.tasks[id].phase.outcome == j.pipe.tasks[id].phase.outcome
  {
    PipeEnabled(u, j, e);
    hide Next, Enabled, Refused, BlockGuard.Step, NodeOp, KeyOf;
    if MovesPipe(u, j, e) {
      ShareGuard.VerdictsStay(u.cfg, j.pipe, PipeStep(e), id);
    }
  }

  // ---------- One submission per block ----------

  /** The event makes the block guard forget the mark of a submission that stays its holder. */
  ghost predicate Drops(u: Setup, j: Joint, e: Event)
    requires CanHappen(j, e)
  {
    && !e.Inner? && BlockGuard.Prunes(NodeOp(u, j, e))
    && exists id, hash :: Holder(u, j, id, hash) && !(e.Answered? && e.id == id) && BlockGuard.Forgets(j.node.guard, u.lim, hash, e.now)
  }

  /** Every holder's mark is there, and no two submissions hold one block. */
  ghost predicate OneEach(u: Setup, j: Joint) {
    && (forall id, hash :: Holder(u, j, id, hash) ==> hash in j.node.guard.entries)
    && (forall id, id', hash :: Holder(u, j, id, hash) && Holder(u, j, id', hash) ==> id == id')
  }

  lemma HolderBefore(u: Setup, j: Joint, e: Event, id: nat, hash: Key)
    requires CanHappen(j, e) && FlightsFit(u, j) && ShareCounts.Inv(j.pipe) && Holder(u, After(u, j, e), id, hash)
    ensures if e.TryMark? && e.id == id then !Refused(u, j, e) && hash == HashOf(u, j.pipe.tasks[id])
            else Holder(u, j, id, hash) && !(e.Answered? && e.id == id && e.answer != BlockGuard.Report(true))
  {
    hide ShareCounts.Inv, FlightsFit, Walking, Refused, HashOf;
    HeldBefore(u, j, e, id);
    if id in j.node.flights || id in j.pipe.sink.taken {
      PastWalk(u, j, id);
      if MovesPipe(u, j, e) {
        PipeEnabled(u, j, e);
        HashStays(u, j.pipe, PipeStep(e), id);
      }
    }
    hide Next, BlockGuard.Step;
  }

  lemma HeldBefore(u: Setup, j: Joint, e: Event, id: nat)
    requires CanHappen(j, e) && FlightsFit(u, j) && ShareCounts.Inv(j.pipe)
    requires id in After(u, j, e).node.flights || id in After(u, j, e).pipe.sink.taken
    ensures id in j.pipe.tasks && (id in j.node.flights || id in j.pipe.sink.taken || (e.TryMark? && e.id == id && !Refused(u, j, e)))
    ensures !(e.Answered? && e.id == id && e.answer != BlockGuard.Report(true))
  {
    hide ShareCounts.Inv, FlightsFit, Refused, HashOf;
    if id in After(u, j, e).node.flights {
      FlightsBefore(u, j, e, id);
    } else {
      TakenBefore(u, j, e, id);
    }
    if id in j.node.flights || id in j.pipe.sink.taken {
      PastWalk(u, j, id);
    }
    hide After;
  }

  lemma TakenBefore(u: Setup, j: Joint, e: Event, id: nat)
    requires CanHappen(j, e) && id in After(u, j, e).pipe.sink.taken
    ensures id in j.pipe.sink.taken || (e.Answered? && e.id == id && id in j.node.flights && e.answer == BlockGuard.Report(true))
  {
    hide Refused, NodeOp, BlockGuard.Step, NextTasks, Credited;
  }

  /** A mark that is not forgotten survives an event, except the holder's own bad ending. */
  lemma MarkStays(u: Setup, j: Joint, e: Event, hash: Key)
    requires CanHappen(j, e) && Covered(j.node.guard) && hash in j.node.guard.entries
    requires !e.Inner? && BlockGuard.Prunes(NodeOp(u, j, e)) ==> !BlockGuard.Forgets(j.node.guard, u.lim, hash, e.now)
    requires e.Answered? && e.answer != BlockGuard.Report(true) ==> j.node.flights[e.id].hash != hash
    ensures hash in After(u, j, e).node.guard.entries
    ensures e.TryMark? && hash == HashOf(u, j.pipe.tasks[e.id]) ==> Refused(u, j, e)
  {
    if !e.Inner? {
      BlockGuard.ForgetsIff(j.node.guard, u.lim, hash, e.now);
    }
    if e.Answered? {
      BlockGuard.KeptIffSuccess(e.answer);
    }
    hide Covered, BlockGuard.Forgets, Prune, BlockGuard.TakesBack, HashOf, Next;
  }

  lemma NewMark(u: Setup, j: Joint, e: Event)
    requires CanHappen(j, e) && e.TryMark? && !Refused(u, j, e)
    ensures HashOf(u, j.pipe.tasks[e.id]) in After(u, j, e).node.guard.entries
  {
    hide HashOf, Prune, Next;
  }

  /** Whoever held a block before an event that drops no mark holds it with its mark afterwards, and
      nobody else comes to hold it. */
  lemma KeepsMark(u: Setup, j: Joint, e: Event, id: nat, hash: Key)
    requires CanHappen(j, e) && FlightsFit(u, j) && Covered(j.node.guard)
    requires OneEach(u, j) && !Drops(u, j, e) && Holder(u, j, id, hash)
    requires !(e.Answered? && e.id == id && e.answer != BlockGuard.Report(true))
    ensures hash in After(u, j, e).node.guard.entries
    ensures e.TryMark? && hash == HashOf(u, j.pipe.tasks[e.id]) ==> Refused(u, j, e)
  {
    hide Covered, BlockGuard.Forgets, After, HashOf, Refused, BlockGuard.TakesBack;
    assert e.Answered? ==> Holder(u, j, e.id, j.node.flights[e.id].hash);
    if e.Answered? && e.id == id {
      BlockGuard.KeptIffSuccess(e.answer);
    }
    MarkStays(u, j, e, hash);
  }

  lemma OneEachStep(u: Setup, j: Joint, e: Event)
    requires CanHappen(j, e) && FlightsFit(u, j) && Covered(j.node.guard) && ShareCounts.Inv(j.pipe)
    requires OneEach(u, j) && !Drops(u, j, e)
    ensures OneEach(u, After(u, j, e))
  {
    var j' := After(u, j, e);
    hide After, CanHappen, Holder, Drops, Covered, ShareCounts.Inv, FlightsFit, Refused, HashOf;
    forall id, hash | Holder(u, j', id, hash) ensures hash in j'.node.guard.entries {
      HolderBefore(u, j, e, id, hash);
      if e.TryMark? && e.id == id {
        NewMark(u, j, e);
      } else {
        KeepsMark(u, j, e, id, hash);
      }
    }
    forall id, id', hash | Holder(u, j', id, hash) && Holder(u, j', id', hash) ensures id == id' {
      HolderBefore(u, j, e, id, hash);
      HolderBefore(u, j, e, id', hash);
      if id != id' {
        if e.TryMark? && e.id == id {
          KeepsMark(u, j, e, id', hash);
        } else if e.TryMark? && e.id == id' {
          KeepsMark(u, j, e, id, hash);
        }
      }
    }
  }

  lemma StartOneEach(u: Setup)
    ensures OneEach(u, START)
  {
  }

  lemma DropsBreak(u: Setup, j: Joint, e: Event)
    requires CanHappen(j, e) && FlightsFit(u, j) && Covered(j.node.guard) && ShareCounts.Inv(j.pipe)
    requires OneEach(u, j) && Drops(u, j, e)
    ensures !OneEach(u, After(u, j, e))
  {
    var id, hash :| Holder(u, j, id, hash) && !(e.Answered? && e.id == id) && BlockGuard.Forgets(j.node.guard, u.lim, hash, e.now);
    var j' := After(u, j, e);
    HolderStays(u, j, e, id, hash);
    BlockGuard.ForgetsIff(j.node.guard, u.lim, hash, e.now);
    LostMark(u, j, e, hash);
    assert e.TryMark? ==> e.id != id by {
      hide Covered, BlockGuard.Forgets, After, ShareCounts.Inv, HashOf, Refused, OneEach, FlightsFit;
      PastWalk(u, j, id);
    }
    hide Covered, BlockGuard.Forgets, After, ShareCounts.Inv, HashOf, Refused, FlightsFit, Holder, Prune;
    if hash in j'.node.guard.entries {
      NewHolder(u, j, e);
    }
  }

  /** A forgotten mark is gone, or was made anew by the event. */
  lemma LostMark(u: Setup, j: Joint, e: Event, hash: Key)
    requires CanHappen(j, e) && !e.Inner? && BlockGuard.Prunes(NodeOp(u, j, e)) && hash !in Prune(j.node.guard, u.lim, e.now).entries
    ensures hash in After(u, j, e).node.guard.entries ==>
              e.TryMark? && !Refused(u, j, e) && hash == HashOf(u, j.pipe.tasks[e.id])
  {
    hide Prune, HashOf, Next, BlockGuard.TakesBack;
  }

  lemma RunFacts(u: Setup, es: seq<Event>, j: seq<Joint>, n: nat)
    requires IsRun(u, es, j) && n < |j|
    ensures FlightsFit(u, j[n]) && Covered(j[n].node.guard) && ShareCounts.Inv(j[n].pipe)
  {
    hide After, CanHappen, ShareCounts.Inv, FlightsFit, MarksFit, Reachable, NodeReachable, Covered;
    RunFits(u, es, j, n);
    NodeReached(u, es, j, n);
    NodeCovered(u.lim, j[n].node);
    PipeReached(u, es, j, n);
    PipeCounts(u.cfg, j[n].pipe);
  }

  lemma {:induction false} OneEachUntil(u: Setup, es: seq<Event>, j: seq<Joint>, n: nat)
    requires IsRun(u, es, j) && n < |j|
    requires forall m :: 0 <= m < n ==> Happens(u, es, j, m) && !Drops(u, j[m], es[m])
    ensures OneEach(u, j[n])
  {
    hide After, CanHappen, OneEach, Drops, ShareCounts.Inv, FlightsFit, Covered;
    if n == 0 {
      StartOneEach(u);
    } else {
      OneEachUntil(u, es, j, n - 1);
      assert Happens(u, es, j, n - 1);
      RunFacts(u, es, j, n - 1);
      OneEachStep(u, j[n - 1], es[n - 1]);
    }
  }

  /** Through a whole run every block that is with the node or was taken by it keeps its mark, and has
      one submission, if and only if no event makes the block guard forget such a mark. */
  lemma MarksKeptIff(u: Setup, es: seq<Event>, j: seq<Joint>)
    requires IsRun(u, es, j)
    ensures (forall n :: 0 <= n < |j| ==> OneEach(u, j[n]))
            <==> (forall m :: 0 <= m < |es| ==> Happens(u, es, j, m) && !Drops(u, j[m], es[m]))
  {
    hide After, CanHappen, OneEach, Drops, ShareCounts.Inv, FlightsFit, Covered;
    if forall n :: 0 <= n < |j| ==> OneEach(u, j[n]) {
      forall m | 0 <= m < |es| ensures Happens(u, es, j, m) && !Drops(u, j[m], es[m]) {
        assert Happens(u, es, j, m);
        if Drops(u, j[m], es[m]) {
          RunFacts(u, es, j, m);
          DropsBreak(u, j[m], es[m]);
        }
      }
    }
    if forall m :: 0 <= m < |es| ==> Happens(u, es, j, m) && !Drops(u, j[m], es[m]) {
      forall n | 0 <= n < |j| ensures OneEach(u, j[n]) {
        OneEachUntil(u, es, j, n);
      }
    }
  }

  // ---------- Exactly when two submissions send one block ----------

  /** No two submissions have one block with the node or taken by it. */
  ghost predicate OneSender(u: Setup, j: Joint) {
    forall id, id', hash :: Holder(u, j, id, hash) && Holder(u, j, id', hash) ==> id == id'
  }

  /** The event sends a block another submission has with the node or taken by it, because its mark
      is gone or forgotten by then. */
  ghost predicate SendsAgain(u: Setup, j: Joint, e: Event)
    requires CanHappen(j, e)
  {
    && e.TryMark?
    && var hash := HashOf(u, j.pipe.tasks[e.id]);
       && (exists id :: id != e.id && Holder(u, j, id, hash))
       && BlockGuard.Unmarked(j.node.guard, u.lim, hash, e.now)
  }

  lemma RefusedIffMarked(u: Setup, j: Joint, e: Event)
    requires CanHappen(j, e) && e.TryMark? && Covered(j.node.guard)
    ensures Refused(u, j, e) <==> !BlockGuard.Unmarked(j.node.guard, u.lim, HashOf(u, j.pipe.tasks[e.id]), e.now)
  {
    hide HashOf, BlockGuard.CanMark, BlockGuard.Unmarked, Covered;
    BlockGuard.UnmarkedIff(j.node.guard, u.lim, HashOf(u, j.pipe.tasks[e.id]), e.now);
  }

  lemma SendingAgainBreaks(u: Setup, j: Joint, e: Event)
    requires CanHappen(j, e) && FlightsFit(u, j) && Covered(j.node.guard) && ShareCounts.Inv(j.pipe) && SendsAgain(u, j, e)
    ensures !OneSender(u, After(u, j, e))
  {
    RefusedIffMarked(u, j, e);
    hide After, CanHappen, Holder, Covered, ShareCounts.Inv, FlightsFit, Refused, HashOf, BlockGuard.Unmarked;
    var hash := HashOf(u, j.pipe.tasks[e.id]);
    var id :| id != e.id && Holder(u, j, id, hash);
    NewHolder(u, j, e);
    HolderStays(u, j, e, id, hash);
  }

  lemma OneSenderStep(u: Setup, j: Joint, e: Event)
    requires CanHappen(j, e) && FlightsFit(u, j) && Covered(j.node.guard) && ShareCounts.Inv(j.pipe)
    requires OneSender(u, j) && !SendsAgain(u, j, e)
    ensures OneSender(u, After(u, j, e))
  {
    var j' := After(u, j, e);
    if e.TryMark? {
      RefusedIffMarked(u, j, e);
    }
    hide After, CanHappen, Holder, Covered, ShareCounts.Inv, FlightsFit, Refused, HashOf, BlockGuard.Unmarked;
    forall id, id', hash | Holder(u, j', id, hash) && Holder(u, j', id', hash) ensures id == id' {
      HolderBefore(u, j, e, id, hash);
      HolderBefore(u, j, e, id', hash);
    }
  }

  lemma StartOneSender(u: Setup)
    ensures OneSender(u, START)
  {
  }

  lemma {:induction false} OneSenderUntil(u: Setup, es: seq<Event>, j: seq<Joint>, n: nat)
    requires IsRun(u, es, j) && n < |j|
    requires forall m :: 0 <= m < n ==> Happens(u, es, j, m) && !SendsAgain(u, j[m], es[m])
    ensures OneSender(u, j[n])
  {
    hide After, CanHappen, OneSender, SendsAgain, ShareCounts.Inv, FlightsFit, Covered;
    if n == 0 {
      StartOneSender(u);
    } else {
      OneSenderUntil(u, es, j, n - 1);
      assert Happens(u, es, j, n - 1);
      RunFacts(u, es, j, n - 1);
      OneSenderStep(u, j[n - 1], es[n - 1]);
    }
  }

  /** Through a whole run no two submissions send or are paid for one block if and only if no event
      sends a block another submission has with the node or taken, its mark being gone or forgotten. */
  lemma OneSubmissionPerBlock(u: Setup, es: seq<Event>, j: seq<Joint>)
    requires IsRun(u, es, j)
    ensures (forall n :: 0 <= n < |j| ==> OneSender(u, j[n]))
            <==> (forall m :: 0 <= m < |es| ==> Happens(u, es, j, m) && !SendsAgain(u, j[m], es[m]))
  {
    hide After, CanHappen, OneSender, SendsAgain, ShareCounts.Inv, FlightsFit, Covered;
    if forall n :: 0 <= n < |j| ==> OneSender(u, j[n]) {
      forall m | 0 <= m < |es| ensures Happens(u, es, j, m) && !SendsAgain(u, j[m], es[m]) {
        assert Happens(u, es, j, m);
        if SendsAgain(u, j[m], es[m]) {
          RunFacts(u, es, j, m);
          SendingAgainBreaks(u, j[m], es[m]);
        }
      }
    }
    if forall m :: 0 <= m < |es| ==> Happens(u, es, j, m) && !SendsAgain(u, j[m], es[m]) {
      forall n | 0 <= n < |j| ensures OneSender(u, j[n]) {
        OneSenderUntil(u, es, j, n);
      }
    }
  }
}
