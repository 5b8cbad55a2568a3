/** When the readings behind a verdict were true, and what the verdict is if nothing moved. */
module ShareVerdicts {
  import opened JobRing
  import opened SharePipeline
  import opened ShareSearch
  import opened ShareTask
  import opened WalkBack
  import opened Wrappers
  import DuplicateGuard
  import ExpiringQueue
  import Text

  // ---------- Where a submission came from ----------

  /** The submission, on its way to the guard or past it. */
  predicate Known(s: Pipeline, id: nat) {
    id in s.tasks || id in s.arrivals
  }

  function TaskOf(s: Pipeline, id: nat): Task
    requires Known(s, id)
  {
    if id in s.tasks then s.tasks[id] else s.arrivals[id]
  }

  /** Step `step`, taken in state `s`, brought in the submission that `t` is. */
  predicate BroughtIn(s: Pipeline, step: Step, id: nat, t: Task) {
    && step.Arrive? && step.id == id
    && t.client == step.client && t.worker == step.worker && t.jobId == step.jobId && t.nonceText == step.nonceText
    && t.since == (|ClientOf(s, step.client).log|, |ClientOf(s, step.client).targets|)
  }

  /** No step of its own changes what a submission came with. */
  predicate SameOrigin(t: Task, t': Task) {
    && t'.client == t.client && t'.worker == t.worker && t'.jobId == t.jobId && t'.nonceText == t.nonceText
    && t'.since == t.since
  }

  lemma OriginStays(cfg: Config, s: Pipeline, step: Step)
    requires Enabled(s, step) && OfTask(step)
    ensures SameOrigin(s.tasks[step.id], OwnNext(cfg, s, step))
  {
    hide TestResult, Lookup, PoolTarget, MeetsNetwork, WithRecord, ClientOf, Program;
  }

  lemma KnownBefore(cfg: Config, s: Pipeline, step: Step, id: nat)
    requires Enabled(s, step) && Known(Next(cfg, s, step), id)
    ensures if Known(s, id) then SameOrigin(TaskOf(s, id), TaskOf(Next(cfg, s, step), id))
            else BroughtIn(s, step, id, TaskOf(Next(cfg, s, step), id))
  {
    var s' := Next(cfg, s, step);
    if OwnStep(step, id) {
      OwnTasks(cfg, s, step);
      OriginStays(cfg, s, step);
      hide Next, OwnNext, Enabled;
    } else if id in s'.tasks {
      TaskBefore(cfg, s, step, id);
      hide Next, Enabled;
    } else {
      ArrivalBefore(cfg, s, step, id);
      if id in s.tasks {
        TasksStay(cfg, s, step, id);
      }
      hide Next, Enabled, Lookup, ClientOf;
    }
  }

  /** Every submission was brought in by one earlier step, which read its job then. */
  lemma {:induction false} ArrivalOf(cfg: Config, steps: seq<Step>, s: seq<Pipeline>, n: nat, id: nat) returns (a: nat)
    requires IsRun(cfg, steps, s) && n < |s| && Known(s[n], id)
    ensures a < n && BroughtIn(s[a], steps[a], id, TaskOf(s[n], id))
  {
    if n == 0 {
      assert false;
    } else {
      assert IsStep(cfg, steps, s, n - 1);
      KnownBefore(cfg, s[n - 1], steps[n - 1], id);
      hide Next, Enabled, IsRun, TaskOf, Known;
      a := n - 1;
      if Known(s[n - 1], id) {
        a := ArrivalOf(cfg, steps, s, n - 1, id);
      }
    }
  }

  // ---------- The moments ----------

  lemma OneMoreJob(cfg: Config, s: Pipeline, step: Step, c: nat)
    requires Enabled(s, step)
    ensures ClientOf(s, c).log <= ClientOf(Next(cfg, s, step), c).log
    ensures |ClientOf(Next(cfg, s, step), c).log| <= |ClientOf(s, c).log| + 1
  {
  }

  /** A client's log had each length between two of its states in some state between them. */
  lemma {:induction false} LogMoment(cfg: Config, steps: seq<Step>, s: seq<Pipeline>, a: nat, n: nat, c: nat, at: nat)
    returns (m: nat)
    requires IsRun(cfg, steps, s) && a <= n < |s|
    requires |ClientOf(s[a], c).log| <= at <= |ClientOf(s[n], c).log|
    ensures a <= m <= n && ClientOf(s[m], c).log == ClientOf(s[n], c).log[..at]
    decreases n
  {
    var log := ClientOf(s[n], c).log;
    m := n;
    if at < |log| {
      assert a < n;
      assert IsStep(cfg, steps, s, n - 1);
      OneMoreJob(cfg, s[n - 1], steps[n - 1], c);
      hide Next, Enabled, ClientOf;
      m := LogMoment(cfg, steps, s, a, n - 1, c, at);
      assert log[..at] == ClientOf(s[n - 1], c).log[..at];
    }
  }

  /** Each answer the walk got was the ring's answer in some state since the submission came in. */
  lemma AnswerMoment(cfg: Config, steps: seq<Step>, s: seq<Pipeline>, n: nat, id: nat, k: nat) returns (a: nat, m: nat)
    requires IsRun(cfg, steps, s) && n < |s| && id in s[n].tasks && k in s[n].tasks[id].asked
    ensures a < |steps| && a <= m <= n && BroughtIn(s[a], steps[a], id, s[n].tasks[id])
    ensures Lookup(ClientOf(s[m], s[n].tasks[id].client).log, k) == s[n].tasks[id].asked[k].job
  {
    a := ArrivalOf(cfg, steps, s, n, id);
    RunTask(cfg, steps, s, n, id);
    var t := s[n].tasks[id];
    var c := t.client;
    assert AskedThen(ClientOf(s[n], c).log, t, k);
    hide SearchInv, Observed, Lookup, IsRun;
    m := LogMoment(cfg, steps, s, a, n, c, t.asked[k].at);
  }

  /** The jobs a run adds for a client, in order. */
  function JobsAdded(steps: seq<Step>, c: nat): seq<Job> {
    if steps == [] then []
    else
      var last := steps[|steps| - 1];
      JobsAdded(steps[..|steps| - 1], c) + if last.AddJob? && last.client == c then [last.job] else []
  }

  lemma JobsStep(steps: seq<Step>, n: nat, c: nat)
    requires n < |steps|
    ensures JobsAdded(steps[..n + 1], c)
            == JobsAdded(steps[..n], c) + if steps[n].AddJob? && steps[n].client == c then [steps[n].job] else []
  {
    assert steps[..n + 1][..n] == steps[..n];
  }

  lemma LogStep(cfg: Config, s: Pipeline, step: Step, c: nat)
    requires Enabled(s, step)
    ensures ClientOf(Next(cfg, s, step), c).log
            == ClientOf(s, c).log + if step.AddJob? && step.client == c then [step.job] else []
  {
  }

  /** A client's log holds exactly the jobs added for it. */
  lemma {:induction false} LogFollows(cfg: Config, steps: seq<Step>, s: seq<Pipeline>, n: nat, c: nat)
    requires IsRun(cfg, steps, s) && n < |s|
    ensures ClientOf(s[n], c).log == JobsAdded(steps[..n], c)
  {
    if n == 0 {
      assert steps[..n] == [];
    } else {
      hide Next, Enabled, ClientOf, JobsAdded;
      LogFollows(cfg, steps, s, n - 1, c);
      assert IsStep(cfg, steps, s, n - 1);
      LogStep(cfg, s[n - 1], steps[n - 1], c);
      JobsStep(steps, n - 1, c);
    }
  }

  lemma {:induction false} AddedBy(steps: seq<Step>, n: nat, c: nat, job: Job) returns (j: nat)
    requires n <= |steps| && job in JobsAdded(steps[..n], c)
    ensures j < n && steps[j] == AddJob(c, job)
  {
    assert n > 0;
    JobsStep(steps, n - 1, c);
    j := n - 1;
    if job in JobsAdded(steps[..n - 1], c) {
      j := AddedBy(steps, n - 1, c, job);
    }
  }

  /** The job a share or block is credited to was the ring's answer for its id in some state between
      the arrival of the submission and the verdict, and so a job a step before that added for that
      client. */
  lemma CreditedWasIssued(cfg: Config, steps: seq<Step>, s: seq<Pipeline>, n: nat, id: nat) returns (a: nat, m: nat)
    requires IsRun(cfg, steps, s) && n < |s| && id in s[n].tasks
    requires var f := s[n].tasks[id].found; f.Some? && (f.value.Block? || f.value.Share?)
    ensures var t := s[n].tasks[id];
            && a < |steps| && a <= m <= n && BroughtIn(s[a], steps[a], id, t)
            && Lowest(t.jobId) <= t.found.value.id <= t.jobId
            && Lookup(ClientOf(s[m], t.client).log, t.found.value.id) == Some(Credited(t))
            && exists j :: 0 <= j < m && steps[j] == AddJob(t.client, Credited(t))
  {
    RunTask(cfg, steps, s, n, id);
    var t := s[n].tasks[id];
    assert t.cur in t.asked && t.asked[t.cur].job == Some(t.curJob) && t.found.value.id == t.cur;
    assert Lowest(t.jobId) <= t.cur <= t.jobId;
    hide TaskInv, IsRun;
    a, m := AnswerMoment(cfg, steps, s, n, id, t.cur);
    LookupAdded(ClientOf(s[m], t.client).log, t.cur);
    LogFollows(cfg, steps, s, m, t.client);
    var j := AddedBy(steps, m, t.client, t.curJob);
  }

  lemma LookupAdded(log: seq<Job>, id: nat)
    ensures Lookup(log, id).Some? ==> Lookup(log, id).value in log
  {
  }

  // ---------- Admission ----------

  lemma ArrivesBy(cfg: Config, s: Pipeline, step: Step, id: nat)
    requires Enabled(s, step)
    ensures id !in s.arrivals && id in Next(cfg, s, step).arrivals ==> step.Arrive? && step.id == id
    ensures step.Submit? && step.id == id ==> id in s.arrivals && id !in Next(cfg, s, step).arrivals
  {
    hide NextGuard, NextClients, NextTasks, NextStats, NextSink, Lookup;
  }

  lemma {:induction false} ArrivedBetween(cfg: Config, steps: seq<Step>, s: seq<Pipeline>, a: nat, b: nat, id: nat) returns (k: nat)
    requires IsRun(cfg, steps, s) && a <= b < |s| && id !in s[a].arrivals && id in s[b].arrivals
    ensures a <= k < b && steps[k].Arrive? && steps[k].id == id
    decreases b
  {
    hide Next, Enabled;
    k := b - 1;
    assert IsStep(cfg, steps, s, k);
    ArrivesBy(cfg, s[k], steps[k], id);
    if id in s[k].arrivals {
      k := ArrivedBetween(cfg, steps, s, a, k, id);
    }
  }

  /** A submission goes through the admission section once: a second time takes another arrival. */
  lemma OncePerArrival(cfg: Config, steps: seq<Step>, s: seq<Pipeline>, i: nat, j: nat, id: nat) returns (k: nat)
    requires IsRun(cfg, steps, s) && i < j < |steps|
    requires steps[i].Submit? && steps[i].id == id && steps[j].Submit? && steps[j].id == id
    ensures i < k < j && steps[k].Arrive? && steps[k].id == id
  {
    hide Next, Enabled;
    assert IsStep(cfg, steps, s, i) && IsStep(cfg, steps, s, j);
    ArrivesBy(cfg, s[i], steps[i], id);
    ArrivesBy(cfg, s[j], steps[j], id);
    k := ArrivedBetween(cfg, steps, s, i + 1, j, id);
  }

  // ---------- The node's word ----------

  /** An outcome, once known, is not changed. */
  lemma OutcomeStays(cfg: Config, s: Pipeline, step: Step, id: nat)
    requires Enabled(s, step) && id in s.tasks && s.tasks[id].phase.Recording?
    ensures id in Next(cfg, s, step).tasks
    ensures var p, p' := s.tasks[id].phase, Next(cfg, s, step).tasks[id].phase;
      p'.Recording? && p'.outcome == p.outcome && p'.viaBlock == p.viaBlock
  {
    hide NextGuard, NextClients, NextArrivals, NextStats, NextSink, Admits, Program;
  }

  /** Whatever comes after the node's answer, the submission's verdict is the one the answer asks for. */
  lemma {:induction false} ReplyDecides(cfg: Config, steps: seq<Step>, s: seq<Pipeline>, m: nat, n: nat, id: nat, reply: NodeReply)
    requires IsRun(cfg, steps, s) && m < n < |s| && steps[m] == Replied(id, reply)
    ensures id in s[n].tasks && s[n].tasks[id].phase.Recording?
    ensures var p := s[n].tasks[id].phase;
      && (p.outcome.Accepted? <==> reply == Success) && (p.viaBlock <==> reply == Success)
      && (p.outcome.LowDiff? <==> reply == Rejected)
      && (p.outcome.Stale? <==> reply == DuplicateBlock)
      && (p.outcome.Bad? <==> reply == OtherError)
    decreases n
  {
    hide NextGuard, NextClients, NextArrivals, NextStats, NextSink;
    assert IsStep(cfg, steps, s, n - 1);
    if m < n - 1 {
      hide Next, Enabled;
      ReplyDecides(cfg, steps, s, m, n - 1, id, reply);
      OutcomeStays(cfg, s[n - 1], steps[n - 1], id);
    }
  }

  // ---------- Targets ----------

  predicate SetsTarget(step: Step, c: nat) {
    step.SetTarget? && step.client == c
  }

  /** Of the first `m` steps the last that sets the client's target sets it to `x`, or none sets it and
      `x` is zero. */
  ghost predicate TargetIs(steps: seq<Step>, m: nat, c: nat, x: nat)
    requires m <= |steps|
  {
    || (x == 0 && forall i :: 0 <= i < m ==> !SetsTarget(steps[i], c))
    || (exists j :: LastSet(steps, m, c, x, j))
  }

  ghost predicate LastSet(steps: seq<Step>, m: nat, c: nat, x: nat, j: nat)
    requires m <= |steps|
  {
    j < m && steps[j] == SetTarget(c, x) && forall i :: j < i < m ==> !SetsTarget(steps[i], c)
  }

  lemma TargetStep(cfg: Config, s: Pipeline, step: Step, c: nat)
    requires Enabled(s, step)
    ensures ClientOf(s, c).targets <= ClientOf(Next(cfg, s, step), c).targets
    ensures |ClientOf(Next(cfg, s, step), c).targets| <= |ClientOf(s, c).targets| + 1
    ensures PoolTarget(ClientOf(Next(cfg, s, step), c).targets)
            == if SetsTarget(step, c) then step.target else PoolTarget(ClientOf(s, c).targets)
  {
  }

  /** The pool target of a client is the one set last. */
  lemma {:induction false} TargetFollows(cfg: Config, steps: seq<Step>, s: seq<Pipeline>, n: nat, c: nat)
    requires IsRun(cfg, steps, s) && n < |s|
    ensures TargetIs(steps, n, c, PoolTarget(ClientOf(s[n], c).targets))
  {
    if n > 0 {
      hide Next, Enabled, ClientOf, PoolTarget;
      TargetFollows(cfg, steps, s, n - 1, c);
      assert IsStep(cfg, steps, s, n - 1);
      TargetStep(cfg, s[n - 1], steps[n - 1], c);
      var k, x := n - 1, PoolTarget(ClientOf(s[n - 1], c).targets);
      if SetsTarget(steps[k], c) {
        assert LastSet(steps, n, c, steps[k].target, k);
      } else if j: nat :| LastSet(steps, k, c, x, j) {
        assert LastSet(steps, n, c, x, j);
      }
    }
  }

  lemma {:induction false} TargetMoment(cfg: Config, steps: seq<Step>, s: seq<Pipeline>, a: nat, n: nat, c: nat, at: nat)
    returns (m: nat)
    requires IsRun(cfg, steps, s) && a <= n < |s|
    requires |ClientOf(s[a], c).targets| <= at <= |ClientOf(s[n], c).targets|
    ensures a <= m <= n && ClientOf(s[m], c).targets == ClientOf(s[n], c).targets[..at]
    decreases n
  {
    var targets := ClientOf(s[n], c).targets;
    m := n;
    if at < |targets| {
      assert a < n;
      assert IsStep(cfg, steps, s, n - 1);
      TargetStep(cfg, s[n - 1], steps[n - 1], c);
      hide Next, Enabled, ClientOf;
      m := TargetMoment(cfg, steps, s, a, n - 1, c, at);
      assert targets[..at] == ClientOf(s[n - 1], c).targets[..at];
    }
  }

  /** Each pool target a round was judged by was, in some state since the submission came in, the one
      last set for its client, or zero as long as none was. */
  lemma PolledMoment(cfg: Config, steps: seq<Step>, s: seq<Pipeline>, n: nat, id: nat, k: nat) returns (a: nat, m: nat)
    requires IsRun(cfg, steps, s) && n < |s| && id in s[n].tasks && k in s[n].tasks[id].polled
    ensures a < |steps| && a <= m <= n && BroughtIn(s[a], steps[a], id, s[n].tasks[id])
    ensures TargetIs(steps, m, s[n].tasks[id].client, s[n].tasks[id].polled[k].target)
  {
    a := ArrivalOf(cfg, steps, s, n, id);
    RunTask(cfg, steps, s, n, id);
    var t := s[n].tasks[id];
    var c := t.client;
    assert PolledThen(ClientOf(s[n], c).targets, t, k);
    hide SearchInv, Observed, PoolTarget, TargetIs;
    m := TargetMoment(cfg, steps, s, a, n, c, t.polled[k].at);
    TargetFollows(cfg, steps, s, m, c);
  }

  // ---------- Nothing moved ----------

  /** If no job was added and no target set for the client since the submission came in, it found
      what the walk finds on the ring at rest. */
  lemma QuietWalk(cfg: Config, steps: seq<Step>, s: seq<Pipeline>, n: nat, id: nat)
    requires IsRun(cfg, steps, s) && n < |s| && id in s[n].tasks && !Walking(s[n].tasks[id])
    requires var t := s[n].tasks[id]; var c := ClientOf(s[n], t.client); t.since == (|c.log|, |c.targets|)
    ensures var t := s[n].tasks[id];
            var c := ClientOf(s[n], t.client);
            && Lookup(c.log, t.jobId).Some? && t.found.Some?
            && t.found.value == Walk(AtRest(cfg.pow, c.log, PoolTarget(c.targets)), NonceOf(t), t.jobId, t.jobId,
                                     Lookup(c.log, t.jobId).value)
  {
    var t := s[n].tasks[id];
    var c := ClientOf(s[n], t.client);
    RunTask(cfg, steps, s, n, id);
    hide IsRun, SearchInv, Walk, NonceOf;
    QuietAgrees(cfg.pow, c, t);
    assert AtRest(cfg.pow, c.log, PoolTarget(c.targets)).job(t.jobId) == Lookup(c.log, t.jobId);
    hide Observed, AtRest, Lookup, PoolTarget, ClientOf;
    VerdictExplained(cfg, steps, s, n, id, AtRest(cfg.pow, c.log, PoolTarget(c.targets)));
  }

  lemma QuietAgrees(pow: (Job, nat) -> nat, c: Client, t: Task)
    requires Observed(c, t) && t.since == (|c.log|, |c.targets|)
    ensures Agrees(AtRest(pow, c.log, PoolTarget(c.targets)), pow, t)
  {
    hide Lookup, PoolTarget;
    assert c.log[..|c.log|] == c.log && c.targets[..|c.targets|] == c.targets;
    forall id | id in t.asked ensures Lookup(c.log, id) == t.asked[id].job {
      assert AskedThen(c.log, t, id);
    }
    forall id | id in t.polled ensures PoolTarget(c.targets) == t.polled[id].target {
      assert PolledThen(c.targets, t, id);
    }
    hide Observed;
  }

  // ---------- Job id zero ----------

  /** A submission past its walk ends without a verdict exactly if it named job id zero and the job
      it was given there takes its nonce for neither target. */
  lemma AbandonedIff(cfg: Config, steps: seq<Step>, s: seq<Pipeline>, n: nat, id: nat, r: Readings)
    requires IsRun(cfg, steps, s) && n < |s| && id in s[n].tasks && !Walking(s[n].tasks[id])
    requires Agrees(r, cfg.pow, s[n].tasks[id])
    ensures var t := s[n].tasks[id]; t.phase.Abandoned? <==> t.jobId == 0 && Passed(r, NonceOf(t), 0)
  {
    var t := s[n].tasks[id];
    VerdictExplained(cfg, steps, s, n, id, r);
    hide IsRun, Agrees, Walk;
    if t.jobId == 0 && Passed(r, NonceOf(t), 0) {
      assert Decision(r, NonceOf(t), t.jobId, NoPrevious);
      DecisionUnique(r, NonceOf(t), t.jobId, NoPrevious, t.found.value);
    }
  }

  /** The state in which client 0 has been given the same job `k` times, and nothing else happened. */
  function Stocked(job: Job, k: nat): Pipeline {
    START.(clients := map[0 := Client(seq(k, _ => job), [])])
  }

  lemma {:induction false} StockedReached(cfg: Config, job: Job, k: nat)
    requires k > 0
    ensures Reachable(cfg, Stocked(job, k))
  {
    var step := AddJob(0, job);
    if k == 1 {
      ReachStart(cfg);
      ReachStep(cfg, START, step);
      assert [] + [job] == seq(1, _ => job);
      assert Next(cfg, START, step) == Stocked(job, 1);
    } else {
      StockedReached(cfg, job, k - 1);
      ReachStep(cfg, Stocked(job, k - 1), step);
      assert seq(k - 1, _ => job) + [job] == seq(k, _ => job);
      assert Next(cfg, Stocked(job, k - 1), step) == Stocked(job, k);
    }
  }

  lemma FullRingAnswersZero(job: Job)
    ensures Lookup(seq(MAX_JOBS, _ => job), 0) == Some(job)
  {
  }

  /** A submission for job id zero, when it comes in. */
  function ZeroTask(worker: string, nonceText: string, job: Job): Task {
    Arrived(Client(seq(MAX_JOBS, _ => job), []), 0, worker, 0, nonceText, job)
  }

  lemma ZeroTested(cfg: Config, worker: string, nonceText: string, job: Job)
    requires !MeetsNetwork(cfg.pow, NonceOf(ZeroTask(worker, nonceText, job)), job)
    ensures Tested(cfg.pow, Client(seq(MAX_JOBS, _ => job), []), ZeroTask(worker, nonceText, job)).phase.Abandoned?
  {
    LowestIsLastRound(0);
    hide MeetsNetwork, NonceOf, LastRound;
  }

  lemma EmptyGuardAdmits(lim: ExpiringQueue.Limits, t: Task, now: nat)
    ensures Admits(lim, DuplicateGuard.EMPTY, t, now)
  {
    hide KeyOf;
  }

  lemma ZeroAdmitted(cfg: Config, worker: string, nonceText: string, job: Job) returns (s: Pipeline)
    requires Text.ParseHexU64(nonceText).Some?
    ensures Reachable(cfg, s) && s.tasks == map[0 := ZeroTask(worker, nonceText, job)]
    ensures ClientOf(s, 0) == Client(seq(MAX_JOBS, _ => job), []) && s.stats.overall == ZERO
  {
    var s0 := Stocked(job, MAX_JOBS);
    StockedReached(cfg, job, MAX_JOBS);
    FullRingAnswersZero(job);
    hide Lookup, Reachable, Text.ParseHexU64;
    var arrive := Arrive(0, 0, worker, 0, nonceText);
    ReachStep(cfg, s0, arrive);
    var s1 := Next(cfg, s0, arrive);
    assert s1.arrivals == map[0 := ZeroTask(worker, nonceText, job)] && s1.guard == DuplicateGuard.EMPTY && s1.tasks == map[];
    EmptyGuardAdmits(cfg.lim, ZeroTask(worker, nonceText, job), 0);
    ReachStep(cfg, s1, Submit(0, 0));
    hide Admits, DuplicateGuard.Submitted, KeyOf;
    s := Next(cfg, s1, Submit(0, 0));
  }

  /** Such submissions happen: once the ring is full, a submission for job id zero whose nonce misses
      the network target of the job it is given, with no pool difficulty set, is admitted, and ends
      without a verdict, an answer or a count. */
  lemma JobZeroAbandons(cfg: Config, worker: string, nonceText: string, job: Job) returns (s: Pipeline)
    requires Text.ParseHexU64(nonceText).Some? && !MeetsNetwork(cfg.pow, Text.ParseHexU64(nonceText).value, job)
    ensures Reachable(cfg, s) && 0 in s.tasks && s.stats.overall == ZERO
    ensures var t := s.tasks[0]; t.phase.Abandoned? && t.worker == worker && t.jobId == 0 && t.nonceText == nonceText
  {
    var s2 := ZeroAdmitted(cfg, worker, nonceText, job);
    var t := ZeroTask(worker, nonceText, job);
    assert NonceOf(t) == Text.ParseHexU64(nonceText).value;
    ZeroTested(cfg, worker, nonceText, job);
    hide Reachable, MeetsNetwork, Text.ParseHexU64;
    ReachStep(cfg, s2, Test(0));
    s := Next(cfg, s2, Test(0));
  }
}
