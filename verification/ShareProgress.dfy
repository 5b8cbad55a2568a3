/** A submission never gets stuck, and has a bounded number of steps of its own. */
module ShareProgress {
  import opened JobRing
  import opened SharePipeline
  import opened ShareSearch
  import opened ShareTask
  import opened WalkBack
  import ShareCounts

  /** Two steps for each of 300 ids, the call to the node, and eight sections at most. */
  const MOST_STEPS := 609

  lemma RankBounded(pow: (Job, nat) -> nat, t: Task)
    requires SearchInv(pow, t)
    ensures Rank(t) <= MOST_STEPS
  {
    assert t.cur - Floor(t) < MAX_JOBS;
    hide SearchInv;
  }

  lemma TestFalls(pow: (Job, nat) -> nat, c: Client, t: Task)
    requires SearchInv(pow, t) && t.phase.Testing?
    ensures Rank(Tested(pow, c, t)) < Rank(t)
  {
    TestEnds(pow, t, PoolTarget(c.targets));
    hide SearchInv, TestResult, MeetsNetwork, PoolTarget;
    FreshRank(pow, t, PoolTarget(c.targets));
  }

  /** A verdict leaves at most eight sections to go through. */
  lemma FreshRank(pow: (Job, nat) -> nat, t: Task, target: nat)
    ensures var phase := TestResult(pow, t, target).0;
            phase.Recording? ==> |Program(phase.outcome, phase.viaBlock)| <= 8 && phase.pc == 0
  {
    hide MeetsNetwork, LastRound, NonceOf;
  }

  lemma AskFalls(pow: (Job, nat) -> nat, c: Client, t: Task)
    requires SearchInv(pow, t) && t.phase.Asking?
    ensures t.cur > 0 && Rank(AskedPrevious(c, t)) < Rank(t)
  {
    assert t.cur > Lowest(t.jobId);
    hide SearchInv, Lookup;
  }

  lemma ReplyFalls(t: Task, reply: NodeReply)
    requires t.phase.Submitting?
    ensures Rank(t.(phase := AfterReply(reply))) < Rank(t)
  {
  }

  lemma ActFalls(st: Stats, t: Task, name: string)
    requires Pending(t)
    ensures Rank(TaskAfter(st, t, name)) < Rank(t)
  {
    hide Program, WithRecord;
  }

  lemma OwnRankFalls(cfg: Config, s: Pipeline, step: Step)
    requires Enabled(s, step) && OfTask(step) && SearchInv(cfg.pow, s.tasks[step.id])
    ensures Rank(OwnNext(cfg, s, step)) < Rank(s.tasks[step.id])
  {
    hide SearchInv, ClientOf, Rank, Tested, AskedPrevious, TaskAfter, AfterReply;
    var t := s.tasks[step.id];
    match step
    case Test(_) => TestFalls(cfg.pow, ClientOf(s, t.client), t);
    case Ask(_) => AskFalls(cfg.pow, ClientOf(s, t.client), t);
    case Replied(_, reply) => ReplyFalls(t, reply);
    case Act(_, name, _) => ActFalls(s.stats, t, name);
  }

  /** Every step a run can take, whichever it is, lowers the rank of the submission it belongs to, and
      leaves every other submission as it is. */
  lemma EveryStepFalls(cfg: Config, steps: seq<Step>, s: seq<Pipeline>, n: nat, step: Step, id: nat)
    requires IsRun(cfg, steps, s) && n < |s| && Enabled(s[n], step) && id in s[n].tasks
    ensures id in Next(cfg, s[n], step).tasks && Rank(s[n].tasks[id]) <= MOST_STEPS
    ensures if OwnStep(step, id) then Rank(Next(cfg, s[n], step).tasks[id]) < Rank(s[n].tasks[id])
            else Next(cfg, s[n], step).tasks[id] == s[n].tasks[id]
  {
    RunTask(cfg, steps, s, n, id);
    hide IsRun, SearchInv, Observed, Rank;
    RankBounded(cfg.pow, s[n].tasks[id]);
    TasksStay(cfg, s[n], step, id);
    if OwnStep(step, id) {
      OwnTasks(cfg, s[n], step);
      OwnRankFalls(cfg, s[n], step);
    } else {
      TaskBefore(cfg, s[n], step, id);
    }
    hide Next, OwnNext, Enabled;
  }

  /** The steps of submission `id` among the first `n`. */
  function OwnSteps(steps: seq<Step>, id: nat, n: nat): nat
    requires n <= |steps|
  {
    if n == 0 then 0 else OwnSteps(steps, id, n - 1) + if OwnStep(steps[n - 1], id) then 1 else 0
  }

  /** No interleaving gives a submission more than 609 steps of its own. */
  lemma {:induction false} StepsBounded(cfg: Config, steps: seq<Step>, s: seq<Pipeline>, n: nat, id: nat)
    requires IsRun(cfg, steps, s) && n < |s|
    ensures OwnSteps(steps, id, n) <= MOST_STEPS
    ensures if id in s[n].tasks then OwnSteps(steps, id, n) + Rank(s[n].tasks[id]) <= MOST_STEPS
            else OwnSteps(steps, id, n) == 0
  {
    hide Rank, Next, Enabled;
    if n > 0 {
      StepsBounded(cfg, steps, s, n - 1, id);
      assert IsStep(cfg, steps, s, n - 1);
      if id in s[n - 1].tasks {
        EveryStepFalls(cfg, steps, s, n - 1, steps[n - 1], id);
      } else {
        NotYetOwn(s[n - 1], steps[n - 1], id);
        if id in s[n].tasks {
          RunTask(cfg, steps, s, n, id);
          RankBounded(cfg.pow, s[n].tasks[id]);
        }
      }
    }
  }

  lemma ActReady(st: Stats, t: Task)
    requires ShareCounts.RecordFits(st, t) && Pending(t)
    ensures CanAct(st, t)
  {
    if NextAction(t) == BumpWorker {
      NextBefore(t);
    }
    hide Program, Did;
  }

  lemma TaskFacts(cfg: Config, steps: seq<Step>, s: seq<Pipeline>, n: nat, id: nat)
    requires IsRun(cfg, steps, s) && n < |s| && id in s[n].tasks
    ensures ShareCounts.RecordFits(s[n].stats, s[n].tasks[id])
    ensures s[n].tasks[id].phase.Asking? ==> s[n].tasks[id].cur > 0
  {
    RunTask(cfg, steps, s, n, id);
    ShareCounts.RunInv(cfg, steps, s, n);
    hide IsRun, Observed, PassedDown, PassedHere, Explained, PhaseFound, ShareCounts.CountersFit, ShareCounts.SinkFits,
         ShareCounts.StatsFit, ShareCounts.RecordFits, ShareCounts.PhaseFits;
  }

  /** A submission that has not ended always has a step of its own to take. */
  lemma CanProceed(cfg: Config, steps: seq<Step>, s: seq<Pipeline>, n: nat, id: nat) returns (step: Step)
    requires IsRun(cfg, steps, s) && n < |s| && id in s[n].tasks && !Ended(s[n].tasks[id])
    ensures Enabled(s[n], step) && OwnStep(step, id)
  {
    var t := s[n].tasks[id];
    TaskFacts(cfg, steps, s, n, id);
    hide IsRun, ShareCounts.RecordFits, Pending, CanAct;
    match t.phase
    case Testing => step := Test(id);
    case Asking => step := Ask(id);
    case Submitting => step := Replied(id, Success);
    case Recording(_, _, _) =>
      step := Act(id, "", 0);
      ActReady(s[n].stats, t);
  }
}
