/** What the rounds of a submission amount to: the declarative search, over answers the client's job
    ring and pool target really gave while the submission was under way. */
module ShareSearch {
  import opened JobRing
  import opened SharePipeline
  import opened ShareTask
  import opened WalkBack
  import opened Wrappers

  // ---------- One submission ----------

  /** The job read under this id was tried, and neither made a block nor beat the pool target read. */
  predicate PassedHere(pow: (Job, nat) -> nat, t: Task, id: nat) {
    && id in t.asked && t.asked[id].job.Some? && id in t.polled
    && !MeetsNetwork(pow, NonceOf(t), t.asked[id].job.value)
    && pow(t.asked[id].job.value, NonceOf(t)) >= t.polled[id].target
  }

  ghost predicate PassedDown(pow: (Job, nat) -> nat, t: Task, low: nat) {
    forall id :: low < id <= t.jobId ==> PassedHere(pow, t, id)
  }

  predicate Explained(pow: (Job, nat) -> nat, t: Task, found: Found) {
    match found
    case Block(id, job) => id == t.cur && job == t.curJob && MeetsNetwork(pow, NonceOf(t), job)
    case Share(id, job) =>
      && id == t.cur && job == t.curJob && !MeetsNetwork(pow, NonceOf(t), job)
      && id in t.polled && pow(job, NonceOf(t)) < t.polled[id].target
    case LowDiff =>
      && t.jobId >= 1 && PassedHere(pow, t, t.cur)
      && (t.cur == Lowest(t.jobId) || (t.cur > 0 && t.cur - 1 in t.asked && t.asked[t.cur - 1].job == None))
    case NoPrevious => t.jobId == 0 && PassedHere(pow, t, 0)
  }

  /** The phase agrees with what the walk-back found and the node answered. */
  predicate PhaseFound(t: Task, found: Found) {
    match t.phase
    case Submitting => found.Block?
    case Abandoned => found.NoPrevious?
    case Recording(o, viaBlock, _) =>
      && !found.NoPrevious? && !o.InFlight?
      && (viaBlock ==> found.Block? && o.Accepted?)
      && (o.Accepted? && !viaBlock <==> found.Share?)
      && (o.LowDiff? <== found.LowDiff?)
      && (o.LowDiff? ==> found.LowDiff? || found.Block?)
    case _ => false
  }

  ghost predicate SearchInv(pow: (Job, nat) -> nat, t: Task) {
    && Lowest(t.jobId) <= t.cur <= t.jobId
    && t.cur in t.asked && t.asked[t.cur].job == Some(t.curJob)
    && PassedDown(pow, t, t.cur)
    && (Walking(t) ==> t.found == None && forall id :: id in t.asked ==> t.cur <= id)
    && (t.phase.Asking? ==> PassedHere(pow, t, t.cur) && t.cur > Lowest(t.jobId))
    && (!Walking(t) ==> t.found.Some? && Explained(pow, t, t.found.value) && PhaseFound(t, t.found.value))
  }

  lemma SameNonce(t: Task, t': Task)
    requires t'.nonceText == t.nonceText
    ensures NonceOf(t') == NonceOf(t)
  {
  }

  /** Reading at or below `low` does not change what was passed above it. */
  lemma PassedStays(pow: (Job, nat) -> nat, t: Task, t': Task, low: nat)
    requires PassedDown(pow, t, low) && t'.nonceText == t.nonceText && t'.jobId == t.jobId
    requires forall id :: low < id && id in t.asked ==> id in t'.asked && t'.asked[id] == t.asked[id]
    requires forall id :: low < id && id in t.polled ==> id in t'.polled && t'.polled[id] == t.polled[id]
    ensures PassedDown(pow, t', low)
  {
    SameNonce(t, t');
    hide NonceOf, MeetsNetwork;
    forall id | low < id <= t'.jobId ensures PassedHere(pow, t', id) {
      assert PassedHere(pow, t, id);
    }
  }

  lemma TestEnds(pow: (Job, nat) -> nat, t: Task, target: nat)
    requires Lowest(t.jobId) <= t.cur <= t.jobId
    ensures var (phase, found) := TestResult(pow, t, target);
            && !phase.Testing?
            && (phase.Asking? ==> found == None && t.cur > Lowest(t.jobId))
            && (!phase.Asking? ==> found.Some? && PhaseFound(t.(phase := phase), found.value))
            && (found == Some(Found.LowDiff) ==> t.jobId >= 1 && t.cur == Lowest(t.jobId))
            && (found == Some(NoPrevious) ==> t.jobId == 0)
  {
    LowestIsLastRound(t.jobId);
    if LastRound(t.jobId, t.cur) {
      LastRoundIsLowest(t.jobId, t.cur);
    }
    hide LastRound, MeetsNetwork, NonceOf;
  }

  lemma TestedExplained(pow: (Job, nat) -> nat, c: Client, t: Task)
    requires Lowest(t.jobId) <= t.cur <= t.jobId && t.cur in t.asked && t.asked[t.cur].job == Some(t.curJob)
    ensures var t' := Tested(pow, c, t);
            if t'.phase.Asking? then PassedHere(pow, t', t.cur)
            else t'.found.Some? && Explained(pow, t', t'.found.value)
  {
    var t' := Tested(pow, c, t);
    SameNonce(t, t');
    TestEnds(pow, t, PoolTarget(c.targets));
    hide NonceOf, PoolTarget, LastRound, MeetsNetwork;
  }

  lemma TestedSearch(pow: (Job, nat) -> nat, c: Client, t: Task)
    requires SearchInv(pow, t) && t.phase.Testing?
    ensures SearchInv(pow, Tested(pow, c, t))
  {
    var t' := Tested(pow, c, t);
    PassedStays(pow, t, t', t.cur);
    TestedExplained(pow, c, t);
    TestEnds(pow, t, PoolTarget(c.targets));
    hide NonceOf, PoolTarget, TestResult, MeetsNetwork, PassedDown, PassedHere, Explained, Lowest;
  }

  lemma OneMorePassed(pow: (Job, nat) -> nat, t: Task, id: nat)
    requires PassedDown(pow, t, id) && PassedHere(pow, t, id) && id > 0
    ensures PassedDown(pow, t, id - 1)
  {
    hide PassedHere;
  }

  lemma AskedSearch(pow: (Job, nat) -> nat, c: Client, t: Task)
    requires SearchInv(pow, t) && t.phase.Asking?
    ensures t.cur > 0 && SearchInv(pow, AskedPrevious(c, t))
  {
    hide NonceOf, Lookup, MeetsNetwork;
    var t' := AskedPrevious(c, t);
    SameNonce(t, t');
    PassedStays(pow, t, t', t.cur);
    assert PassedHere(pow, t', t.cur);
    OneMorePassed(pow, t', t.cur);
    hide PassedDown, PassedHere, Lowest;
  }

  /** Nothing the walk reads or finds is changed. */
  predicate SameWalk(t: Task, t': Task) {
    && t'.client == t.client && t'.jobId == t.jobId && t'.nonceText == t.nonceText && t'.since == t.since
    && t'.asked == t.asked && t'.polled == t.polled && t'.cur == t.cur && t'.curJob == t.curJob && t'.found == t.found
  }

  lemma SameWalkSearch(pow: (Job, nat) -> nat, t: Task, t': Task)
    requires SearchInv(pow, t) && !Walking(t) && SameWalk(t, t') && !Walking(t') && PhaseFound(t', t.found.value)
    ensures SearchInv(pow, t')
  {
    PassedStays(pow, t, t', t.cur);
    SameNonce(t, t');
    hide NonceOf, PassedDown, PhaseFound, Lowest, MeetsNetwork;
  }

  lemma RepliedSearch(pow: (Job, nat) -> nat, t: Task, reply: NodeReply)
    requires SearchInv(pow, t) && t.phase.Submitting?
    ensures SearchInv(pow, t.(phase := AfterReply(reply)))
  {
    hide PassedDown, Explained, PassedHere, Lowest;
    SameWalkSearch(pow, t, t.(phase := AfterReply(reply)));
  }

  lemma ActedSearch(pow: (Job, nat) -> nat, st: Stats, t: Task, name: string)
    requires SearchInv(pow, t) && Pending(t)
    ensures SearchInv(pow, TaskAfter(st, t, name))
  {
    hide PassedDown, Explained, PassedHere, Lowest, WithRecord;
    SameWalkSearch(pow, t, TaskAfter(st, t, name));
  }

  lemma ArrivedSearch(pow: (Job, nat) -> nat, c: Client, client: nat, worker: string, jobId: nat, nonceText: string, job: Job)
    ensures SearchInv(pow, Arrived(c, client, worker, jobId, nonceText, job))
  {
  }

  // ---------- Every reading is an answer of its moment ----------

  /** Each id was answered, and each target read, as of some moment since the submission got its job,
      and lower ids were answered no earlier. */
  ghost predicate Observed(c: Client, t: Task) {
    && t.since.0 <= |c.log| && t.since.1 <= |c.targets|
    && (forall id :: id in t.asked ==> AskedThen(c.log, t, id))
    && (forall id :: id in t.polled ==> PolledThen(c.targets, t, id))
    && (forall i, j :: i in t.asked && j in t.asked && i < j ==> t.asked[j].at <= t.asked[i].at)
  }

  predicate AskedThen(log: seq<Job>, t: Task, id: nat)
    requires id in t.asked
  {
    t.since.0 <= t.asked[id].at <= |log| && t.asked[id].job == Lookup(log[..t.asked[id].at], id)
  }

  predicate PolledThen(targets: seq<nat>, t: Task, id: nat)
    requires id in t.polled
  {
    t.since.1 <= t.polled[id].at <= |targets| && t.polled[id].target == PoolTarget(targets[..t.polled[id].at])
  }

  lemma ObservedGrows(c: Client, c': Client, t: Task)
    requires Observed(c, t) && c.log <= c'.log && c.targets <= c'.targets
    ensures Observed(c', t)
  {
    forall id | id in t.asked ensures AskedThen(c'.log, t, id) {
      assert AskedThen(c.log, t, id);
      assert c'.log[..t.asked[id].at] == c.log[..t.asked[id].at];
    }
    forall id | id in t.polled ensures PolledThen(c'.targets, t, id) {
      assert PolledThen(c.targets, t, id);
      assert c'.targets[..t.polled[id].at] == c.targets[..t.polled[id].at];
    }
    hide AskedThen, PolledThen;
  }

  lemma TestedObserved(pow: (Job, nat) -> nat, c: Client, t: Task)
    requires Observed(c, t)
    ensures Observed(c, Tested(pow, c, t))
  {
    var t' := Tested(pow, c, t);
    assert t'.asked == t.asked && t'.since == t.since;
    forall id | id in t'.polled ensures PolledThen(c.targets, t', id) {
      if id in t.polled && t'.polled[id] == t.polled[id] {
        assert PolledThen(c.targets, t, id);
      } else {
        assert c.targets[..|c.targets|] == c.targets;
      }
    }
    hide Tested, PolledThen, MeetsNetwork;
    forall id | id in t'.asked ensures AskedThen(c.log, t', id) {
      assert AskedThen(c.log, t, id);
    }
    hide AskedThen;
  }

  lemma AskedObserved(c: Client, t: Task)
    requires Observed(c, t) && t.cur > 0 && forall id :: id in t.asked ==> t.cur <= id
    ensures Observed(c, AskedPrevious(c, t))
  {
    var t' := AskedPrevious(c, t);
    var previous := t.cur - 1;
    assert t'.polled == t.polled && t'.since == t.since && t'.asked == t.asked[previous := Asked(Lookup(c.log, previous), |c.log|)];
    hide AskedPrevious;
    forall id | id in t'.asked ensures AskedThen(c.log, t', id) && t'.asked[id].at <= |c.log| {
      if id == previous {
        assert c.log[..|c.log|] == c.log;
      } else {
        assert AskedThen(c.log, t, id);
      }
    }
    hide Lookup;
    forall id | id in t'.polled ensures PolledThen(c.targets, t', id) {
      assert PolledThen(c.targets, t, id);
    }
    hide AskedThen, PolledThen;
  }

  lemma SameWalkObserved(c: Client, t: Task, t': Task)
    requires Observed(c, t) && SameWalk(t, t')
    ensures Observed(c, t')
  {
    forall id | id in t'.asked ensures AskedThen(c.log, t', id) {
      assert AskedThen(c.log, t, id);
    }
    forall id | id in t'.polled ensures PolledThen(c.targets, t', id) {
      assert PolledThen(c.targets, t, id);
    }
    hide AskedThen, PolledThen;
  }

  lemma ArrivedObserved(c: Client, client: nat, worker: string, jobId: nat, nonceText: string, job: Job)
    requires Lookup(c.log, jobId) == Some(job)
    ensures Observed(c, Arrived(c, client, worker, jobId, nonceText, job))
  {
    assert c.log[..|c.log|] == c.log;
  }

  // ---------- Every run ----------

  ghost predicate TaskInv(pow: (Job, nat) -> nat, c: Client, t: Task) {
    SearchInv(pow, t) && Observed(c, t)
  }

  ghost predicate Inv(cfg: Config, s: Pipeline) {
    && (forall id :: id in s.tasks ==> TaskInv(cfg.pow, ClientOf(s, s.tasks[id].client), s.tasks[id]))
    && (forall id :: id in s.arrivals ==>
          s.arrivals[id].phase.Testing? && TaskInv(cfg.pow, ClientOf(s, s.arrivals[id].client), s.arrivals[id]))
  }

  lemma ClientsGrow(cfg: Config, s: Pipeline, step: Step, c: nat)
    requires Enabled(s, step)
    ensures ClientOf(s, c).log <= ClientOf(Next(cfg, s, step), c).log
    ensures ClientOf(s, c).targets <= ClientOf(Next(cfg, s, step), c).targets
    ensures OfTask(step) ==> ClientOf(Next(cfg, s, step), c) == ClientOf(s, c)
  {
  }

  lemma TaskInvGrows(cfg: Config, s: Pipeline, step: Step, t: Task)
    requires Enabled(s, step) && TaskInv(cfg.pow, ClientOf(s, t.client), t)
    ensures TaskInv(cfg.pow, ClientOf(Next(cfg, s, step), t.client), t)
  {
    ClientsGrow(cfg, s, step, t.client);
    hide SearchInv, Observed, Next, Enabled, ClientOf;
    ObservedGrows(ClientOf(s, t.client), ClientOf(Next(cfg, s, step), t.client), t);
  }

  lemma TestedInv(pow: (Job, nat) -> nat, c: Client, t: Task)
    requires TaskInv(pow, c, t) && t.phase.Testing?
    ensures TaskInv(pow, c, Tested(pow, c, t)) && Tested(pow, c, t).client == t.client
  {
    hide SearchInv, Observed, TestResult, PoolTarget, MeetsNetwork;
    TestedSearch(pow, c, t);
    TestedObserved(pow, c, t);
  }

  lemma AskedInv(pow: (Job, nat) -> nat, c: Client, t: Task)
    requires TaskInv(pow, c, t) && t.phase.Asking?
    ensures t.cur > 0 && TaskInv(pow, c, AskedPrevious(c, t)) && AskedPrevious(c, t).client == t.client
  {
    AskedSearch(pow, c, t);
    hide Observed, Lookup;
    AskedObserved(c, t);
    hide SearchInv;
  }

  lemma RepliedInv(pow: (Job, nat) -> nat, c: Client, t: Task, reply: NodeReply)
    requires TaskInv(pow, c, t) && t.phase.Submitting?
    ensures TaskInv(pow, c, t.(phase := AfterReply(reply)))
  {
    hide SearchInv, Observed;
    RepliedSearch(pow, t, reply);
    SameWalkObserved(c, t, t.(phase := AfterReply(reply)));
  }

  lemma ActedInv(pow: (Job, nat) -> nat, c: Client, st: Stats, t: Task, name: string)
    requires TaskInv(pow, c, t) && Pending(t)
    ensures TaskInv(pow, c, TaskAfter(st, t, name)) && TaskAfter(st, t, name).client == t.client
  {
    hide SearchInv, Observed, WithRecord;
    ActedSearch(pow, st, t, name);
    SameWalkObserved(c, t, TaskAfter(st, t, name));
  }

  lemma OwnStepInv(cfg: Config, s: Pipeline, step: Step)
    requires Enabled(s, step) && OfTask(step)
    requires var t := s.tasks[step.id]; TaskInv(cfg.pow, ClientOf(s, t.client), t)
    ensures var t' := OwnNext(cfg, s, step);
            t'.client == s.tasks[step.id].client && TaskInv(cfg.pow, ClientOf(s, t'.client), t')
  {
    hide TaskInv, ClientOf, Tested, AskedPrevious, TaskAfter;
    var t := s.tasks[step.id];
    var c := ClientOf(s, t.client);
    match step
    case Test(_) => TestedInv(cfg.pow, c, t);
    case Ask(_) => AskedInv(cfg.pow, c, t);
    case Replied(_, reply) => RepliedInv(cfg.pow, c, t, reply);
    case Act(_, name, _) => ActedInv(cfg.pow, c, s.stats, t, name);
  }

  lemma StepTask(cfg: Config, s: Pipeline, step: Step, id: nat)
    requires Inv(cfg, s) && Enabled(s, step) && id in Next(cfg, s, step).tasks
    ensures var s' := Next(cfg, s, step); TaskInv(cfg.pow, ClientOf(s', s'.tasks[id].client), s'.tasks[id])
  {
    if OwnStep(step, id) {
      OwnTasks(cfg, s, step);
      OwnStepInv(cfg, s, step);
      hide Next, OwnNext, Enabled, TaskInv;
      TaskInvGrows(cfg, s, step, OwnNext(cfg, s, step));
    } else {
      TaskBefore(cfg, s, step, id);
      hide Next, Enabled, TaskInv;
      TaskInvGrows(cfg, s, step, if id in s.tasks then s.tasks[id] else s.arrivals[id]);
    }
  }

  lemma StepArrival(cfg: Config, s: Pipeline, step: Step, id: nat)
    requires Inv(cfg, s) && Enabled(s, step) && id in Next(cfg, s, step).arrivals
    ensures var s' := Next(cfg, s, step);
            s'.arrivals[id].phase.Testing? && TaskInv(cfg.pow, ClientOf(s', s'.arrivals[id].client), s'.arrivals[id])
  {
    ArrivalBefore(cfg, s, step, id);
    if id in s.arrivals {
      hide Next, Enabled, TaskInv;
      TaskInvGrows(cfg, s, step, s.arrivals[id]);
    } else {
      var c := ClientOf(s, step.client);
      var t := Next(cfg, s, step).arrivals[id];
      ArrivedSearch(cfg.pow, c, step.client, step.worker, step.jobId, step.nonceText, t.curJob);
      ArrivedObserved(c, step.client, step.worker, step.jobId, step.nonceText, t.curJob);
      hide Next, Enabled, SearchInv, Observed, Lookup, ClientOf;
      TaskInvGrows(cfg, s, step, t);
    }
  }

  lemma ArrivalBefore(cfg: Config, s: Pipeline, step: Step, id: nat)
    requires Enabled(s, step) && id in Next(cfg, s, step).arrivals
    ensures if id in s.arrivals then Next(cfg, s, step).arrivals[id] == s.arrivals[id]
            else
              && step.Arrive? && step.id == id
              && var t, c := Next(cfg, s, step).arrivals[id], ClientOf(s, step.client);
                 && Lookup(c.log, step.jobId) == Some(t.curJob)
                 && t == Arrived(c, step.client, step.worker, step.jobId, step.nonceText, t.curJob)
  {
    hide Lookup;
  }

  lemma StepInv(cfg: Config, s: Pipeline, step: Step)
    requires Inv(cfg, s) && Enabled(s, step)
    ensures Inv(cfg, Next(cfg, s, step))
  {
    var s' := Next(cfg, s, step);
    hide Next, Enabled, TaskInv, Inv;
    forall id | id in s'.tasks ensures TaskInv(cfg.pow, ClientOf(s', s'.tasks[id].client), s'.tasks[id]) {
      StepTask(cfg, s, step, id);
    }
    forall id | id in s'.arrivals
      ensures s'.arrivals[id].phase.Testing? && TaskInv(cfg.pow, ClientOf(s', s'.arrivals[id].client), s'.arrivals[id])
    {
      StepArrival(cfg, s, step, id);
    }
    InvOf(cfg, s');
  }

  lemma InvOf(cfg: Config, s: Pipeline)
    requires forall id :: id in s.tasks ==> TaskInv(cfg.pow, ClientOf(s, s.tasks[id].client), s.tasks[id])
    requires forall id :: id in s.arrivals ==>
               s.arrivals[id].phase.Testing? && TaskInv(cfg.pow, ClientOf(s, s.arrivals[id].client), s.arrivals[id])
    ensures Inv(cfg, s)
  {
    hide TaskInv, ClientOf;
  }

  lemma {:induction false} RunInv(cfg: Config, steps: seq<Step>, s: seq<Pipeline>, n: nat)
    requires IsRun(cfg, steps, s) && n < |s|
    ensures Inv(cfg, s[n])
  {
    if n > 0 {
      hide Inv, Next, Enabled;
      RunInv(cfg, steps, s, n - 1);
      assert IsStep(cfg, steps, s, n - 1);
      StepInv(cfg, s[n - 1], steps[n - 1]);
    }
  }

  // ---------- The verdict ----------

  /** The readings hold whatever the submission read. */
  ghost predicate Agrees(r: Readings, pow: (Job, nat) -> nat, t: Task) {
    && r.pow == pow
    && (forall id :: id in t.asked ==> r.job(id) == t.asked[id].job)
    && (forall id :: id in t.polled ==> r.poolTarget(id) == t.polled[id].target)
  }

  lemma PassedAgrees(r: Readings, pow: (Job, nat) -> nat, t: Task, low: nat)
    requires Agrees(r, pow, t) && PassedDown(pow, t, low)
    ensures PassedAbove(r, NonceOf(t), t.jobId, low)
  {
    forall id | low < id <= t.jobId ensures Passed(r, NonceOf(t), id) {
      assert PassedHere(pow, t, id);
    }
  }

  /** A submission past its walk has the decision of the declarative search over what it read. */
  lemma FoundIsDecision(r: Readings, pow: (Job, nat) -> nat, t: Task)
    requires SearchInv(pow, t) && !Walking(t) && Agrees(r, pow, t)
    ensures Decision(r, NonceOf(t), t.jobId, t.found.value)
  {
    PassedAgrees(r, pow, t, t.cur);
    hide PassedAbove, PassedDown, NonceOf, Lowest;
    if t.found.value.LowDiff? {
      assert StopsAt(r, NonceOf(t), t.jobId, t.cur);
    }
  }

  lemma RunTask(cfg: Config, steps: seq<Step>, s: seq<Pipeline>, n: nat, id: nat)
    requires IsRun(cfg, steps, s) && n < |s| && id in s[n].tasks
    ensures TaskInv(cfg.pow, ClientOf(s[n], s[n].tasks[id].client), s[n].tasks[id])
  {
    RunInv(cfg, steps, s, n);
    hide IsRun, TaskInv, ClientOf;
  }

  lemma SubmittedAsked(pow: (Job, nat) -> nat, t: Task)
    requires SearchInv(pow, t)
    ensures t.jobId in t.asked && t.asked[t.jobId].job.Some?
  {
    if t.cur < t.jobId {
      assert PassedHere(pow, t, t.jobId);
    }
  }

  /** There always are such readings. */
  function ReadingsOf(pow: (Job, nat) -> nat, t: Task): Readings {
    Readings(pow, (id: nat) => if id in t.asked then t.asked[id].job else None,
             (id: nat) => if id in t.polled then t.polled[id].target else 0)
  }

  lemma ReadingsAgree(pow: (Job, nat) -> nat, t: Task)
    ensures Agrees(ReadingsOf(pow, t), pow, t)
  {
  }

  /** Whatever else went on, what a submission found is what the walk, and so the declarative search,
      gives on any readings that hold what it read; and its verdict follows from that. */
  lemma VerdictExplained(cfg: Config, steps: seq<Step>, s: seq<Pipeline>, n: nat, id: nat, r: Readings)
    requires IsRun(cfg, steps, s) && n < |s| && id in s[n].tasks && !Walking(s[n].tasks[id])
    requires Agrees(r, cfg.pow, s[n].tasks[id])
    ensures var t := s[n].tasks[id];
            && t.found.Some? && PhaseFound(t, t.found.value) && r.job(t.jobId).Some?
            && Decision(r, NonceOf(t), t.jobId, t.found.value)
            && t.found.value == Walk(r, NonceOf(t), t.jobId, t.jobId, r.job(t.jobId).value)
            && (t.found.value.Block? || t.found.value.Share? ==> t.found.value.job == Credited(t))
  {
    RunTask(cfg, steps, s, n, id);
    var t := s[n].tasks[id];
    hide IsRun, Observed;
    FoundIsDecision(r, cfg.pow, t);
    SubmittedAsked(cfg.pow, t);
    assert t.found.Some? && PhaseFound(t, t.found.value) && Explained(cfg.pow, t, t.found.value);
    hide SearchInv, Walk, Decision, NonceOf, PhaseFound;
    WalkIsSearch(r, NonceOf(t), t.jobId, r.job(t.jobId).value, t.found.value);
  }
}
