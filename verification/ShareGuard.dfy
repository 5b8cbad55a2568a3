/** The duplicate guard seen from the pipeline: what it holds comes from admitted submissions, and
    the same share does not get past it twice within its window. */
module ShareGuard {
  import opened DuplicateGuard
  import opened ExpiringQueue
  import opened SharePipeline
  import opened ShareTask
  import opened Wrappers
  import ShareVerdicts
  import Submission
  import Text

  // ---------- What the guard holds ----------

  /** The submission is one the guard may hold this key and outcome for. */
  predicate Backs(t: Task, key: Key, o: Outcome) {
    KeyOf(t) == key && (o == InFlight || (t.phase.Recording? && t.phase.outcome == o))
  }

  ghost predicate Backed(tasks: map<nat, Task>, key: Key, o: Outcome) {
    exists id :: id in tasks && Backs(tasks[id], key, o)
  }

  ghost predicate GuardFits(tasks: map<nat, Task>, g: Guard) {
    forall key :: key in g.entries ==> Backed(tasks, key, g.entries[key].outcome)
  }

  ghost predicate NoncesParse(s: Pipeline) {
    && (forall id :: id in s.tasks ==> Text.ParseHexU64(s.tasks[id].nonceText).Some?)
    && (forall id :: id in s.arrivals ==> Text.ParseHexU64(s.arrivals[id].nonceText).Some?)
  }

  lemma SameKey(t: Task, t': Task)
    requires t'.worker == t.worker && t'.jobId == t.jobId && t'.nonceText == t.nonceText
    ensures KeyOf(t') == KeyOf(t)
  {
  }

  /** A step keeps every task's key, and a verdict once given. */
  lemma VerdictsStay(cfg: Config, s: Pipeline, step: SharePipeline.Step, id: nat)
    requires Enabled(s, step) && id in s.tasks
    ensures var s' := Next(cfg, s, step);
            && id in s'.tasks && KeyOf(s'.tasks[id]) == KeyOf(s.tasks[id]) && s'.tasks[id].nonceText == s.tasks[id].nonceText
            && (s.tasks[id].phase.Recording? ==>
                  s'.tasks[id].phase.Recording? && s'.tasks[id].phase.outcome == s.tasks[id].phase.outcome)
  {
    TasksStay(cfg, s, step, id);
    if OwnStep(step, id) {
      OwnTasks(cfg, s, step);
      ShareVerdicts.OriginStays(cfg, s, step);
      RecordingStays(cfg, s, step);
      hide Next, OwnNext, Enabled, KeyOf;
      SameKey(s.tasks[id], OwnNext(cfg, s, step));
    } else {
      TaskBefore(cfg, s, step, id);
    }
  }

  lemma RecordingStays(cfg: Config, s: Pipeline, step: SharePipeline.Step)
    requires Enabled(s, step) && OfTask(step)
    ensures var t, t' := s.tasks[step.id], OwnNext(cfg, s, step);
            t.phase.Recording? ==> t'.phase.Recording? && t'.phase.outcome == t.phase.outcome
  {
    hide Program, WithRecord, Tested, AskedPrevious;
  }

  lemma BackedStays(cfg: Config, s: Pipeline, step: SharePipeline.Step, key: Key, o: Outcome)
    requires Enabled(s, step) && Backed(s.tasks, key, o)
    ensures Backed(Next(cfg, s, step).tasks, key, o)
  {
    var id :| id in s.tasks && Backs(s.tasks[id], key, o);
    VerdictsStay(cfg, s, step, id);
    hide Next, Enabled, KeyOf;
    assert Backs(Next(cfg, s, step).tasks[id], key, o);
  }

  lemma PrunedFits(tasks: map<nat, Task>, g: Guard, lim: Limits, now: nat)
    requires GuardFits(tasks, g)
    ensures GuardFits(tasks, Prune(g, lim, now))
  {
    hide Backed, Prune;
    forall key | key in Prune(g, lim, now).entries ensures Backed(tasks, key, Prune(g, lim, now).entries[key].outcome) {
      PruneOnlyRemoves(g, lim, now, key);
    }
  }

  lemma SubmittedFits(tasks: map<nat, Task>, g: Guard, lim: Limits, key: Key, now: nat)
    requires GuardFits(tasks, g) && (Recall(Prune(g, lim, now), key) == None ==> Backed(tasks, key, InFlight))
    ensures GuardFits(tasks, Submitted(g, lim, key, now))
  {
    hide Backed, Prune;
    PrunedFits(tasks, g, lim, now);
    PrunedFits(tasks, Prune(g, lim, now), lim, now);
  }

  lemma SettledFits(tasks: map<nat, Task>, g: Guard, lim: Limits, key: Key, now: nat, o: Outcome)
    requires GuardFits(tasks, g) && Backed(tasks, key, o)
    ensures GuardFits(tasks, Settled(g, lim, key, now, o))
  {
    hide Backed, Prune;
    PrunedFits(tasks, g, lim, now);
  }

  lemma StepFits(cfg: Config, s: Pipeline, step: SharePipeline.Step)
    requires Enabled(s, step) && GuardFits(s.tasks, s.guard)
    ensures GuardFits(Next(cfg, s, step).tasks, Next(cfg, s, step).guard)
  {
    var s' := Next(cfg, s, step);
    forall key | key in s.guard.entries ensures Backed(s'.tasks, key, s.guard.entries[key].outcome) {
      hide Next, Enabled, Backed;
      BackedStays(cfg, s, step, key, s.guard.entries[key].outcome);
    }
    assert GuardFits(s'.tasks, s.guard);
    if step.Submit? {
      AdmissionFits(cfg, s, step);
    } else if step.Act? {
      StoringFits(cfg, s, step);
    }
  }

  lemma AdmissionFits(cfg: Config, s: Pipeline, step: SharePipeline.Step)
    requires step.Submit? && Enabled(s, step) && GuardFits(Next(cfg, s, step).tasks, s.guard)
    ensures GuardFits(Next(cfg, s, step).tasks, Next(cfg, s, step).guard)
  {
    var t, s' := s.arrivals[step.id], Next(cfg, s, step);
    hide GuardFits, Submitted, Recall, Prune, KeyOf;
    if Admits(cfg.lim, s.guard, t, step.now) {
      assert step.id in s'.tasks && s'.tasks[step.id] == t;
      assert Backs(t, KeyOf(t), InFlight);
      assert Backed(s'.tasks, KeyOf(t), InFlight);
    }
    SubmittedFits(s'.tasks, s.guard, cfg.lim, KeyOf(t), step.now);
  }

  lemma StoringFits(cfg: Config, s: Pipeline, step: SharePipeline.Step)
    requires step.Act? && Enabled(s, step) && GuardFits(Next(cfg, s, step).tasks, s.guard)
    ensures GuardFits(Next(cfg, s, step).tasks, Next(cfg, s, step).guard)
  {
    var t, s' := s.tasks[step.id], Next(cfg, s, step);
    VerdictsStay(cfg, s, step, step.id);
    hide GuardFits, Settled, KeyOf, NextTasks;
    if NextAction(t) == StoreOutcome {
      assert Backs(s'.tasks[step.id], KeyOf(t), t.phase.outcome);
      assert Backed(s'.tasks, KeyOf(t), t.phase.outcome);
      SettledFits(s'.tasks, s.guard, cfg.lim, KeyOf(t), step.now, t.phase.outcome);
    }
  }

  lemma ArrivalParses(cfg: Config, s: Pipeline, step: SharePipeline.Step, id: nat)
    requires Enabled(s, step) && NoncesParse(s) && id in Next(cfg, s, step).arrivals
    ensures Text.ParseHexU64(Next(cfg, s, step).arrivals[id].nonceText).Some?
  {
    hide Text.ParseHexU64;
  }

  lemma StepParses(cfg: Config, s: Pipeline, step: SharePipeline.Step)
    requires Enabled(s, step) && NoncesParse(s)
    ensures NoncesParse(Next(cfg, s, step))
  {
    var s' := Next(cfg, s, step);
    forall id | id in s'.tasks ensures Text.ParseHexU64(s'.tasks[id].nonceText).Some? {
      hide Next, Enabled, Text.ParseHexU64, KeyOf;
      if id in s.tasks {
        VerdictsStay(cfg, s, step, id);
      } else {
        NotYetOwn(s, step, id);
        TaskBefore(cfg, s, step, id);
      }
    }
    forall id | id in s'.arrivals ensures Text.ParseHexU64(s'.arrivals[id].nonceText).Some? {
      hide Next, Enabled, Text.ParseHexU64;
      ArrivalParses(cfg, s, step, id);
    }
    hide Next;
  }

  lemma {:induction false} RunFits(cfg: Config, steps: seq<SharePipeline.Step>, s: seq<Pipeline>, n: nat)
    requires SharePipeline.IsRun(cfg, steps, s) && n < |s|
    ensures GuardFits(s[n].tasks, s[n].guard) && NoncesParse(s[n])
  {
    if n > 0 {
      hide Next, Enabled, GuardFits, NoncesParse;
      RunFits(cfg, steps, s, n - 1);
      assert SharePipeline.IsStep(cfg, steps, s, n - 1);
      StepFits(cfg, s[n - 1], steps[n - 1]);
      StepParses(cfg, s[n - 1], steps[n - 1]);
    }
  }

  /** A submission is answered as a duplicate only if one of the same worker, job id and nonce text
      was admitted before it, and is told that one's verdict or that it is in flight. */
  lemma DuplicateIsGenuine(cfg: Config, steps: seq<SharePipeline.Step>, s: seq<Pipeline>, n: nat) returns (id: nat)
    requires SharePipeline.IsRun(cfg, steps, s) && n < |steps| && steps[n].Submit?
    requires Enabled(s[n], steps[n])
    requires Recall(Prune(s[n].guard, cfg.lim, steps[n].now), KeyOf(s[n].arrivals[steps[n].id])).Some?
    ensures var t := s[n].arrivals[steps[n].id];
            var o := Recall(Prune(s[n].guard, cfg.lim, steps[n].now), KeyOf(t)).value;
            && id in s[n].tasks && id != steps[n].id
            && var t' := s[n].tasks[id];
               && t'.worker == t.worker && t'.jobId == t.jobId && t'.nonceText == t.nonceText
               && (o == InFlight || (t'.phase.Recording? && t'.phase.outcome == o))
  {
    RunFits(cfg, steps, s, n);
    var t := s[n].arrivals[steps[n].id];
    hide SharePipeline.IsRun, Prune;
    PruneOnlyRemoves(s[n].guard, cfg.lim, steps[n].now, KeyOf(t));
    var o := s[n].guard.entries[KeyOf(t)].outcome;
    assert Backed(s[n].tasks, KeyOf(t), o);
    id :| id in s[n].tasks && Backs(s[n].tasks[id], KeyOf(t), o);
    KeysApart(s[n].tasks[id], t);
  }

  lemma KeysApart(t: Task, t': Task)
    requires KeyOf(t) == KeyOf(t') && Text.ParseHexU64(t.nonceText).Some? && Text.ParseHexU64(t'.nonceText).Some?
    ensures t.worker == t'.worker && t.jobId == t'.jobId && t.nonceText == t'.nonceText
  {
    Submission.SubmitKeyInjective(t.worker, t.jobId, t.nonceText, t'.worker, t'.jobId, t'.nonceText);
  }

  // ---------- The same share twice ----------

  /** The guard section a step holds the lock for, if any. */
  function Section(s: Pipeline, step: SharePipeline.Step): Option<Op>
    requires Enabled(s, step)
  {
    match step
    case Submit(id, now) => Some(Op.Submit(KeyOf(s.arrivals[id]), now))
    case Act(id, _, now) =>
      if NextAction(s.tasks[id]) == StoreOutcome
      then Some(Op.Settle(KeyOf(s.tasks[id]), now, s.tasks[id].phase.outcome))
      else None
    case _ => None
  }

  /** The guard sections of a run: operations, answers, guard states, and who ran each. */
  datatype History = History(trace: Trace, states: seq<Guard>, callers: seq<nat>)

  const NO_HISTORY := History(Trace([], []), [EMPTY], [])

  function Extended(lim: Limits, h: History, g: Guard, op: Op, caller: nat): History {
    History(Trace(h.trace.ops + [op], h.trace.answers + [Answer(lim, g, op)]),
            h.states + [DuplicateGuard.Step(lim, g, op)], h.callers + [caller])
  }

  /** The history with the section of one more step, if it has one. */
  function HistoryAfter(lim: Limits, h: History, s: Pipeline, step: SharePipeline.Step): History
    requires Enabled(s, step)
  {
    match Section(s, step)
    case None => h
    case Some(op) => Extended(lim, h, s.guard, op, step.id)
  }

  ghost function GuardHistory(cfg: Config, steps: seq<SharePipeline.Step>, s: seq<Pipeline>, n: nat): History
    requires SharePipeline.IsRun(cfg, steps, s) && n < |s|
  {
    if n == 0 then NO_HISTORY
    else
      assert SharePipeline.IsStep(cfg, steps, s, n - 1);
      HistoryAfter(cfg.lim, GuardHistory(cfg, steps, s, n - 1), s[n - 1], steps[n - 1])
  }

  lemma SectionIsGuardStep(cfg: Config, s: Pipeline, step: SharePipeline.Step)
    requires Enabled(s, step)
    ensures Next(cfg, s, step).guard
            == match Section(s, step) case None => s.guard case Some(op) => DuplicateGuard.Step(cfg.lim, s.guard, op)
  {
    hide Submitted, Settled, KeyOf;
  }

  lemma ExtendRun(lim: Limits, t: Trace, g: seq<Guard>, op: Op, g': Guard)
    requires DuplicateGuard.IsRun(lim, t, g) && g' == DuplicateGuard.Step(lim, g[|t.ops|], op)
    ensures DuplicateGuard.IsRun(lim, Trace(t.ops + [op], t.answers + [Answer(lim, g[|t.ops|], op)]), g + [g'])
  {
    hide DuplicateGuard.Step, Answer;
    var t' := Trace(t.ops + [op], t.answers + [Answer(lim, g[|t.ops|], op)]);
    forall m | 0 <= m < |t'.ops|
      ensures DuplicateGuard.IsStep(lim, t', g + [g'], m)
    {
      if m < |t.ops| {
        assert DuplicateGuard.IsStep(lim, t, g, m);
      }
    }
  }

  /** The history is a run of the guard that ends in `g`. */
  ghost predicate IsHistory(lim: Limits, h: History, g: Guard) {
    && DuplicateGuard.IsRun(lim, h.trace, h.states)
    && h.states[|h.trace.ops|] == g && |h.callers| == |h.trace.ops|
  }

  lemma ExtendHistory(lim: Limits, h: History, g: Guard, op: Op, caller: nat)
    requires IsHistory(lim, h, g)
    ensures IsHistory(lim, Extended(lim, h, g, op, caller), DuplicateGuard.Step(lim, g, op))
  {
    hide DuplicateGuard.Step, Answer, DuplicateGuard.IsStep;
    ExtendRun(lim, h.trace, h.states, op, DuplicateGuard.Step(lim, g, op));
  }

  lemma HistoryStep(cfg: Config, h: History, s: Pipeline, step: SharePipeline.Step)
    requires Enabled(s, step) && IsHistory(cfg.lim, h, s.guard)
    ensures IsHistory(cfg.lim, HistoryAfter(cfg.lim, h, s, step), Next(cfg, s, step).guard)
  {
    SectionIsGuardStep(cfg, s, step);
    hide Next, Enabled, DuplicateGuard.Step, IsHistory, Extended;
    match Section(s, step)
    case None =>
    case Some(op) => ExtendHistory(cfg.lim, h, s.guard, op, step.id);
  }

  lemma NoHistory(lim: Limits)
    ensures IsHistory(lim, NO_HISTORY, EMPTY)
  {
  }

  /** Whatever the interleaving, the guard sees one of its own runs. */
  lemma {:induction false} GuardHistoryIsRun(cfg: Config, steps: seq<SharePipeline.Step>, s: seq<Pipeline>, n: nat)
    requires SharePipeline.IsRun(cfg, steps, s) && n < |s|
    ensures IsHistory(cfg.lim, GuardHistory(cfg, steps, s, n), s[n].guard)
  {
    hide Next, Enabled, IsHistory, HistoryAfter;
    if n == 0 {
      NoHistory(cfg.lim);
    } else {
      GuardHistoryIsRun(cfg, steps, s, n - 1);
      assert SharePipeline.IsStep(cfg, steps, s, n - 1);
      HistoryStep(cfg, GuardHistory(cfg, steps, s, n - 1), s[n - 1], steps[n - 1]);
    }
  }

  /** Section `i` admitted task `id`. */
  ghost predicate AdmittedAt(h: History, s: Pipeline, id: nat, i: nat) {
    && i < |h.trace.ops| == |h.trace.answers| == |h.callers|
    && id in s.tasks && h.callers[i] == id
    && Admitted(h.trace, i) && h.trace.ops[i].key == KeyOf(s.tasks[id])
  }

  lemma HistoryGrows(cfg: Config, steps: seq<SharePipeline.Step>, s: seq<Pipeline>, n: nat)
    requires SharePipeline.IsRun(cfg, steps, s) && 0 < n < |s|
    ensures var h, h' := GuardHistory(cfg, steps, s, n - 1), GuardHistory(cfg, steps, s, n);
            && h.trace.ops <= h'.trace.ops && h.trace.answers <= h'.trace.answers && h.callers <= h'.callers
            && (steps[n - 1].Submit? ==>
                  && steps[n - 1].id in s[n - 1].arrivals
                  && var op := Op.Submit(KeyOf(s[n - 1].arrivals[steps[n - 1].id]), steps[n - 1].now);
                     && h'.trace == Trace(h.trace.ops + [op], h.trace.answers + [Answer(cfg.lim, s[n - 1].guard, op)])
                     && h'.callers == h.callers + [steps[n - 1].id])
  {
    assert SharePipeline.IsStep(cfg, steps, s, n - 1);
    hide Answer, KeyOf, Next;
  }

  lemma {:induction false} AdmissionOf(cfg: Config, steps: seq<SharePipeline.Step>, s: seq<Pipeline>, n: nat, id: nat)
    returns (i: nat)
    requires SharePipeline.IsRun(cfg, steps, s) && n < |s| && id in s[n].tasks
    ensures AdmittedAt(GuardHistory(cfg, steps, s, n), s[n], id, i)
  {
    hide Next, Enabled, KeyOf, GuardHistory, DuplicateGuard.IsStep, Prune, Recall;
    assert n > 0;
    assert SharePipeline.IsStep(cfg, steps, s, n - 1);
    GuardHistoryIsRun(cfg, steps, s, n);
    HistoryGrows(cfg, steps, s, n);
    if id in s[n - 1].tasks {
      VerdictsStay(cfg, s[n - 1], steps[n - 1], id);
      i := AdmissionOf(cfg, steps, s, n - 1, id);
    } else {
      NotYetOwn(s[n - 1], steps[n - 1], id);
      TaskBefore(cfg, s[n - 1], steps[n - 1], id);
      i := |GuardHistory(cfg, steps, s, n - 1).trace.ops|;
    }
  }

  /** Two submissions of the same worker, job id and nonce text get past the guard in one run only
      if the guard was used more than the ttl after the first was last touched, or at least
      `maxEntries` other shares were admitted in between. */
  lemma SameShareTwice(cfg: Config, steps: seq<SharePipeline.Step>, s: seq<Pipeline>, n: nat, id: nat, id': nat)
    returns (i: nat, j: nat)
    requires SharePipeline.IsRun(cfg, steps, s) && n < |s| && id in s[n].tasks && id' in s[n].tasks && id != id'
    requires var t, t' := s[n].tasks[id], s[n].tasks[id'];
             t.worker == t'.worker && t.jobId == t'.jobId && t.nonceText == t'.nonceText
    ensures var h := GuardHistory(cfg, steps, s, n);
            && i < j < |h.trace.ops| == |h.trace.answers| == |h.callers| && {h.callers[i], h.callers[j]} == {id, id'}
            && Admitted(h.trace, i) && Admitted(h.trace, j)
            && ((exists m :: i < m <= j && Age(h.trace.ops[m].now, Expected(h.trace.ops, i, m).ts) > cfg.lim.ttl)
                || |OthersAdmitted(h.trace, i, j)| >= cfg.lim.maxEntries)
  {
    GuardHistoryIsRun(cfg, steps, s, n);
    i := AdmissionOf(cfg, steps, s, n, id);
    j := AdmissionOf(cfg, steps, s, n, id');
    SameKey(s[n].tasks[id], s[n].tasks[id']);
    var h := GuardHistory(cfg, steps, s, n);
    hide GuardHistory, SharePipeline.IsRun, KeyOf, DuplicateGuard.IsStep;
    if j < i {
      i, j := j, i;
    }
    AdmissionsSeparated(cfg.lim, h.trace, h.states, i, j);
  }
}
