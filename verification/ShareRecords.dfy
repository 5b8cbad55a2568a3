/** The counters by the verdicts themselves, and the worker records a name leads to. */
module ShareRecords {
  import opened DuplicateGuard
  import opened ShareCounts
  import opened SharePipeline
  import opened ShareTask

  // ---------- Three counters, four verdicts ----------

  function IsAccepted(): Outcome -> bool {
    (o: Outcome) => o.Accepted?
  }

  function IsStale(): Outcome -> bool {
    (o: Outcome) => o.Stale?
  }

  function IsInvalid(): Outcome -> bool {
    (o: Outcome) => o.LowDiff? || o.Bad?
  }

  /** Past the section that counts the verdict in total, with such a verdict. */
  function InTotalWith(what: Outcome -> bool): Task -> bool {
    (t: Task) => Did(t, BumpOverall) && what(t.phase.outcome)
  }

  /** Past the section that counts it on record `r`, with such a verdict. */
  function OnRecordWith(r: nat, what: Outcome -> bool): Task -> bool {
    (t: Task) => Did(t, BumpWorker) && t.record == r && what(t.phase.outcome)
  }

  function EndedWith(what: Outcome -> bool): Task -> bool {
    (t: Task) => t.phase.Recording? && what(t.phase.outcome)
  }

  /** A class is a verdict, or the two that count as invalid. */
  ghost predicate Sorted(t: Task)
    requires t.phase.Recording?
  {
    && (ClassOf(t.phase.outcome) == CAccepted <==> t.phase.outcome.Accepted?)
    && (ClassOf(t.phase.outcome) == CStale <==> t.phase.outcome.Stale?)
    && (ClassOf(t.phase.outcome) == CInvalid <==> t.phase.outcome.LowDiff? || t.phase.outcome.Bad?)
  }

  lemma AllSorted(tasks: map<nat, Task>, st: Stats)
    requires TasksFit(tasks, st)
    ensures forall id :: id in tasks && tasks[id].phase.Recording? ==> Sorted(tasks[id])
    ensures forall id, a :: id in tasks && Did(tasks[id], a) ==> tasks[id].phase.Recording?
  {
    hide Program;
  }

  lemma TotalsByVerdict(tasks: map<nat, Task>, st: Stats)
    requires TasksFit(tasks, st) && CountersFit(tasks, st)
    ensures st.overall.accepted == Tally(tasks, InTotalWith(IsAccepted()))
    ensures st.overall.stale == Tally(tasks, InTotalWith(IsStale()))
    ensures st.overall.invalid == Tally(tasks, InTotalWith(IsInvalid()))
  {
    AllSorted(tasks, st);
    assert OverallFits(tasks, st, CAccepted) && OverallFits(tasks, st, CStale) && OverallFits(tasks, st, CInvalid);
    hide Did, Tally, TasksFit, CountersFit, ClassOf;
    TallySame(tasks, CountedOverall(CAccepted), InTotalWith(IsAccepted()));
    TallySame(tasks, CountedOverall(CStale), InTotalWith(IsStale()));
    TallySame(tasks, CountedOverall(CInvalid), InTotalWith(IsInvalid()));
  }

  lemma RecordByVerdict(tasks: map<nat, Task>, st: Stats, r: nat)
    requires TasksFit(tasks, st) && CountersFit(tasks, st) && r < |st.records|
    ensures st.records[r].accepted == Tally(tasks, OnRecordWith(r, IsAccepted()))
    ensures st.records[r].stale == Tally(tasks, OnRecordWith(r, IsStale()))
    ensures st.records[r].invalid == Tally(tasks, OnRecordWith(r, IsInvalid()))
  {
    AllSorted(tasks, st);
    assert CountsFit(tasks, st, r, CAccepted) && CountsFit(tasks, st, r, CStale) && CountsFit(tasks, st, r, CInvalid);
    hide Did, Tally, TasksFit, CountersFit, ClassOf;
    TallySame(tasks, CountedOn(r, CAccepted), OnRecordWith(r, IsAccepted()));
    TallySame(tasks, CountedOn(r, CStale), OnRecordWith(r, IsStale()));
    TallySame(tasks, CountedOn(r, CInvalid), OnRecordWith(r, IsInvalid()));
  }

  /** In every reachable state the three overall counters are the submissions counted so far that
      were accepted, that were stale, and that were of low difficulty or bad; and so for the three
      counters of each worker record. */
  lemma CountersByVerdict(cfg: Config, steps: seq<SharePipeline.Step>, s: seq<Pipeline>, n: nat)
    requires SharePipeline.IsRun(cfg, steps, s) && n < |s|
    ensures var c, tasks := s[n].stats.overall, s[n].tasks;
      && c.accepted == Tally(tasks, InTotalWith(IsAccepted()))
      && c.stale == Tally(tasks, InTotalWith(IsStale()))
      && c.invalid == Tally(tasks, InTotalWith(IsInvalid()))
    ensures forall r :: 0 <= r < |s[n].stats.records| ==>
      var c, tasks := s[n].stats.records[r], s[n].tasks;
      && c.accepted == Tally(tasks, OnRecordWith(r, IsAccepted()))
      && c.stale == Tally(tasks, OnRecordWith(r, IsStale()))
      && c.invalid == Tally(tasks, OnRecordWith(r, IsInvalid()))
  {
    RunInv(cfg, steps, s, n);
    hide SharePipeline.IsRun, Tally, TasksFit, CountersFit, StatsFit, SinkFits;
    TotalsByVerdict(s[n].tasks, s[n].stats);
    forall r | 0 <= r < |s[n].stats.records|
      ensures s[n].stats.records[r].accepted == Tally(s[n].tasks, OnRecordWith(r, IsAccepted()))
      ensures s[n].stats.records[r].stale == Tally(s[n].tasks, OnRecordWith(r, IsStale()))
      ensures s[n].stats.records[r].invalid == Tally(s[n].tasks, OnRecordWith(r, IsInvalid()))
    {
      RecordByVerdict(s[n].tasks, s[n].stats, r);
    }
  }

  /** When nothing is in flight they are all submissions with those verdicts. */
  lemma CountersAtRest(cfg: Config, steps: seq<SharePipeline.Step>, s: seq<Pipeline>, n: nat)
    requires SharePipeline.IsRun(cfg, steps, s) && n < |s| && NothingInFlight(s[n])
    ensures var c, tasks := s[n].stats.overall, s[n].tasks;
      && c.accepted == Tally(tasks, EndedWith(IsAccepted()))
      && c.stale == Tally(tasks, EndedWith(IsStale()))
      && c.invalid == Tally(tasks, EndedWith(IsInvalid()))
  {
    RunInv(cfg, steps, s, n);
    var tasks := s[n].tasks;
    forall id | id in tasks ensures Did(tasks[id], BumpOverall) <==> tasks[id].phase.Recording? {
      if tasks[id].phase.Recording? {
        EndedDidAll(tasks[id]);
      }
    }
    hide SharePipeline.IsRun, Tally, TasksFit, CountersFit, StatsFit, SinkFits, Did, NothingInFlight;
    TotalsByVerdict(tasks, s[n].stats);
    TallySame(tasks, InTotalWith(IsAccepted()), EndedWith(IsAccepted()));
    TallySame(tasks, InTotalWith(IsStale()), EndedWith(IsStale()));
    TallySame(tasks, InTotalWith(IsInvalid()), EndedWith(IsInvalid()));
  }

  // ---------- One record for a name ----------

  /** No step from `m` to `n` drops the name from the stats map. */
  ghost predicate Unpruned(steps: seq<SharePipeline.Step>, m: nat, n: nat, name: string)
    requires m <= n <= |steps|
  {
    forall k :: m <= k < n && steps[k].PruneStats? ==> name !in steps[k].names
  }

  lemma NameStep(cfg: Config, s: Pipeline, step: SharePipeline.Step, name: string)
    requires Enabled(s, step) && (step.PruneStats? ==> name !in step.names)
    ensures var st, st' := s.stats, Next(cfg, s, step).stats;
      && |st.records| <= |st'.records| && |st.owners| <= |st'.owners|
      && (forall r :: 0 <= r < |st.owners| ==> st'.owners[r] == st.owners[r])
      && (name in st.current ==> name in st'.current && st'.current[name] == st.current[name])
  {
    hide Bumped;
  }

  /** A name that is not dropped leads to the same record. */
  lemma {:induction false} RecordStays(cfg: Config, steps: seq<SharePipeline.Step>, s: seq<Pipeline>, m: nat, n: nat, name: string)
    requires SharePipeline.IsRun(cfg, steps, s) && m <= n < |s| && Unpruned(steps, m, n, name)
    requires name in s[m].stats.current
    ensures name in s[n].stats.current && s[n].stats.current[name] == s[m].stats.current[name]
    ensures |s[m].stats.records| <= |s[n].stats.records|
    decreases n
  {
    if m < n {
      hide Next, Enabled;
      assert SharePipeline.IsStep(cfg, steps, s, n - 1);
      RecordStays(cfg, steps, s, m, n - 1, name);
      NameStep(cfg, s[n - 1], steps[n - 1], name);
    }
  }

  /** A worker that was authorized has a record until a prune drops its name. */
  lemma Authorized(cfg: Config, steps: seq<SharePipeline.Step>, s: seq<Pipeline>, m: nat, n: nat, name: string)
    requires SharePipeline.IsRun(cfg, steps, s) && m < n < |s| && steps[m] == Authorize(name)
    requires Unpruned(steps, m + 1, n, name)
    ensures name in s[n].stats.current
  {
    assert SharePipeline.IsStep(cfg, steps, s, m);
    RecordStays(cfg, steps, s, m + 1, n, name);
  }

  /** The records made under the name since state `m`: none if it led to one then, and else the one it
      leads to now. */
  ghost predicate MadeSince(st: Stats, st': Stats, name: string) {
    && |st.records| <= |st'.records|
    && (forall r :: |st.records| <= r < |st'.owners| && st'.owners[r] == name ==>
          name !in st.current && name in st'.current && r == st'.current[name])
  }

  lemma MadeStep(cfg: Config, st: Stats, s: Pipeline, step: SharePipeline.Step, name: string)
    requires Enabled(s, step) && (step.PruneStats? ==> name !in step.names)
    requires StatsFit(s.stats) && MadeSince(st, s.stats, name)
    requires name in st.current ==> name in s.stats.current
    ensures MadeSince(st, Next(cfg, s, step).stats, name)
  {
    hide Bumped;
  }

  lemma {:induction false} MadeOnce(cfg: Config, steps: seq<SharePipeline.Step>, s: seq<Pipeline>, m: nat, n: nat, name: string)
    requires SharePipeline.IsRun(cfg, steps, s) && m <= n < |s| && Unpruned(steps, m, n, name)
    ensures MadeSince(s[m].stats, s[n].stats, name)
    decreases n
  {
    if m == n {
      RunInv(cfg, steps, s, n);
      hide SharePipeline.IsRun, TasksFit, CountersFit, SinkFits;
    } else {
      hide Next, Enabled, MadeSince, TasksFit, CountersFit, SinkFits, StatsFit;
      assert SharePipeline.IsStep(cfg, steps, s, n - 1);
      MadeOnce(cfg, steps, s, m, n - 1, name);
      RunInv(cfg, steps, s, n - 1);
      if name in s[m].stats.current {
        RecordStays(cfg, steps, s, m, n - 1, name);
      }
      MadeStep(cfg, s[m].stats, s[n - 1], steps[n - 1], name);
    }
  }

  /** Counted under the name, on a record that is not one of the first `k`. */
  function CountedFrom(k: nat, name: string, cls: Class): Task -> bool {
    (t: Task) => Did(t, BumpWorker) && ClassOf(t.phase.outcome) == cls && t.name == name && t.record >= k
  }

  /** From a moment when a name leads to no record, and as long as it is not dropped again, the record
      it comes to lead to holds every verdict counted under it on records made since; in a run that
      never drops it, every verdict counted under it at all. */
  lemma LiveRecordHolds(cfg: Config, steps: seq<SharePipeline.Step>, s: seq<Pipeline>, m: nat, n: nat, name: string, cls: Class)
    requires SharePipeline.IsRun(cfg, steps, s) && m <= n < |s| && Unpruned(steps, m, n, name)
    requires name !in s[m].stats.current && name in s[n].stats.current
    ensures var st := s[n].stats;
      && |s[m].stats.records| <= st.current[name] < |st.records|
      && Count(st.records[st.current[name]], cls) == Tally(s[n].tasks, CountedFrom(|s[m].stats.records|, name, cls))
  {
    MadeOnce(cfg, steps, s, m, n, name);
    RunInv(cfg, steps, s, n);
    LivesSince(cfg, steps, s, m, n, name);
    var st, tasks := s[n].stats, s[n].tasks;
    var r, k := st.current[name], |s[m].stats.records|;
    assert CountsFit(tasks, st, r, cls);
    forall id | id in tasks && Did(tasks[id], BumpWorker)
      ensures tasks[id].record < |st.owners| && st.owners[tasks[id].record] == tasks[id].name
    {
      assert RecordFits(st, tasks[id]);
      CountedOwner(st, tasks[id]);
    }
    hide SharePipeline.IsRun, Tally, TasksFit, CountersFit, SinkFits, Did, Count, ClassOf;
    TallySame(tasks, CountedOn(r, cls), CountedFrom(k, name, cls));
  }

  /** A record a name comes to lead to after state `m` was made after it. */
  lemma {:induction false} LivesSince(cfg: Config, steps: seq<SharePipeline.Step>, s: seq<Pipeline>, m: nat, n: nat, name: string)
    requires SharePipeline.IsRun(cfg, steps, s) && m <= n < |s|
    requires name !in s[m].stats.current
    ensures |s[m].stats.records| <= |s[n].stats.records|
    ensures name in s[n].stats.current ==> |s[m].stats.records| <= s[n].stats.current[name]
    decreases n
  {
    if m < n {
      LivesSince(cfg, steps, s, m, n - 1, name);
      assert SharePipeline.IsStep(cfg, steps, s, n - 1);
      LeadsStep(cfg, s[n - 1], steps[n - 1], name);
    }
  }

  lemma LeadsStep(cfg: Config, s: Pipeline, step: SharePipeline.Step, name: string)
    requires Enabled(s, step)
    ensures var st, st' := s.stats, Next(cfg, s, step).stats;
      && |st.records| <= |st'.records|
      && (name in st'.current ==> st'.current[name] == if name in st.current then st.current[name] else |st.records|)
  {
    hide Bumped;
  }
}
