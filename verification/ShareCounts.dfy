/** What every run of the share pipeline keeps of its counters, worker records and sink events. */
module ShareCounts {
  import opened Collections
  import opened SharePipeline
  import opened ShareTask
  import opened WalkBack
  import DuplicateGuard
  import JobRing

  // ---------- Counting tasks ----------

  /** How many submissions satisfy `p`. */
  ghost function Tally(tasks: map<nat, Task>, p: Task -> bool): nat {
    |Those(tasks, p)|
  }

  ghost function Those(tasks: map<nat, Task>, p: Task -> bool): set<nat> {
    set id | id in tasks && p(tasks[id])
  }

  lemma TallyUpdate(tasks: map<nat, Task>, id: nat, t: Task, p: Task -> bool)
    ensures Tally(tasks[id := t], p) + (if id in tasks && p(tasks[id]) then 1 else 0)
            == Tally(tasks, p) + (if p(t) then 1 else 0)
  {
    var a, b := Those(tasks, p), Those(tasks[id := t], p);
    assert b == if p(t) then a + {id} else a - {id};
    assert id in a <==> id in tasks && p(tasks[id]);
    hide Those;
  }

  lemma TallySame(tasks: map<nat, Task>, p: Task -> bool, q: Task -> bool)
    requires forall id :: id in tasks ==> p(tasks[id]) == q(tasks[id])
    ensures Tally(tasks, p) == Tally(tasks, q)
  {
    assert Those(tasks, p) == Those(tasks, q);
  }

  lemma TallyNone(tasks: map<nat, Task>, p: Task -> bool)
    requires forall id :: id in tasks ==> !p(tasks[id])
    ensures Tally(tasks, p) == 0
  {
    assert Those(tasks, p) == {};
  }

  lemma TallySplit(tasks: map<nat, Task>, p: Task -> bool, q: Task -> bool, r: Task -> bool)
    requires forall id :: id in tasks ==> (p(tasks[id]) <==> q(tasks[id]) || r(tasks[id])) && !(q(tasks[id]) && r(tasks[id]))
    ensures Tally(tasks, p) == Tally(tasks, q) + Tally(tasks, r)
  {
    var a, b := Those(tasks, q), Those(tasks, r);
    assert Those(tasks, p) == a + b && a !! b;
  }

  // ---------- The invariant ----------

  function CountedOverall(cls: Class): Task -> bool {
    (t: Task) => Did(t, BumpOverall) && ClassOf(t.phase.outcome) == cls
  }

  function CountedOn(r: nat, cls: Class): Task -> bool {
    (t: Task) => Did(t, BumpWorker) && ClassOf(t.phase.outcome) == cls && t.record == r
  }

  ghost predicate StatsFit(st: Stats) {
    && |st.owners| == |st.records|
    && forall name :: name in st.current ==> st.current[name] < |st.records| && st.owners[st.current[name]] == name
  }

  predicate PhaseFits(t: Task) {
    t.phase.Recording? ==>
      && t.phase.pc <= |Program(t.phase.outcome, t.phase.viaBlock)|
      && !t.phase.outcome.InFlight? && (t.phase.viaBlock ==> t.phase.outcome.Accepted?)
  }

  /** The record a task fetched is there, and was created under the name it fetched it by. */
  predicate RecordFits(st: Stats, t: Task) {
    Did(t, Fetch) ==> t.record < |st.records| && t.record < |st.owners| && st.owners[t.record] == t.name
  }

  ghost predicate TasksFit(tasks: map<nat, Task>, st: Stats) {
    forall id :: id in tasks ==> PhaseFits(tasks[id]) && RecordFits(st, tasks[id])
  }

  ghost predicate OverallFits(tasks: map<nat, Task>, st: Stats, cls: Class) {
    Count(st.overall, cls) == Tally(tasks, CountedOverall(cls))
  }

  ghost predicate CountsFit(tasks: map<nat, Task>, st: Stats, r: nat, cls: Class)
    requires r < |st.records|
  {
    Count(st.records[r], cls) == Tally(tasks, CountedOn(r, cls))
  }

  ghost predicate CountersFit(tasks: map<nat, Task>, st: Stats) {
    && (forall cls :: OverallFits(tasks, st, cls))
    && (forall r, cls :: 0 <= r < |st.records| ==> CountsFit(tasks, st, r, cls))
  }

  /** The channel holds, once each, the events of the submissions past the given action. */
  ghost predicate Heard(tasks: map<nat, Task>, channel: multiset<(nat, Job)>, a: Action) {
    forall id, job :: channel[(id, job)] == if id in tasks && Did(tasks[id], a) && Credited(tasks[id]) == job then 1 else 0
  }

  predicate ViaBlock(t: Task) {
    t.phase.Recording? && t.phase.viaBlock
  }

  ghost predicate SinkFits(tasks: map<nat, Task>, k: Sink) {
    && Heard(tasks, k.shares, TellShare)
    && Heard(tasks, k.blocks, TellBlock)
    && forall id :: id in k.taken <==> id in tasks && ViaBlock(tasks[id])
  }

  ghost predicate Inv(s: Pipeline) {
    && StatsFit(s.stats)
    && TasksFit(s.tasks, s.stats)
    && CountersFit(s.tasks, s.stats)
    && SinkFits(s.tasks, s.sink)
    && forall id :: id in s.arrivals ==> s.arrivals[id].phase.Testing?
  }

  // ---------- A task that changes without being counted or announced ----------

  /** `t` takes the place of task `id` (or joins) with no counted or announced action done. */
  ghost predicate Quiet(tasks: map<nat, Task>, id: nat, t: Task) {
    && (forall a :: a != Fetch && a != StoreOutcome ==> (Did(t, a) <==> id in tasks && Did(tasks[id], a)))
    && (id in tasks && tasks[id].phase.Recording? ==>
          t.phase.Recording? && t.phase.outcome == tasks[id].phase.outcome && Credited(t) == Credited(tasks[id]))
    && (id in tasks && Did(tasks[id], BumpWorker) ==> t.record == tasks[id].record)
  }

  lemma QuietCounters(tasks: map<nat, Task>, st: Stats, id: nat, t: Task)
    requires CountersFit(tasks, st) && Quiet(tasks, id, t)
    ensures CountersFit(tasks[id := t], st)
  {
    var tasks' := tasks[id := t];
    forall cls ensures OverallFits(tasks', st, cls) {
      hide Tally, Did, Count;
      assert OverallFits(tasks, st, cls);
      TallyUpdate(tasks, id, t, CountedOverall(cls));
    }
    forall r, cls | 0 <= r < |st.records| ensures CountsFit(tasks', st, r, cls) {
      hide Tally, Did, Count;
      assert CountsFit(tasks, st, r, cls);
      TallyUpdate(tasks, id, t, CountedOn(r, cls));
    }
  }

  lemma QuietHeard(tasks: map<nat, Task>, id: nat, t: Task, channel: multiset<(nat, Job)>, a: Action)
    requires Heard(tasks, channel, a) && a != Fetch && a != StoreOutcome
    requires Did(t, a) <==> id in tasks && Did(tasks[id], a)
    requires id in tasks && Did(tasks[id], a) ==> Credited(t) == Credited(tasks[id])
    ensures Heard(tasks[id := t], channel, a)
  {
    hide Did, Credited;
  }

  lemma QuietSink(tasks: map<nat, Task>, k: Sink, id: nat, t: Task)
    requires SinkFits(tasks, k) && Quiet(tasks, id, t) && (ViaBlock(t) <==> id in tasks && ViaBlock(tasks[id]))
    ensures SinkFits(tasks[id := t], k)
  {
    assert id in tasks && Did(tasks[id], TellShare) ==> tasks[id].phase.Recording?;
    assert id in tasks && Did(tasks[id], TellBlock) ==> tasks[id].phase.Recording?;
    hide Did, Credited;
    QuietHeard(tasks, id, t, k.shares, TellShare);
    QuietHeard(tasks, id, t, k.blocks, TellBlock);
  }

  /** A task that has done nothing yet. */
  lemma FreshQuiet(tasks: map<nat, Task>, id: nat, t: Task)
    requires !t.phase.Recording? || t.phase.pc == 0
    requires id in tasks ==> !tasks[id].phase.Recording?
    ensures Quiet(tasks, id, t)
  {
    hide Program;
  }

  // ---------- The sections that record a verdict ----------

  /** Advancing a task keeps it well-formed and adds its next action to what it did. */
  lemma AfterDid(st: Stats, t: Task, name: string)
    requires PhaseFits(t) && Pending(t)
    ensures var t' := TaskAfter(st, t, name);
            && PhaseFits(t') && Credited(t') == Credited(t) && t'.phase.outcome == t.phase.outcome && (ViaBlock(t') <==> ViaBlock(t))
            && (NextAction(t) != Fetch ==> t'.record == t.record && t'.name == t.name)
            && (forall a :: Did(t', a) <==> Did(t, a) || NextAction(t) == a)
    ensures forall a :: a == NextAction(t) && a != Fetch ==> !Did(t, a)
    ensures NextAction(t) == Fetch ==> !Did(t, BumpWorker)
  {
    var t' := TaskAfter(st, t, name);
    forall a
      ensures Did(t', a) <==> Did(t, a) || NextAction(t) == a
      ensures a == NextAction(t) && a != Fetch ==> !Did(t, a)
      ensures NextAction(t) == Fetch ==> !Did(t, BumpWorker)
    {
      DidAdvances(t, a);
      assert Did(t', a) == Did(Advanced(t), a);
    }
    hide Did;
  }

  lemma WithRecordFits(st: Stats, name: string)
    requires StatsFit(st)
    ensures StatsFit(WithRecord(st, name)) && name in WithRecord(st, name).current
    ensures st.records <= WithRecord(st, name).records && st.owners <= WithRecord(st, name).owners
    ensures WithRecord(st, name).overall == st.overall
    ensures forall r :: |st.records| <= r < |WithRecord(st, name).records| ==> WithRecord(st, name).records[r] == ZERO
  {
  }

  lemma OwnersGrow(tasks: map<nat, Task>, st: Stats, st': Stats)
    requires TasksFit(tasks, st) && st.owners <= st'.owners && |st.records| <= |st'.records|
    ensures TasksFit(tasks, st')
  {
    forall id | id in tasks ensures RecordFits(st', tasks[id]) {
      assert RecordFits(st, tasks[id]);
    }
    hide RecordFits, PhaseFits;
  }

  /** A new record starts at zero, and no task is counted on it. */
  lemma RecordsGrow(tasks: map<nat, Task>, st: Stats, st': Stats)
    requires CountersFit(tasks, st) && TasksFit(tasks, st)
    requires st'.overall == st.overall && st.records <= st'.records
    requires forall r :: |st.records| <= r < |st'.records| ==> st'.records[r] == ZERO
    ensures CountersFit(tasks, st')
  {
    forall cls ensures OverallFits(tasks, st', cls) {
      assert OverallFits(tasks, st, cls);
    }
    forall r, cls | 0 <= r < |st'.records| ensures CountsFit(tasks, st', r, cls) {
      if r < |st.records| {
        assert CountsFit(tasks, st, r, cls);
      } else {
        NoneOn(tasks, st, r, cls);
        assert st'.records[r] == ZERO;
      }
    }
    hide OverallFits, CountsFit, TasksFit;
  }

  lemma NoneOn(tasks: map<nat, Task>, st: Stats, r: nat, cls: Class)
    requires TasksFit(tasks, st) && |st.records| <= r
    ensures Tally(tasks, CountedOn(r, cls)) == 0
  {
    forall id | id in tasks ensures !CountedOn(r, cls)(tasks[id]) {
      var t := tasks[id];
      if Did(t, BumpWorker) {
        DidBefore(t, BumpWorker, Fetch);
        assert RecordFits(st, t);
      }
    }
    TallyNone(tasks, CountedOn(r, cls));
  }

  lemma BumpedCount(c: Counters, cls: Class, other: Class)
    ensures Count(Bumped(c, cls), other) == Count(c, other) + (if cls == other then 1 else 0)
  {
  }

  lemma OverallAct(tasks: map<nat, Task>, st: Stats, id: nat, name: string, cls: Class)
    requires id in tasks && CanAct(st, tasks[id]) && PhaseFits(tasks[id]) && OverallFits(tasks, st, cls)
    requires NextAction(tasks[id]) != Fetch
    ensures OverallFits(tasks[id := TaskAfter(st, tasks[id], name)], StatsAfter(st, tasks[id], name), cls)
  {
    var t := tasks[id];
    AfterDid(st, t, name);
    BumpedCount(st.overall, ClassOf(t.phase.outcome), cls);
    hide Tally, Did, Count, Bumped, PhaseFits, TaskAfter;
    TallyUpdate(tasks, id, TaskAfter(st, t, name), CountedOverall(cls));
  }

  lemma RecordAct(tasks: map<nat, Task>, st: Stats, id: nat, name: string, r: nat, cls: Class)
    requires id in tasks && CanAct(st, tasks[id]) && PhaseFits(tasks[id]) && r < |st.records| && CountsFit(tasks, st, r, cls)
    requires NextAction(tasks[id]) != Fetch
    ensures CountsFit(tasks[id := TaskAfter(st, tasks[id], name)], StatsAfter(st, tasks[id], name), r, cls)
  {
    var t := tasks[id];
    AfterDid(st, t, name);
    BumpedCount(st.records[r], ClassOf(t.phase.outcome), cls);
    hide Tally, Did, Count, Bumped, PhaseFits, TaskAfter;
    TallyUpdate(tasks, id, TaskAfter(st, t, name), CountedOn(r, cls));
  }

  lemma FetchQuiet(tasks: map<nat, Task>, st: Stats, id: nat, name: string)
    requires id in tasks && PhaseFits(tasks[id]) && Pending(tasks[id]) && NextAction(tasks[id]) == Fetch
    ensures Quiet(tasks, id, TaskAfter(st, tasks[id], name))
  {
    AfterDid(st, tasks[id], name);
    hide Did, PhaseFits, TaskAfter;
  }

  lemma CountersAct(tasks: map<nat, Task>, st: Stats, id: nat, name: string)
    requires id in tasks && CanAct(st, tasks[id]) && StatsFit(st) && TasksFit(tasks, st) && CountersFit(tasks, st)
    ensures CountersFit(tasks[id := TaskAfter(st, tasks[id], name)], StatsAfter(st, tasks[id], name))
  {
    var t := tasks[id];
    var t', st' := TaskAfter(st, t, name), StatsAfter(st, t, name);
    var tasks' := tasks[id := t'];
    if NextAction(t) == Fetch {
      FetchQuiet(tasks, st, id, name);
      WithRecordFits(st, name);
      hide Quiet, CountersFit, TasksFit, TaskAfter, WithRecord;
      RecordsGrow(tasks, st, st');
      QuietCounters(tasks, st', id, t');
    } else {
      forall cls ensures OverallFits(tasks', st', cls) {
        OverallAct(tasks, st, id, name, cls);
      }
      forall r, cls | 0 <= r < |st'.records| ensures CountsFit(tasks', st', r, cls) {
        RecordAct(tasks, st, id, name, r, cls);
      }
    }
  }

  lemma TellHeard(tasks: map<nat, Task>, id: nat, t': Task, channel: multiset<(nat, Job)>, a: Action)
    requires Heard(tasks, channel, a) && id in tasks && !Did(tasks[id], a) && Did(t', a)
    ensures Heard(tasks[id := t'], channel + multiset{(id, Credited(t'))}, a)
  {
    hide Did, Credited;
  }

  lemma ChannelAct(tasks: map<nat, Task>, st: Stats, id: nat, name: string, channel: multiset<(nat, Job)>, a: Action)
    requires id in tasks && Pending(tasks[id]) && PhaseFits(tasks[id])
    requires Heard(tasks, channel, a) && a != Fetch && a != StoreOutcome
    ensures var t := tasks[id];
            Heard(tasks[id := TaskAfter(st, t, name)],
                  if NextAction(t) == a then channel + multiset{(id, Credited(t))} else channel, a)
  {
    var t := tasks[id];
    AfterDid(st, t, name);
    hide Did, Credited, PhaseFits, TaskAfter;
    if NextAction(t) == a {
      TellHeard(tasks, id, TaskAfter(st, t, name), channel, a);
    } else {
      QuietHeard(tasks, id, TaskAfter(st, t, name), channel, a);
    }
  }

  lemma SinkAct(tasks: map<nat, Task>, st: Stats, k: Sink, id: nat, name: string)
    requires id in tasks && Pending(tasks[id]) && PhaseFits(tasks[id]) && SinkFits(tasks, k)
    ensures SinkFits(tasks[id := TaskAfter(st, tasks[id], name)], SinkAfter(k, id, tasks[id]))
  {
    ChannelAct(tasks, st, id, name, k.shares, TellShare);
    ChannelAct(tasks, st, id, name, k.blocks, TellBlock);
    AfterDid(st, tasks[id], name);
    hide Heard, Did, Credited, PhaseFits, TaskAfter, NextAction;
  }

  lemma StatsAct(tasks: map<nat, Task>, st: Stats, id: nat, name: string)
    requires id in tasks && CanAct(st, tasks[id]) && StatsFit(st) && TasksFit(tasks, st)
    ensures StatsFit(StatsAfter(st, tasks[id], name))
    ensures TasksFit(tasks[id := TaskAfter(st, tasks[id], name)], StatsAfter(st, tasks[id], name))
  {
    var t := tasks[id];
    var t', st' := TaskAfter(st, t, name), StatsAfter(st, t, name);
    AfterDid(st, t, name);
    WithRecordFits(st, name);
    assert RecordFits(st, t);
    hide Did, PhaseFits;
    OwnersGrow(tasks, st, st');
    assert RecordFits(st', t');
  }

  // ---------- Every run ----------

  lemma ActInv(cfg: Config, s: Pipeline, step: Step)
    requires Inv(s) && step.Act? && Enabled(s, step)
    ensures Inv(Next(cfg, s, step))
  {
    CountersAct(s.tasks, s.stats, step.id, step.name);
    SinkAct(s.tasks, s.stats, s.sink, step.id, step.name);
    StatsAct(s.tasks, s.stats, step.id, step.name);
    hide CountersFit, SinkFits, StatsFit, TasksFit, TaskAfter, StatsAfter, SinkAfter, GuardAfter;
  }

  lemma WalkInv(cfg: Config, s: Pipeline, step: Step)
    requires Inv(s) && (step.Test? || step.Ask?) && Enabled(s, step)
    ensures Inv(Next(cfg, s, step))
  {
    var t' := OwnNext(cfg, s, step);
    OwnTasks(cfg, s, step);
    WalkShape(cfg, s, step);
    hide OwnNext;
    FreshQuiet(s.tasks, step.id, t');
    QuietCounters(s.tasks, s.stats, step.id, t');
    QuietSink(s.tasks, s.sink, step.id, t');
    FreshFits(s.tasks, s.stats, step.id, t');
    hide CountersFit, SinkFits, StatsFit, TasksFit, Quiet;
  }

  lemma WalkShape(cfg: Config, s: Pipeline, step: Step)
    requires (step.Test? || step.Ask?) && Enabled(s, step)
    ensures var t' := OwnNext(cfg, s, step);
            (t'.phase.Recording? ==> t'.phase.pc == 0) && PhaseFits(t') && !ViaBlock(t')
  {
    hide MeetsNetwork, LastRound, PoolTarget, JobRing.Lookup, NonceOf;
  }

  lemma FreshFits(tasks: map<nat, Task>, st: Stats, id: nat, t: Task)
    requires TasksFit(tasks, st) && PhaseFits(t) && (t.phase.Recording? ==> t.phase.pc == 0)
    ensures TasksFit(tasks[id := t], st)
  {
    assert !Did(t, Fetch);
    hide PhaseFits, Did;
  }

  lemma SubmitInv(cfg: Config, s: Pipeline, step: Step)
    requires Inv(s) && step.Submit? && Enabled(s, step)
    ensures Inv(Next(cfg, s, step))
  {
    var t := s.arrivals[step.id];
    assert t.phase.Testing?;
    FreshQuiet(s.tasks, step.id, t);
    QuietCounters(s.tasks, s.stats, step.id, t);
    QuietSink(s.tasks, s.sink, step.id, t);
    FreshFits(s.tasks, s.stats, step.id, t);
    hide CountersFit, SinkFits, StatsFit, TasksFit, Quiet, Admits, DuplicateGuard.Submitted;
  }

  lemma RepliedInv(cfg: Config, s: Pipeline, step: Step)
    requires Inv(s) && step.Replied? && Enabled(s, step)
    ensures Inv(Next(cfg, s, step))
  {
    var t' := OwnNext(cfg, s, step);
    OwnTasks(cfg, s, step);
    assert t'.phase == AfterReply(step.reply);
    hide OwnNext;
    FreshQuiet(s.tasks, step.id, t');
    QuietCounters(s.tasks, s.stats, step.id, t');
    FreshFits(s.tasks, s.stats, step.id, t');
    RepliedSink(s.tasks, s.sink, step.id, t', step.reply);
    hide CountersFit, SinkFits, StatsFit, TasksFit, Quiet;
  }

  lemma RepliedSink(tasks: map<nat, Task>, k: Sink, id: nat, t': Task, reply: NodeReply)
    requires SinkFits(tasks, k) && id in tasks && tasks[id].phase.Submitting? && t'.phase == AfterReply(reply)
    ensures SinkFits(tasks[id := t'], if reply == Success then k.(taken := k.taken + {id}) else k)
  {
    assert !Did(t', TellShare) && !Did(t', TellBlock) && !Did(tasks[id], TellShare) && !Did(tasks[id], TellBlock);
    assert ViaBlock(t') <==> reply == Success;
    hide Did, AfterReply;
    QuietHeard(tasks, id, t', k.shares, TellShare);
    QuietHeard(tasks, id, t', k.blocks, TellBlock);
    hide Heard;
  }

  lemma AuthorizeInv(cfg: Config, s: Pipeline, step: Step)
    requires Inv(s) && step.Authorize?
    ensures Inv(Next(cfg, s, step))
  {
    WithRecordFits(s.stats, step.name);
    hide WithRecord, SinkFits;
    OwnersGrow(s.tasks, s.stats, NextStats(s, step));
    RecordsGrow(s.tasks, s.stats, NextStats(s, step));
    hide CountersFit, TasksFit, StatsFit;
  }

  lemma PruneStatsInv(cfg: Config, s: Pipeline, step: Step)
    requires Inv(s) && step.PruneStats?
    ensures Inv(Next(cfg, s, step))
  {
    var st' := NextStats(s, step);
    hide SinkFits;
    OwnersGrow(s.tasks, s.stats, st');
    RecordsGrow(s.tasks, s.stats, st');
    hide CountersFit, TasksFit;
  }

  lemma ArriveInv(cfg: Config, s: Pipeline, step: Step)
    requires Inv(s) && (step.Arrive? || step.AddJob? || step.SetTarget?) && Enabled(s, step)
    ensures Inv(Next(cfg, s, step))
  {
    hide CountersFit, SinkFits, StatsFit, TasksFit, JobRing.Lookup;
  }

  lemma StepInv(cfg: Config, s: Pipeline, step: Step)
    requires Inv(s) && Enabled(s, step)
    ensures Inv(Next(cfg, s, step))
  {
    hide Inv, Next, Enabled;
    match step
    case Submit(_, _) => SubmitInv(cfg, s, step);
    case Test(_) => WalkInv(cfg, s, step);
    case Ask(_) => WalkInv(cfg, s, step);
    case Replied(_, _) => RepliedInv(cfg, s, step);
    case Act(_, _, _) => ActInv(cfg, s, step);
    case Authorize(_) => AuthorizeInv(cfg, s, step);
    case PruneStats(_) => PruneStatsInv(cfg, s, step);
    case _ => ArriveInv(cfg, s, step);
  }

  lemma StartInv()
    ensures Inv(START)
  {
    forall cls ensures OverallFits(START.tasks, START.stats, cls) {
      TallyNone(START.tasks, CountedOverall(cls));
    }
  }

  lemma {:induction false} RunInv(cfg: Config, steps: seq<Step>, s: seq<Pipeline>, n: nat)
    requires IsRun(cfg, steps, s) && n < |s|
    ensures Inv(s[n])
  {
    if n == 0 {
      StartInv();
    } else {
      hide Inv, Next, Enabled;
      RunInv(cfg, steps, s, n - 1);
      assert IsStep(cfg, steps, s, n - 1);
      StepInv(cfg, s[n - 1], steps[n - 1]);
    }
  }

  // ---------- Conservation ----------

  function OpenTask(): Task -> bool {
    (t: Task) => !t.phase.Abandoned? && !Did(t, BumpOverall)
  }

  function AbandonedTask(): Task -> bool {
    (t: Task) => t.phase.Abandoned?
  }

  /** In every reachable state each admitted submission is in exactly one place: counted as
      accepted, stale or invalid, still open, or abandoned. */
  lemma Conservation(cfg: Config, steps: seq<Step>, s: seq<Pipeline>, n: nat)
    requires IsRun(cfg, steps, s) && n < |s|
    ensures var c := s[n].stats.overall;
            |s[n].tasks| == c.accepted + c.stale + c.invalid
                            + Tally(s[n].tasks, OpenTask()) + Tally(s[n].tasks, AbandonedTask())
  {
    RunInv(cfg, steps, s, n);
    var c := s[n].stats.overall;
    assert Count(c, CAccepted) == c.accepted && Count(c, CStale) == c.stale && Count(c, CInvalid) == c.invalid;
    hide IsRun, Tally, TasksFit, StatsFit, SinkFits, OpenTask, AbandonedTask;
    Partition(s[n].tasks);
    assert OverallFits(s[n].tasks, s[n].stats, CAccepted) && OverallFits(s[n].tasks, s[n].stats, CStale)
           && OverallFits(s[n].tasks, s[n].stats, CInvalid);
  }

  lemma Partition(tasks: map<nat, Task>)
    ensures |tasks| == Tally(tasks, CountedOverall(CAccepted)) + Tally(tasks, CountedOverall(CStale))
                       + Tally(tasks, CountedOverall(CInvalid)) + Tally(tasks, OpenTask()) + Tally(tasks, AbandonedTask())
  {
    assert forall id :: id in tasks && Did(tasks[id], BumpOverall) ==> tasks[id].phase.Recording?;
    hide Did, Tally;
    TallySplit(tasks, All(), InTotal(), NotInTotal());
    TallySplit(tasks, InTotal(), CountedOverall(CAccepted), InTotalLost());
    TallySplit(tasks, InTotalLost(), CountedOverall(CStale), CountedOverall(CInvalid));
    TallySplit(tasks, NotInTotal(), OpenTask(), AbandonedTask());
    AllTallied(tasks);
  }

  function All(): Task -> bool {
    _ => true
  }

  function InTotal(): Task -> bool {
    (t: Task) => Did(t, BumpOverall)
  }

  function NotInTotal(): Task -> bool {
    (t: Task) => !Did(t, BumpOverall)
  }

  function InTotalLost(): Task -> bool {
    (t: Task) => Did(t, BumpOverall) && ClassOf(t.phase.outcome) != CAccepted
  }

  lemma AllTallied(tasks: map<nat, Task>)
    ensures Tally(tasks, All()) == |tasks|
  {
    assert Those(tasks, All()) == tasks.Keys;
    assert |tasks| == |tasks.Keys|;
  }

  // ---------- Record by record and name by name ----------

  /** The counts of all records created under names in `who`, pruned ones included. */
  function SumOver(st: Stats, who: string -> bool, cls: Class): nat
    requires |st.owners| == |st.records|
  {
    SumBelow(st, who, cls, |st.records|)
  }

  function SumBelow(st: Stats, who: string -> bool, cls: Class, n: nat): nat
    requires n <= |st.owners| == |st.records|
  {
    if n == 0 then 0
    else SumBelow(st, who, cls, n - 1) + if who(st.owners[n - 1]) then Count(st.records[n - 1], cls) else 0
  }

  function CountedUnder(who: string -> bool, cls: Class): Task -> bool {
    (t: Task) => Did(t, BumpWorker) && ClassOf(t.phase.outcome) == cls && who(t.name)
  }

  function CountedBelow(who: string -> bool, cls: Class, n: nat): Task -> bool {
    (t: Task) => Did(t, BumpWorker) && ClassOf(t.phase.outcome) == cls && who(t.name) && t.record < n
  }

  /** Whoever is counted on a record has fetched it under the name it was created for. */
  lemma CountedOwner(st: Stats, t: Task)
    requires RecordFits(st, t) && Did(t, BumpWorker)
    ensures t.record < |st.records| && t.record < |st.owners| && st.owners[t.record] == t.name
  {
    DidBefore(t, BumpWorker, Fetch);
  }

  lemma {:induction false} SumBelowExact(tasks: map<nat, Task>, st: Stats, who: string -> bool, cls: Class, n: nat)
    requires n <= |st.owners| == |st.records| && TasksFit(tasks, st) && CountersFit(tasks, st)
    ensures SumBelow(st, who, cls, n) == Tally(tasks, CountedBelow(who, cls, n))
  {
    if n == 0 {
      TallyNone(tasks, CountedBelow(who, cls, 0));
    } else {
      SumBelowExact(tasks, st, who, cls, n - 1);
      OneMoreRecord(tasks, st, who, cls, n - 1);
    }
  }

  lemma OneMoreRecord(tasks: map<nat, Task>, st: Stats, who: string -> bool, cls: Class, r: nat)
    requires r < |st.owners| == |st.records| && TasksFit(tasks, st) && CountersFit(tasks, st)
    ensures Tally(tasks, CountedBelow(who, cls, r + 1))
            == Tally(tasks, CountedBelow(who, cls, r)) + if who(st.owners[r]) then Count(st.records[r], cls) else 0
  {
    assert CountsFit(tasks, st, r, cls);
    hide CountersFit;
    forall id | id in tasks && CountedOn(r, cls)(tasks[id]) ensures tasks[id].name == st.owners[r] {
      assert RecordFits(st, tasks[id]);
      CountedOwner(st, tasks[id]);
    }
    hide Tally, Did, TasksFit, Count;
    if who(st.owners[r]) {
      TallySplit(tasks, CountedBelow(who, cls, r + 1), CountedBelow(who, cls, r), CountedOn(r, cls));
    } else {
      TallySame(tasks, CountedBelow(who, cls, r + 1), CountedBelow(who, cls, r));
    }
  }

  lemma SumExact(tasks: map<nat, Task>, st: Stats, who: string -> bool, cls: Class)
    requires |st.owners| == |st.records| && TasksFit(tasks, st) && CountersFit(tasks, st)
    ensures SumOver(st, who, cls) == Tally(tasks, CountedUnder(who, cls))
  {
    SumBelowExact(tasks, st, who, cls, |st.records|);
    forall id | id in tasks && Did(tasks[id], BumpWorker) ensures tasks[id].record < |st.records| {
      assert RecordFits(st, tasks[id]);
      CountedOwner(st, tasks[id]);
    }
    hide Tally, Did, TasksFit, CountersFit, SumBelow;
    TallySame(tasks, CountedUnder(who, cls), CountedBelow(who, cls, |st.records|));
  }

  /** In every reachable state each worker record holds, class by class, exactly the submissions
      counted on it, each of which fetched it last under the record's own name; and the records of
      any group of names together hold the submissions counted under those names. */
  lemma RecordsExact(cfg: Config, steps: seq<Step>, s: seq<Pipeline>, n: nat, cls: Class)
    requires IsRun(cfg, steps, s) && n < |s|
    ensures |s[n].stats.owners| == |s[n].stats.records|
    ensures forall r :: 0 <= r < |s[n].stats.records| ==>
              Count(s[n].stats.records[r], cls) == Tally(s[n].tasks, CountedOn(r, cls))
    ensures forall id :: id in s[n].tasks && Did(s[n].tasks[id], BumpWorker) ==>
              var t := s[n].tasks[id];
              t.record < |s[n].stats.owners| && s[n].stats.owners[t.record] == t.name
    ensures forall who: string -> bool :: SumOver(s[n].stats, who, cls) == Tally(s[n].tasks, CountedUnder(who, cls))
  {
    RunInv(cfg, steps, s, n);
    hide IsRun;
    var tasks, st := s[n].tasks, s[n].stats;
    forall r | 0 <= r < |st.records| ensures Count(st.records[r], cls) == Tally(tasks, CountedOn(r, cls)) {
      assert CountsFit(tasks, st, r, cls);
    }
    forall id | id in tasks && Did(tasks[id], BumpWorker)
      ensures tasks[id].record < |st.owners| && st.owners[tasks[id].record] == tasks[id].name
    {
      assert RecordFits(st, tasks[id]);
      CountedOwner(st, tasks[id]);
    }
    forall who: string -> bool ensures SumOver(st, who, cls) == Tally(tasks, CountedUnder(who, cls)) {
      SumExact(tasks, st, who, cls);
    }
  }

  function Anyone(): string -> bool {
    _ => true
  }

  function Only(worker: string): string -> bool {
    name => name == worker
  }

  /** The overall counters never run ahead of the worker records, pruned ones included. */
  lemma OverallNeverAhead(cfg: Config, steps: seq<Step>, s: seq<Pipeline>, n: nat, cls: Class)
    requires IsRun(cfg, steps, s) && n < |s|
    ensures |s[n].stats.owners| == |s[n].stats.records|
    ensures Count(s[n].stats.overall, cls) <= SumOver(s[n].stats, Anyone(), cls)
  {
    RunInv(cfg, steps, s, n);
    hide IsRun;
    var tasks := s[n].tasks;
    assert OverallFits(tasks, s[n].stats, cls);
    SumExact(tasks, s[n].stats, Anyone(), cls);
    var a, b := Those(tasks, CountedOverall(cls)), Those(tasks, CountedUnder(Anyone(), cls));
    forall id | id in a ensures id in b {
      DidBefore(tasks[id], BumpOverall, BumpWorker);
    }
    SubsetSize(a, b);
  }

  // ---------- At rest ----------

  ghost predicate NothingInFlight(s: Pipeline) {
    forall id :: id in s.tasks ==> Ended(s.tasks[id])
  }

  function EndedAs(cls: Class): Task -> bool {
    (t: Task) => t.phase.Recording? && ClassOf(t.phase.outcome) == cls
  }

  function EndedUnder(who: string -> bool, cls: Class): Task -> bool {
    (t: Task) => t.phase.Recording? && ClassOf(t.phase.outcome) == cls && who(t.name)
  }

  function EndedFor(worker: string, cls: Class): Task -> bool {
    (t: Task) => t.phase.Recording? && ClassOf(t.phase.outcome) == cls && t.worker == worker
  }

  /** When nothing is in flight, overall counters, worker records and verdicts agree, in all and for
      any group of names the records were fetched under. */
  lemma TotalsAgreeAtRest(cfg: Config, steps: seq<Step>, s: seq<Pipeline>, n: nat, cls: Class)
    requires IsRun(cfg, steps, s) && n < |s| && NothingInFlight(s[n])
    ensures |s[n].stats.owners| == |s[n].stats.records|
    ensures Count(s[n].stats.overall, cls) == SumOver(s[n].stats, Anyone(), cls) == Tally(s[n].tasks, EndedAs(cls))
    ensures forall who: string -> bool :: SumOver(s[n].stats, who, cls) == Tally(s[n].tasks, EndedUnder(who, cls))
  {
    RunInv(cfg, steps, s, n);
    hide IsRun;
    var tasks, st := s[n].tasks, s[n].stats;
    assert OverallFits(tasks, st, cls);
    forall id | id in tasks && tasks[id].phase.Recording?
      ensures Did(tasks[id], BumpWorker) && Did(tasks[id], BumpOverall)
    {
      EndedDidAll(tasks[id]);
    }
    assert forall id, a :: id in tasks && Did(tasks[id], a) ==> tasks[id].phase.Recording?;
    hide Tally, Did, TasksFit, CountersFit, SumOver, Ended, Count;
    TallySame(tasks, CountedOverall(cls), EndedAs(cls));
    forall who: string -> bool ensures SumOver(st, who, cls) == Tally(tasks, EndedUnder(who, cls)) {
      SumExact(tasks, st, who, cls);
      TallySame(tasks, CountedUnder(who, cls), EndedUnder(who, cls));
    }
    TallySame(tasks, EndedUnder(Anyone(), cls), EndedAs(cls));
  }

  /** The step, if it looks a record up, does so under the name the submission was admitted with. */
  predicate FetchesOwn(s: Pipeline, step: Step)
    requires Enabled(s, step)
  {
    step.Act? && NextAction(s.tasks[step.id]) == Fetch ==> step.name == s.tasks[step.id].worker
  }

  ghost predicate NamesKept(cfg: Config, steps: seq<Step>, s: seq<Pipeline>)
    requires IsRun(cfg, steps, s)
  {
    forall m :: 0 <= m < |steps| ==> IsStep(cfg, steps, s, m) && FetchesOwn(s[m], steps[m])
  }

  predicate OwnName(t: Task) {
    Did(t, Fetch) ==> t.name == t.worker
  }

  lemma OwnNameStep(cfg: Config, s: Pipeline, step: Step)
    requires Inv(s) && Enabled(s, step) && FetchesOwn(s, step) && OfTask(step) && step.id in s.tasks && OwnName(s.tasks[step.id])
    ensures OwnName(OwnNext(cfg, s, step))
  {
    var t := s.tasks[step.id];
    assert PhaseFits(t);
    hide Inv;
    if step.Act? {
      AfterDid(s.stats, t, step.name);
      hide Did, PhaseFits;
    } else if step.Test? || step.Ask? {
      WalkShape(cfg, s, step);
      hide OwnNext;
    }
  }

  lemma OwnNameKept(cfg: Config, s: Pipeline, step: Step, id: nat)
    requires Inv(s) && Enabled(s, step) && FetchesOwn(s, step) && id in Next(cfg, s, step).tasks
    requires id in s.tasks ==> OwnName(s.tasks[id])
    ensures OwnName(Next(cfg, s, step).tasks[id])
  {
    hide Inv, OwnName, FetchesOwn;
    if OwnStep(step, id) {
      OwnTasks(cfg, s, step);
      OwnNameStep(cfg, s, step);
    } else {
      TaskBefore(cfg, s, step, id);
      if id !in s.tasks {
        ArrivalOwnName(s, id);
      }
    }
    hide Next, OwnNext, Enabled;
  }

  lemma {:induction false} OwnNames(cfg: Config, steps: seq<Step>, s: seq<Pipeline>, n: nat, id: nat)
    requires IsRun(cfg, steps, s) && NamesKept(cfg, steps, s) && n < |s| && id in s[n].tasks
    ensures OwnName(s[n].tasks[id])
  {
    hide Inv, OwnName, Next, Enabled, FetchesOwn;
    if n > 0 {
      RunInv(cfg, steps, s, n - 1);
      assert IsStep(cfg, steps, s, n - 1) && FetchesOwn(s[n - 1], steps[n - 1]);
      if id in s[n - 1].tasks {
        OwnNames(cfg, steps, s, n - 1, id);
      }
      OwnNameKept(cfg, s[n - 1], steps[n - 1], id);
    }
  }

  lemma ArrivalOwnName(s: Pipeline, id: nat)
    requires Inv(s) && id in s.arrivals
    ensures OwnName(s.arrivals[id])
  {
    assert s.arrivals[id].phase.Testing?;
  }

  /** If every lookup uses the name the submission came with, the records created under a worker's
      name hold, when nothing is in flight, exactly that worker's verdicts. */
  lemma WorkersAgreeAtRest(cfg: Config, steps: seq<Step>, s: seq<Pipeline>, n: nat, worker: string, cls: Class)
    requires IsRun(cfg, steps, s) && NamesKept(cfg, steps, s) && n < |s| && NothingInFlight(s[n])
    ensures |s[n].stats.owners| == |s[n].stats.records|
    ensures SumOver(s[n].stats, Only(worker), cls) == Tally(s[n].tasks, EndedFor(worker, cls))
  {
    TotalsAgreeAtRest(cfg, steps, s, n, cls);
    var tasks := s[n].tasks;
    forall id | id in tasks && tasks[id].phase.Recording? ensures tasks[id].name == tasks[id].worker {
      RunInv(cfg, steps, s, n);
      OwnNames(cfg, steps, s, n, id);
      EndedFetched(tasks[id]);
    }
    hide IsRun, NamesKept, NothingInFlight, SumOver, Tally;
    TallySame(tasks, EndedUnder(Only(worker), cls), EndedFor(worker, cls));
  }

  lemma EndedFetched(t: Task)
    requires Ended(t) && t.phase.Recording? && PhaseFits(t)
    ensures Did(t, Fetch)
  {
    EndedDidAll(t);
    DidBefore(t, BumpWorker, Fetch);
  }

  /** When nothing is in flight the sink has heard of a share, once and under the job the walk ended
      on, exactly if it was accepted, and of a block, likewise, exactly if the node took it; and a
      block the node took is an accepted share. */
  lemma SinkAtRest(cfg: Config, steps: seq<Step>, s: seq<Pipeline>, n: nat, id: nat)
    requires IsRun(cfg, steps, s) && n < |s| && NothingInFlight(s[n]) && id in s[n].tasks
    ensures var t, k := s[n].tasks[id], s[n].sink;
            && (t.phase.Abandoned? || (t.phase.Recording? && !t.phase.outcome.InFlight?))
            && (id in k.taken <==> t.phase.Recording? && t.phase.viaBlock)
            && (id in k.taken ==> t.phase.outcome.Accepted?)
            && (forall job :: k.shares[(id, job)]
                              == if t.phase.Recording? && t.phase.outcome.Accepted? && job == Credited(t) then 1 else 0)
            && (forall job :: k.blocks[(id, job)] == if id in k.taken && job == Credited(t) then 1 else 0)
  {
    RunInv(cfg, steps, s, n);
    var t := s[n].tasks[id];
    assert PhaseFits(t) && Ended(t);
    hide IsRun, TasksFit, CountersFit, StatsFit;
    if t.phase.Recording? {
      EndedDidAll(t);
    }
    hide Did, Credited;
  }
}
