/** `handle_submit` as a step machine: any number of submissions of any number of clients in flight at
    once, each lock taken for one step, everything between two locks open to the other submissions, to
    new jobs and to changes of difficulty. */
module SharePipeline {
  import opened DuplicateGuard
  import opened ExpiringQueue
  import opened JobRing
  import opened ShareTask
  import opened WalkBack
  import opened Wrappers
  import Text

  // ---------- The shared state ----------

  datatype Counters = Counters(accepted: nat, stale: nat, invalid: nat)

  const ZERO := Counters(0, 0, 0)

  function Count(c: Counters, cls: Class): nat {
    match cls
    case CAccepted => c.accepted
    case CStale => c.stale
    case CInvalid => c.invalid
  }

  function Bumped(c: Counters, cls: Class): Counters {
    match cls
    case CAccepted => c.(accepted := c.accepted + 1)
    case CStale => c.(stale := c.stale + 1)
    case CInvalid => c.(invalid := c.invalid + 1)
  }

  /** `records` are all worker records ever created, `owners` the names they were created under and
      `current` the ones the stats map still names. */
  datatype Stats = Stats(overall: Counters, records: seq<Counters>, owners: seq<string>, current: map<string, nat>)

  /** The submissions whose block the node took, and the events told, each with the submission it
      came from. */
  datatype Sink = Sink(taken: set<nat>, shares: multiset<(nat, Job)>, blocks: multiset<(nat, Job)>)

  /** `arrivals` have their job and are on the way to the duplicate guard, `tasks` were admitted. */
  datatype Pipeline = Pipeline(
    guard: Guard,
    clients: map<nat, Client>,
    arrivals: map<nat, Task>,
    tasks: map<nat, Task>,
    stats: Stats,
    sink: Sink)

  const START: Pipeline :=
    Pipeline(EMPTY, map[], map[], map[], Stats(ZERO, [], [], map[]), Sink({}, multiset{}, multiset{}))

  /** The limits of the duplicate guard, and the hash of a job with a nonce, which is left open. */
  datatype Config = Config(lim: Limits, pow: (Job, nat) -> nat)

  function ClientOf(s: Pipeline, c: nat): Client {
    if c in s.clients then s.clients[c] else Client([], [])
  }

  datatype Step =
    | AddJob(client: nat, job: Job)
    | SetTarget(client: nat, target: nat)
    | Arrive(id: nat, client: nat, worker: string, jobId: nat, nonceText: string)
    | Submit(id: nat, now: nat)
    | Test(id: nat)
    | Ask(id: nat)
    | Replied(id: nat, reply: NodeReply)
    | Act(id: nat, name: string, now: nat)
    | Authorize(name: string)
    | PruneStats(names: set<string>)

  // ---------- The steps ----------

  /** The reading of the submitted job: without a job or a nonce the handler returns an error. */
  function Arrivals(arrivals: map<nat, Task>, c: Client, step: Step): map<nat, Task>
    requires step.Arrive?
  {
    match Lookup(c.log, step.jobId)
    case None => arrivals
    case Some(job) =>
      if Text.ParseHexU64(step.nonceText).None? then arrivals
      else arrivals[step.id := Arrived(c, step.client, step.worker, step.jobId, step.nonceText, job)]
  }

  /** The admission section lets a submission in, or answers it as a duplicate. */
  predicate Admits(lim: Limits, g: Guard, t: Task, now: nat) {
    Recall(Prune(g, lim, now), KeyOf(t)) == None
  }

  /** `get_create_stats`. */
  function WithRecord(st: Stats, name: string): (r: Stats)
    ensures name in r.current
  {
    if name in st.current then st
    else Stats(st.overall, st.records + [ZERO], st.owners + [name], st.current[name := |st.records|])
  }

  predicate CanAct(st: Stats, t: Task) {
    Pending(t) && (NextAction(t) == BumpWorker ==> t.record < |st.records|)
  }

  function StatsAfter(st: Stats, t: Task, name: string): Stats
    requires CanAct(st, t)
  {
    var cls := ClassOf(t.phase.outcome);
    match NextAction(t)
    case Fetch => WithRecord(st, name)
    case BumpWorker => st.(records := st.records[t.record := Bumped(st.records[t.record], cls)])
    case BumpOverall => st.(overall := Bumped(st.overall, cls))
    case _ => st
  }

  function TaskAfter(st: Stats, t: Task, name: string): Task
    requires Pending(t)
  {
    if NextAction(t) == Fetch then Advanced(t).(record := WithRecord(st, name).current[name], name := name)
    else Advanced(t)
  }

  function SinkAfter(k: Sink, id: nat, t: Task): Sink
    requires Pending(t)
  {
    match NextAction(t)
    case TellBlock => k.(blocks := k.blocks + multiset{(id, Credited(t))})
    case TellShare => k.(shares := k.shares + multiset{(id, Credited(t))})
    case _ => k
  }

  function GuardAfter(lim: Limits, g: Guard, t: Task, now: nat): Guard
    requires Pending(t)
  {
    if NextAction(t) == StoreOutcome then Settled(g, lim, KeyOf(t), now, t.phase.outcome) else g
  }

  predicate Enabled(s: Pipeline, step: Step) {
    match step
    case Arrive(id, _, _, _, _) => id !in s.arrivals && id !in s.tasks
    case Submit(id, _) => id in s.arrivals && id !in s.tasks
    case Test(id) => id in s.tasks && s.tasks[id].phase.Testing?
    case Ask(id) => id in s.tasks && s.tasks[id].phase.Asking? && s.tasks[id].cur > 0
    case Replied(id, _) => id in s.tasks && s.tasks[id].phase.Submitting?
    case Act(id, _, _) => id in s.tasks && CanAct(s.stats, s.tasks[id])
    case _ => true
  }

  /** A submission after a step of its own. */
  function OwnNext(cfg: Config, s: Pipeline, step: Step): Task
    requires Enabled(s, step) && (step.Test? || step.Ask? || step.Replied? || step.Act?)
  {
    var t := s.tasks[step.id];
    match step
    case Test(_) => Tested(cfg.pow, ClientOf(s, t.client), t)
    case Ask(_) => AskedPrevious(ClientOf(s, t.client), t)
    case Replied(_, reply) => t.(phase := AfterReply(reply))
    case Act(_, name, _) => TaskAfter(s.stats, t, name)
  }

  function NextClients(s: Pipeline, step: Step): map<nat, Client> {
    match step
    case AddJob(client, job) =>
      var c := ClientOf(s, client);
      s.clients[client := c.(log := c.log + [job])]
    case SetTarget(client, target) =>
      var c := ClientOf(s, client);
      s.clients[client := c.(targets := c.targets + [target])]
    case _ => s.clients
  }

  function NextArrivals(s: Pipeline, step: Step): map<nat, Task> {
    match step
    case Arrive(_, client, _, _, _) => Arrivals(s.arrivals, ClientOf(s, client), step)
    case Submit(id, _) => s.arrivals - {id}
    case _ => s.arrivals
  }

  function NextTasks(cfg: Config, s: Pipeline, step: Step): map<nat, Task>
    requires Enabled(s, step)
  {
    match step
    case Submit(id, now) =>
      if Admits(cfg.lim, s.guard, s.arrivals[id], now) then s.tasks[id := s.arrivals[id]] else s.tasks
    case Test(id) => s.tasks[id := OwnNext(cfg, s, step)]
    case Ask(id) => s.tasks[id := OwnNext(cfg, s, step)]
    case Replied(id, _) => s.tasks[id := OwnNext(cfg, s, step)]
    case Act(id, _, _) => s.tasks[id := OwnNext(cfg, s, step)]
    case _ => s.tasks
  }

  function NextGuard(lim: Limits, s: Pipeline, step: Step): Guard
    requires Enabled(s, step)
  {
    match step
    case Submit(id, now) => Submitted(s.guard, lim, KeyOf(s.arrivals[id]), now)
    case Act(id, _, now) => GuardAfter(lim, s.guard, s.tasks[id], now)
    case _ => s.guard
  }

  function NextStats(s: Pipeline, step: Step): Stats
    requires Enabled(s, step)
  {
    match step
    case Act(id, name, _) => StatsAfter(s.stats, s.tasks[id], name)
    case Authorize(name) => WithRecord(s.stats, name)
    case PruneStats(names) => s.stats.(current := s.stats.current - names)
    case _ => s.stats
  }

  function NextSink(s: Pipeline, step: Step): Sink
    requires Enabled(s, step)
  {
    match step
    case Replied(id, reply) => if reply == Success then s.sink.(taken := s.sink.taken + {id}) else s.sink
    case Act(id, _, _) => SinkAfter(s.sink, id, s.tasks[id])
    case _ => s.sink
  }

  function Next(cfg: Config, s: Pipeline, step: Step): Pipeline
    requires Enabled(s, step)
  {
    Pipeline(NextGuard(cfg.lim, s, step), NextClients(s, step), NextArrivals(s, step), NextTasks(cfg, s, step),
             NextStats(s, step), NextSink(s, step))
  }

  ghost predicate IsRun(cfg: Config, steps: seq<Step>, s: seq<Pipeline>) {
    && |s| == |steps| + 1
    && s[0] == START
    && forall m :: 0 <= m < |steps| ==> IsStep(cfg, steps, s, m)
  }

  ghost predicate IsStep(cfg: Config, steps: seq<Step>, s: seq<Pipeline>, m: nat)
    requires m < |steps| < |s|
  {
    Enabled(s[m], steps[m]) && s[m + 1] == Next(cfg, s[m], steps[m])
  }

  /** There is a run that ends in `s`. */
  ghost predicate Reachable(cfg: Config, s: Pipeline) {
    exists steps: seq<Step>, states: seq<Pipeline> :: IsRun(cfg, steps, states) && states[|steps|] == s
  }

  lemma ReachStart(cfg: Config)
    ensures Reachable(cfg, START)
  {
    var steps: seq<Step>, states := [], [START];
    assert IsRun(cfg, steps, states) && states[|steps|] == START;
  }

  lemma ReachStep(cfg: Config, s: Pipeline, step: Step)
    requires Reachable(cfg, s) && Enabled(s, step)
    ensures Reachable(cfg, Next(cfg, s, step))
  {
    hide Next, Enabled;
    var steps: seq<Step>, states: seq<Pipeline> :| IsRun(cfg, steps, states) && states[|steps|] == s;
    var steps', states' := steps + [step], states + [Next(cfg, s, step)];
    forall m | 0 <= m < |steps'| ensures IsStep(cfg, steps', states', m) {
      if m < |steps| {
        assert IsStep(cfg, steps, states, m);
      }
    }
    assert IsRun(cfg, steps', states') && states'[|steps'|] == Next(cfg, s, step);
  }

  // ---------- What a step does to submissions ----------

  predicate OfTask(step: Step) {
    step.Test? || step.Ask? || step.Replied? || step.Act?
  }

  /** The step is one of an admitted submission's own. */
  predicate OwnStep(step: Step, id: nat) {
    OfTask(step) && step.id == id
  }

  lemma OwnTasks(cfg: Config, s: Pipeline, step: Step)
    requires Enabled(s, step) && OfTask(step)
    ensures step.id in s.tasks && Next(cfg, s, step).tasks == s.tasks[step.id := OwnNext(cfg, s, step)]
  {
    hide OwnNext;
  }

  /** A task appears by admission, and is changed by its own steps only. */
  lemma TaskBefore(cfg: Config, s: Pipeline, step: Step, id: nat)
    requires Enabled(s, step) && id in Next(cfg, s, step).tasks && !OwnStep(step, id)
    ensures if id in s.tasks then Next(cfg, s, step).tasks[id] == s.tasks[id]
            else step.Submit? && step.id == id && id in s.arrivals
                 && Admits(cfg.lim, s.guard, s.arrivals[id], step.now) && Next(cfg, s, step).tasks[id] == s.arrivals[id]
  {
    hide OwnNext, Admits;
  }

  lemma TasksStay(cfg: Config, s: Pipeline, step: Step, id: nat)
    requires Enabled(s, step) && id in s.tasks
    ensures id in Next(cfg, s, step).tasks
  {
    hide OwnNext, Admits;
  }

  lemma NotYetOwn(s: Pipeline, step: Step, id: nat)
    requires Enabled(s, step) && id !in s.tasks
    ensures !OwnStep(step, id)
  {
  }
}
