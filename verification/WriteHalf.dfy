/** The write half of a client connection: writers take it out of its slot under a lock flag and
    put it back, a disconnect takes it for good. Each access to an atomic flag or to the slot is one
    step; any number of writers and disconnects may be under way. */
module WriteHalf {
  import opened Collections

  const ATTEMPTS: nat := 3

  datatype Outcome = Success | Failure | Timeout

  datatype Phase =
    | Entering                           // about to look at the disconnecting flag
    | Trying(attempt: nat)               // about to try for the lock
    | Locked(attempt: nat)               // about to take the half from the slot
    | Writing(attempt: nat)              // the half in hand
    | Holding(attempt: nat, o: Outcome)  // written, about to put the half back
    | Releasing(attempt: nat, o: Outcome)
    | Missing                            // the slot was empty: about to release the lock and give up
    | Checking                           // in `check_disconnect`
    | Done(ok: bool)

  /** A call of `write_data`; `writes` and `completed` count the writes it began and the ones that
      went through. */
  datatype Writer = Writer(phase: Phase, writes: nat, completed: nat)

  datatype Closer = Swapping | Taking | Finished

  /** `shut` says that the half has gone to the shutdown task. */
  datatype Connection = Connection(disconnecting: bool, lock: bool, slot: bool, shut: bool, writers: seq<Writer>, closers: seq<Closer>)

  const START := Connection(false, false, true, false, [], [])

  datatype Action = NewWriter | NewCloser | Write(w: nat, o: Outcome) | Close(c: nat)

  predicate Enabled(s: Connection, a: Action) {
    match a
    case Write(w, _) => w < |s.writers| && !s.writers[w].phase.Done?
    case Close(c) => c < |s.closers| && s.closers[c] != Finished
    case _ => true
  }

  /** The next phase after attempt `a` came to nothing. */
  function Again(a: nat): Phase {
    if a + 1 < ATTEMPTS then Trying(a + 1) else Done(false)
  }

  function After(a: nat, o: Outcome): Phase {
    match o
    case Success => Done(true)
    case Failure => Checking
    case Timeout => if a < 2 then Trying(a + 1) else Checking
  }

  /** The writer after its next step; `o` is how a write that is under way ends. */
  function Moved(s: Connection, w: Writer, o: Outcome): Writer {
    match w.phase
    case Entering => w.(phase := if s.disconnecting then Done(false) else Trying(0))
    case Trying(a) => w.(phase := if s.lock then Again(a) else Locked(a))
    case Locked(a) => if s.slot then w.(phase := Writing(a), writes := w.writes + 1) else w.(phase := Missing)
    case Writing(a) => w.(phase := Holding(a, o), completed := w.completed + if o == Success then 1 else 0)
    case Holding(a, r) => w.(phase := Releasing(a, r))
    case Releasing(a, r) => w.(phase := After(a, r))
    case Missing => w.(phase := Done(false))
    case Checking => w.(phase := Done(false))
    case Done(_) => w
  }

  function WriteStep(s: Connection, i: nat, o: Outcome): Connection
    requires i < |s.writers|
  {
    var w := s.writers[i];
    var s' := s.(writers := s.writers[i := Moved(s, w, o)]);
    match w.phase
    case Trying(_) => s'.(lock := true)
    case Locked(_) => s'.(slot := false)
    case Holding(_, _) => s'.(slot := true)
    case Releasing(_, _) => s'.(lock := false)
    case Missing => s'.(lock := false)
    case Checking => if s.disconnecting then s' else s'.(closers := s.closers + [Swapping])
    case _ => s'
  }

  function CloseStep(s: Connection, c: nat): Connection
    requires c < |s.closers|
  {
    match s.closers[c]
    case Swapping => s.(disconnecting := true, closers := s.closers[c := if s.disconnecting then Finished else Taking])
    case Taking => s.(slot := false, shut := s.shut || s.slot, closers := s.closers[c := Finished])
    case Finished => s
  }

  function Step(s: Connection, a: Action): Connection
    requires Enabled(s, a)
  {
    match a
    case NewWriter => s.(writers := s.writers + [Writer(Entering, 0, 0)])
    case NewCloser => s.(closers := s.closers + [Swapping])
    case Write(w, o) => WriteStep(s, w, o)
    case Close(c) => CloseStep(s, c)
  }

  ghost predicate IsRun(actions: seq<Action>, states: seq<Connection>) {
    && |states| == |actions| + 1
    && states[0] == START
    && forall m :: 0 <= m < |actions| ==> IsStep(actions, states, m)
  }

  ghost predicate IsStep(actions: seq<Action>, states: seq<Connection>, m: nat)
    requires m < |actions| < |states|
  {
    Enabled(states[m], actions[m]) && states[m + 1] == Step(states[m], actions[m])
  }

  // ---------- Invariant ----------

  /** Between acquiring the lock and releasing it. */
  predicate Critical(p: Phase) {
    p.Locked? || p.Writing? || p.Holding? || p.Releasing? || p.Missing?
  }

  predicate Holds(p: Phase) {
    p.Writing? || p.Holding?
  }

  function CriticalWriters(s: Connection): set<nat> {
    set i | 0 <= i < |s.writers| && Critical(s.writers[i].phase)
  }

  function Holders(s: Connection): set<nat> {
    set i | 0 <= i < |s.writers| && Holds(s.writers[i].phase)
  }

  function Takers(s: Connection): set<nat> {
    set c | 0 <= c < |s.closers| && s.closers[c] == Taking
  }

  function One(b: bool): nat {
    if b then 1 else 0
  }

  /** The half is in exactly one place. */
  predicate HalfInOnePlace(s: Connection) {
    One(s.slot) + |Holders(s)| + One(s.shut) == 1
  }

  predicate LockMatches(s: Connection) {
    |CriticalWriters(s)| == One(s.lock)
  }

  /** At most one disconnect gets past the flag. */
  predicate OneCloser(s: Connection) {
    |Takers(s)| + One(s.shut) <= One(s.disconnecting)
  }

  predicate WriterInv(w: Writer) {
    match w.phase
    case Entering => w.writes == w.completed == 0
    case Trying(a) => a < 3 && w.writes <= a && w.completed == 0
    case Locked(a) => a < 3 && w.writes <= a && w.completed == 0
    case Writing(a) => a < 3 && w.writes <= a + 1 && w.completed == 0
    case Holding(a, o) => a < 3 && w.writes <= a + 1 && w.completed == One(o == Success)
    case Releasing(a, o) => a < 3 && w.writes <= a + 1 && w.completed == One(o == Success)
    case Missing => w.writes <= 3 && w.completed == 0
    case Checking => w.writes <= 3 && w.completed == 0
    case Done(ok) => w.writes <= 3 && w.completed == One(ok)
  }

  ghost predicate Inv(s: Connection) {
    && HalfInOnePlace(s) && LockMatches(s) && OneCloser(s)
    && forall i :: 0 <= i < |s.writers| ==> WriterInv(s.writers[i])
  }

  lemma CardUpdate(a: set<nat>, b: set<nat>, i: nat, now: bool)
    requires b == if now then a + {i} else a - {i}
    ensures |b| == |a| + One(now) - One(i in a)
  {
    if now && i !in a {
      assert a == b - {i};
    }
  }

  /** One writer goes to another phase. */
  lemma WriterMoves(s: Connection, s': Connection, i: nat, w: Writer)
    requires i < |s.writers| && s'.writers == s.writers[i := w]
    ensures |Holders(s')| == |Holders(s)| + One(Holds(w.phase)) - One(Holds(s.writers[i].phase))
    ensures |CriticalWriters(s')| == |CriticalWriters(s)| + One(Critical(w.phase)) - One(Critical(s.writers[i].phase))
  {
    HoldersMove(s, s', i, w);
    CriticalMove(s, s', i, w);
  }

  lemma HoldersMove(s: Connection, s': Connection, i: nat, w: Writer)
    requires i < |s.writers| && s'.writers == s.writers[i := w]
    ensures |Holders(s')| == |Holders(s)| + One(Holds(w.phase)) - One(Holds(s.writers[i].phase))
  {
    hide Holds;
    var a, b := Holders(s), Holders(s');
    assert forall j: nat :: j in b <==> if j == i then Holds(w.phase) else j in a;
    hide Holders;
    CardUpdate(a, b, i, Holds(w.phase));
  }

  lemma CriticalMove(s: Connection, s': Connection, i: nat, w: Writer)
    requires i < |s.writers| && s'.writers == s.writers[i := w]
    ensures |CriticalWriters(s')| == |CriticalWriters(s)| + One(Critical(w.phase)) - One(Critical(s.writers[i].phase))
  {
    hide Critical;
    var a, b := CriticalWriters(s), CriticalWriters(s');
    assert forall j: nat :: j in b <==> if j == i then Critical(w.phase) else j in a;
    hide CriticalWriters;
    CardUpdate(a, b, i, Critical(w.phase));
  }

  lemma CloserMoves(s: Connection, s': Connection, c: nat)
    requires c < |s.closers| == |s'.closers| && s'.closers == s.closers[c := s'.closers[c]]
    ensures |Takers(s')| == |Takers(s)| + One(s'.closers[c] == Taking) - One(s.closers[c] == Taking)
  {
    CardUpdate(Takers(s), Takers(s'), c, s'.closers[c] == Taking);
  }

  lemma WriterHolds(s: Connection, i: nat)
    requires i < |s.writers|
    ensures Holds(s.writers[i].phase) ==> |Holders(s)| >= 1
    ensures Critical(s.writers[i].phase) ==> |CriticalWriters(s)| >= 1
  {
    if Holds(s.writers[i].phase) {
      assert {i} <= Holders(s);
      SubsetSize({i}, Holders(s));
    }
    if Critical(s.writers[i].phase) {
      assert {i} <= CriticalWriters(s);
      SubsetSize({i}, CriticalWriters(s));
    }
  }

  lemma MovedInv(s: Connection, w: Writer, o: Outcome)
    requires WriterInv(w)
    ensures WriterInv(Moved(s, w, o))
  {
    hide WriterInv, Moved, Critical;
    if Critical(w.phase) {
      InsideInv(s, w, o);
    } else {
      OutsideInv(s, w, o);
    }
  }

  lemma InsideInv(s: Connection, w: Writer, o: Outcome)
    requires WriterInv(w) && Critical(w.phase)
    ensures WriterInv(Moved(s, w, o))
  {
  }

  lemma OutsideInv(s: Connection, w: Writer, o: Outcome)
    requires WriterInv(w) && !Critical(w.phase)
    ensures WriterInv(Moved(s, w, o))
  {
  }

  /** What a writer's step does, apart from the counting. */
  lemma WriteStepShape(s: Connection, i: nat, o: Outcome)
    requires i < |s.writers|
    ensures var s' := WriteStep(s, i, o);
      && s'.writers == s.writers[i := Moved(s, s.writers[i], o)]
      && s'.disconnecting == s.disconnecting && s'.shut == s.shut
      && (s'.closers == s.closers || s'.closers == s.closers + [Swapping])
  {
    hide Moved;
  }

  /** The slot changes with who has the half. */
  lemma SlotFollows(s: Connection, i: nat, o: Outcome)
    requires i < |s.writers|
    ensures var s', p, p' := WriteStep(s, i, o), s.writers[i].phase, Moved(s, s.writers[i], o).phase;
      && (Holds(p) == Holds(p') ==> s'.slot == s.slot)
      && (!Holds(p) && Holds(p') ==> s.slot && !s'.slot)
      && (Holds(p) && !Holds(p') ==> s'.slot)
  {
  }

  /** The lock changes with who is between acquire and release. */
  lemma LockFollows(s: Connection, i: nat, o: Outcome)
    requires i < |s.writers|
    ensures var s', p, p' := WriteStep(s, i, o), s.writers[i].phase, Moved(s, s.writers[i], o).phase;
      && (Critical(p) == Critical(p') ==> s'.lock == s.lock)
      && (!Critical(p) && Critical(p') ==> !s.lock && s'.lock)
      && (Critical(p) && !Critical(p') ==> !s'.lock)
  {
  }

  lemma WriteStepInv(s: Connection, i: nat, o: Outcome)
    requires Inv(s) && Enabled(s, Write(i, o))
    ensures Inv(WriteStep(s, i, o))
  {
    var s', w := WriteStep(s, i, o), Moved(s, s.writers[i], o);
    assert WriterInv(s.writers[i]);
    WriteStepShape(s, i, o);
    SlotFollows(s, i, o);
    LockFollows(s, i, o);
    MovedInv(s, s.writers[i], o);
    hide WriterInv, WriteStep, Holds, Critical, Moved;
    WriterHolds(s, i);
    WriterMoves(s, s', i, w);
    assert Takers(s') == Takers(s);
    hide Holders, CriticalWriters, Takers;
  }

  lemma CloseStepInv(s: Connection, c: nat)
    requires Inv(s) && Enabled(s, Close(c))
    ensures Inv(CloseStep(s, c))
  {
    var s' := CloseStep(s, c);
    assert s'.writers == s.writers;
    CloserMoves(s, s', c);
    assert Holders(s') == Holders(s) && CriticalWriters(s') == CriticalWriters(s);
    assert s.closers[c] == Taking ==> |Takers(s)| >= 1 by {
      if s.closers[c] == Taking {
        assert {c} <= Takers(s);
        SubsetSize({c}, Takers(s));
      }
    }
    hide WriterInv, Holders, CriticalWriters, Takers;
  }

  lemma StepInv(s: Connection, a: Action)
    requires Inv(s) && Enabled(s, a)
    ensures Inv(Step(s, a))
  {
    var s' := Step(s, a);
    match a
    case Write(w, o) => WriteStepInv(s, w, o);
    case Close(c) => CloseStepInv(s, c);
    case _ =>
      assert Holders(s') == Holders(s) && CriticalWriters(s') == CriticalWriters(s) && Takers(s') == Takers(s);
  }

  /** In every interleaving of writers and disconnects: the half is in exactly one place, the lock
      flag is set exactly while one writer is between acquire and release, and each writer has begun
      at most three writes and completed one exactly when it reports success. */
  lemma {:induction false} RunsKeepInv(actions: seq<Action>, states: seq<Connection>, n: nat)
    requires IsRun(actions, states) && n <= |actions|
    ensures Inv(states[n])
  {
    if n == 0 {
      assert Holders(START) == {} && CriticalWriters(START) == {} && Takers(START) == {};
    } else {
      RunsKeepInv(actions, states, n - 1);
      assert IsStep(actions, states, n - 1);
      hide Inv, Step;
      StepInv(states[n - 1], actions[n - 1]);
    }
  }

  // ---------- Runs ----------

  /** A write overlaps no other write and no shutdown, and the slot is empty meanwhile. */
  lemma WritesNeverOverlap(actions: seq<Action>, states: seq<Connection>, n: nat, i: nat, j: nat)
    requires IsRun(actions, states) && n <= |actions|
    requires i < |states[n].writers| && j < |states[n].writers|
    requires Holds(states[n].writers[i].phase)
    ensures !states[n].shut && !states[n].slot && states[n].lock
    ensures Critical(states[n].writers[j].phase) ==> i == j
  {
    var s := states[n];
    RunsKeepInv(actions, states, n);
    WriterHolds(s, i);
    if Critical(s.writers[j].phase) {
      assert {i, j} <= CriticalWriters(s);
      SubsetSize({i, j}, CriticalWriters(s));
    }
  }

  /** What no step undoes, and when a write begins. */
  lemma StepKeeps(s: Connection, a: Action)
    requires Enabled(s, a)
    ensures var s' := Step(s, a);
      && (s.shut ==> s'.shut) && (s.disconnecting ==> s'.disconnecting)
      && |s.writers| <= |s'.writers| <= |s.writers| + 1
      && (|s'.writers| > |s.writers| ==> s'.writers[|s.writers|] == Writer(Entering, 0, 0))
      && (forall i :: 0 <= i < |s.writers| && s'.writers[i] != s.writers[i] ==> a.Write? && a.w == i)
      && (a.Write? && s'.writers[a.w].writes != s.writers[a.w].writes ==> s.slot && Holds(s'.writers[a.w].phase))
  {
  }

  lemma {:induction false} FlagsStay(actions: seq<Action>, states: seq<Connection>, m: nat, n: nat)
    requires IsRun(actions, states) && m <= n <= |actions|
    ensures states[m].shut ==> states[n].shut
    ensures states[m].disconnecting ==> states[n].disconnecting
    ensures |states[m].writers| <= |states[n].writers|
    decreases n
  {
    if m < n {
      assert IsStep(actions, states, n - 1);
      StepKeeps(states[n - 1], actions[n - 1]);
      hide Step;
      FlagsStay(actions, states, m, n - 1);
    }
  }

  /** Once a disconnect has taken the half, nobody holds it and no write begins any more. */
  lemma {:induction false} NothingWrittenAfterShut(actions: seq<Action>, states: seq<Connection>, m: nat, n: nat, i: nat)
    requires IsRun(actions, states) && m <= n <= |actions| && states[m].shut && i < |states[n].writers|
    ensures states[n].shut && !Holds(states[n].writers[i].phase)
    ensures states[n].writers[i].writes == if i < |states[m].writers| then states[m].writers[i].writes else 0
    decreases n
  {
    RunsKeepInv(actions, states, n);
    FlagsStay(actions, states, m, n);
    WriterHolds(states[n], i);
    if m < n {
      FlagsStay(actions, states, m, n - 1);
      RunsKeepInv(actions, states, n - 1);
      assert IsStep(actions, states, n - 1);
      StepKeeps(states[n - 1], actions[n - 1]);
      hide Step, Holds, Holders, CriticalWriters, Takers;
      if i < |states[n - 1].writers| {
        NothingWrittenAfterShut(actions, states, m, n - 1, i);
      }
    }
  }

  /** A writer that comes when the disconnecting flag is set writes nothing. */
  lemma {:induction false} LateWritersSilent(actions: seq<Action>, states: seq<Connection>, m: nat, n: nat, i: nat)
    requires IsRun(actions, states) && m <= n <= |actions| && states[m].disconnecting && i < |states[n].writers|
    requires i >= |states[m].writers| || states[m].writers[i].phase == Entering
    ensures states[n].writers[i].writes == 0 && (states[n].writers[i].phase == Entering || states[n].writers[i].phase == Done(false))
    decreases n
  {
    if m == n {
      RunsKeepInv(actions, states, n);
    } else {
      FlagsStay(actions, states, m, n - 1);
      assert IsStep(actions, states, n - 1);
      StepKeeps(states[n - 1], actions[n - 1]);
      if i < |states[n - 1].writers| {
        LateWritersSilent(actions, states, m, n - 1, i);
      }
    }
  }

  lemma {:induction false} NoTakerStays(actions: seq<Action>, states: seq<Connection>, m: nat, n: nat)
    requires IsRun(actions, states) && m <= n <= |actions| && states[m].disconnecting && Takers(states[m]) == {}
    ensures Takers(states[n]) == {} && states[n].shut == states[m].shut
    decreases n
  {
    if m < n {
      NoTakerStays(actions, states, m, n - 1);
      FlagsStay(actions, states, m, n - 1);
      assert IsStep(actions, states, n - 1);
      NoTakerStep(states[n - 1], actions[n - 1]);
    }
  }

  lemma NoTakerStep(s: Connection, a: Action)
    requires Enabled(s, a) && s.disconnecting && Takers(s) == {}
    ensures Takers(Step(s, a)) == {} && Step(s, a).shut == s.shut
  {
    hide Moved;
    if a.Close? {
      assert s.closers[a.c] != Taking by {
        assert a.c !in Takers(s);
      }
    }
    assert forall c: nat :: c !in Takers(s);
  }

  /** A disconnected connection's half is shut down if and only if it was in the slot when the one
      disconnect that got past the flag came to take it. */
  lemma ShutIffInSlot(actions: seq<Action>, states: seq<Connection>, m: nat, n: nat)
    requires IsRun(actions, states) && m < n <= |actions|
    requires actions[m].Close? && actions[m].c < |states[m].closers| && states[m].closers[actions[m].c] == Taking
    ensures states[n].shut <==> states[m].slot
  {
    var s, c := states[m], actions[m].c;
    RunsKeepInv(actions, states, m);
    assert IsStep(actions, states, m);
    assert Takers(s) == {c} by {
      assert {c} <= Takers(s);
      SubsetSize({c}, Takers(s));
      SameSize({c}, Takers(s));
    }
    var s' := states[m + 1];
    assert s'.closers == s.closers[c := Finished];
    forall d ensures d !in Takers(s') {
      assert d in Takers(s') ==> d in Takers(s) && d != c;
    }
    NoTakerStays(actions, states, m + 1, n);
  }

  lemma SameSize(a: set<nat>, b: set<nat>)
    requires a <= b && |b| <= |a|
    ensures a == b
  {
    assert b == a + (b - a);
  }

  /** There is a run that ends in `s`. */
  ghost predicate Reachable(s: Connection) {
    exists actions: seq<Action>, states: seq<Connection> :: IsRun(actions, states) && states[|actions|] == s
  }

  lemma ReachStep(s: Connection, a: Action, s': Connection)
    requires Reachable(s) && Enabled(s, a) && s' == Step(s, a)
    ensures Reachable(s')
  {
    hide Step;
    var actions: seq<Action>, states: seq<Connection> :| IsRun(actions, states) && states[|actions|] == s;
    var actions', states' := actions + [a], states + [s'];
    forall m | 0 <= m < |actions'| ensures IsStep(actions', states', m) {
      if m < |actions| {
        assert IsStep(actions, states, m);
      }
    }
    assert IsRun(actions', states') && states'[|actions'|] == s';
  }

  /** It need not be: a disconnect that comes while a writer has the half finds the slot empty, the
      write goes through, and the half stays in the slot of the disconnected connection. */
  lemma HalfLeftBehind()
    ensures Reachable(Connection(true, false, true, false, [Writer(Done(true), 1, 1)], [Finished]))
  {
    var go := Write(0, Success);
    assert IsRun([], [START]) && [START][0] == START;
    var s1, s2 := Step(START, NewWriter), Step(Step(START, NewWriter), NewCloser);
    ReachStep(START, NewWriter, s1);
    ReachStep(s1, NewCloser, s2);
    assert s2 == Connection(false, false, true, false, [Writer(Entering, 0, 0)], [Swapping]);
    WritesOnce(s2);
    var s5 := Connection(false, true, false, false, [Writer(Writing(0), 1, 0)], [Swapping]);
    var s6, s7 := s5.(disconnecting := true, closers := [Taking]), s5.(disconnecting := true, closers := [Finished]);
    assert Step(s5, Close(0)) == s6 && Step(s6, Close(0)) == s7;
    PutsBack(s7);
    hide Step, Reachable;
    ReachStep(s2, go, Step(s2, go));
    ReachStep(Step(s2, go), go, Step(Step(s2, go), go));
    ReachStep(Step(Step(s2, go), go), go, s5);
    ReachStep(s5, Close(0), s6);
    ReachStep(s6, Close(0), s7);
    ReachStep(s7, go, Step(s7, go));
    ReachStep(Step(s7, go), go, Step(Step(s7, go), go));
    ReachStep(Step(Step(s7, go), go), go, Step(Step(Step(s7, go), go), go));
  }

  lemma WritesOnce(s: Connection)
    requires s.writers == [Writer(Entering, 0, 0)] && !s.disconnecting && !s.lock && s.slot
    ensures var go := Write(0, Success);
      && Enabled(Step(s, go), go) && Enabled(Step(Step(s, go), go), go)
      && Step(Step(Step(s, go), go), go) == s.(writers := [Writer(Writing(0), 1, 0)], lock := true, slot := false)
  {
    var go := Write(0, Success);
    assert Step(s, go) == s.(writers := [Writer(Trying(0), 0, 0)]);
    assert Step(Step(s, go), go) == s.(writers := [Writer(Locked(0), 0, 0)], lock := true);
  }

  lemma PutsBack(s: Connection)
    requires s.writers == [Writer(Writing(0), 1, 0)] && s.lock && !s.slot
    ensures var go := Write(0, Success);
      && Enabled(Step(s, go), go) && Enabled(Step(Step(s, go), go), go)
      && Step(Step(Step(s, go), go), go) == s.(writers := [Writer(Done(true), 1, 1)], lock := false, slot := true)
  {
    var go := Write(0, Success);
    assert Step(s, go) == s.(writers := [Writer(Holding(0, Success), 1, 1)]);
    assert Step(Step(s, go), go) == s.(writers := [Writer(Releasing(0, Success), 1, 1)], slot := true);
  }

  // ---------- A connection that cannot be written to ----------

  /** A write failed, or timed out for the third time. */
  predicate Unwritable(p: Phase) {
    p.Releasing? && (p.o == Failure || (p.o == Timeout && p.attempt >= 2))
  }

  /** The connection is disconnected, or a disconnect is about to say so. */
  predicate Disconnects(s: Connection) {
    s.disconnecting || Swapping in s.closers
  }

  /** After such a write, up to the end of the call. */
  predicate GivingUp(s: Connection, p: Phase) {
    Unwritable(p) || p.Checking? || (p == Done(false) && Disconnects(s))
  }

  lemma DisconnectsOn(s: Connection, a: Action)
    requires Enabled(s, a) && Disconnects(s)
    ensures Disconnects(Step(s, a))
  {
    if a.Write? {
      WriteStepShape(s, a.w, a.o);
    }
    hide WriteStep;
    if Swapping in s.closers {
      var k :| 0 <= k < |s.closers| && s.closers[k] == Swapping;
      var s' := Step(s, a);
      assert s'.disconnecting || s'.closers[k] == Swapping;
    }
  }

  lemma GivingUpStep(s: Connection, a: Action, i: nat)
    requires Enabled(s, a) && i < |s.writers| && GivingUp(s, s.writers[i].phase)
    ensures var s' := Step(s, a); i < |s'.writers| && GivingUp(s', s'.writers[i].phase)
  {
    var s' := Step(s, a);
    if Disconnects(s) {
      DisconnectsOn(s, a);
    }
    if a.Write? && a.w == i {
      OwnGivingUp(s, i, a.o);
    } else {
      assert s'.writers[i] == s.writers[i];
    }
  }

  lemma OwnGivingUp(s: Connection, i: nat, o: Outcome)
    requires i < |s.writers| && GivingUp(s, s.writers[i].phase) && !s.writers[i].phase.Done?
    ensures var s' := WriteStep(s, i, o); GivingUp(s', s'.writers[i].phase)
  {
    var s' := WriteStep(s, i, o);
    if s.writers[i].phase.Checking? && !s.disconnecting {
      assert s'.closers[|s.closers|] == Swapping;
    }
  }

  /** A write that fails, or times out for the third time, is reported as an error, and by then the
      connection is being disconnected. */
  lemma {:induction false} FailureDisconnects(actions: seq<Action>, states: seq<Connection>, m: nat, n: nat, i: nat)
    requires IsRun(actions, states) && m <= n < |states| && i < |states[m].writers| && Unwritable(states[m].writers[i].phase)
    ensures i < |states[n].writers| && GivingUp(states[n], states[n].writers[i].phase)
    ensures states[n].writers[i].phase.Done? ==> !states[n].writers[i].phase.ok && Disconnects(states[n])
    decreases n
  {
    if m < n {
      hide Step, Enabled, Unwritable, Disconnects;
      assert IsStep(actions, states, n - 1);
      FailureDisconnects(actions, states, m, n - 1, i);
      GivingUpStep(states[n - 1], actions[n - 1], i);
    }
  }
}
