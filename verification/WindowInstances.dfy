/** The two ways in which a tick inside sys_tsleep does its damage, each on a run from the start. */
module WindowInstances {
  import opened Lists
  import opened Scheduler
  import opened TimeWheel
  import opened Semaphores
  import opened KernelSteps
  import opened SleepWindow
  import opened SleepDamage
  import opened SleepRuns

  function Start(): Machine { Machine(Boot([], [0]), map[]) }

  lemma StartConsistent()
    ensures Consistent(Start())
  {
    BootValid([], [0]);
    BootQueues([], [0]);
  }

  // Two processes at level 0 with these slices left, these lists and counts; process 0 is in the
  // active queue, process 1 in queue 0.
  ghost predicate Looks(t: Tasks, active: nat, cur: Pid, rests: (nat, nat), a: (seq<Pid>, int), b: (seq<Pid>, int)) {
    && Shape(t) && |t.procs| == 2 && t.unborn == {} && t.cur == cur && t.active == active
    && (forall p | 0 <= p < 2 :: t.procs[p].nice == 0 && t.procs[p].state.Running?)
    && t.procs[0].rest_time == rests.0 && t.procs[1].rest_time == rests.1
    && t.procs[0].sched_queue == active && t.procs[1].sched_queue == 0
    && t.queues[0].levels[0] == a.0 && t.queues[0].count == a.1
    && t.queues[1].levels[0] == b.0 && t.queues[1].count == b.1
    && (forall q, l | 0 <= q < 2 && 0 < l < LEVELS :: List(t, q, l) == [])
  }

  // Nobody sleeps and nobody waits.
  ghost predicate NobodyWaits(s: System) {
    && |s.z.wheel| == WHEEL_SIZE && (forall h | 0 <= h < WHEEL_SIZE :: s.z.wheel[h] == [])
    && s.z.wait_list == [] && s.granted == {}
  }

  // Nobody is in sys_tsleep.
  ghost predicate Calm(m: Machine) { forall p: Pid :: PhaseOf(m, p) == Outside }

  function Forked(): System {
    var s0 := Boot([], [0]);
    s0.(t := Copy(s0.t))
  }

  function SharedOut(): System { Forked().(t := Share(Forked().t, 1)) }

  function Entered(): System { SharedOut().(t := Enter(SharedOut().t, 1)) }

  lemma ForkSteps()
    ensures var s0 := Boot([], [0]); Valid(s0) && Enabled(s0, Fork) && Next(s0, Fork) == Forked()
    ensures Valid(Forked()) && Enabled(Forked(), ShareSlice(1)) && Next(Forked(), ShareSlice(1)) == SharedOut()
  {
    BootValid([], [0]);
    NextKeeps(Boot([], [0]), Fork);
    NextKeeps(Forked(), ShareSlice(1));
  }

  lemma EnterSteps()
    ensures Valid(SharedOut()) && Enabled(SharedOut(), EnterChild(1)) && Next(SharedOut(), EnterChild(1)) == Entered()
    ensures Valid(Entered()) && Enabled(Entered(), Yield)
  {
    ForkSteps();
    NextKeeps(Forked(), ShareSlice(1));
    NextKeeps(SharedOut(), EnterChild(1));
  }

  lemma EnteredLooks()
    ensures var s := Entered(); Looks(s.t, 0, 0, (2, 3), ([0, 1], 2), ([], 0)) && NobodyWaits(s)
  {
    var t := Entered().t;
    assert t.queues[0].levels[0] == [0, 1];
  }

  lemma YieldedLooks(s: System)
    requires Looks(s.t, 0, 0, (2, 3), ([0, 1], 2), ([], 0))
    ensures Looks(Schedule(s.t), 0, 1, (1, 3), ([1, 0], 2), ([], 0))
  {
    var t1, t' := Spend(s.t), Schedule(s.t);
    assert Without([0, 1], 0) == [1];
    assert t1.queues[0].levels[0] == [1, 0];
    forall q, l | 0 <= q < 2 && 0 < l < LEVELS ensures List(t', q, l) == [] {
      assert List(s.t, q, l) == [];
    }
  }

  // A run of moves from the start to s, with nobody in sys_tsleep at its end.
  ghost predicate Leads(ms: seq<Machine>, vs: seq<Move>, s: System) {
    IsMoveRun(ms, vs) && ms[0] == Start() && ms[|vs|].s == s && Consistent(ms[|vs|]) && Calm(ms[|vs|])
  }

  ghost predicate Reached(s: System) { exists ms, vs :: Leads(ms, vs, s) }

  lemma Acting(s: System, a: Action)
    requires Reached(s) && Valid(s) && Enabled(s, a) && !a.Sleep?
    ensures Reached(Next(s, a))
  {
    var ms, vs :| Leads(ms, vs, s);
    EnabledPossible(ms[|vs|], a);
    DoKeeps(ms[|vs|], a);
    StaysCalm(ms[|vs|], a);
    var ms', vs' := MoveOn(ms, vs, Do(a));
    assert Leads(ms', vs', Next(s, a));
  }

  lemma StaysCalm(m: Machine, a: Action)
    requires Possible(m, Do(a)) && Calm(m)
    ensures Calm(After(m, Do(a)))
  {
    forall p: Pid ensures PhaseOf(After(m, Do(a)), p) == Outside {
      assert PhaseOf(m, p) == Outside;
    }
  }

  lemma StartReached()
    ensures Reached(Boot([], [0]))
  {
    StartConsistent();
    assert Leads([Start()], [], Boot([], [0]));
  }

  /** Process 1 of the table has been forked and runs. */
  lemma ReachChild() returns (s: System)
    ensures Reached(s) && Looks(s.t, 0, 1, (1, 3), ([1, 0], 2), ([], 0)) && NobodyWaits(s)
  {
    SharedReached();
    EnterSteps();
    Acting(SharedOut(), EnterChild(1));
    EnteredLooks();
    YieldedLooks(Entered());
    Acting(Entered(), Yield);
    s := Next(Entered(), Yield);
  }

  lemma SharedReached()
    ensures Reached(SharedOut())
  {
    StartReached();
    ForkSteps();
    Acting(Boot([], [0]), Fork);
    Acting(Forked(), ShareSlice(1));
  }

  // ---------- after the state has been set ----------

  /** A tick just after the state is set: process 1 of the table is lost, in no list at all. */
  lemma SleeperLost(n: nat) returns (ms: seq<Machine>, vs: seq<Move>)
    ensures IsMoveRun(ms, vs) && ms[0] == Start()
    ensures |vs| >= 3 && vs[|vs| - 3..] == [Leave(n), Mark, Do(Tick)] && Lost(ms[|vs|].s, 1)
  {
    var s := ReachChild();
    ms, vs :| Leads(ms, vs, s);
    assert PhaseOf(ms[|vs|], 1) == Outside;
    ms, vs := Leaving(ms, vs, n);
    ms, vs := Marking(ms, vs);
    ms, vs := LoseNow(ms, vs);
  }

  lemma LoseNow(ms: seq<Machine>, vs: seq<Move>) returns (ms': seq<Machine>, vs': seq<Move>)
    requires IsMoveRun(ms, vs) && Consistent(ms[|vs|]) && Here(ms[|vs|]).Marked?
    ensures IsMoveRun(ms', vs') && vs' == vs + [Do(Tick)] && ms'[0] == ms[0]
    ensures Lost(ms'[|vs'|].s, ms[|vs|].s.t.cur)
  {
    TickAlwaysPossible(ms[|vs|]);
    TickHarms(ms[|vs|]);
    ms', vs' := MoveOn(ms, vs, Do(Tick));
  }

  // ---------- after the caller has left its run queue ----------

  lemma OutLooks(t: Tasks)
    requires Looks(t, 0, 1, (1, 3), ([1, 0], 2), ([], 0))
    ensures Looks(OutOf(t), 0, 1, (1, 3), ([0], 1), ([], 0))
  {
    assert Without([1, 0], 1) == [0];
    forall q, l | 0 <= q < 2 && 0 < l < LEVELS ensures List(OutOf(t), q, l) == [] {
      assert List(t, q, l) == [];
    }
  }

  // The tick lists process 1 again, and the count is one short.
  lemma TickLooks(t: Tasks)
    requires Looks(t, 0, 1, (1, 3), ([0], 1), ([], 0))
    ensures Looks(Schedule(t), 0, 0, (1, 2), ([0, 1], 1), ([], 0))
  {
    var t' := Schedule(t);
    assert Without([0], 1) == [0];
    assert t'.queues[0].levels[0] == [0, 1];
    forall q, l | 0 <= q < 2 && 0 < l < LEVELS ensures List(t', q, l) == [] {
      assert List(t, q, l) == [];
    }
  }

  lemma FirstYieldLooks(t: Tasks)
    requires Looks(t, 0, 0, (1, 2), ([0, 1], 1), ([], 0))
    ensures Looks(Schedule(t), 1, 0, (1, 2), ([1], 0), ([0], 1))
  {
    var t' := Schedule(t);
    assert Without([0, 1], 0) == [1];
    assert t'.queues[0].levels[0] == [1] && t'.queues[1].levels[0] == [0];
    forall q, l | 0 <= q < 2 && 0 < l < LEVELS ensures List(t', q, l) == [] {
      assert List(t, q, l) == [];
    }
  }

  lemma SecondYieldLooks(t: Tasks)
    requires Looks(t, 1, 0, (1, 2), ([1], 0), ([0], 1))
    ensures Looks(Schedule(t), 0, 1, (1, 2), ([1, 0], 1), ([], 0))
  {
    var t' := Schedule(t);
    assert Without([0], 0) == [];
    assert t'.queues[0].levels[0] == [1, 0] && t'.queues[1].levels[0] == [];
    forall q, l | 0 <= q < 2 && 0 < l < LEVELS ensures List(t', q, l) == [] {
      assert List(t, q, l) == [];
    }
  }

  // Process 1 has just left its run queue.
  ghost predicate HalfOut(m: Machine) {
    && Consistent(m) && Here(m).Left? && Here(m).timeout == 1 && m.s.t.cur == 1 && NobodyWaits(m.s)
    && Looks(Here(m).before.t, 0, 1, (1, 3), ([1, 0], 2), ([], 0)) && PhaseOf(m, 0) == Outside
  }

  // Nothing is due, and the stale links of process 1 lead past process 0.
  lemma RelistNow(m: Machine)
    requires HalfOut(m)
    ensures Possible(m, Do(Tick))
    ensures var m' := After(m, Do(Tick));
      Looks(m'.s.t, 0, 0, (1, 2), ([0, 1], 1), ([], 0)) && NobodyWaits(m'.s) && m'.at == m.at
  {
    var b := Here(m).before;
    OutLooks(b.t);
    TickLooks(m.s.t);
    TickAlwaysPossible(m);
    assert DueNow(m.s.t, m.s.z) == [];
    assert List(b.t, 0, 0) == [1, 0] && !PointsToHead(b);
    assert Ticked(m).t == m.s.t;
  }

  lemma YieldNow(m: Machine, a: nat)
    requires Shape(m.s.t) && m.s.t.cur == 0 && NobodyWaits(m.s) && PhaseOf(m, 0) == Outside
    requires var pr := m.s.t.procs[0];
      pr.rest_time > 0 && pr.nice == 0 && pr.sched_queue == m.s.t.active == a && 0 in List(m.s.t, a, 0)
    ensures Possible(m, Do(Yield)) && After(m, Do(Yield)) == Machine(Scheduled(m.s), m.at[0 := Outside])
  {
  }

  // Process 1 blocks while it is listed.
  lemma MarkArmJoin(m: Machine)
    requires Shape(m.s.t) && |m.s.z.wheel| == WHEEL_SIZE && m.s.t.cur == 1 && 1 in List(m.s.t, 0, 0)
    requires Here(m).Left? && Here(m).timeout == 1
    ensures Possible(m, Mark)
    ensures var m1 := After(m, Mark); Possible(m1, Arm) && Possible(After(m1, Arm), Move.Join)
    ensures AsleepAndListed(After(After(After(m, Mark), Arm), Move.Join).s)
  {
    var m3 := After(After(After(m, Mark), Arm), Move.Join);
    assert List(m3.s.t, 0, 0) == List(m.s.t, 0, 0);
  }

  // Process 1 of the table is in the bucket of its deadline and in a run queue.
  ghost predicate AsleepAndListed(s: System) {
    && Shape(s.t) && Waits(s.t, 1) && 1 in List(s.t, 0, 0)
    && |s.z.wheel| == WHEEL_SIZE && 1 in s.z.wheel[Hash(s.t.procs[1].wakeup_jiffies)]
  }

  // Process 1 is listed again, although it is half-way through sys_tsleep(1).
  ghost predicate Relisted(m: Machine) {
    && Looks(m.s.t, 0, 0, (1, 2), ([0, 1], 1), ([], 0)) && NobodyWaits(m.s)
    && PhaseOf(m, 0) == Outside && PhaseOf(m, 1).Left? && PhaseOf(m, 1).timeout == 1
  }

  // And it runs again.
  ghost predicate BackAgain(m: Machine) {
    && Looks(m.s.t, 0, 1, (1, 2), ([1, 0], 1), ([], 0)) && NobodyWaits(m.s)
    && PhaseOf(m, 1).Left? && PhaseOf(m, 1).timeout == 1
  }

  // Process 0 has had its last tick in queue 0, and the queues have swapped.
  ghost predicate Swapped(m: Machine) {
    && Looks(m.s.t, 1, 0, (1, 2), ([1], 0), ([0], 1)) && NobodyWaits(m.s)
    && PhaseOf(m, 0) == Outside && PhaseOf(m, 1).Left? && PhaseOf(m, 1).timeout == 1
  }

  lemma FirstYield(m: Machine)
    requires Relisted(m)
    ensures Possible(m, Do(Yield)) && Swapped(After(m, Do(Yield)))
  {
    FirstYieldLooks(m.s.t);
    YieldNow(m, 0);
  }

  lemma SecondYield(m: Machine)
    requires Swapped(m)
    ensures Possible(m, Do(Yield)) && BackAgain(After(m, Do(Yield)))
  {
    SecondYieldLooks(m.s.t);
    YieldNow(m, 1);
  }

  lemma RelistedRun() returns (ms: seq<Machine>, vs: seq<Move>)
    ensures IsMoveRun(ms, vs) && ms[0] == Start() && Relisted(ms[|vs|])
    ensures |vs| >= 2 && vs[|vs| - 2..] == [Leave(1), Do(Tick)]
  {
    ms, vs := HalfOutRun();
    RelistNow(ms[|vs|]);
    ms, vs := MoveOn(ms, vs, Do(Tick));
  }

  lemma HalfOutRun() returns (ms: seq<Machine>, vs: seq<Move>)
    ensures IsMoveRun(ms, vs) && ms[0] == Start() && HalfOut(ms[|vs|])
    ensures |vs| >= 1 && vs[|vs| - 1] == Leave(1)
  {
    var s := ReachChild();
    ms, vs :| Leads(ms, vs, s);
    assert PhaseOf(ms[|vs|], 1) == Outside && PhaseOf(ms[|vs|], 0) == Outside;
    ms, vs := Leaving(ms, vs, 1);
  }

  /** A tick just after the caller has left its run queue: it is listed again, and later sleeps there. */
  lemma SleeperListed() returns (ms: seq<Machine>, vs: seq<Move>)
    ensures IsMoveRun(ms, vs) && ms[0] == Start() && |vs| >= 7
    ensures vs[|vs| - 7..] == [Leave(1), Do(Tick), Do(Yield), Do(Yield), Mark, Arm, Move.Join]
    ensures AsleepAndListed(ms[|vs|].s)
  {
    ms, vs := BackRun();
    ms, vs := RestOfCall(ms, vs);
  }

  lemma BackRun() returns (ms: seq<Machine>, vs: seq<Move>)
    ensures IsMoveRun(ms, vs) && ms[0] == Start() && BackAgain(ms[|vs|])
    ensures |vs| >= 4 && vs[|vs| - 4..] == [Leave(1), Do(Tick), Do(Yield), Do(Yield)]
  {
    ms, vs := RelistedRun();
    FirstYield(ms[|vs|]);
    ms, vs := MoveOn(ms, vs, Do(Yield));
    SecondYield(ms[|vs|]);
    ms, vs := MoveOn(ms, vs, Do(Yield));
  }

  lemma RestOfCall(ms: seq<Machine>, vs: seq<Move>) returns (ms': seq<Machine>, vs': seq<Move>)
    requires IsMoveRun(ms, vs) && BackAgain(ms[|vs|])
    ensures IsMoveRun(ms', vs') && ms'[0] == ms[0] && vs' == vs + [Mark, Arm, Move.Join]
    ensures AsleepAndListed(ms'[|vs'|].s)
  {
    MarkArmJoin(ms[|vs|]);
    ms', vs' := MoveOn(ms, vs, Mark);
    ms', vs' := MoveOn(ms', vs', Arm);
    ms', vs' := MoveOn(ms', vs', Move.Join);
  }
}
