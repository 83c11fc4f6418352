/** What holds over whole runs of the kernel: turns, deadlines, grants. */
module KernelRuns {
  import opened Lists
  import opened Scheduler
  import opened Epochs
  import opened TimeWheel
  import opened Semaphores
  import opened KernelSteps

  ghost predicate Step(s: System, a: Action, s': System) {
    Valid(s) && Enabled(s, a) && s' == Next(s, a)
  }

  /** ss are the states of a run from a valid one, acts the steps between them. */
  ghost predicate IsRun(ss: seq<System>, acts: seq<Action>) {
    |ss| == |acts| + 1 && (acts == [] ==> Valid(ss[0])) && forall k: nat | k < |acts| :: StepNo(ss, acts, k)
  }

  ghost predicate StepNo(ss: seq<System>, acts: seq<Action>, k: nat)
    requires |ss| == |acts| + 1 && k < |acts|
  {
    Step(ss[k], acts[k], ss[k + 1])
  }

  lemma RunStaysValid(ss: seq<System>, acts: seq<Action>, n: nat)
    requires IsRun(ss, acts) && n <= |acts|
    ensures Valid(ss[n]) && AllFrames(ss[n]) == AllFrames(ss[0])
  {
    if n > 0 {
      RunStaysValid(ss, acts, n - 1);
      StepAt(ss, acts, n - 1);
      StepKeeps(ss[n - 1], acts[n - 1], ss[n]);
    } else if acts != [] {
      StepAt(ss, acts, 0);
    }
  }

  lemma RunShape(ss: seq<System>, acts: seq<Action>, n: nat)
    requires IsRun(ss, acts) && n <= |acts|
    ensures Shape(ss[n].t)
  {
    RunStaysValid(ss, acts, n);
  }

  lemma StepAt(ss: seq<System>, acts: seq<Action>, k: nat)
    requires IsRun(ss, acts) && k < |acts|
    ensures Step(ss[k], acts[k], ss[k + 1])
  {
    assert StepNo(ss, acts, k);
  }

  lemma StepKeeps(s: System, a: Action, s': System)
    requires Step(s, a, s')
    ensures Valid(s') && AllFrames(s') == AllFrames(s)
  {
    NextKeeps(s, a);
  }

  lemma RunExtends(ss: seq<System>, acts: seq<Action>, a: Action)
    requires |ss| == |acts| + 1 && Valid(ss[|acts|]) && Enabled(ss[|acts|], a)
    requires acts == [] || IsRun(ss, acts)
    ensures IsRun(ss + [Next(ss[|acts|], a)], acts + [a])
  {
    var ss', acts' := ss + [Next(ss[|acts|], a)], acts + [a];
    forall k: nat | k < |acts'| ensures StepNo(ss', acts', k) {
      if k < |acts| {
        assert StepNo(ss, acts, k);
      }
    }
  }

  // ---------- turns ----------

  predicate Forks(a: Action) { a.Fork? || a.ShareSlice? || a.EnterChild? || a.DropChild? }

  // Calls of schedule in a step.
  ghost function Calls(s: System, a: Action): nat {
    if Reschedules(s, a) then 1 else 0
  }

  lemma DemandFree(t: Tasks, p: Pid, d: nat)
    requires p < |t.procs|
    ensures Potential(SetDemand(t, p, d)) == Potential(t)
  {
    WeightChanged(t, SetDemand(t, p, d), p, 0);
  }

  lemma AlarmFree(t: Tasks, p: Pid, d: nat)
    requires p < |t.procs|
    ensures Potential(WithAlarm(t, p, d)) == Potential(t)
  {
    WeightChanged(t, WithAlarm(t, p, d), p, 0);
  }

  lemma {:induction false} GrantsFree(s: System, i: nat)
    requires Base(s) && i < |s.sems|
    ensures Potential(Grants(s, i).t) == Potential(s.t) && Base(Grants(s, i))
    decreases |s.sems[i].waiters|
  {
    if CanGrant(s, i) {
      var p := s.sems[i].waiters[0];
      GrantWakes(s, i);
      GrantKeeps(s, i);
      EnqueueFree(s.t, p);
      DemandFree(Enqueue(s.t, p), p, 0);
      GrantsFree(Grant(s, i), i);
    }
  }

  // Steps on a semaphore without blocking.
  lemma UpFree(s: System, i: nat, num: nat)
    requires i < |s.sems| && Base(Raised(s, i, num))
    ensures var t, t1 := s.t, Up(s, i, num).t;
      && Potential(t1) == Potential(t) && t1.active == t.active && t1.cur == t.cur
      && |t1.procs| == |t.procs| && TasksOk(t1)
  {
    GrantsFree(Raised(s, i, num), i);
    GrantsFrame(Raised(s, i, num), i);
  }

  // Before it calls schedule an action keeps the queues, the current process and, but for forks,
  // the total.
  lemma ActedCosts(s: System, a: Action)
    requires Valid(s) && Enabled(s, a)
    ensures var t, t1 := s.t, Acted(s, a).t;
      && t1.cur == t.cur && t1.active == t.active && |t1.procs| >= |t.procs|
      && (!Forks(a) ==> |t1.procs| == |t.procs| && Potential(t1) == Potential(t))
  {
    match a
    case Tick => WakenKeeps(s);
    case Sleep(timeout) =>
      PutToSleepKeeps(s, timeout);
      BlockFree(s.t);
      AlarmFree(Block(s.t), s.t.cur, timeout + s.z.jiffies);
    case SemUp(i, num) => RaisedKeeps(s, i, num); UpFree(s, i, num);
    case SemDown(i, d, nowait) => if !nowait && !Immediate(s, i, d) { JoinFree(s, i, d); }
    case GetFrame => if Immediate(s, FRAMES, 1) { GetNowKeeps(s); } else { JoinFree(s, FRAMES, 1); }
    case TakeFrame => TakeUpKeeps(s);
    case FreeFrame(f) => GiveBackBase(s, f); UpFree(Push(s, f), FRAMES, 1);
    case ShareSlice(c) => SharedKeeps(s, c);
    case EnterChild(c) => EnteredKeeps(s, c);
    case _ =>
  }

  lemma JoinFree(s: System, i: nat, d: nat)
    requires Valid(s) && Runnable(s.t, s.t.cur) && i < |s.sems| && d > 0 && !Immediate(s, i, d)
    requires s.t.cur != PROCESS1 && s.t.cur !in s.granted && (i == FRAMES ==> d == 1)
    ensures var t1 := Join(s, i, d).t; Potential(t1) == Potential(s.t) && Waits(t1, t1.cur)
  {
    JoinKeeps(s, i, d);
    DemandFree(s.t, s.t.cur, d);
    DemandKeepsQueues(s.t, s.t.cur, d);
    BlockFree(SetDemand(s.t, s.t.cur, d));
  }

  /** With no fork, a step that does not swap the queues uses one tick for each call of schedule;
      sleeping, waking and waiting cost nothing. */
  lemma StepCosts(s: System, a: Action)
    requires Valid(s) && Enabled(s, a) && !Forks(a) && Next(s, a).t.active == s.t.active
    ensures Potential(Next(s, a).t) + Calls(s, a) == Potential(s.t)
  {
    ActedKeeps(s, a);
    ActedCosts(s, a);
    if Reschedules(s, a) {
      ScheduleCosts(Acted(s, a).t);
    }
  }

  // A step without a call of schedule cannot swap.
  lemma StepSwaps(s: System, a: Action)
    requires Valid(s) && Enabled(s, a)
    ensures Calls(s, a) == 0 ==> Next(s, a).t.active == s.t.active
    ensures !Forks(a) ==> |Next(s, a).t.procs| == |s.t.procs|
  {
    ActedKeeps(s, a);
    ActedCosts(s, a);
  }

  // A grant to somebody else, and everything else a step does, leaves a queued process alone.
  lemma {:induction false} GrantsSpare(s: System, i: nat, p: Pid)
    requires Base(s) && i < |s.sems| && Runnable(s.t, p)
    ensures p < |Grants(s, i).t.procs| && Runnable(Grants(s, i).t, p) && Grants(s, i).t.procs[p] == s.t.procs[p]
    decreases |s.sems[i].waiters|
  {
    if CanGrant(s, i) {
      GrantWakes(s, i);
      GrantKeeps(s, i);
      GrantsSpare(Grant(s, i), i, p);
    }
  }

  // p is runnable in s and is the same in s'.
  ghost predicate Spared(s: System, s': System, p: Pid) {
    Runnable(s.t, p) && Runnable(s'.t, p) && s'.t.procs[p] == s.t.procs[p]
  }

  lemma ActedSpares(s: System, a: Action, p: Pid)
    requires Valid(s) && Enabled(s, a) && Runnable(s.t, p) && p != s.t.cur
    ensures Spared(s, Acted(s, a), p)
  {
    match a
    case Tick =>
      WakenKeeps(s);
      DueIsDeadline(s.t, s.z);
      assert !Waits(s.t, p);
    case SemUp(i, num) => RaisedKeeps(s, i, num); GrantsSpare(Raised(s, i, num), i, p);
    case FreeFrame(f) => GiveBackBase(s, f); GrantsSpare(Raised(Push(s, f), FRAMES, 1), FRAMES, p);
    case _ =>
  }

  lemma StepSpares(s: System, a: Action, p: Pid)
    requires Valid(s) && Enabled(s, a) && Runnable(s.t, p) && p != s.t.cur
    ensures Spared(s, Next(s, a), p)
  {
    ActedKeeps(s, a);
    ActedCosts(s, a);
    ActedSpares(s, a, p);
  }

  /** While a process of the active queue has not had its turn, no step swaps the queues. */
  lemma StepHoldsSwap(s: System, a: Action, p: Pid)
    requires Valid(s) && Enabled(s, a) && Ready(s.t, p)
    ensures Next(s, a).t.active == s.t.active
  {
    ActedKeeps(s, a);
    ActedCosts(s, a);
    ActedSpares(s, a, p);
    if Reschedules(s, a) {
      ReadyHoldsSwap(Acted(s, a).t, p);
    }
  }

  ghost function TotalCalls(ss: seq<System>, acts: seq<Action>, n: nat): nat
    requires IsRun(ss, acts) && n <= |acts|
  {
    if n == 0 then 0
    else TotalCalls(ss, acts, n - 1) + Calls(ss[n - 1], acts[n - 1])
  }

  ghost predicate NoFork(acts: seq<Action>) {
    forall k | 0 <= k < |acts| :: !Forks(acts[k])
  }

  /** Without forks, as long as the queues do not swap, every call of schedule is paid for. */
  lemma {:induction false} EpochBound(ss: seq<System>, acts: seq<Action>, n: nat)
    requires IsRun(ss, acts) && n <= |acts| && NoFork(acts)
    requires forall k | 0 <= k <= n :: ss[k].t.active == ss[0].t.active
    ensures TotalCalls(ss, acts, n) + Potential(ss[n].t) == Potential(ss[0].t) <= LEVELS * |ss[0].t.procs|
  {
    RunShape(ss, acts, 0);
    PotentialBound(ss[0].t);
    if n > 0 {
      EpochBound(ss, acts, n - 1);
      CostAt(ss, acts, n - 1);
    }
  }

  lemma CostAt(ss: seq<System>, acts: seq<Action>, k: nat)
    requires IsRun(ss, acts) && k < |acts| && NoFork(acts) && ss[k + 1].t.active == ss[k].t.active
    ensures Potential(ss[k + 1].t) + Calls(ss[k], acts[k]) == Potential(ss[k].t)
  {
    StepAt(ss, acts, k);
    StepCosts(ss[k], acts[k]);
  }

  lemma {:induction false} ActiveSomeRest(t: Tasks, k: nat)
    requires TasksOk(t) && k <= t.cur
    ensures WeightFrom(t, k) >= 1
    decreases t.cur - k
  {
    if k < t.cur {
      ActiveSomeRest(t, k + 1);
    } else {
      assert Fed(t, t.cur);
    }
  }

  // Turns left to others before p, which may have to sit out the rest of an epoch first.
  ghost predicate Waiting(ss: seq<System>, acts: seq<Action>, n: nat, p: Pid)
    requires IsRun(ss, acts) && n <= |acts|
  {
    var t, procs := ss[n].t, |ss[0].t.procs|;
    && |t.procs| == procs && Runnable(t, p)
    && (if t.procs[p].sched_queue == t.active then TotalCalls(ss, acts, n) + Potential(t) <= 2 * LEVELS * procs
        else TotalCalls(ss, acts, n) + Potential(t) <= LEVELS * procs)
  }

  lemma WaitingStep(ss: seq<System>, acts: seq<Action>, n: nat, p: Pid)
    requires IsRun(ss, acts) && n < |acts| && NoFork(acts) && Waiting(ss, acts, n, p) && p != ss[n].t.cur
    ensures Waiting(ss, acts, n + 1, p)
  {
    var s, a, s' := ss[n], acts[n], ss[n + 1];
    OneTurn(ss, acts, n, p);
    if s'.t.active == s.t.active {
      CostAt(ss, acts, n);
    }
  }

  // A step in which p is not current, and what it costs.
  lemma OneTurn(ss: seq<System>, acts: seq<Action>, n: nat, p: Pid)
    requires IsRun(ss, acts) && n < |acts| && NoFork(acts) && Runnable(ss[n].t, p) && p != ss[n].t.cur
    ensures var t, t' := ss[n].t, ss[n + 1].t;
      && |t'.procs| == |t.procs| && Runnable(t', p) && t'.procs[p] == t.procs[p] && t.active < 2 && t'.active < 2
      && t.procs[p].sched_queue < 2 && (t.procs[p].sched_queue == t.active ==> t'.active == t.active)
      && (t'.active != t.active ==>
            Calls(ss[n], acts[n]) == 1 && Potential(t) >= 1 && Potential(t') <= LEVELS * |t'.procs|)
  {
    var s, a := ss[n], acts[n];
    StepAt(ss, acts, n);
    StepSwaps(s, a);
    StepSpares(s, a, p);
    if s.t.procs[p].sched_queue == s.t.active {
      StepHoldsSwap(s, a, p);
    }
    ActiveSomeRest(s.t, 0);
    NextKeeps(s, a);
    PotentialBound(Next(s, a).t);
  }

  lemma {:induction false} WaitingAlong(ss: seq<System>, acts: seq<Action>, n: nat, p: Pid)
    requires IsRun(ss, acts) && n <= |acts| && NoFork(acts)
    requires Runnable(ss[0].t, p) && forall k | 0 <= k < n :: ss[k].t.cur != p
    ensures Waiting(ss, acts, n, p)
  {
    if n == 0 {
      RunShape(ss, acts, 0);
      PotentialBound(ss[0].t);
    } else {
      WaitingAlong(ss, acts, n - 1, p);
      WaitingStep(ss, acts, n - 1, p);
    }
  }

  /** Nobody starves: a runnable process is dispatched within 32 calls of schedule for each
      process there is, whatever the others do short of forking. */
  lemma NoStarvation(ss: seq<System>, acts: seq<Action>, n: nat, p: Pid)
    requires IsRun(ss, acts) && n <= |acts| && NoFork(acts) && Runnable(ss[0].t, p)
    requires TotalCalls(ss, acts, n) > 2 * LEVELS * |ss[0].t.procs|
    ensures exists k :: 0 <= k < n && ss[k].t.cur == p
  {
    if forall k | 0 <= k < n :: ss[k].t.cur != p {
      WaitingAlong(ss, acts, n, p);
      assert false;
    }
  }

  /** Within 16 calls for each process, the queues swap. */
  lemma EpochEnds(ss: seq<System>, acts: seq<Action>, n: nat)
    requires IsRun(ss, acts) && n <= |acts| && NoFork(acts)
    requires TotalCalls(ss, acts, n) > LEVELS * |ss[0].t.procs|
    ensures exists k :: 0 <= k <= n && ss[k].t.active != ss[0].t.active
  {
    if forall k | 0 <= k <= n :: ss[k].t.active == ss[0].t.active {
      EpochBound(ss, acts, n);
      assert false;
    }
  }

  /** And whoever was in the active queue has had its turn by the first swap. */
  lemma {:induction false} ServedBeforeSwap(ss: seq<System>, acts: seq<Action>, n: nat, p: Pid)
    requires IsRun(ss, acts) && n <= |acts| && Runnable(ss[0].t, p) && ss[0].t.procs[p].sched_queue == ss[0].t.active
    requires forall k | 0 <= k < n :: ss[k].t.cur != p
    ensures ss[n].t.active == ss[0].t.active && Runnable(ss[n].t, p) && ss[n].t.procs[p] == ss[0].t.procs[p]
  {
    if n > 0 {
      ServedBeforeSwap(ss, acts, n - 1, p);
      NotYetServed(ss, acts, n - 1, p);
    }
  }

  lemma NotYetServed(ss: seq<System>, acts: seq<Action>, k: nat, p: Pid)
    requires IsRun(ss, acts) && k < |acts| && Ready(ss[k].t, p)
    ensures ss[k + 1].t.active == ss[k].t.active && Runnable(ss[k + 1].t, p) && ss[k + 1].t.procs[p] == ss[k].t.procs[p]
  {
    StepAt(ss, acts, k);
    StepSpares(ss[k], acts[k], p);
    StepHoldsSwap(ss[k], acts[k], p);
  }

  // ---------- slices ----------

  /** In every state of every run, whoever is in the expire queue has one tick more than its level. */
  lemma WholeSlices(ss: seq<System>, acts: seq<Action>, n: nat, p: Pid)
    requires IsRun(ss, acts) && n <= |acts|
    requires Runnable(ss[n].t, p) && ss[n].t.procs[p].sched_queue != ss[n].t.active
    ensures ss[n].t.procs[p].rest_time == ss[n].t.procs[p].nice + 1
  {
    RunStaysValid(ss, acts, n);
    assert Fed(ss[n].t, p);
  }

  /** A sleeper wakes with what it had left, or with a whole slice if that was nothing. */
  lemma WakesWithSlice(s: System, p: Pid)
    requires Valid(s) && p in DueNow(s.t, s.z) && p != s.t.cur
    ensures p < |s.t.procs| && p < |Next(s, Tick).t.procs|
    ensures var r := s.t.procs[p].rest_time;
      Next(s, Tick).t.procs[p].rest_time == if r > 0 then r else s.t.procs[p].nice + 1
  {
    WakenKeeps(s);
  }

  lemma {:induction false} GrantsKeepLevel(s: System, i: nat, p: Pid)
    requires i < |s.sems| && Shape(s.t) && p < |s.t.procs|
    ensures p < |Grants(s, i).t.procs| && Grants(s, i).t.procs[p].nice == s.t.procs[p].nice
    decreases |s.sems[i].waiters|
  {
    if CanGrant(s, i) {
      GrantsKeepLevel(Grant(s, i), i, p);
    }
  }

  /** Nobody's level ever changes. */
  lemma StepKeepsLevel(s: System, a: Action, p: Pid)
    requires Valid(s) && Enabled(s, a) && p < |s.t.procs|
    ensures p < |Next(s, a).t.procs| && Next(s, a).t.procs[p].nice == s.t.procs[p].nice
  {
    ActedKeeps(s, a);
    ActedKeepsLevel(s, a, p);
    if Reschedules(s, a) { ScheduleKeepsLevel(Acted(s, a).t, p); }
  }

  lemma ScheduleKeepsLevel(t: Tasks, p: Pid)
    requires CanSchedule(t) && p < |t.procs|
    ensures p < |Schedule(t).procs| && Schedule(t).procs[p].nice == t.procs[p].nice
  {
  }

  lemma ActedKeepsLevel(s: System, a: Action, p: Pid)
    requires Valid(s) && Enabled(s, a) && p < |s.t.procs|
    ensures p < |Acted(s, a).t.procs| && Acted(s, a).t.procs[p].nice == s.t.procs[p].nice
  {
    match a
    case Tick => WakenKeeps(s);
    case SemUp(i, num) => GrantsKeepLevel(Raised(s, i, num), i, p);
    case FreeFrame(f) => GrantsKeepLevel(Raised(Push(s, f), FRAMES, 1), FRAMES, p);
    case _ =>
  }

  // ---------- deadlines ----------

  ghost predicate SleepsUntil(s: System, p: Pid, d: nat) {
    Waits(s.t, p) && p !in s.z.wait_list && s.t.procs[p].wakeup_jiffies == d
  }

  lemma {:induction false} GrantsSpareSleepers(s: System, i: nat, p: Pid, d: nat)
    requires Base(s) && i < |s.sems| && SleepsUntil(s, p, d)
    ensures SleepsUntil(Grants(s, i), p, d)
    decreases |s.sems[i].waiters|
  {
    if CanGrant(s, i) {
      GrantWakes(s, i);
      GrantKeeps(s, i);
      WithoutKeeps(s.z.wait_list, s.sems[i].waiters[0]);
      GrantsSpareSleepers(Grant(s, i), i, p, d);
    }
  }

  lemma ActedAndSleeper(s: System, a: Action, p: Pid, d: nat)
    requires Valid(s) && Enabled(s, a) && SleepsUntil(s, p, d)
    ensures if a.Tick? && d == s.z.jiffies + 1 then Runnable(Acted(s, a).t, p) else SleepsUntil(Acted(s, a), p, d)
    ensures Acted(s, a).z.jiffies == s.z.jiffies + if a.Tick? then 1 else 0
  {
    match a
    case Tick =>
      WakenKeeps(s);
      DueIsDeadline(s.t, s.z);
      assert Fed(s.t, p);
    case SemUp(i, num) => RaisedKeeps(s, i, num); UpAndSleeper(s, i, num, p, d);
    case FreeFrame(f) => GiveBackBase(s, f); UpAndSleeper(Push(s, f), FRAMES, 1, p, d);
    case GetFrame => if Immediate(s, FRAMES, 1) { GetNowKeeps(s); }
    case TakeFrame => TakeUpKeeps(s);
    case EnterChild(c) => assert Fed(s.t, c);
    case _ =>
  }

  lemma UpAndSleeper(s: System, i: nat, num: nat, p: Pid, d: nat)
    requires i < |s.sems| && Base(Raised(s, i, num)) && SleepsUntil(s, p, d)
    ensures SleepsUntil(Up(s, i, num), p, d) && Up(s, i, num).z.jiffies == s.z.jiffies
  {
    GrantsSpareSleepers(Raised(s, i, num), i, p, d);
    GrantsFrame(Raised(s, i, num), i);
  }

  /** A step wakes a sleeper if and only if it is the tick of its deadline. */
  lemma StepAndSleeper(s: System, a: Action, p: Pid, d: nat)
    requires Valid(s) && Enabled(s, a) && SleepsUntil(s, p, d)
    ensures if a.Tick? && d == s.z.jiffies + 1 then Runnable(Next(s, a).t, p) else SleepsUntil(Next(s, a), p, d)
    ensures Next(s, a).z.jiffies == s.z.jiffies + if a.Tick? then 1 else 0
  {
    ActedKeeps(s, a);
    ActedAndSleeper(s, a, p, d);
    if Reschedules(s, a) {
      ScheduleQuiet(Acted(s, a).t);
    }
  }

  function Ticks(acts: seq<Action>, n: nat): nat
    requires n <= |acts|
  {
    if n == 0 then 0 else Ticks(acts, n - 1) + if acts[n - 1].Tick? then 1 else 0
  }

  /** A sleeper with deadline d sleeps on through every stretch of a run with fewer ticks than are
      missing, and is runnable right after the tick that brings the clock to d. */
  lemma {:induction false} WakesOnTime(ss: seq<System>, acts: seq<Action>, k: nat, n: nat, p: Pid, d: nat)
    requires IsRun(ss, acts) && k <= n <= |acts| && SleepsUntil(ss[k], p, d)
    requires ss[k].z.jiffies + Ticks(acts, n) - Ticks(acts, k) < d
    ensures SleepsUntil(ss[n], p, d) && ss[n].z.jiffies == ss[k].z.jiffies + Ticks(acts, n) - Ticks(acts, k)
    ensures n < |acts| && acts[n].Tick? && ss[n].z.jiffies + 1 == d ==> Runnable(ss[n + 1].t, p)
    decreases n
  {
    if n > k {
      WakesOnTime(ss, acts, k, n - 1, p, d);
      SleeperAt(ss, acts, n - 1, p, d);
    }
    if n < |acts| {
      SleeperAt(ss, acts, n, p, d);
    }
  }

  lemma SleeperAt(ss: seq<System>, acts: seq<Action>, k: nat, p: Pid, d: nat)
    requires IsRun(ss, acts) && k < |acts| && SleepsUntil(ss[k], p, d)
    ensures ss[k + 1].z.jiffies == ss[k].z.jiffies + if acts[k].Tick? then 1 else 0
    ensures if acts[k].Tick? && d == ss[k].z.jiffies + 1 then Runnable(ss[k + 1].t, p) else SleepsUntil(ss[k + 1], p, d)
  {
    StepAt(ss, acts, k);
    StepAndSleeper(ss[k], acts[k], p, d);
  }

  /** sys_tsleep puts its caller in the wheel, due that many ticks from now. */
  lemma SleepEntersWheel(s: System, timeout: nat)
    requires Valid(s) && Enabled(s, Sleep(timeout)) && timeout > 0
    ensures SleepsUntil(Next(s, Sleep(timeout)), s.t.cur, s.z.jiffies + timeout)
  {
    PutToSleepKeeps(s, timeout);
    assert s.t.cur in s.z.wait_list ==> Waits(s.t, s.t.cur);
  }

  /** Whoever calls sys_tsleep at step k sleeps through fewer ticks than it asked for and is
      runnable right after the last of them. */
  lemma SleepsForTicks(ss: seq<System>, acts: seq<Action>, k: nat, n: nat)
    requires IsRun(ss, acts) && k < n <= |acts| && acts[k].Sleep? && Ticks(acts, n) - Ticks(acts, k) < acts[k].timeout
    ensures SleepsUntil(ss[n], ss[k].t.cur, ss[k].z.jiffies + acts[k].timeout)
    ensures n < |acts| && Ticks(acts, n + 1) - Ticks(acts, k) == acts[k].timeout ==> Runnable(ss[n + 1].t, ss[k].t.cur)
  {
    var p, d := ss[k].t.cur, ss[k].z.jiffies + acts[k].timeout;
    TicksGrow(acts, k, n);
    StepAt(ss, acts, k);
    SleepEntersWheel(ss[k], acts[k].timeout);
    WakesOnTime(ss, acts, k + 1, n, p, d);
  }

  lemma {:induction false} TicksGrow(acts: seq<Action>, k: nat, n: nat)
    requires k <= n <= |acts|
    ensures Ticks(acts, k) <= Ticks(acts, n)
  {
    if n > k {
      TicksGrow(acts, k, n - 1);
    }
  }
}
