/** ksemaphore_down with a timeout: what becomes of a waiter whose time runs out first. */
module TimedWaits {
  import opened Scheduler
  import opened TimeWheel
  import opened Semaphores
  import opened KernelSteps

  // What ticks rely on, and keep.
  ghost predicate Ticking(s: System) { TasksOk(s.t) && SleepersOk(s.t, s.z) }

  ghost function AfterTick(s: System): System
    requires Ticking(s)
  {
    TickWakes(s);
    Scheduled(Waken(s))
  }

  ghost function AfterTicks(s: System, n: nat): (r: System)
    requires Ticking(s)
    ensures Ticking(r)
    decreases n
  {
    if n == 0 then s else TickKeeps(s); AfterTicks(AfterTick(s), n - 1)
  }

  lemma TickWakes(s: System)
    requires Ticking(s)
    ensures forall p | p in DueNow(s.t, s.z) :: p < |s.t.procs|
    ensures Ticking(Waken(s)) && Woken(s.t, Waken(s).t, DueNow(s.t, s.z))
  {
    TurnKeeps(s.t, s.z);
    DueIsDeadline(s.t, s.z);
    EnqueueAllKeeps(s.t, DueNow(s.t, s.z));
    var t' := Waken(s).t;
    forall p: Pid | Runnable(s.t, p) ensures Runnable(t', p) && t'.procs[p] == s.t.procs[p] {
      assert !Waits(s.t, p);
    }
  }

  lemma TickKeeps(s: System)
    requires Ticking(s)
    ensures Ticking(AfterTick(s))
  {
    TickWakes(s);
    var l := ScheduleKeeps(Waken(s).t);
    ScheduleQuiet(Waken(s).t);
    SleepersUnaffected(Waken(s).t, AfterTick(s).t, Waken(s).z);
  }

  // p waits for semaphore i, in the wheel until d.
  ghost predicate WaitsUntil(s: System, i: nat, p: Pid, d: nat) {
    && i < |s.sems| && p in s.sems[i].waiters && Waits(s.t, p) && p !in s.z.wait_list
    && s.t.procs[p].demand > 0 && s.t.procs[p].wakeup_jiffies == d
  }

  // p runs again with its demand not met, and still stands in line.
  ghost predicate TimedOut(s: System, i: nat, p: Pid) {
    i < |s.sems| && p in s.sems[i].waiters && Runnable(s.t, p) && s.t.procs[p].demand > 0
  }

  // What n ticks make of a waiter whose deadline is d.
  ghost predicate WaiterAfter(s: System, r: System, i: nat, p: Pid, d: nat, n: nat) {
    && r.sems == s.sems && r.z.jiffies == s.z.jiffies + n
    && if n > 0 && s.z.jiffies + n == d then TimedOut(r, i, p) else WaitsUntil(r, i, p, d)
  }

  lemma TickOfWaiter(s: System, i: nat, p: Pid, d: nat)
    requires Ticking(s) && WaitsUntil(s, i, p, d)
    ensures var s' := AfterTick(s);
      Ticking(s') && WaiterAfter(s, s', i, p, d, 1)
  {
    TickKeeps(s);
    TickWakes(s);
    DueIsDeadline(s.t, s.z);
    ScheduleQuiet(Waken(s).t);
    assert Fed(s.t, p);
  }

  lemma JoinTimedWaits(s: System, i: nat, demand: nat, n: nat)
    requires Valid(s) && Runnable(s.t, s.t.cur) && i < |s.sems| && demand > 0 && n > 0 && s.t.cur != PROCESS1
    ensures var s1, p := JoinTimed(s, i, demand, n), s.t.cur;
      && Ticking(s1) && WaitsUntil(s1, i, p, s.z.jiffies + n) && s1.t.cur == p
      && s1.sems[i].waiters == s.sems[i].waiters + [p]
  {
    var s1, p := JoinTimed(s, i, demand, n), s.t.cur;
    assert p in s.z.wait_list ==> Waits(s.t, p);
    DemandKeepsQueues(s.t, p, demand);
    BlockKeeps(SetDemand(s.t, p, demand));
    AlarmKeepsQueues(Block(SetDemand(s.t, p, demand)), p, n + s.z.jiffies);
    SleepKeeps(s.t, s1.t, s.z, p, n + s.z.jiffies);
  }

  // ksemaphore_down of a caller that waits with a timeout.
  ghost function DownTimed(s: System, i: nat, demand: nat, n: nat): System
    requires Valid(s) && Runnable(s.t, s.t.cur) && i < |s.sems| && demand > 0 && n > 0 && s.t.cur != PROCESS1
  {
    JoinTimedWaits(s, i, demand, n);
    Scheduled(JoinTimed(s, i, demand, n))
  }

  // The waiter's call of schedule.
  lemma GivesUpProcessor(s: System, i: nat, p: Pid, d: nat)
    requires Ticking(s) && WaitsUntil(s, i, p, d)
    ensures Ticking(Scheduled(s)) && WaitsUntil(Scheduled(s), i, p, d)
  {
    var l := ScheduleKeeps(s.t);
    ScheduleQuiet(s.t);
    SleepersUnaffected(s.t, Schedule(s.t), s.z);
  }

  lemma {:induction false} TicksOfWaiter(s: System, i: nat, p: Pid, d: nat, n: nat)
    requires Ticking(s) && WaitsUntil(s, i, p, d) && s.z.jiffies + n <= d
    ensures WaiterAfter(s, AfterTicks(s, n), i, p, d, n)
    decreases n
  {
    if n > 0 {
      TickOfWaiter(s, i, p, d);
      var s1 := AfterTick(s);
      if n > 1 {
        TicksOfWaiter(s1, i, p, d, n - 1);
        WaiterOn(s, s1, AfterTicks(s1, n - 1), i, p, d, n);
      }
    }
  }

  lemma WaiterOn(s: System, s1: System, r: System, i: nat, p: Pid, d: nat, n: nat)
    requires n > 1 && WaiterAfter(s, s1, i, p, d, 1) && WaiterAfter(s1, r, i, p, d, n - 1)
    ensures WaiterAfter(s, r, i, p, d, n)
  {
  }

  // The assertion of kwakeup would fail in the first turn of the next ksemaphore_up that can serve
  // the head of the line: it is not waiting.
  ghost predicate UpFails(s: System, i: nat, num: nat)
    requires i < |s.sems|
  {
    CanGrant(Raised(s, i, num), i) && !Waits(s.t, s.sems[i].waiters[0])
  }

  /** A waiter that is granted nothing in time runs again at its deadline with its demand not met, so
      that ksemaphore_down fails as it should; but it still stands in the semaphore's line, and if it is
      the first there, every ksemaphore_up large enough to serve it runs into an assertion. */
  lemma TimedOutStaysInLine(s: System, i: nat, demand: nat, n: nat)
    requires Valid(s) && Runnable(s.t, s.t.cur) && s.t.cur != PROCESS1
    requires i < |s.sems| && demand > 0 && n > 0 && !Immediate(s, i, demand)
    ensures Ticking(DownTimed(s, i, demand, n))
    ensures var r := AfterTicks(DownTimed(s, i, demand, n), n);
      && TimedOut(r, i, s.t.cur) && r.sems[i].waiters == s.sems[i].waiters + [s.t.cur]
      && (s.sems[i].waiters == [] ==>
          forall num | r.t.procs[s.t.cur].demand <= r.sems[i].surplus + num :: UpFails(r, i, num))
  {
    var s1, d := JoinTimed(s, i, demand, n), s.z.jiffies + n;
    JoinTimedWaits(s, i, demand, n);
    GivesUpProcessor(s1, i, s.t.cur, d);
    TicksOfWaiter(Scheduled(s1), i, s.t.cur, d, n);
  }
}
