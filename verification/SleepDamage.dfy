/** What a tick inside sys_tsleep does, and that it is for good. */
module SleepDamage {
  import opened Lists
  import opened Scheduler
  import opened TimeWheel
  import opened Semaphores
  import opened KernelSteps
  import opened SleepWindow
  import opened Bystanders

  /** p is in a run queue although it is blocked, or about to block and out of the count. */
  predicate Misplaced(m: Machine, p: Pid) {
    && TwoQueues(m.s.t) && p < |m.s.t.procs| && !Unlisted(m.s.t, p)
    && (Waits(m.s.t, p) || PhaseOf(m, p).Left?)
  }

  predicate Nowhere(s: System, p: Pid) {
    && TwoQueues(s.t) && p < |s.t.procs| && p !in s.t.unborn && p != PROCESS1 && Unlisted(s.t, p)
    && (forall h | 0 <= h < |s.z.wheel| :: p !in s.z.wheel[h]) && p !in s.z.wait_list
    && (forall i | 0 <= i < |s.sems| :: p !in s.sems[i].waiters)
  }

  /** p is in no list at all, so that nothing will ever wake it or let it run. */
  predicate Lost(s: System, p: Pid) { Nowhere(s, p) && p != s.t.cur }

  predicate Harmed(m: Machine, p: Pid) { Misplaced(m, p) || Lost(m.s, p) }

  ghost predicate Damaged(m: Machine) { exists p: Pid :: Harmed(m, p) }

  lemma SpareLost(s: System, s': System, p: Pid)
    requires Nowhere(s, p) && Spare(s, s', p)
    ensures Nowhere(s', p) && (Lost(s, p) ==> Lost(s', p))
  {
    forall q, l | 0 <= q < 2 && 0 <= l < LEVELS ensures p !in List(s'.t, q, l) {
      assert p !in List(s.t, q, l);
    }
  }

  lemma ScheduledLost(s: System, p: Pid)
    requires Nowhere(s, p) && CanSchedule(s.t) && (p != s.t.cur || Waits(s.t, p))
    ensures Lost(Scheduled(s), p)
  {
    ScheduleUnlisted(s.t, p);
  }

  lemma LostNotDue(s: System, p: Pid)
    requires Nowhere(s, p) && |s.z.wheel| == WHEEL_SIZE
    ensures p !in DueNow(s.t, s.z)
  {
    DueInBucket(Alarms(s.t), s.z.wheel[Hash(Now(s.z))], Now(s.z), p);
  }

  lemma LostStays(m: Machine, v: Move, p: Pid)
    requires Possible(m, v) && Lost(m.s, p)
    ensures Lost(After(m, v).s, p)
  {
    var s := m.s;
    match v
    case Do(a) => LostThrough(m, a, p);
    case Leave(_) => OutSpares(s.t, p); SpareLost(s, After(m, v).s, p);
    case Mark => assert SameLists(s.t, Stopped(s.t), p); SpareLost(s, After(m, v).s, p);
    case Arm =>
      var d := Here(m).timeout + s.z.jiffies;
      assert SameLists(s.t, WithAlarm(s.t, s.t.cur, d), p);
      SpareLost(s, After(m, v).s, p);
    case Join =>
  }

  lemma LostThrough(m: Machine, a: Action, p: Pid)
    requires Possible(m, Do(a)) && Lost(m.s, p)
    ensures Lost(After(m, Do(a)).s, p)
  {
    var s := m.s;
    LostNotDue(s, p);
    if a.Tick? {
      TickedSpares(m, p);
      SpareLost(s, Ticked(m), p);
      ScheduledLost(Ticked(m), p);
    } else {
      if Leaves(s, a) { LeavingSpares(s, a, p); } else { DoneSpares(s, a, p); }
      SpareLost(s, Done(s, a), p);
      if Reschedules(s, a) { ScheduledLost(Done(s, a), p); }
    }
  }

  lemma SpareListed(t: Tasks, t': Tasks, p: Pid)
    requires SpareTasks(t, t', p) && !Unlisted(t, p)
    ensures !Unlisted(t', p)
  {
    var q, l :| 0 <= q < 2 && 0 <= l < LEVELS && p in List(t, q, l);
    assert p in List(t', q, l);
  }

  lemma ListedTick(m: Machine, p: Pid)
    requires Possible(m, Do(Tick)) && p < |m.s.t.procs| && !Unlisted(m.s.t, p) && p !in DueNow(m.s.t, m.s.z)
    ensures StillListed(m.s.t, Scheduled(Ticked(m)).t, p)
  {
    TickedSpares(m, p);
    ListedOn(m.s.t, Ticked(m).t, p);
  }

  lemma ListedOn(t: Tasks, t1: Tasks, p: Pid)
    requires SpareTasks(t, t1, p) && !Unlisted(t, p) && CanSchedule(t1)
    ensures StillListed(t, Schedule(t1), p)
  {
    SpareListed(t, t1, p);
    ScheduleListed(t1, p);
  }

  predicate StillListed(t: Tasks, t': Tasks, p: Pid)
    requires p < |t.procs|
  {
    TwoQueues(t') && p < |t'.procs| && !Unlisted(t', p) && t'.procs[p].state == t.procs[p].state
  }

  lemma ListedThrough(s: System, a: Action, p: Pid)
    requires Defined(s, a) && !a.Sleep? && !a.Tick? && (Reschedules(s, a) ==> CanSchedule(Done(s, a).t))
    requires p < |s.t.procs| && !Unlisted(s.t, p) && !Wakes(s, a, p) && (Leaves(s, a) ==> p != s.t.cur)
    ensures StillListed(s.t, if Reschedules(s, a) then Schedule(Done(s, a).t) else Done(s, a).t, p)
  {
    if Leaves(s, a) { LeavingSpares(s, a, p); } else { DoneSpares(s, a, p); }
    SpareListed(s.t, Done(s, a).t, p);
    if Reschedules(s, a) { ListedOn(s.t, Done(s, a).t, p); }
  }

  // It cannot be woken, and only a runnable process leaves.
  lemma MisplacedThrough(m: Machine, a: Action, p: Pid)
    requires Possible(m, Do(a)) && Misplaced(m, p)
    ensures Misplaced(After(m, Do(a)), p)
  {
    if a.Tick? { ListedTick(m, p); } else { ListedThrough(m.s, a, p); }
  }

  lemma MisplacedStays(m: Machine, v: Move, p: Pid)
    requires Possible(m, v) && Misplaced(m, p)
    ensures Misplaced(After(m, v), p)
  {
    var s := m.s;
    match v
    case Do(a) => MisplacedThrough(m, a, p);
    case Leave(_) => OutSpares(s.t, p); SpareListed(s.t, OutOf(s.t), p);
    case Mark =>
      var q, l :| 0 <= q < 2 && 0 <= l < LEVELS && p in List(s.t, q, l);
      assert p in List(Stopped(s.t), q, l);
    case Arm =>
      var q, l :| 0 <= q < 2 && 0 <= l < LEVELS && p in List(s.t, q, l);
      assert p in List(WithAlarm(s.t, s.t.cur, Here(m).timeout + s.z.jiffies), q, l);
    case Join =>
  }

  /** Damage is for good. */
  lemma DamageStays(m: Machine, v: Move)
    requires Possible(m, v) && Damaged(m)
    ensures Damaged(After(m, v))
  {
    var p: Pid :| Harmed(m, p);
    if Misplaced(m, p) { MisplacedStays(m, v, p); } else { LostStays(m, v, p); }
    assert Harmed(After(m, v), p);
  }

  // ---------- consistent states are not damaged ----------

  lemma ValidHarmless(s: System, p: Pid)
    requires Valid(s) && p < |s.t.procs|
    ensures Waits(s.t, p) ==> Unlisted(s.t, p)
    ensures !Lost(s, p)
  {
    if Runnable(s.t, p) {
      RunnableListed(s.t, p);
    } else {
      BlockedUnlisted(s.t, p);
      if Waits(s.t, p) {
        var h := Hash(s.t.procs[p].wakeup_jiffies);
        assert BucketOk(s.t, s.z, h);
        assert p in s.z.wheel[h] <==> Asleep(s.t, s.z, p, h);
      }
    }
  }

  // Inside its window the current process is in no list whatever.
  lemma NowhereInWindow(m: Machine)
    requires Consistent(m) && InWindow(Here(m))
    ensures Nowhere(m.s, m.s.t.cur) && Shape(m.s.t) && |m.s.z.wheel| == WHEEL_SIZE
    ensures m.s.t.procs[m.s.t.cur].state == if Here(m).Left? then Running else ProcState.Waiting
  {
    var b := Here(m).before;
    AwakeNowhere(b, b.t.cur);
    OutUnlisted(b.t);
    SameQueuesUnlisted(OutOf(b.t), m.s.t, b.t.cur);
  }

  lemma SameQueuesUnlisted(t: Tasks, t': Tasks, p: Pid)
    requires TwoQueues(t) && t'.queues == t.queues && Unlisted(t, p)
    ensures Unlisted(t', p)
  {
    forall q, l | 0 <= q < 2 && 0 <= l < LEVELS ensures p !in List(t', q, l) {
      assert p !in List(t, q, l);
    }
  }

  // A runnable process is in no sleepers' list and in no line.
  lemma AwakeNowhere(s: System, p: Pid)
    requires Valid(s) && Runnable(s.t, p)
    ensures p !in s.z.wait_list
    ensures forall h | 0 <= h < |s.z.wheel| :: p !in s.z.wheel[h]
    ensures forall i | 0 <= i < |s.sems| :: p !in s.sems[i].waiters
  {
    assert p in s.z.wait_list ==> Waits(s.t, p);
    forall h | 0 <= h < WHEEL_SIZE ensures p !in s.z.wheel[h] {
      assert BucketOk(s.t, s.z, h);
      assert p in s.z.wheel[h] <==> Asleep(s.t, s.z, p, h);
    }
    forall i | 0 <= i < |s.sems| ensures p !in s.sems[i].waiters {
      assert SemListed(s.t, s.z, s.sems[i]);
    }
  }

  lemma OutUnlisted(t: Tasks)
    requires QueuesOk(t) && Runnable(t, t.cur)
    ensures Unlisted(OutOf(t), t.cur)
  {
    TakeOutKeeps(t, t.cur);
    forall q, l | 0 <= q < 2 && 0 <= l < LEVELS ensures t.cur !in List(OutOf(t), q, l) {
      assert ListOkBut(OutOf(t), q, l, t.cur);
    }
  }

  // The others are where they were at the call.
  lemma OthersInWindow(m: Machine, p: Pid)
    requires Consistent(m) && InWindow(Here(m)) && p != m.s.t.cur && p < |m.s.t.procs|
    ensures var b := Here(m).before; Spare(b, m.s, p) && Spare(m.s, b, p)
  {
    var b := Here(m).before;
    OutSpares(b.t, p);
    assert SameLists(b.t, m.s.t, p);
  }

  /** In a consistent state nobody is misplaced and nobody is lost. */
  lemma ConsistentHarmless(m: Machine, p: Pid)
    requires Consistent(m)
    ensures !Harmed(m, p)
  {
    if Harmed(m, p) {
      if !InWindow(Here(m)) {
        ValidHarmless(m.s, p);
      } else if p == m.s.t.cur {
        NowhereInWindow(m);
      } else {
        var b := Here(m).before;
        OthersInWindow(m, p);
        ValidHarmless(b, p);
        if Lost(m.s, p) { SpareLost(m.s, b, p); }
      }
      assert false;
    }
  }

  // ---------- a tick in a window ----------

  lemma TickRelists(m: Machine)
    requires Consistent(m) && Possible(m, Do(Tick)) && Here(m).Left?
    ensures var p, t' := m.s.t.cur, Schedule(Ticked(m).t);
      TwoQueues(t') && p < |t'.procs| && !Unlisted(t', p)
  {
    NowhereInWindow(m);
    LostNotDue(m.s, m.s.t.cur);
    TickedSpares(m, m.s.t.cur);
    CurIsListed(m.s.t, Ticked(m).t);
  }

  lemma CurIsListed(t: Tasks, t1: Tasks)
    requires SpareTasks(t, t1, t.cur) && t.procs[t.cur].state.Running? && CanSchedule(t1)
    ensures var t' := Schedule(t1); TwoQueues(t') && t.cur < |t'.procs| && !Unlisted(t', t.cur)
  {
    RunningIsListed(t1);
  }

  lemma TickLoses(m: Machine)
    requires Consistent(m) && Possible(m, Do(Tick)) && (Here(m).Marked? || Here(m).Armed?)
    ensures Lost(Scheduled(Ticked(m)), m.s.t.cur)
  {
    NowhereInWindow(m);
    LostNotDue(m.s, m.s.t.cur);
    TickedSpares(m, m.s.t.cur);
    SpareLost(m.s, Ticked(m), m.s.t.cur);
    ScheduledLost(Ticked(m), m.s.t.cur);
  }

  /** A tick in a window puts its caller back into a run queue, or loses it. */
  lemma TickHarms(m: Machine)
    requires Consistent(m) && Possible(m, Do(Tick)) && InWindow(Here(m))
    ensures var p, m' := m.s.t.cur, After(m, Do(Tick)); if Here(m).Left? then Misplaced(m', p) else Lost(m'.s, p)
  {
    if Here(m).Left? { TickRelists(m); } else { TickLoses(m); }
  }

  /** Nothing but a tick in a window breaks consistency, and it always does. */
  lemma StepConsistent(m: Machine, v: Move)
    requires Consistent(m) && Possible(m, v)
    ensures Consistent(After(m, v)) <==> !WindowTick(m, v)
    ensures WindowTick(m, v) ==> Damaged(After(m, v))
  {
    if WindowTick(m, v) {
      TickHarms(m);
      assert Harmed(After(m, v), m.s.t.cur);
      DamageShows(After(m, v));
    } else {
      CleanMoveRefines(m, v);
    }
  }

  lemma DamageShows(m: Machine)
    requires Damaged(m)
    ensures !Consistent(m)
  {
    var p: Pid :| Harmed(m, p);
    if Consistent(m) {
      ConsistentHarmless(m, p);
      assert false;
    }
  }

  // ---------- what the second unlinking drops ----------

  // x is in the list q, l and in no other.
  predicate OnlyIn(t: Tasks, x: Pid, q: nat, l: nat)
    requires TwoQueues(t)
  {
    forall q', l' | 0 <= q' < 2 && 0 <= l' < LEVELS :: x in List(t, q', l') <==> q' == q && l' == l
  }

  lemma EnqueuePlaces(t: Tasks, x: Pid)
    requires Shape(t) && x < |t.procs| && Unlisted(t, x)
    ensures var pr := Revived(t, t.procs[x]); OnlyIn(Enqueue(t, x), x, pr.sched_queue, pr.nice)
  {
    var pr, t' := Revived(t, t.procs[x]), Enqueue(t, x);
    forall q, l | 0 <= q < 2 && 0 <= l < LEVELS
      ensures x in List(t', q, l) <==> q == pr.sched_queue && l == pr.nice
    {
      assert x !in List(t, q, l);
    }
  }

  lemma {:induction false} EnqueueAllPlaces(t: Tasks, ps: seq<Pid>, x: Pid)
    requires Shape(t) && (forall p | p in ps :: p < |t.procs|) && NoRepeats(ps) && x in ps && Unlisted(t, x)
    ensures var pr := Revived(t, t.procs[x]); OnlyIn(EnqueueAll(t, ps), x, pr.sched_queue, pr.nice)
    decreases |ps|
  {
    assert ps[0] in ps && forall p | p in ps[1..] :: p in ps && p != ps[0];
    var t1 := Enqueue(t, ps[0]);
    if x == ps[0] {
      EnqueuePlaces(t, x);
      EnqueueAllSpares(t1, ps[1..], x);
      SameOnlyIn(t1, EnqueueAll(t1, ps[1..]), x);
    } else {
      EnqueueSpares(t, ps[0], x);
      forall q, l | 0 <= q < 2 && 0 <= l < LEVELS ensures x !in List(t1, q, l) {
        assert x !in List(t, q, l);
      }
      EnqueueAllPlaces(t1, ps[1..], x);
    }
  }

  lemma SameOnlyIn(t: Tasks, t': Tasks, x: Pid)
    requires TwoQueues(t) && TwoQueues(t') && SameLists(t, t', x)
    ensures forall q, l | 0 <= q < 2 && 0 <= l < LEVELS && OnlyIn(t, x, q, l) :: OnlyIn(t', x, q, l)
  {
  }

  // The caller of sys_tsleep was the last of its list.
  ghost predicate WasLast(b: System) {
    && Shape(b.t)
    && var r := List(b.t, b.t.procs[b.t.cur].sched_queue, b.t.procs[b.t.cur].nice);
      r != [] && r[|r| - 1] == b.t.cur
  }

  // A process woken into the list that the caller has left.
  predicate SameList(t: Tasks, x: Pid)
    requires Shape(t) && x < |t.procs|
  {
    Revived(t, t.procs[x]).sched_queue == t.procs[t.cur].sched_queue && t.procs[x].nice == t.procs[t.cur].nice
  }

  lemma UnlinkedPlaces(t: Tasks, b: System, t1: Tasks, x: Pid, q: nat, l: nat)
    requires Shape(t) && Shape(t1) && Shape(b.t) && Unlisted(t, x) && q < 2 && l < LEVELS && OnlyIn(t1, x, q, l)
    ensures var left, t' := t1.procs[t1.cur], UnlinkedAgain(t, b, t1);
      TwoQueues(t') && (Unlisted(t', x) <==> WasLast(b) && q == left.sched_queue && l == left.nice)
  {
    var t', left := UnlinkedAgain(t, b, t1), t1.procs[t1.cur];
    assert x !in List(t, left.sched_queue, left.nice) && x in List(t1, q, l);
    if WasLast(b) && q == left.sched_queue && l == left.nice {
      forall q', l' | 0 <= q' < 2 && 0 <= l' < LEVELS ensures x !in List(t', q', l') {
        assert x in List(t1, q', l') <==> q' == q && l' == l;
      }
    } else {
      assert x in List(t', q, l);
    }
  }

  lemma TickedPlaces(m: Machine, x: Pid)
    requires Consistent(m) && Possible(m, Do(Tick)) && Here(m).Left? && x in DueNow(m.s.t, m.s.z)
    ensures x < |m.s.t.procs| && TwoQueues(Ticked(m).t)
    ensures Unlisted(Ticked(m).t, x) <==> WasLast(Here(m).before) && SameList(m.s.t, x)
  {
    var t := m.s.t;
    NowhereInWindow(m);
    LostNotDue(m.s, t.cur);
    OthersNotWoken(t, DueNow(t, m.s.z), t.cur);
    EnqueueAllPlaces(t, DueNow(t, m.s.z), x);
    var pr := Revived(t, t.procs[x]);
    UnlinkedPlaces(t, Here(m).before, EnqueueAll(t, DueNow(t, m.s.z)), x, pr.sched_queue, pr.nice);
  }

  /** A sleeper woken by the tick that comes right after the caller has left its run queue is dropped from
      that queue again exactly when it is put into the list that the caller was the last of. */
  lemma TickDropsWoken(m: Machine, x: Pid)
    requires Consistent(m) && Possible(m, Do(Tick)) && Here(m).Left? && x in DueNow(m.s.t, m.s.z)
    ensures x < |m.s.t.procs| && TwoQueues(After(m, Do(Tick)).s.t)
    ensures Unlisted(After(m, Do(Tick)).s.t, x) <==> WasLast(Here(m).before) && SameList(m.s.t, x)
  {
    NowhereInWindow(m);
    LostNotDue(m.s, m.s.t.cur);
    TickedSpares(m, m.s.t.cur);
    TickedPlaces(m, x);
    ScheduledPlace(Ticked(m).t, x);
  }

  lemma ScheduledPlace(t: Tasks, x: Pid)
    requires CanSchedule(t) && x < |t.procs| && x != t.cur
    ensures TwoQueues(Schedule(t)) && (Unlisted(Schedule(t), x) <==> Unlisted(t, x))
  {
    if Unlisted(t, x) { ScheduleUnlisted(t, x); } else { ScheduleListed(t, x); }
  }
}
