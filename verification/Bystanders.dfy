/** What a step, or a call of schedule, does to a process that it does not concern. */
module Bystanders {
  import opened Lists
  import opened Scheduler
  import opened TimeWheel
  import opened Semaphores
  import opened KernelSteps
  import opened SleepWindow

  predicate SameLists(t: Tasks, t': Tasks, x: Pid)
    requires TwoQueues(t) && TwoQueues(t')
  {
    forall q, l | 0 <= q < 2 && 0 <= l < LEVELS :: x in List(t', q, l) <==> x in List(t, q, l)
  }

  // t' leaves x in its lists and its state.
  predicate SpareTasks(t: Tasks, t': Tasks, x: Pid) {
    && Shape(t) && Shape(t') && x < |t.procs| <= |t'.procs| && t'.cur == t.cur
    && t'.procs[x].state == t.procs[x].state && (x in t'.unborn <==> x in t.unborn) && SameLists(t, t', x)
  }

  // s' puts x in no sleepers' list and in no line that it was not in.
  predicate SpareWaits(s: System, s': System, x: Pid) {
    && |s'.z.wheel| == |s.z.wheel| && (forall h | 0 <= h < |s.z.wheel| :: x in s'.z.wheel[h] ==> x in s.z.wheel[h])
    && (x in s'.z.wait_list ==> x in s.z.wait_list)
    && |s'.sems| == |s.sems| && (forall i | 0 <= i < |s.sems| :: x in s'.sems[i].waiters ==> x in s.sems[i].waiters)
  }

  predicate Spare(s: System, s': System, x: Pid) { SpareTasks(s.t, s'.t, x) && SpareWaits(s, s', x) }

  lemma EnqueueSpares(t: Tasks, p: Pid, x: Pid)
    requires Shape(t) && p < |t.procs| && x < |t.procs| && x != p
    ensures SpareTasks(t, Enqueue(t, p), x)
  {
  }

  lemma {:induction false} EnqueueAllSpares(t: Tasks, ps: seq<Pid>, x: Pid)
    requires Shape(t) && (forall p | p in ps :: p < |t.procs|) && x < |t.procs| && x !in ps
    ensures SpareTasks(t, EnqueueAll(t, ps), x)
    decreases |ps|
  {
    if ps != [] {
      assert ps[0] in ps && forall p | p in ps[1..] :: p in ps;
      EnqueueSpares(t, ps[0], x);
      EnqueueAllSpares(Enqueue(t, ps[0]), ps[1..], x);
    }
  }

  lemma OutSpares(t: Tasks, x: Pid)
    requires Shape(t) && x < |t.procs| && x != t.cur
    ensures SpareTasks(t, OutOf(t), x) && SpareTasks(t, Block(t), x)
  {
    var pr := t.procs[t.cur];
    MemberAfterWithout(List(t, pr.sched_queue, pr.nice), t.cur, x);
  }

  lemma {:induction false} DueInBucket(alarms: seq<nat>, b: seq<Pid>, now: nat, x: Pid)
    ensures x in Due(alarms, b, now) || x in Later(alarms, b, now) ==> x in b
  {
    if b != [] {
      DueInBucket(alarms, b[1..], now, x);
    }
  }

  lemma TickSpares(s: System, x: Pid)
    requires Defined(s, Tick) && x < |s.t.procs| && x !in DueNow(s.t, s.z)
    ensures Spare(s, Done(s, Tick), x)
  {
    EnqueueAllSpares(s.t, DueNow(s.t, s.z), x);
    DueInBucket(Alarms(s.t), s.z.wheel[Hash(Now(s.z))], Now(s.z), x);
  }

  lemma GrantSpares(s: System, i: nat, x: Pid)
    requires i < |s.sems| && Shape(s.t) && CanGrant(s, i) && x < |s.t.procs| && x !in s.sems[i].waiters
    ensures Spare(s, Grant(s, i), x) && x !in Grant(s, i).sems[i].waiters
  {
    var p := s.sems[i].waiters[0];
    EnqueueSpares(s.t, p, x);
    MemberAfterWithout(s.z.wait_list, p, x);
    assert SameLists(s.t, SetDemand(Enqueue(s.t, p), p, 0), x);
  }

  lemma {:induction false} GrantsSpareOthers(s: System, i: nat, x: Pid)
    requires i < |s.sems| && Shape(s.t) && x < |s.t.procs| && x !in s.sems[i].waiters
    ensures Spare(s, Grants(s, i), x)
    decreases |s.sems[i].waiters|
  {
    if CanGrant(s, i) {
      GrantSpares(s, i, x);
      GrantsSpareOthers(Grant(s, i), i, x);
      SpareOn(s, Grant(s, i), Grants(s, i), x);
    }
  }

  lemma SpareOn(s: System, s1: System, s2: System, x: Pid)
    requires Spare(s, s1, x) && Spare(s1, s2, x)
    ensures Spare(s, s2, x)
  {
  }

  // Whom an action wakes.
  predicate Wakes(s: System, a: Action, x: Pid) {
    match a
    case Tick => |s.z.wheel| == WHEEL_SIZE && x in DueNow(s.t, s.z)
    case SemUp(i, _) => i < |s.sems| && x in s.sems[i].waiters
    case FreeFrame(_) => |s.sems| > FRAMES && x in s.sems[FRAMES].waiters
    case EnterChild(c) => x == c
    case _ => false
  }

  // Whether the current process leaves its list.
  predicate Leaves(s: System, a: Action) {
    match a
    case Sleep(_) => true
    case SemDown(i, d, nowait) => !nowait && !(i < |s.sems| && Immediate(s, i, d))
    case GetFrame => !(|s.sems| > FRAMES && Immediate(s, FRAMES, 1))
    case _ => false
  }

  lemma DoneSpares(s: System, a: Action, x: Pid)
    requires Defined(s, a) && x < |s.t.procs| && !Wakes(s, a, x) && !Leaves(s, a)
    ensures Spare(s, Done(s, a), x)
  {
    match a
    case Tick => TickSpares(s, x);
    case SemUp(i, num) => GrantsSpareOthers(Raised(s, i, num), i, x);
    case FreeFrame(f) => GrantsSpareOthers(Raised(Push(s, f), FRAMES, 1), FRAMES, x);
    case EnterChild(c) => EnterSpares(s.t, c, x);
    case _ =>
  }

  lemma EnterSpares(t: Tasks, c: Pid, x: Pid)
    requires Shape(t) && c < |t.procs| && x < |t.procs| && x != c
    ensures SpareTasks(t, Enter(t, c), x)
  {
    var t1 := t.(procs := t.procs[t.cur := t.procs[t.cur].(rest_time := ParentShare(t.procs[t.cur].rest_time))]);
    EnqueueSpares(t1, c, x);
    assert SameLists(t, t1, x);
  }

  lemma LeavingSpares(s: System, a: Action, x: Pid)
    requires Defined(s, a) && !a.Sleep? && x < |s.t.procs| && Leaves(s, a) && x != s.t.cur
    ensures Spare(s, Done(s, a), x)
  {
    var d := if a.SemDown? then a.demand else 1;
    OutSpares(SetDemand(s.t, s.t.cur, d), x);
    assert SameLists(s.t, SetDemand(s.t, s.t.cur, d), x);
  }

  lemma TickedSpares(m: Machine, x: Pid)
    requires Defined(m.s, Tick) && x < |m.s.t.procs| && x !in DueNow(m.s.t, m.s.z)
    ensures Spare(m.s, Ticked(m), x)
  {
    TickSpares(m.s, x);
  }

  // Whoever schedule finds runnable it puts in a list.
  lemma RunningIsListed(t: Tasks)
    requires CanSchedule(t) && t.procs[t.cur].state.Running?
    ensures !Unlisted(Schedule(t), t.cur)
  {
    var pr := Aged(t, t.procs[t.cur]);
    assert t.cur in List(Spend(t), pr.sched_queue, pr.nice);
    assert t.cur in List(Schedule(t), pr.sched_queue, pr.nice);
  }

  lemma SpendSpares(t: Tasks, x: Pid)
    requires CanSchedule(t) && x < |t.procs| && (x != t.cur || t.procs[x].state.Waiting?)
    ensures SpareTasks(t, Spend(t), x)
  {
    var pr := t.procs[t.cur];
    MemberAfterWithout(List(t, pr.sched_queue, pr.nice), t.cur, x);
  }

  lemma ScheduleListed(t: Tasks, x: Pid)
    requires CanSchedule(t) && x < |t.procs| && !Unlisted(t, x)
    ensures !Unlisted(Schedule(t), x)
  {
    if x == t.cur && t.procs[x].state.Running? {
      RunningIsListed(t);
    } else {
      SpendSpares(t, x);
      var q, l :| 0 <= q < 2 && 0 <= l < LEVELS && x in List(t, q, l);
      assert x in List(Spend(t), q, l);
      assert x in List(Schedule(t), q, l);
    }
  }

  lemma {:induction false} ChoiceListed(levels: seq<seq<Pid>>, l: nat)
    ensures Choice(levels, l) != PROCESS1 ==> exists k :: 0 <= k < |levels| && Choice(levels, l) in levels[k]
    decreases |levels| - l
  {
    if l < |levels| {
      if levels[l] != [] {
        assert levels[l][0] in levels[l];
      } else {
        ChoiceListed(levels, l + 1);
      }
    }
  }

  // Whoever is in no list, and is not current and runnable, is not dispatched.
  lemma ScheduleUnlisted(t: Tasks, x: Pid)
    requires CanSchedule(t) && x < |t.procs| && Unlisted(t, x) && (x != t.cur || t.procs[x].state.Waiting?)
    ensures Unlisted(Schedule(t), x) && (x != PROCESS1 ==> Schedule(t).cur != x)
  {
    SpendSpares(t, x);
    var t' := Schedule(t);
    forall q, l | 0 <= q < 2 && 0 <= l < LEVELS ensures x !in List(t', q, l) {
      assert x !in List(Spend(t), q, l);
    }
    ChoiceListed(t'.queues[t'.active].levels, 0);
    forall k | 0 <= k < LEVELS ensures x !in t'.queues[t'.active].levels[k] {
      assert x !in List(t', t'.active, k);
    }
  }
}
