/** sys_tsleep(0): nobody ever wakes its caller. */
module UntimedSleep {
  import opened Lists
  import opened Scheduler
  import opened TimeWheel
  import opened Semaphores
  import opened KernelSteps
  import opened KernelRuns

  /** p is blocked in the wait list and in the line of no semaphore: nobody will ever wake it. */
  ghost predicate SleepsForGood(s: System, p: Pid) {
    Waits(s.t, p) && p in s.z.wait_list && forall i | 0 <= i < |s.sems| :: p !in s.sems[i].waiters
  }

  /** sys_tsleep(0) puts its caller there. */
  lemma SleepZero(s: System)
    requires Valid(s) && Enabled(s, Sleep(0))
    ensures SleepsForGood(Next(s, Sleep(0)), s.t.cur) && Next(s, Sleep(0)).t.cur == s.t.cur
  {
    PutToSleepKeeps(s, 0);
    forall i | 0 <= i < |s.sems| ensures s.t.cur !in s.sems[i].waiters {
      assert SemListed(s.t, s.z, s.sems[i]);
      assert s.t.cur in s.sems[i].waiters ==> Waits(s.t, s.t.cur);
    }
  }

  lemma {:induction false} GrantsSpareForGood(s: System, i: nat, p: Pid)
    requires Base(s) && i < |s.sems| && SleepsForGood(s, p)
    ensures SleepsForGood(Grants(s, i), p)
    decreases |s.sems[i].waiters|
  {
    if CanGrant(s, i) {
      GrantWakes(s, i);
      GrantKeeps(s, i);
      WithoutKeeps(s.z.wait_list, s.sems[i].waiters[0]);
      GrantsSpareForGood(Grant(s, i), i, p);
    }
  }

  lemma UpSparesForGood(s: System, i: nat, num: nat, p: Pid)
    requires i < |s.sems| && Base(Raised(s, i, num)) && SleepsForGood(s, p)
    ensures SleepsForGood(Up(s, i, num), p)
  {
    GrantsSpareForGood(Raised(s, i, num), i, p);
  }

  lemma ActedSparesForGood(s: System, a: Action, p: Pid)
    requires Valid(s) && Enabled(s, a) && SleepsForGood(s, p)
    ensures SleepsForGood(Acted(s, a), p)
  {
    match a
    case Tick => WakenKeeps(s); DueIsDeadline(s.t, s.z);
    case SemUp(i, num) => RaisedKeeps(s, i, num); UpSparesForGood(s, i, num, p);
    case FreeFrame(f) => GiveBackBase(s, f); UpSparesForGood(Push(s, f), FRAMES, 1, p);
    case EnterChild(c) => assert Fed(s.t, c);
    case SemDown(i, d, _) => AskSparesForGood(s, a, i, d, p);
    case GetFrame => AskSparesForGood(s, a, FRAMES, 1, p);
    case _ =>
  }

  // Whoever asks for something is runnable, so it is another process that joins the line.
  lemma AskSparesForGood(s: System, a: Action, i: nat, d: nat, p: Pid)
    requires Valid(s) && Enabled(s, a) && SleepsForGood(s, p) && (a.GetFrame? || a.SemDown?)
    requires if a.SemDown? then i == a.sem && d == a.demand else i == FRAMES && d == 1
    ensures SleepsForGood(Acted(s, a), p)
  {
    assert p != s.t.cur;
    var s' := Acted(s, a);
    forall j | 0 <= j < |s'.sems| ensures p !in s'.sems[j].waiters {
      assert j < |s.sems| && p !in s.sems[j].waiters;
    }
  }

  lemma StepSparesForGood(s: System, a: Action, p: Pid)
    requires Valid(s) && Enabled(s, a) && SleepsForGood(s, p)
    ensures SleepsForGood(Next(s, a), p) && (Reschedules(s, a) ==> Next(s, a).t.cur != p)
    ensures s.t.cur == p ==> Reschedules(s, a)
    ensures s.t.cur != p ==> Next(s, a).t.cur != p
  {
    ActedKeeps(s, a);
    ActedCosts(s, a);
    NextKeeps(s, a);
    ActedSparesForGood(s, a, p);
    if Reschedules(s, a) {
      ScheduleQuiet(Acted(s, a).t);
    }
  }

  /** Whoever calls sys_tsleep(0) at step k is blocked in every later state, and from its call of schedule
      on it is never dispatched again. */
  lemma {:induction false} SleepsForever(ss: seq<System>, acts: seq<Action>, k: nat, n: nat)
    requires IsRun(ss, acts) && k < n <= |acts| && acts[k] == Sleep(0)
    ensures SleepsForGood(ss[n], ss[k].t.cur) && !Runnable(ss[n].t, ss[k].t.cur)
    ensures n > k + 1 ==> ss[n].t.cur != ss[k].t.cur
    decreases n
  {
    if n == k + 1 {
      StepAt(ss, acts, k);
      SleepZero(ss[k]);
    } else {
      SleepsForever(ss, acts, k, n - 1);
      ForGoodAt(ss, acts, n - 1, ss[k].t.cur);
    }
  }

  lemma ForGoodAt(ss: seq<System>, acts: seq<Action>, n: nat, p: Pid)
    requires IsRun(ss, acts) && n < |acts| && SleepsForGood(ss[n], p)
    ensures SleepsForGood(ss[n + 1], p) && ss[n + 1].t.cur != p
  {
    StepAt(ss, acts, n);
    StepSparesForGood(ss[n], acts[n], p);
  }
}
