/** sys_tsleep(0) taken apart: nobody ever wakes its caller. */
module UntimedWindow {
  import opened Lists
  import opened Scheduler
  import opened TimeWheel
  import opened Semaphores
  import opened KernelSteps
  import opened UntimedSleep
  import opened SleepWindow
  import opened Bystanders
  import opened SleepDamage
  import opened SleepRuns

  // p is out of sys_tsleep's window, in the wait list, and in no bucket and no line.
  ghost predicate NeverWoken(m: Machine, p: Pid) {
    && SleepsForGood(m.s, p) && p !in m.s.t.unborn && !InWindow(PhaseOf(m, p))
    && forall h | 0 <= h < |m.s.z.wheel| :: p !in m.s.z.wheel[h]
  }

  lemma {:induction false} GrantsKeepWaiting(s: System, i: nat, p: Pid)
    requires i < |s.sems| && Shape(s.t) && p in s.z.wait_list && p !in s.sems[i].waiters
    ensures p in Grants(s, i).z.wait_list
    decreases |s.sems[i].waiters|
  {
    if CanGrant(s, i) {
      MemberAfterWithout(s.z.wait_list, s.sems[i].waiters[0], p);
      GrantsKeepWaiting(Grant(s, i), i, p);
    }
  }

  lemma WaitListStays(s: System, a: Action, p: Pid)
    requires Defined(s, a) && SleepsForGood(s, p)
    ensures p in Done(s, a).z.wait_list
  {
    match a
    case SemUp(i, num) => GrantsKeepWaiting(Raised(s, i, num), i, p);
    case FreeFrame(f) => GrantsKeepWaiting(Raised(Push(s, f), FRAMES, 1), FRAMES, p);
    case _ =>
  }

  // Whatever an action does, it does not concern p.
  lemma ActionSparesForGood(m: Machine, a: Action, p: Pid)
    requires Possible(m, Do(a)) && NeverWoken(m, p)
    ensures var s1 := if a.Tick? then Ticked(m) else Done(m.s, a); Spare(m.s, s1, p) && p in s1.z.wait_list
  {
    var s := m.s;
    WaitListStays(s, a, p);
    if a.Tick? {
      DueInBucket(Alarms(s.t), s.z.wheel[Hash(Now(s.z))], Now(s.z), p);
      TickedSpares(m, p);
    } else if Leaves(s, a) {
      LeavingSpares(s, a, p);
    } else {
      DoneSpares(s, a, p);
    }
  }

  lemma DoSparesForGood(m: Machine, a: Action, p: Pid)
    requires Possible(m, Do(a)) && NeverWoken(m, p)
    ensures NeverWoken(After(m, Do(a)), p)
  {
    ActionSparesForGood(m, a, p);
  }

  lemma MoveSparesForGood(m: Machine, v: Move, p: Pid)
    requires Possible(m, v) && NeverWoken(m, p)
    ensures NeverWoken(After(m, v), p)
  {
    if v.Do? {
      DoSparesForGood(m, v.a, p);
    } else {
      assert p != m.s.t.cur;
    }
  }

  // The last store of the call.
  lemma JoinsForGood(m: Machine)
    requires Consistent(m) && Possible(m, Move.Join) && Here(m).timeout == 0
    ensures NeverWoken(After(m, Move.Join), m.s.t.cur) && Here(After(m, Move.Join)) == Joined
  {
    NowhereInWindow(m);
  }

  /** Taken apart, too: whoever has gone through sys_tsleep(0) undisturbed is in the wait list, in no
      bucket and in no line ever after, whatever the others do and whatever happens to them; and in a
      clean run it is in no run queue and, once it has called schedule, never dispatched. */
  lemma {:induction false} NeverWokenAfter(ms: seq<Machine>, vs: seq<Move>, k: nat, n: nat)
    requires IsMoveRun(ms, vs) && k < n <= |vs| && Clean(ms, vs, k) && vs[k].Join? && Here(ms[k]).Marked?
    ensures var p := ms[k].s.t.cur; NeverWoken(ms[n], p)
    ensures Clean(ms, vs, n) ==> var p, m := ms[k].s.t.cur, ms[n];
      Shape(m.s.t) && Unlisted(m.s.t, p) && (m.s.t.cur == p ==> Here(m) == Joined)
    decreases n
  {
    assert MoveNo(ms, vs, n - 1);
    if n == k + 1 {
      ConsistentIffClean(ms, vs, k);
      JoinsForGood(ms[k]);
    } else {
      NeverWokenAfter(ms, vs, k, n - 1);
      MoveSparesForGood(ms[n - 1], vs[n - 1], ms[k].s.t.cur);
    }
    if Clean(ms, vs, n) {
      ConsistentIffClean(ms, vs, n);
      SleeperOff(ms[n], ms[k].s.t.cur);
    }
  }

  lemma SleeperOff(m: Machine, p: Pid)
    requires Consistent(m) && NeverWoken(m, p)
    ensures Shape(m.s.t) && Unlisted(m.s.t, p) && (m.s.t.cur == p ==> Here(m) == Joined)
  {
    ConsistentHarmless(m, p);
    if InWindow(Here(m)) { NowhereInWindow(m); }
  }
}
