/** First come, first served within a level of a run queue. */
module RunOrder {
  import opened Lists
  import opened Scheduler
  import opened TimeWheel
  import opened Semaphores
  import opened KernelSteps
  import opened KernelRuns
  import opened Bystanders

  lemma EnqueuePrefix(t: Tasks, p: Pid, q: nat, l: nat)
    requires Shape(t) && p < |t.procs| && q < 2 && l < LEVELS
    ensures List(t, q, l) <= List(Enqueue(t, p), q, l)
  {
  }

  lemma {:induction false} EnqueueAllPrefix(t: Tasks, ps: seq<Pid>, q: nat, l: nat)
    requires Shape(t) && (forall p | p in ps :: p < |t.procs|) && q < 2 && l < LEVELS
    ensures List(t, q, l) <= List(EnqueueAll(t, ps), q, l)
    decreases |ps|
  {
    if ps != [] {
      assert ps[0] in ps && forall p | p in ps[1..] :: p in ps;
      EnqueuePrefix(t, ps[0], q, l);
      EnqueueAllPrefix(Enqueue(t, ps[0]), ps[1..], q, l);
    }
  }

  lemma {:induction false} GrantsPrefix(s: System, i: nat, q: nat, l: nat)
    requires i < |s.sems| && Shape(s.t) && q < 2 && l < LEVELS
    ensures Shape(Grants(s, i).t) && List(s.t, q, l) <= List(Grants(s, i).t, q, l)
    decreases |s.sems[i].waiters|
  {
    GrantsFrame(s, i);
    if CanGrant(s, i) {
      EnqueuePrefix(s.t, s.sems[i].waiters[0], q, l);
      GrantsPrefix(Grant(s, i), i, q, l);
    }
  }

  // In the lists that it is not in, leaving changes nothing.
  lemma LeftLists(t: Tasks, q: nat, l: nat)
    requires QueuesOk(t) && Runnable(t, t.cur) && q < 2 && l < LEVELS
    ensures List(Block(t), q, l) == Without(List(t, q, l), t.cur)
  {
    assert ListOkBut(t, q, l, -1);
    if !(q == t.procs[t.cur].sched_queue && l == t.procs[t.cur].nice) {
      WithoutAbsent(List(t, q, l), t.cur);
    }
  }

  // schedule puts its caller, if anywhere, last.
  lemma SpentLists(t: Tasks, q: nat, l: nat)
    requires QueuesOk(t) && CurOk(t) && q < 2 && l < LEVELS
    ensures var r, r' := Without(List(t, q, l), t.cur), List(Spend(t), q, l); r' == r || r' == r + [t.cur]
  {
    assert ListOkBut(t, q, l, -1);
    if !Queued(t, t.cur, q, l) {
      WithoutAbsent(List(t, q, l), t.cur);
    }
  }

  lemma ScheduledLists(t: Tasks, q: nat, l: nat)
    requires QueuesOk(t) && CurOk(t) && q < 2 && l < LEVELS && TwoQueues(Schedule(t))
    ensures var r, r' := Without(List(t, q, l), t.cur), List(Schedule(t), q, l); r' == r || r' == r + [t.cur]
  {
    SpentLists(t, q, l);
  }

  // Before it calls schedule an action appends to lists, and may take its caller out.
  lemma ActedLists(s: System, a: Action, q: nat, l: nat)
    requires Valid(s) && Enabled(s, a) && q < 2 && l < LEVELS
    ensures Shape(Acted(s, a).t)
    ensures if Leaves(s, a) then List(Acted(s, a).t, q, l) == Without(List(s.t, q, l), s.t.cur)
      else List(s.t, q, l) <= List(Acted(s, a).t, q, l)
  {
    ActedKeeps(s, a);
    match a
    case Tick => DueCanWake(s); EnqueueAllPrefix(s.t, DueNow(s.t, s.z), q, l);
    case Sleep(_) => LeftLists(s.t, q, l);
    case SemUp(i, num) => GrantsPrefix(Raised(s, i, num), i, q, l);
    case SemDown(_, d, _) => if Leaves(s, a) { LeftAfterDemand(s.t, d, q, l); }
    case GetFrame => if Leaves(s, a) { LeftAfterDemand(s.t, 1, q, l); }
    case FreeFrame(f) => GrantsPrefix(Raised(Push(s, f), FRAMES, 1), FRAMES, q, l);
    case EnterChild(c) => EnterPrefix(s.t, c, q, l);
    case _ =>
  }

  lemma LeftAfterDemand(t: Tasks, d: nat, q: nat, l: nat)
    requires QueuesOk(t) && Runnable(t, t.cur) && q < 2 && l < LEVELS
    ensures List(Block(SetDemand(t, t.cur, d)), q, l) == Without(List(t, q, l), t.cur)
  {
    DemandKeepsQueues(t, t.cur, d);
    LeftLists(SetDemand(t, t.cur, d), q, l);
  }

  lemma EnterPrefix(t: Tasks, c: Pid, q: nat, l: nat)
    requires Shape(t) && c < |t.procs| && q < 2 && l < LEVELS
    ensures List(t, q, l) <= List(Enter(t, c), q, l)
  {
  }

  // The current process gives up its place.
  ghost predicate Moves(s: System, a: Action) { Leaves(s, a) || Reschedules(s, a) }

  // A step appends to what stays of each list, which is all but a process that gives up its place.
  lemma NextLists(s: System, a: Action, q: nat, l: nat)
    requires Valid(s) && Enabled(s, a) && q < 2 && l < LEVELS
    ensures Shape(Next(s, a).t)
    ensures (if Moves(s, a) then Without(List(s.t, q, l), s.t.cur) else List(s.t, q, l)) <= List(Next(s, a).t, q, l)
  {
    NextKeeps(s, a);
    ActedKeeps(s, a);
    ActedLists(s, a, q, l);
    if Reschedules(s, a) {
      ActedCosts(s, a);
      var r, r1 := List(s.t, q, l), List(Acted(s, a).t, q, l);
      ScheduledLists(Acted(s, a).t, q, l);
      if Leaves(s, a) {
        assert ListOkBut(s.t, q, l, -1);
        WithoutKeeps(r, s.t.cur);
        WithoutAbsent(r1, s.t.cur);
      } else {
        WithoutPrefix(r, r1, s.t.cur);
      }
    }
  }

  // z keeps its place in the step.
  ghost predicate Keeps(s: System, a: Action, z: Pid) { Moves(s, a) ==> z != s.t.cur }

  /** Two processes that stay in a list keep their order. */
  lemma StepKeepsOrder(s: System, a: Action, q: nat, l: nat, x: Pid, y: Pid)
    requires Valid(s) && Enabled(s, a) && q < 2 && l < LEVELS
    requires Ahead(List(s.t, q, l), x, y) && Keeps(s, a, x) && Keeps(s, a, y)
    ensures Shape(Next(s, a).t) && Ahead(List(Next(s, a).t, q, l), x, y)
  {
    NextLists(s, a, q, l);
    if Moves(s, a) {
      AheadWithout(List(s.t, q, l), s.t.cur, x, y);
      AheadInLonger(Without(List(s.t, q, l), s.t.cur), List(Next(s, a).t, q, l), x, y);
    } else {
      AheadInLonger(List(s.t, q, l), List(Next(s, a).t, q, l), x, y);
    }
  }

  /** Whoever is put in comes after everyone who stays there. */
  lemma StepAppends(s: System, a: Action, q: nat, l: nat, x: Pid, y: Pid)
    requires Valid(s) && Enabled(s, a) && q < 2 && l < LEVELS && Shape(Next(s, a).t)
    requires x in List(s.t, q, l) && Keeps(s, a, x)
    requires y in List(Next(s, a).t, q, l) && (y !in List(s.t, q, l) || !Keeps(s, a, y))
    ensures Ahead(List(Next(s, a).t, q, l), x, y)
  {
    NextLists(s, a, q, l);
    var r := List(s.t, q, l);
    assert ListOkBut(s.t, q, l, -1);
    WithoutKeeps(r, s.t.cur);
    AheadOfNew(if Moves(s, a) then Without(r, s.t.cur) else r, List(Next(s, a).t, q, l), x, y);
  }

  /** A process that calls schedule, or is interrupted, goes last: behind those who are woken by the same
      tick, too. */
  lemma CallerGoesLast(s: System, a: Action, q: nat, l: nat, x: Pid)
    requires Valid(s) && Enabled(s, a) && Reschedules(s, a) && q < 2 && l < LEVELS && Shape(Next(s, a).t)
    requires var r := List(Next(s, a).t, q, l); s.t.cur in r && x in r && x != s.t.cur
    ensures Ahead(List(Next(s, a).t, q, l), x, s.t.cur)
  {
    ActedKeeps(s, a);
    ActedCosts(s, a);
    var t1 := Acted(s, a).t;
    ScheduledLists(t1, q, l);
    assert ListOkBut(t1, q, l, -1);
    WithoutKeeps(List(t1, q, l), s.t.cur);
    AheadOfNew(Without(List(t1, q, l), s.t.cur), List(Next(s, a).t, q, l), x, s.t.cur);
  }

  // Whoever a step dispatches is the first of its list.
  lemma DispatchedIsFirst(s: System, a: Action, q: nat, l: nat)
    requires Valid(s) && Enabled(s, a) && q < 2 && l < LEVELS
    ensures var t' := Next(s, a).t;
      && Shape(t') && NoRepeats(List(t', q, l))
      && (t'.cur != s.t.cur && t'.cur in List(t', q, l) ==> List(t', q, l)[0] == t'.cur)
  {
    ActedKeeps(s, a);
    ActedCosts(s, a);
    NextKeeps(s, a);
    var t' := Next(s, a).t;
    assert ListOkBut(t', q, l, -1);
    if Reschedules(s, a) {
      var k := ScheduleKeeps(Acted(s, a).t);
      assert List(t', t'.active, k)[0] in List(t', t'.active, k);
      assert ListOkBut(t', t'.active, k, -1);
      assert Queued(t', t'.cur, t'.active, k);
    }
  }

  /** Nobody overtakes: if x stands before p in a list at step k and neither is current, then p is not
      dispatched before x, however long it takes and in whichever queue they are. */
  lemma {:induction false} NoOvertaking(ss: seq<System>, acts: seq<Action>, k: nat, n: nat, q: nat, l: nat,
                                        x: Pid, p: Pid)
    requires IsRun(ss, acts) && k <= n <= |acts| && q < 2 && l < LEVELS && TwoQueues(ss[k].t)
    requires Ahead(List(ss[k].t, q, l), x, p) && ss[k].t.cur != p
    requires forall j | k <= j <= n :: ss[j].t.cur != x
    ensures TwoQueues(ss[n].t) && Ahead(List(ss[n].t, q, l), x, p) && ss[n].t.cur != p
    decreases n
  {
    if n > k {
      NoOvertaking(ss, acts, k, n - 1, q, l, x, p);
      StepAt(ss, acts, n - 1);
      StepKeepsOrder(ss[n - 1], acts[n - 1], q, l, x, p);
      NotYetFirst(ss[n - 1], acts[n - 1], q, l, x, p);
    }
  }

  lemma NotYetFirst(s: System, a: Action, q: nat, l: nat, x: Pid, p: Pid)
    requires Valid(s) && Enabled(s, a) && q < 2 && l < LEVELS && s.t.cur != p && Shape(Next(s, a).t)
    requires Ahead(List(Next(s, a).t, q, l), x, p)
    ensures Next(s, a).t.cur != p
  {
    DispatchedIsFirst(s, a, q, l);
    NothingAheadOfFirst(List(Next(s, a).t, q, l), x, p);
  }
}
