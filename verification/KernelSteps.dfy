/** The steps of the kernel and what every step keeps.  Each step runs with interrupts off, under
    lock_task or behind the gate of the timer, but for Sleep: module SleepWindow takes it apart. */
module KernelSteps {
  import opened Lists
  import opened Scheduler
  import opened Epochs
  import opened TimeWheel
  import opened Semaphores

  /** Tick comes from the timer, the others from the current process. */
  datatype Action =
    | Tick
    | Yield
    | Sleep(timeout: nat)
    | SemUp(sem: nat, num: nat)
    | SemDown(sem: nat, demand: nat, nowait: bool)
    | GetFrame
    | TakeFrame
    | FreeFrame(f: Frame)
    | Fork
    | ShareSlice(child: Pid)
    | EnterChild(child: Pid)
    | DropChild(child: Pid)

  /** A process whose frame is granted first takes it up; process 1 never blocks; frames and
      their semaphore are reached through the frame operations only. */
  predicate Allowed(s: System, a: Action) {
    match a
    case Tick => true
    case TakeFrame => s.t.cur in s.granted
    case _ => s.t.cur !in s.granted && CallOk(s, a)
  }

  /** A process that has just fallen asleep can only call schedule. */
  predicate Enabled(s: System, a: Action) {
    Allowed(s, a) && (a.Tick? || a.Yield? || Runnable(s.t, s.t.cur))
  }

  predicate CallOk(s: System, a: Action) {
    match a
    case Sleep(_) => s.t.cur != PROCESS1
    case SemUp(i, _) => i < |s.sems| && i != FRAMES
    case SemDown(i, d, nowait) =>
      i < |s.sems| && i != FRAMES && d > 0 && (Immediate(s, i, d) || nowait || s.t.cur != PROCESS1)
    case GetFrame => |s.sems| > FRAMES && (Immediate(s, FRAMES, 1) || s.t.cur != PROCESS1)
    case FreeFrame(f) => f in s.used
    case ShareSlice(c) => ChildOfCur(s.t, c)
    case EnterChild(c) => ChildOfCur(s.t, c)
    case DropChild(c) => ChildOfCur(s.t, c)
    case _ => true
  }

  // The child that the current process is in the middle of forking.
  predicate ChildOfCur(t: Tasks, c: Pid) {
    c in t.unborn && c < |t.procs| && t.procs[c].parent == t.cur
  }

  // ---------- the timer ----------

  // do_timer before it calls schedule.
  function Waken(s: System): System
    requires |s.z.wheel| == WHEEL_SIZE && Shape(s.t) && forall p | p in DueNow(s.t, s.z) :: p < |s.t.procs|
  {
    s.(t := EnqueueAll(s.t, DueNow(s.t, s.z)), z := Turned(s.t, s.z))
  }

  lemma WakenKeeps(s: System)
    requires Valid(s)
    ensures forall p | p in DueNow(s.t, s.z) :: p < |s.t.procs|
    ensures Valid(Waken(s)) && Potential(Waken(s).t) == Potential(s.t) && Woken(s.t, Waken(s).t, DueNow(s.t, s.z))
  {
    TurnKeeps(s.t, s.z);
    DueIsDeadline(s.t, s.z);
    EnqueueAllKeeps(s.t, DueNow(s.t, s.z));
    var t' := Waken(s).t;
    forall p: Pid | Runnable(s.t, p) ensures Runnable(t', p) && t'.procs[p] == s.t.procs[p] {
      assert !Waits(s.t, p);
    }
    WokenKeepsSems(s, t');
    assert Fed(s.t, s.t.cur);
  }

  // Waiters are not in the wheel, so waking sleepers leaves the semaphores alone.
  lemma WokenKeepsSems(s: System, t': Tasks)
    requires Valid(s) && Woken(s.t, t', DueNow(s.t, s.z))
    ensures SemsOk(t', Turned(s.t, s.z), s.sems)
    ensures forall i | 0 <= i < |s.sems| :: Settled(t', s.sems[i])
    ensures forall p | p in s.sems[FRAMES].waiters :: t'.procs[p].demand == 1
  {
    DueIsDeadline(s.t, s.z);
    forall i | 0 <= i < |s.sems|
      ensures SemListed(t', Turned(s.t, s.z), s.sems[i]) && Settled(t', s.sems[i])
      ensures forall p | p in s.sems[i].waiters :: p < |t'.procs| && t'.procs[p] == s.t.procs[p]
    {
      assert SemListed(s.t, s.z, s.sems[i]) && Settled(s.t, s.sems[i]);
      assert s.sems[i].waiters != [] ==> s.sems[i].waiters[0] in s.sems[i].waiters;
    }
  }

  // ---------- sleeping ----------

  // sys_tsleep before it calls schedule.
  function PutToSleep(s: System, timeout: nat): System
    requires Shape(s.t) && |s.z.wheel| == WHEEL_SIZE
  {
    var p := s.t.cur;
    if timeout == 0 then s.(t := Block(s.t), z := WaitInList(s.z, p))
    else
      var deadline := timeout + s.z.jiffies;
      s.(t := WithAlarm(Block(s.t), p, deadline), z := SleepInWheel(s.z, p, deadline))
  }

  lemma AlarmKeepsQueues(t: Tasks, p: Pid, deadline: nat)
    requires QueuesOk(t) && p < |t.procs|
    ensures QueuesOk(WithAlarm(t, p, deadline))
  {
    var t' := WithAlarm(t, p, deadline);
    forall q, l | 0 <= q < 2 && 0 <= l < LEVELS ensures ListOkBut(t', q, l, -1) {
      assert ListOkBut(t, q, l, -1);
      assert forall x :: Queued(t', x, q, l) <==> Queued(t, x, q, l);
    }
    assert forall q | 0 <= q < 2 :: CountOk(t, q) ==> CountOk(t', q);
    assert forall x | 0 <= x < |t.procs| :: Fed(t, x) ==> Fed(t', x);
  }

  lemma BlockedKeepsSems(s: System, t': Tasks, z': Sleepers)
    requires Valid(s) && OnlyBlocked(s.t, t', s.t.cur) && forall p | p in s.z.wait_list :: p in z'.wait_list
    ensures SemsOk(t', z', s.sems)
    ensures forall i | 0 <= i < |s.sems| :: Settled(t', s.sems[i])
    ensures forall p | p in s.sems[FRAMES].waiters :: t'.procs[p].demand == 1
  {
    forall i | 0 <= i < |s.sems|
      ensures SemListed(t', z', s.sems[i]) && Settled(t', s.sems[i])
      ensures forall p | p in s.sems[i].waiters :: p < |t'.procs| && t'.procs[p] == s.t.procs[p]
    {
      assert SemListed(s.t, s.z, s.sems[i]) && Settled(s.t, s.sems[i]);
      assert forall p | p in s.sems[i].waiters :: Waits(s.t, p);
      assert s.sems[i].waiters != [] ==> s.sems[i].waiters[0] in s.sems[i].waiters;
    }
  }

  lemma PutToSleepKeeps(s: System, timeout: nat)
    requires Valid(s) && Runnable(s.t, s.t.cur) && s.t.cur != PROCESS1 && s.t.cur !in s.granted
    ensures var s' := PutToSleep(s, timeout);
      Valid(s') && Waits(s'.t, s.t.cur) && OnlyBlocked(s.t, s'.t, s.t.cur) && s'.t.queues == Block(s.t).queues
  {
    var s', p := PutToSleep(s, timeout), s.t.cur;
    BlockKeeps(s.t);
    if timeout == 0 {
      WaitKeeps(s.t, s'.t, s.z, p);
    } else {
      AlarmKeepsQueues(Block(s.t), p, timeout + s.z.jiffies);
      SleepKeeps(s.t, s'.t, s.z, p, timeout + s.z.jiffies);
    }
    BlockedKeepsSems(s, s'.t, s'.z);
  }

  // ---------- fork ----------

  lemma EnterQuiet(t: Tasks, child: Pid)
    requires TasksOk(t) && child in t.unborn
    ensures Quiet(t, Enter(t, child)) && Born(Enter(t, child), t.cur)
  {
    assert Fed(t, child);
  }

  lemma CopyQuiet(t: Tasks)
    requires TasksOk(t) && Runnable(t, t.cur)
    ensures Quiet(t, Copy(t))
  {
  }

  lemma SharedKeeps(s: System, c: Pid)
    requires Valid(s) && c in s.t.unborn
    ensures Valid(s.(t := Share(s.t, c)))
  {
    ShareKeeps(s.t, c);
    QuietKeeps(s, Share(s.t, c));
  }

  lemma DroppedKeeps(s: System, c: Pid)
    requires Valid(s) && c in s.t.unborn
    ensures Valid(s.(t := Drop(s.t, c)))
  {
    DropKeeps(s.t, c);
    QuietKeeps(s, Drop(s.t, c));
  }

  lemma CopiedKeeps(s: System)
    requires Valid(s) && Runnable(s.t, s.t.cur)
    ensures Valid(s.(t := Copy(s.t)))
  {
    CopyKeeps(s.t);
    CopyQuiet(s.t);
    QuietKeeps(s, Copy(s.t));
  }

  lemma EnteredKeeps(s: System, c: Pid)
    requires Valid(s) && c in s.t.unborn
    ensures Valid(s.(t := Enter(s.t, c)))
  {
    EnterKeeps(s.t, c);
    EnterQuiet(s.t, c);
    QuietKeeps(s, Enter(s.t, c));
  }

  // ---------- the step ----------

  // Whether the action ends with a call of schedule.
  ghost predicate Reschedules(s: System, a: Action) {
    match a
    case Tick => true
    case Yield => true
    case SemDown(i, d, nowait) => !nowait && !(i < |s.sems| && Immediate(s, i, d))
    case GetFrame => !(|s.sems| > FRAMES && Immediate(s, FRAMES, 1))
    case _ => false
  }

  predicate Unlisted(t: Tasks, p: Pid)
    requires TwoQueues(t)
  {
    forall q, l | 0 <= q < 2 && 0 <= l < LEVELS :: p !in List(t, q, l)
  }

  // out_sched_queue finds the current process runnable, and in the list it names.
  predicate CanLeave(t: Tasks)
    requires Shape(t)
  {
    t.procs[t.cur].state.Running? && t.cur in List(t, t.procs[t.cur].sched_queue, t.procs[t.cur].nice)
  }

  // in_sched_queue links only nodes that are not linked, of processes that are blocked.
  ghost predicate CanWake(t: Tasks, ps: seq<Pid>)
    requires Shape(t)
  {
    NoRepeats(ps) && forall p | p in ps :: Waits(t, p) && Unlisted(t, p)
  }

  /** No assertion of the source fails, no node is linked twice and nothing absent is removed. */
  ghost predicate Defined(s: System, a: Action) {
    && Shape(s.t) && |s.z.wheel| == WHEEL_SIZE
    && match a
       case Tick => CanWake(s.t, DueNow(s.t, s.z))
       case Sleep(_) => CanLeave(s.t)
       case SemUp(i, _) => i < |s.sems| && CanWake(s.t, s.sems[i].waiters)
       case SemDown(i, d, nowait) => i < |s.sems| && d > 0 && (Immediate(s, i, d) || nowait || CanLeave(s.t))
       case GetFrame => |s.sems| > FRAMES && if Immediate(s, FRAMES, 1) then s.free != [] else CanLeave(s.t)
       case TakeFrame => s.free != []
       case FreeFrame(_) => |s.sems| > FRAMES && CanWake(s.t, s.sems[FRAMES].waiters)
       case ShareSlice(c) => c < |s.t.procs|
       case EnterChild(c) => c < |s.t.procs| && Unlisted(s.t, c)
       case DropChild(c) => c < |s.t.procs|
       case _ => true
  }

  // What the action does up to its call of schedule.
  function Done(s: System, a: Action): System
    requires Defined(s, a)
  {
    match a
    case Tick => Waken(s)
    case Yield => s
    case Sleep(timeout) => PutToSleep(s, timeout)
    case SemUp(i, num) => Up(s, i, num)
    case SemDown(i, d, nowait) => if Immediate(s, i, d) then Lowered(s, i, d) else if nowait then s else Join(s, i, d)
    case GetFrame => if Immediate(s, FRAMES, 1) then GetNow(s) else Join(s, FRAMES, 1)
    case TakeFrame => TakeUp(s)
    case FreeFrame(f) => GiveBack(s, f)
    case Fork => s.(t := Copy(s.t))
    case ShareSlice(c) => s.(t := Share(s.t, c))
    case EnterChild(c) => s.(t := Enter(s.t, c))
    case DropChild(c) => s.(t := Drop(s.t, c))
  }

  lemma BlockedUnlisted(t: Tasks, p: Pid)
    requires QueuesOk(t) && !Runnable(t, p)
    ensures Unlisted(t, p)
  {
    forall q, l | 0 <= q < 2 && 0 <= l < LEVELS ensures p !in List(t, q, l) {
      assert ListOkBut(t, q, l, -1);
    }
  }

  lemma RunnableListed(t: Tasks, p: Pid)
    requires QueuesOk(t) && Runnable(t, p)
    ensures p in List(t, t.procs[p].sched_queue, t.procs[p].nice)
  {
    assert ListOkBut(t, t.procs[p].sched_queue, t.procs[p].nice, -1);
    assert Queued(t, p, t.procs[p].sched_queue, t.procs[p].nice);
  }

  lemma WaitersCanWake(s: System, i: nat)
    requires Valid(s) && i < |s.sems|
    ensures CanWake(s.t, s.sems[i].waiters)
  {
    assert SemListed(s.t, s.z, s.sems[i]);
    forall p | p in s.sems[i].waiters ensures Waits(s.t, p) && Unlisted(s.t, p) {
      BlockedUnlisted(s.t, p);
    }
  }

  lemma DueCanWake(s: System)
    requires Valid(s)
    ensures CanWake(s.t, DueNow(s.t, s.z))
  {
    DueIsDeadline(s.t, s.z);
    forall p | p in DueNow(s.t, s.z) ensures Waits(s.t, p) && Unlisted(s.t, p) {
      BlockedUnlisted(s.t, p);
    }
  }

  /** An enabled action never runs into an assertion or a node that is linked already. */
  lemma EnabledDefined(s: System, a: Action)
    requires Valid(s) && Enabled(s, a)
    ensures Defined(s, a)
  {
    if Runnable(s.t, s.t.cur) {
      RunnableListed(s.t, s.t.cur);
    }
    match a
    case Tick => DueCanWake(s);
    case SemUp(i, _) => WaitersCanWake(s, i);
    case GetFrame => if Immediate(s, FRAMES, 1) { SurplusMeansFree(s); }
    case TakeFrame => SurplusMeansFree(s);
    case FreeFrame(_) => WaitersCanWake(s, FRAMES);
    case EnterChild(c) => BlockedUnlisted(s.t, c);
    case _ =>
  }

  function Acted(s: System, a: Action): System
    requires Valid(s) && Enabled(s, a)
  {
    EnabledDefined(s, a);
    Done(s, a)
  }

  lemma ActedKeeps(s: System, a: Action)
    requires Valid(s) && Enabled(s, a)
    ensures Valid(Acted(s, a))
  {
    match a
    case Tick => WakenKeeps(s);
    case Sleep(timeout) => PutToSleepKeeps(s, timeout);
    case SemUp(i, num) => UpKeeps(s, i, num);
    case SemDown(i, d, nowait) =>
      if Immediate(s, i, d) {
        LoweredKeeps(s, i, d);
      } else if !nowait {
        JoinKeeps(s, i, d);
      }
    case GetFrame => if Immediate(s, FRAMES, 1) { GetNowKeeps(s); } else { JoinKeeps(s, FRAMES, 1); }
    case TakeFrame => TakeUpKeeps(s);
    case FreeFrame(f) => GiveBackKeeps(s, f);
    case Fork => CopiedKeeps(s);
    case ShareSlice(c) => SharedKeeps(s, c);
    case EnterChild(c) => EnteredKeeps(s, c);
    case DropChild(c) => DroppedKeeps(s, c);
    case Yield =>
  }

  lemma ActedKeepsFrames(s: System, a: Action)
    requires Valid(s) && Enabled(s, a)
    ensures AllFrames(Acted(s, a)) == AllFrames(s)
  {
    match a
    case SemUp(i, num) => GrantsFrame(Raised(s, i, num), i);
    case GetFrame => if Immediate(s, FRAMES, 1) { GetNowKeeps(s); }
    case TakeFrame => TakeUpKeeps(s);
    case FreeFrame(f) => GiveBackKeeps(s, f);
    case _ =>
  }

  /** The state after a step. */
  ghost function Next(s: System, a: Action): System
    requires Valid(s) && Enabled(s, a)
  {
    ActedKeeps(s, a);
    if Reschedules(s, a) then Scheduled(Acted(s, a)) else Acted(s, a)
  }

  /** Every step keeps every invariant, and no frame appears or disappears. */
  lemma NextKeeps(s: System, a: Action)
    requires Valid(s) && Enabled(s, a)
    ensures Valid(Next(s, a)) && AllFrames(Next(s, a)) == AllFrames(s)
    ensures Reschedules(s, a) ==> Runnable(Next(s, a).t, Next(s, a).t.cur)
  {
    ActedKeeps(s, a);
    ActedKeepsFrames(s, a);
    if Reschedules(s, a) {
      ScheduledKeeps(Acted(s, a));
    }
  }

  /** sys_tsleep when nothing comes between its two halves. */
  ghost function Slept(s: System, timeout: nat): System
    requires Valid(s) && Enabled(s, Sleep(timeout))
  {
    ActedKeeps(s, Sleep(timeout));
    Next(Next(s, Sleep(timeout)), Yield)
  }

  // ksemaphore_down of a caller that is ready to wait.
  ghost function Down(s: System, i: nat, d: nat): System
    requires Valid(s) && Runnable(s.t, s.t.cur) && i < |s.sems| && d > 0
    requires Immediate(s, i, d) || (s.t.cur != PROCESS1 && s.t.cur !in s.granted && (i == FRAMES ==> d == 1))
  {
    if Immediate(s, i, d) then Lowered(s, i, d) else JoinKeeps(s, i, d); Scheduled(Join(s, i, d))
  }

  // ---------- the start ----------

  function NoLists(n: nat): (ls: seq<seq<Pid>>)
    ensures |ls| == n && forall k | 0 <= k < n :: ls[k] == []
  {
    seq(n, k => [])
  }

  // turn_to_process1 and the init functions: process 1 is not queued yet.
  function Bare(free: seq<Frame>, surpluses: seq<nat>): System {
    System(
      Tasks(
        [Process(0, Running, 5, 0, 0, 0, NO_PARENT)],
        [RunQueue(NoLists(LEVELS), 0), RunQueue(NoLists(LEVELS), 0)],
        0, PROCESS1, {PROCESS1}),
      Sleepers(NoLists(WHEEL_SIZE), [], 0),
      seq(|surpluses|, i requires 0 <= i < |surpluses| => Semaphore(surpluses[i], [])),
      free, {}, {})
  }

  function Boot(free: seq<Frame>, surpluses: seq<nat>): System {
    var s := Bare(free, surpluses);
    s.(t := Enqueue(s.t, PROCESS1))
  }

  lemma BootQueues(free: seq<Frame>, surpluses: seq<nat>)
    ensures QueuesOk(Boot(free, surpluses).t) && Runnable(Boot(free, surpluses).t, PROCESS1)
  {
    var s := Bare(free, surpluses);
    TotalZero(NoLists(LEVELS));
    assert forall q, l | 0 <= q < 2 && 0 <= l < LEVELS :: ListOkBut(s.t, q, l, -1);
    assert QueuesOk(s.t);
    EnqueueKeeps(s.t, PROCESS1);
  }

  lemma BootValid(free: seq<Frame>, surpluses: seq<nat>)
    requires NoRepeats(free) && |surpluses| > FRAMES && surpluses[FRAMES] == |free|
    ensures Valid(Boot(free, surpluses))
  {
    BootQueues(free, surpluses);
    var s' := Boot(free, surpluses);
    assert forall h | 0 <= h < WHEEL_SIZE :: BucketOk(s'.t, s'.z, h);
    assert forall i | 0 <= i < |surpluses| :: SemListed(s'.t, s'.z, s'.sems[i]) && Settled(s'.t, s'.sems[i]);
  }

  /** The check in get_free_mem_size holds exactly when no grant is waiting to be taken up. */
  lemma CountMatchesSurplus(s: System)
    requires Valid(s)
    ensures |s.free| == s.sems[FRAMES].surplus <==> s.granted == {}
  {
    if s.granted != {} {
      var p :| p in s.granted;
      assert |s.granted - {p}| == |s.granted| - 1;
    }
  }

  ghost predicate InRunQueue(s: System, p: Pid, q: nat, l: nat)
    requires Shape(s.t)
  {
    q < 2 && l < LEVELS && p in List(s.t, q, l)
  }

  ghost predicate InBucket(s: System, p: Pid, h: nat) {
    h < |s.z.wheel| && p in s.z.wheel[h]
  }

  /** Everybody is in exactly one place: a runnable process in the one list it names, a blocked one
      in the wait list or in the bucket of its deadline, never in both and in no run queue. */
  lemma OnePlaceEach(s: System, p: Pid)
    requires Valid(s) && Born(s.t, p)
    ensures var pr := s.t.procs[p];
      && (forall q, l :: InRunQueue(s, p, q, l) <==> pr.state.Running? && q == pr.sched_queue && l == pr.nice)
      && (p in s.z.wait_list ==> pr.state.Waiting?)
      && (forall h: nat :: InBucket(s, p, h) <==>
          pr.state.Waiting? && p !in s.z.wait_list && h == Hash(pr.wakeup_jiffies))
  {
    forall q: nat, l: nat
      ensures InRunQueue(s, p, q, l) <==>
        s.t.procs[p].state.Running? && q == s.t.procs[p].sched_queue && l == s.t.procs[p].nice
    {
      if q < 2 && l < LEVELS {
        assert ListOkBut(s.t, q, l, -1);
        assert p in List(s.t, q, l) <==> Queued(s.t, p, q, l);
      }
    }
    assert p in s.z.wait_list ==> Waits(s.t, p);
    forall h: nat
      ensures InBucket(s, p, h) <==> Waits(s.t, p) && p !in s.z.wait_list && h == Hash(s.t.procs[p].wakeup_jiffies)
    {
      if h < WHEEL_SIZE {
        assert BucketOk(s.t, s.z, h);
        assert p in s.z.wheel[h] <==> Asleep(s.t, s.z, p, h);
      }
    }
  }
}
