/** src/ksemaphore.c and the frame list of src/mem.c as values, for untimed and try calls. */
module Semaphores {
  import opened Lists
  import opened Scheduler
  import opened TimeWheel

  type Frame = nat

  datatype Semaphore = Semaphore(surplus: nat, waiters: seq<Pid>)

  const FRAMES: nat := 0     // mem_semaphore, which counts the free frames

  /** free is the frame list from free_mem_desc_head on, used the frames handed out, granted the
      processes whose frame is granted but that have not run since. */
  datatype System = System(
    t: Tasks,
    z: Sleepers,
    sems: seq<Semaphore>,
    free: seq<Frame>,
    used: set<Frame>,
    granted: set<Pid>)

  // ---------- the invariant ----------

  ghost predicate SemListed(t: Tasks, z: Sleepers, m: Semaphore) {
    NoRepeats(m.waiters) && forall p | p in m.waiters :: p in z.wait_list && p < |t.procs| && t.procs[p].demand > 0
  }

  // Nobody waits, or the first waiter wants more than there is.
  ghost predicate Settled(t: Tasks, m: Semaphore) {
    m.waiters != [] ==> m.waiters[0] < |t.procs| && t.procs[m.waiters[0]].demand > m.surplus
  }

  // No process waits for two semaphores.
  ghost predicate Exclusive(sems: seq<Semaphore>) {
    forall i, j, p | 0 <= i < |sems| && 0 <= j < |sems| && p in sems[i].waiters && p in sems[j].waiters :: i == j
  }

  ghost predicate SemsOk(t: Tasks, z: Sleepers, sems: seq<Semaphore>) {
    (forall i | 0 <= i < |sems| :: SemListed(t, z, sems[i])) && Exclusive(sems)
  }

  /** The frame list holds the surplus and one frame for each grant not taken up; no frame is
      both listed and handed out. */
  ghost predicate FramesOk(s: System) {
    && |s.sems| > FRAMES && NoRepeats(s.free) && (forall f | f in s.free :: f !in s.used)
    && |s.free| == s.sems[FRAMES].surplus + |s.granted|
    && (forall p | p in s.granted :: Runnable(s.t, p))
    && (forall p | p in s.sems[FRAMES].waiters :: p < |s.t.procs| && s.t.procs[p].demand == 1)
  }

  // What holds at every turn of the loop of ksemaphore_up.
  ghost predicate Base(s: System) {
    TasksOk(s.t) && SleepersOk(s.t, s.z) && SemsOk(s.t, s.z, s.sems) && FramesOk(s)
  }

  /** What holds between steps. */
  ghost predicate Valid(s: System) {
    Base(s) && forall i | 0 <= i < |s.sems| :: Settled(s.t, s.sems[i])
  }

  // t' has the same blocked processes waiting for the same things.
  ghost predicate Quiet(t: Tasks, t': Tasks) {
    && SameWaits(t, t')
    && (forall p | 0 <= p < |t.procs| :: t'.procs[p].demand == t.procs[p].demand)
    && (forall p :: Runnable(t, p) ==> Runnable(t', p))
  }

  lemma QuietKeeps(s: System, t': Tasks)
    requires Base(s) && TasksOk(t') && Quiet(s.t, t')
    ensures Base(s.(t := t')) && (Valid(s) ==> Valid(s.(t := t')))
  {
    SleepersUnaffected(s.t, t', s.z);
    assert forall i | 0 <= i < |s.sems| :: SemListed(s.t, s.z, s.sems[i]) ==> SemListed(t', s.z, s.sems[i]);
    assert forall i | 0 <= i < |s.sems| :: Settled(s.t, s.sems[i]) ==> Settled(t', s.sems[i]);
  }

  // ---------- ksemaphore_up ----------

  function SetDemand(t: Tasks, p: Pid, d: nat): Tasks
    requires p < |t.procs|
  {
    t.(procs := t.procs[p := t.procs[p].(demand := d)])
  }

  predicate CanGrant(s: System, i: nat)
    requires i < |s.sems|
  {
    var m := s.sems[i];
    m.waiters != [] && m.waiters[0] < |s.t.procs| && s.t.procs[m.waiters[0]].demand <= m.surplus
  }

  // One turn of the loop: the first waiter gets what it asked for.
  function Grant(s: System, i: nat): System
    requires i < |s.sems| && CanGrant(s, i) && Shape(s.t)
  {
    var m := s.sems[i];
    var p := m.waiters[0];
    s.(t := SetDemand(Enqueue(s.t, p), p, 0),
       z := OutOfList(s.z, p),
       sems := s.sems[i := Semaphore(m.surplus - s.t.procs[p].demand, m.waiters[1..])],
       granted := if i == FRAMES then s.granted + {p} else s.granted)
  }

  function Grants(s: System, i: nat): System
    requires i < |s.sems| && Shape(s.t)
    decreases if i < |s.sems| then |s.sems[i].waiters| else 0
  {
    if CanGrant(s, i) then Grants(Grant(s, i), i) else s
  }

  function Raised(s: System, i: nat, num: nat): System
    requires i < |s.sems|
  {
    s.(sems := s.sems[i := s.sems[i].(surplus := s.sems[i].surplus + num)])
  }

  /** ksemaphore_up */
  function Up(s: System, i: nat, num: nat): System
    requires i < |s.sems| && Shape(s.t)
  {
    Grants(Raised(s, i, num), i)
  }

  lemma DemandKeepsQueues(t: Tasks, p: Pid, d: nat)
    requires QueuesOk(t) && p < |t.procs|
    ensures QueuesOk(SetDemand(t, p, d))
  {
    var t' := SetDemand(t, p, d);
    forall q, l | 0 <= q < 2 && 0 <= l < LEVELS ensures ListOkBut(t', q, l, -1) {
      assert ListOkBut(t, q, l, -1);
      assert forall x :: Queued(t', x, q, l) <==> Queued(t, x, q, l);
    }
    assert forall q | 0 <= q < 2 :: CountOk(t, q) ==> CountOk(t', q);
    assert forall x | 0 <= x < |t.procs| :: Fed(t, x) ==> Fed(t', x);
  }

  lemma GrantWakes(s: System, i: nat)
    requires Base(s) && i < |s.sems| && CanGrant(s, i)
    ensures var s', p := Grant(s, i), s.sems[i].waiters[0];
      && TasksOk(s'.t) && SleepersOk(s'.t, s'.z) && Runnable(s'.t, p) && Waits(s.t, p) && p in s.z.wait_list
      && s'.t.procs[p].demand == 0
      && (forall x | 0 <= x < |s.t.procs| && x != p :: s'.t.procs[x] == s.t.procs[x])
      && (forall x :: Runnable(s.t, x) ==> Runnable(s'.t, x))
  {
    var p := s.sems[i].waiters[0];
    assert SemListed(s.t, s.z, s.sems[i]) && p in s.sems[i].waiters;
    assert Waits(s.t, p);
    EnqueueKeeps(s.t, p);
    WakeupKeeps(s.t, s.z, p);
    DemandKeepsQueues(Enqueue(s.t, p), p, 0);
    SleepersUnaffected(Enqueue(s.t, p), SetDemand(Enqueue(s.t, p), p, 0), OutOfList(s.z, p));
    assert Fed(s.t, p);
  }

  lemma GrantKeepsSems(s: System, i: nat)
    requires Base(s) && i < |s.sems| && CanGrant(s, i)
    ensures var s' := Grant(s, i); SemsOk(s'.t, s'.z, s'.sems)
    ensures forall j | 0 <= j < |s.sems| && j != i && Settled(s.t, s.sems[j]) ::
      Settled(Grant(s, i).t, Grant(s, i).sems[j])
  {
    GrantWakes(s, i);
    var s', p := Grant(s, i), s.sems[i].waiters[0];
    assert p in s.sems[i].waiters;
    WithoutKeeps(s.z.wait_list, p);
    forall j | 0 <= j < |s.sems| ensures SemListed(s'.t, s'.z, s'.sems[j]) {
      assert SemListed(s.t, s.z, s.sems[j]);
      if j == i {
        forall x | x in s'.sems[i].waiters ensures x in s.sems[i].waiters && x != p {
          MemberOfRest(s.sems[i].waiters, x);
        }
      } else {
        assert p !in s.sems[j].waiters;
      }
    }
    assert forall j, x | 0 <= j < |s.sems| && x in s'.sems[j].waiters :: x in s.sems[j].waiters;
    forall j | 0 <= j < |s.sems| && j != i && Settled(s.t, s.sems[j]) ensures Settled(s'.t, s'.sems[j]) {
      if s.sems[j].waiters != [] {
        assert s.sems[j].waiters[0] in s.sems[j].waiters;
      }
    }
  }

  lemma GrantKeeps(s: System, i: nat)
    requires Base(s) && i < |s.sems| && CanGrant(s, i)
    ensures Base(Grant(s, i))
    ensures forall j | 0 <= j < |s.sems| && j != i && Settled(s.t, s.sems[j]) ::
      Settled(Grant(s, i).t, Grant(s, i).sems[j])
  {
    GrantWakes(s, i);
    GrantKeepsSems(s, i);
    var s', p := Grant(s, i), s.sems[i].waiters[0];
    assert p in s.sems[i].waiters;
    assert p !in s.granted;
    if i == FRAMES {
      assert s.t.procs[p].demand == 1;
      forall x | x in s'.sems[FRAMES].waiters ensures x in s.sems[FRAMES].waiters && x != p {
        MemberOfRest(s.sems[FRAMES].waiters, x);
      }
    } else {
      assert p !in s.sems[FRAMES].waiters;
    }
  }

  lemma {:induction false} GrantsKeep(s: System, i: nat)
    requires Base(s) && i < |s.sems|
    requires forall j | 0 <= j < |s.sems| && j != i :: Settled(s.t, s.sems[j])
    ensures Valid(Grants(s, i))
    decreases |s.sems[i].waiters|
  {
    if CanGrant(s, i) {
      GrantKeeps(s, i);
      GrantsKeep(Grant(s, i), i);
    } else {
      assert SemListed(s.t, s.z, s.sems[i]);
      assert s.sems[i].waiters != [] ==> s.sems[i].waiters[0] in s.sems[i].waiters;
    }
  }

  lemma RaisedKeeps(s: System, i: nat, num: nat)
    requires Base(s) && i < |s.sems| && i != FRAMES
    ensures Base(Raised(s, i, num))
  {
    var s' := Raised(s, i, num);
    assert forall j | 0 <= j < |s.sems| :: SemListed(s.t, s.z, s.sems[j]) ==> SemListed(s.t, s.z, s'.sems[j]);
    assert forall j | 0 <= j < |s.sems| :: s'.sems[j].waiters == s.sems[j].waiters;
  }

  lemma UpKeeps(s: System, i: nat, num: nat)
    requires Valid(s) && i < |s.sems| && i != FRAMES
    ensures Valid(Up(s, i, num))
  {
    RaisedKeeps(s, i, num);
    GrantsKeep(Raised(s, i, num), i);
  }

  // ---------- ksemaphore_down ----------

  predicate Immediate(s: System, i: nat, demand: nat)
    requires i < |s.sems|
  {
    s.sems[i].surplus >= demand && s.sems[i].waiters == []
  }

  function Lowered(s: System, i: nat, demand: nat): System
    requires i < |s.sems| && Immediate(s, i, demand)
  {
    s.(sems := s.sems[i := s.sems[i].(surplus := s.sems[i].surplus - demand)])
  }

  // The current process joins the waiters; schedule comes after.
  function Join(s: System, i: nat, demand: nat): System
    requires i < |s.sems| && Shape(s.t)
  {
    var m := s.sems[i];
    s.(t := Block(SetDemand(s.t, s.t.cur, demand)),
       z := WaitInList(s.z, s.t.cur),
       sems := s.sems[i := m.(waiters := m.waiters + [s.t.cur])])
  }

  // The same with a timeout: the process goes into the wheel instead of the wait list.
  function JoinTimed(s: System, i: nat, demand: nat, timeout: nat): System
    requires i < |s.sems| && Shape(s.t) && |s.z.wheel| == WHEEL_SIZE
  {
    var m, deadline := s.sems[i], timeout + s.z.jiffies;
    s.(t := WithAlarm(Block(SetDemand(s.t, s.t.cur, demand)), s.t.cur, deadline),
       z := SleepInWheel(s.z, s.t.cur, deadline),
       sems := s.sems[i := m.(waiters := m.waiters + [s.t.cur])])
  }

  // schedule, by a process that may just have blocked.
  predicate CanSchedule(t: Tasks) {
    Shape(t) && t.procs[t.cur].rest_time > 0
  }

  function Scheduled(s: System): System
    requires CanSchedule(s.t)
  {
    s.(t := Schedule(s.t))
  }

  lemma ScheduleQuiet(t: Tasks)
    requires CanSchedule(t)
    ensures Quiet(t, Schedule(t))
  {
  }

  lemma ScheduledKeeps(s: System)
    requires Valid(s)
    ensures Valid(Scheduled(s)) && Runnable(Scheduled(s).t, Scheduled(s).t.cur)
  {
    var l := ScheduleKeeps(s.t);
    var t' := Schedule(s.t);
    ScheduleQuiet(s.t);
    SleepersUnaffected(s.t, t', s.z);
    assert forall i | 0 <= i < |s.sems| :: SemListed(s.t, s.z, s.sems[i]) ==> SemListed(t', s.z, s.sems[i]);
    assert forall i | 0 <= i < |s.sems| :: Settled(s.t, s.sems[i]) ==> Settled(t', s.sems[i]);
  }

  lemma JoinKeepsSems(s: System, i: nat, demand: nat)
    requires Valid(s) && Runnable(s.t, s.t.cur) && i < |s.sems| && demand > 0 && !Immediate(s, i, demand)
    ensures var s' := Join(s, i, demand);
      SemsOk(s'.t, s'.z, s'.sems) && forall j | 0 <= j < |s.sems| :: Settled(s'.t, s'.sems[j])
  {
    var s', p := Join(s, i, demand), s.t.cur;
    assert !Waits(s.t, p);
    forall j | 0 <= j < |s.sems| ensures SemListed(s'.t, s'.z, s'.sems[j]) && p !in s.sems[j].waiters {
      assert SemListed(s.t, s.z, s.sems[j]);
      assert p in s.sems[j].waiters ==> Waits(s.t, p);
      NoRepeatsAppend(s.sems[j].waiters, p);
    }
    forall j | 0 <= j < |s.sems| ensures Settled(s'.t, s'.sems[j]) {
      assert Settled(s.t, s.sems[j]);
      assert s.sems[j].waiters != [] ==> s.sems[j].waiters[0] in s.sems[j].waiters;
    }
  }

  lemma JoinKeeps(s: System, i: nat, demand: nat)
    requires Valid(s) && Runnable(s.t, s.t.cur) && i < |s.sems| && demand > 0 && !Immediate(s, i, demand)
    requires s.t.cur != PROCESS1 && s.t.cur !in s.granted && (i == FRAMES ==> demand == 1)
    ensures Valid(Join(s, i, demand)) && Waits(Join(s, i, demand).t, s.t.cur)
  {
    var s', p := Join(s, i, demand), s.t.cur;
    DemandKeepsQueues(s.t, p, demand);
    BlockKeeps(SetDemand(s.t, p, demand));
    WaitKeeps(s.t, s'.t, s.z, p);
    JoinKeepsSems(s, i, demand);
    forall x | x in s'.sems[FRAMES].waiters ensures x < |s'.t.procs| && s'.t.procs[x].demand == 1 {
      assert x in s.sems[FRAMES].waiters || x == p;
      if x in s.sems[FRAMES].waiters {
        assert SemListed(s.t, s.z, s.sems[FRAMES]);
        assert Waits(s.t, x) && !Waits(s.t, p);
      }
    }
  }

  lemma LoweredKeeps(s: System, i: nat, demand: nat)
    requires Valid(s) && i < |s.sems| && i != FRAMES && Immediate(s, i, demand)
    ensures Valid(Lowered(s, i, demand))
  {
    var s' := Lowered(s, i, demand);
    assert forall j | 0 <= j < |s.sems| :: s'.sems[j].waiters == s.sems[j].waiters;
    assert forall j | 0 <= j < |s.sems| :: SemListed(s.t, s.z, s.sems[j]) ==> SemListed(s.t, s.z, s'.sems[j]);
    assert forall j | 0 <= j < |s.sems| :: Settled(s.t, s.sems[j]) ==> Settled(s.t, s'.sems[j]);
  }

  // ---------- frames ----------

  // The head of the frame list goes to the current process.
  function Pop(s: System): System
    requires s.free != []
  {
    s.(free := s.free[1..], used := s.used + {s.free[0]})
  }

  function Push(s: System, f: Frame): System {
    s.(free := [f] + s.free, used := s.used - {f})
  }

  function AllFrames(s: System): set<Frame> {
    (set f | f in s.free) + s.used
  }

  lemma PopFacts(s: System)
    requires s.free != [] && NoRepeats(s.free) && forall f | f in s.free :: f !in s.used
    ensures var s' := Pop(s);
      NoRepeats(s'.free) && (forall f | f in s'.free :: f !in s'.used) && |s'.free| == |s.free| - 1
    ensures AllFrames(Pop(s)) == AllFrames(s)
  {
    forall f ensures f in Pop(s).free <==> f in s.free && f != s.free[0] {
      MemberOfRest(s.free, f);
    }
  }

  // getonefreepage when a frame is to be had at once.
  function GetNow(s: System): System
    requires |s.sems| > FRAMES && Immediate(s, FRAMES, 1) && s.free != []
  {
    Pop(Lowered(s, FRAMES, 1))
  }

  // The second half of getonefreepage, by a process whose wait is over.
  function TakeUp(s: System): System
    requires s.free != []
  {
    Pop(s).(granted := s.granted - {s.t.cur})
  }

  // freeonepage
  function GiveBack(s: System, f: Frame): System
    requires |s.sems| > FRAMES && Shape(s.t)
  {
    Up(Push(s, f), FRAMES, 1)
  }

  lemma SurplusMeansFree(s: System)
    requires FramesOk(s) && (s.granted != {} || s.sems[FRAMES].surplus > 0)
    ensures s.free != []
  {
    if s.granted != {} {
      var p :| p in s.granted;
      assert |s.granted - {p}| == |s.granted| - 1;
    }
  }

  lemma GetNowKeeps(s: System)
    requires Valid(s) && Immediate(s, FRAMES, 1)
    ensures s.free != [] && Valid(GetNow(s)) && AllFrames(GetNow(s)) == AllFrames(s)
  {
    SurplusMeansFree(s);
    PopFacts(s);
    var s' := GetNow(s);
    assert forall j | 0 <= j < |s.sems| :: s'.sems[j].waiters == s.sems[j].waiters;
    assert forall j | 0 <= j < |s.sems| :: SemListed(s.t, s.z, s.sems[j]) ==> SemListed(s.t, s.z, s'.sems[j]);
    assert forall j | 0 <= j < |s.sems| :: Settled(s.t, s.sems[j]) ==> Settled(s.t, s'.sems[j]);
  }

  /** A process granted a frame finds the list non-empty when it runs again. */
  lemma TakeUpKeeps(s: System)
    requires Valid(s) && s.t.cur in s.granted
    ensures s.free != [] && Valid(TakeUp(s)) && AllFrames(TakeUp(s)) == AllFrames(s)
  {
    SurplusMeansFree(s);
    PopFacts(s);
  }

  lemma GiveBackBase(s: System, f: Frame)
    requires Valid(s) && f in s.used
    ensures Base(Raised(Push(s, f), FRAMES, 1))
    ensures forall j | 0 <= j < |s.sems| && j != FRAMES :: Settled(s.t, Raised(Push(s, f), FRAMES, 1).sems[j])
  {
    NoRepeatsPrepend(f, s.free);
    var s1 := Raised(Push(s, f), FRAMES, 1);
    assert forall j | 0 <= j < |s.sems| :: s1.sems[j].waiters == s.sems[j].waiters;
    assert forall j | 0 <= j < |s.sems| :: SemListed(s.t, s.z, s.sems[j]) ==> SemListed(s.t, s.z, s1.sems[j]);
    assert forall j | 0 <= j < |s.sems| && j != FRAMES :: Settled(s.t, s.sems[j]) ==> Settled(s1.t, s1.sems[j]);
  }

  lemma GiveBackKeeps(s: System, f: Frame)
    requires Valid(s) && f in s.used
    ensures Valid(GiveBack(s, f)) && AllFrames(GiveBack(s, f)) == AllFrames(s)
  {
    GiveBackBase(s, f);
    var s1 := Raised(Push(s, f), FRAMES, 1);
    GrantsKeep(s1, FRAMES);
    GrantsFrame(s1, FRAMES);
    PushFrames(s, f);
  }

  lemma PushFrames(s: System, f: Frame)
    requires f in s.used
    ensures AllFrames(Push(s, f)) == AllFrames(s)
  {
  }

  // ksemaphore_up moves no frame.
  lemma {:induction false} GrantsFrame(s: System, i: nat)
    requires i < |s.sems| && Shape(s.t)
    ensures var s' := Grants(s, i); s'.free == s.free && s'.used == s.used && |s'.sems| == |s.sems|
    ensures var s' := Grants(s, i); s'.t.cur == s.t.cur && s'.t.active == s.t.active && |s'.t.procs| == |s.t.procs|
    ensures var s' := Grants(s, i); forall j | 0 <= j < |s.sems| && j != i :: s'.sems[j] == s.sems[j]
    ensures Grants(s, i).z.jiffies == s.z.jiffies && Shape(Grants(s, i).t)
    decreases |s.sems[i].waiters|
  {
    if CanGrant(s, i) {
      GrantsFrame(Grant(s, i), i);
    }
  }
}
