/** Inputs on which the scheduler and the frame count fall short, each the concrete side of a
    condition proved elsewhere. */
module Instances {
  import opened Scheduler
  import opened Semaphores
  import opened KernelSteps
  import opened KernelRuns

  /** Process 1 alone, right after the start, goes to sleep: the invariant of the queues holds, nobody
      is runnable, and schedule resumes process 1 although it is blocked. */
  lemma BlockedProcess1Resumes(free: seq<Frame>, surpluses: seq<nat>)
    ensures var t := Boot(free, surpluses).t;
      var b := Block(t);
      && QueuesOk(b) && Born(b, b.cur) && b.procs[b.cur].rest_time > 0
      && Schedule(b).cur == PROCESS1 && !Runnable(Schedule(b), PROCESS1)
  {
    var t := Boot(free, surpluses).t;
    BootQueues(free, surpluses);
    BlockKeeps(t);
    var b := Block(t);
    assert forall p: Pid :: !Runnable(b, p);
    DispatchesRunnable(b);
  }

  // One frame, taken by process 1, which has then forked.
  ghost function Forked(f: Frame): System {
    var s0 := Boot([f], [1]);
    var t := Enter(Share(Copy(s0.t), 1), 1);
    s0.(t := t, sems := [Semaphore(0, [])], free := [], used := {f})
  }

  lemma TakesFrame(f: Frame)
    ensures var s0 := Boot([f], [1]);
      && Valid(s0) && Enabled(s0, GetFrame)
      && Next(s0, GetFrame) == s0.(sems := [Semaphore(0, [])], free := [], used := {f})
  {
    BootValid([f], [1]);
    var s0 := Boot([f], [1]);
    assert Immediate(s0, FRAMES, 1);
    var s1 := Next(s0, GetFrame);
    assert s1.free == [] && s1.used == {f} && s1.sems == [Semaphore(0, [])];
  }

  lemma ReachForked(f: Frame) returns (ss: seq<System>, acts: seq<Action>)
    ensures IsRun(ss, acts) && ss[0] == Boot([f], [1]) && ss[|acts|] == Forked(f) && Valid(Forked(f))
  {
    TakesFrame(f);
    ss, acts := FirstStep(Boot([f], [1]), GetFrame);
    ss, acts := StepOn(ss, acts, Fork);
    ss, acts := StepOn(ss, acts, ShareSlice(1));
    ss, acts := StepOn(ss, acts, EnterChild(1));
  }

  lemma FirstStep(s: System, a: Action) returns (ss: seq<System>, acts: seq<Action>)
    requires Valid(s) && Enabled(s, a)
    ensures IsRun(ss, acts) && |acts| == 1 && ss[0] == s && ss[1] == Next(s, a) && Valid(ss[1])
  {
    RunExtends([s], [], a);
    NextKeeps(s, a);
    ss, acts := [s] + [Next(s, a)], [] + [a];
  }

  // The run goes on with one more step.
  lemma StepOn(ss: seq<System>, acts: seq<Action>, a: Action) returns (ss': seq<System>, acts': seq<Action>)
    requires IsRun(ss, acts) && Valid(ss[|acts|]) && Enabled(ss[|acts|], a)
    ensures IsRun(ss', acts') && |acts'| == |acts| + 1 && ss'[0] == ss[0]
    ensures ss'[|acts'|] == Next(ss[|acts|], a) && Valid(ss'[|acts'|])
  {
    RunExtends(ss, acts, a);
    NextKeeps(ss[|acts|], a);
    ss', acts' := ss + [Next(ss[|acts|], a)], acts + [a];
  }

  // The child is current, and no frame is left.
  ghost predicate ChildCurrent(s: System, f: Frame) {
    && Valid(s) && s.t.cur == 1 && Runnable(s.t, 1)
    && s.sems == [Semaphore(0, [])] && s.used == {f} && s.granted == {}
  }

  // After the parent's call of schedule the child heads level 0.
  lemma ChildRuns(f: Frame)
    requires Valid(Forked(f))
    ensures Enabled(Forked(f), Yield) && ChildCurrent(Next(Forked(f), Yield), f)
  {
    var s := Forked(f);
    NextKeeps(s, Yield);
    assert s.t.queues[0].levels[0] == [0, 1];
    assert Spend(s.t).queues[0].levels[0] == [1, 0];
  }

  // It asks for a frame and waits.
  lemma ChildWaits(s: System, f: Frame)
    requires ChildCurrent(s, f)
    ensures Enabled(s, GetFrame)
    ensures var s' := Next(s, GetFrame);
      && Valid(s') && Runnable(s'.t, s'.t.cur)
      && s'.sems == [Semaphore(0, [1])] && s'.used == {f} && s'.granted == {}
      && 1 < |s'.t.procs| && s'.t.procs[1].demand == 1
  {
    assert !Immediate(s, FRAMES, 1);
    ActedKeeps(s, GetFrame);
    NextKeeps(s, GetFrame);
    assert [] + [s.t.cur] == [1];
    assert Join(s, FRAMES, 1).sems == [Semaphore(0, [1])];
  }

  // Process 1 gives its frame back.
  lemma FrameBack(s: System, f: Frame)
    requires Valid(s) && Runnable(s.t, s.t.cur) && s.sems == [Semaphore(0, [1])] && s.used == {f} && s.granted == {}
    requires 1 < |s.t.procs| && s.t.procs[1].demand == 1
    ensures Enabled(s, FreeFrame(f))
    ensures var s' := Next(s, FreeFrame(f));
      Valid(s') && s'.granted == {1} && s'.sems[FRAMES].surplus == 0 && |s'.free| == 1
  {
    NextKeeps(s, FreeFrame(f));
    var r := Raised(Push(s, f), FRAMES, 1);
    assert r.sems == [Semaphore(1, [1])] && [1][1..] == [];
    assert CanGrant(r, FRAMES) && Grant(r, FRAMES).sems == [Semaphore(0, [])];
    assert Grants(Grant(r, FRAMES), FRAMES) == Grant(r, FRAMES);
    assert Next(s, FreeFrame(f)) == Grants(r, FRAMES) == Grant(r, FRAMES);
  }

  /** A run from the start to a state with a grant pending: process 1 takes the only frame, forks and
      yields, the child asks for a frame and waits, process 1 gives its frame back.  One frame is
      listed, the surplus is 0, and the check of get_free_mem_size would fail. */
  lemma GrantCanBePending(f: Frame) returns (ss: seq<System>, acts: seq<Action>)
    ensures IsRun(ss, acts) && ss[0] == Boot([f], [1])
    ensures var s := ss[|acts|]; s.granted == {1} && s.sems != [] && |s.free| == 1 && s.sems[FRAMES].surplus == 0
  {
    ss, acts := ReachForked(f);
    ChildRuns(f);
    ss, acts := StepOn(ss, acts, Yield);
    var s3 := ss[|acts|];
    ChildWaits(s3, f);
    ss, acts := StepOn(ss, acts, GetFrame);
    var s4 := ss[|acts|];
    FrameBack(s4, f);
    ss, acts := StepOn(ss, acts, FreeFrame(f));
  }
}
