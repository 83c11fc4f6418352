/** The kernel's state as the source keeps it, and the functions of src/sched.c, src/wait.c,
    src/ksemaphore.c and src/mem.c that change it.  A circular list is a sequence here: insertion
    at head.pre appends, at head prepends, and removal drops the node (module CircularList). */
module KernelState {
  import opened Lists
  import opened Scheduler
  import opened TimeWheel
  import opened Semaphores
  import opened KernelSteps
  import opened TimedWaits
  import F = FrameTable

  const PROC_LEN: nat := 32          // sleepers taken in one batch

  // What ksemaphore_down has come to when it gives up the processor or returns.
  datatype Outcome = Got(n: nat) | Again | Blocked

  class Kernel {
    var procs: seq<Process>
    var queues: seq<RunQueue>
    var active_queue: nat
    var cur_process: Pid
    var wheel: seq<seq<Pid>>
    var wait_list: seq<Pid>
    var jiffies: nat
    var sems: seq<Semaphore>
    const frames: F.Frames
    ghost var unborn: set<Pid>
    ghost var used: set<Frame>
    ghost var granted: set<Pid>

    ghost function State(): System
      reads this, frames
    {
      System(
        Tasks(procs, queues, active_queue, cur_process, unborn),
        Sleepers(wheel, wait_list, jiffies),
        sems, frames.free, used, granted)
    }

    ghost predicate FramesKnown()
      reads this, frames, frames.mem_descs
    {
      frames.Valid() && forall f | f in used :: f < frames.mem_descs.Length && frames.mem_descs[f].present
    }

    ghost predicate Ok()
      reads this, frames, frames.mem_descs
    {
      Valid(State()) && FramesKnown()
    }

    /** The start: every page free but the kernel's, process 1 alone in the active queue.  The frame
        list is sound exactly when there is room above the kernel. */
    constructor (pagecount: nat, hasUsed: nat, surpluses: seq<nat>)
      requires 512 < pagecount && 256 + hasUsed <= pagecount
      ensures fresh(frames) && Valid(State()) && (Ok() <==> F.Roomy(pagecount, hasUsed))
      ensures var free := F.FreeAtStart(pagecount, hasUsed); State() == Boot(free, [|free|] + surpluses)
    {
      procs := [Process(0, Running, 5, 0, 0, 0, NO_PARENT)];
      var no_lists: seq<seq<Pid>> := seq(LEVELS, k => []);
      queues := [RunQueue(no_lists, 0), RunQueue(no_lists, 0)];
      active_queue := 0;
      cur_process := PROCESS1;
      wheel := seq(WHEEL_SIZE, k => []);
      wait_list := [];
      jiffies := 0;
      var others := seq(|surpluses|, i requires 0 <= i < |surpluses| => Semaphore(surpluses[i], []));
      sems := [Semaphore(160 + pagecount - 256 - hasUsed, [])] + others;
      frames := new F.Frames(pagecount, hasUsed);
      unborn := {PROCESS1};
      used := {};
      granted := {};
      new;
      assert State() == Bare(frames.free, [|frames.free|] + surpluses);
      BootValid(frames.free, [|frames.free|] + surpluses);
      InSchedQueue(PROCESS1);
    }

    // ---------- src/sched.c ----------

    method InSchedQueue(p: Pid)
      requires Shape(State().t) && p < |procs|
      modifies this`procs, this`queues, this`unborn
      ensures State() == old(State()).(t := Enqueue(old(State()).t, p))
    {
      if procs[p].rest_time > 0 {
        procs := procs[p := procs[p].(sched_queue := active_queue)];
      } else {
        procs := procs[p := procs[p].(sched_queue := 1 - active_queue)];
        procs := procs[p := procs[p].(rest_time := FlushRestTime(procs[p]))];
      }
      procs := procs[p := procs[p].(state := Running)];
      var q, l := procs[p].sched_queue, procs[p].nice;
      queues := queues[q := queues[q].(levels := queues[q].levels[l := queues[q].levels[l] + [p]])];
      queues := queues[q := queues[q].(count := queues[q].count + 1)];
      unborn := unborn - {p};
    }

    method OutSchedQueue(p: Pid)
      requires Shape(State().t) && p < |procs| && procs[p].state.Running?
      modifies this`queues
      ensures queues == TakeOut(old(queues), procs[p].sched_queue, procs[p].nice, p)
    {
      var q, l := procs[p].sched_queue, procs[p].nice;
      queues := queues[q := queues[q].(levels := queues[q].levels[l := Without(queues[q].levels[l], p)])];
      queues := queues[q := queues[q].(count := queues[q].count - 1)];
    }

    // The first part of schedule, up to the swap.
    method SpendTick()
      requires CanSchedule(State().t)
      requires procs[cur_process].state.Running? ==> procs[cur_process].sched_queue == active_queue
      modifies this`procs, this`queues
      ensures State() == old(State()).(t := Spend(old(State()).t))
    {
      assert procs[cur_process].nice < LEVELS;
      var p, expire := cur_process, 1 - active_queue;
      procs := procs[p := procs[p].(rest_time := procs[p].rest_time - 1)];
      if procs[p].state.Running? {
        var q, l := procs[p].sched_queue, procs[p].nice;
        queues := queues[q := queues[q].(levels := queues[q].levels[l := Without(queues[q].levels[l], p)])];
        if procs[p].rest_time == 0 {
          procs := procs[p := procs[p].(rest_time := FlushRestTime(procs[p]))];
          queues := queues[expire := queues[expire].(
            levels := queues[expire].levels[l := queues[expire].levels[l] + [p]])];
          queues := queues[active_queue := queues[active_queue].(count := queues[active_queue].count - 1)];
          queues := queues[expire := queues[expire].(count := queues[expire].count + 1)];
          procs := procs[p := procs[p].(sched_queue := expire)];
        } else {
          queues := queues[active_queue := queues[active_queue].(
            levels := queues[active_queue].levels[l := queues[active_queue].levels[l] + [p]])];
        }
      }
    }

    method Schedule()
      requires CanSchedule(State().t)
      requires procs[cur_process].state.Running? ==> procs[cur_process].sched_queue == active_queue
      modifies this`procs, this`queues, this`active_queue, this`cur_process
      ensures State() == Scheduled(old(State()))
    {
      ghost var t0 := State().t;
      SpendTick();
      if queues[active_queue].count == 0 {
        active_queue := 1 - active_queue;
      }
      var levels := queues[active_queue].levels;
      var new_process: Pid := PROCESS1;
      var i: nat := LEVELS;
      while i > 0
        invariant i <= |levels| == LEVELS && new_process == Choice(levels, i)
      {
        i := i - 1;
        if levels[i] != [] {
          new_process := levels[i][0];
        }
      }
      if new_process != cur_process {
        cur_process := new_process;
      }
    }

    method SysYield()
      requires Ok() && Enabled(State(), Yield)
      modifies this`procs, this`queues, this`active_queue, this`cur_process
      ensures Ok() && State() == Next(old(State()), Yield)
    {
      NextKeeps(State(), Yield);
      Schedule();
    }

    // ---------- src/wait.c ----------

    method KWait(p: Pid)
      requires p < |procs|
      modifies this`procs, this`wait_list
      ensures procs == old(procs)[p := old(procs)[p].(state := Waiting)]
      ensures State().z == WaitInList(old(State().z), p)
    {
      procs := procs[p := procs[p].(state := Waiting)];
      wait_list := [p] + wait_list;
    }

    method KWakeup(p: Pid)
      requires p < |procs| && procs[p].state.Waiting?
      modifies this`wait_list
      ensures State().z == OutOfList(old(State().z), p)
    {
      wait_list := Without(wait_list, p);
    }

    method KSleep(p: Pid, tick: nat)
      requires p < |procs| && |wheel| == WHEEL_SIZE
      modifies this`procs, this`wheel
      ensures procs == old(procs)[p := old(procs)[p].(state := Waiting, wakeup_jiffies := tick + jiffies)]
      ensures State().z == SleepInWheel(old(State().z), p, tick + jiffies)
    {
      procs := procs[p := procs[p].(state := Waiting)];
      procs := procs[p := procs[p].(wakeup_jiffies := tick + jiffies)];
      var h := Hash(procs[p].wakeup_jiffies);
      wheel := wheel[h := [p] + wheel[h]];
    }

    /** sys_tsleep undisturbed, up to where its caller no longer runs */
    method SysTsleep(timeout: nat)
      requires Ok() && Enabled(State(), Sleep(timeout))
      modifies this`procs, this`queues, this`active_queue, this`cur_process, this`wheel, this`wait_list
      ensures Ok() && State() == Slept(old(State()), timeout)
    {
      ActedKeeps(State(), Sleep(timeout));
      GoToSleep(timeout);
      NextKeeps(State(), Yield);
      Schedule();
    }

    method GoToSleep(timeout: nat)
      requires Shape(State().t) && |wheel| == WHEEL_SIZE && procs[cur_process].state.Running?
      modifies this`procs, this`queues, this`wheel, this`wait_list
      ensures State() == PutToSleep(old(State()), timeout)
    {
      var p := cur_process;
      OutSchedQueue(p);
      if timeout == 0 {
        KWait(p);
      } else {
        KSleep(p, timeout);
      }
    }

    /** ready_processes: at most max of the sleepers that are due leave the bucket, in order. */
    method ReadyProcesses(out: array<Pid>, max: nat) returns (len: nat)
      requires max <= out.Length && |wheel| == WHEEL_SIZE
      requires forall p | p in wheel[Hash(jiffies)] :: Waits(State().t, p)
      modifies this`wheel, out
      ensures var a, b := Alarms(State().t), old(wheel)[Hash(jiffies)];
        && len <= max && out[..len] == Taken(a, b, jiffies, max)
        && wheel == old(wheel)[Hash(jiffies) := Left(a, b, jiffies, max)]
    {
      ghost var a, b := Alarms(State().t), wheel[Hash(jiffies)];
      var h := Hash(jiffies);
      var k: nat := 0;
      len := 0;
      WalkStarts(a, b, jiffies, max);
      assert out[..len] == [];
      while len < max
        invariant len <= max && |wheel| == WHEEL_SIZE && wheel == old(wheel)[h := wheel[h]]
        invariant forall p | p in wheel[h] :: Waits(State().t, p)
        invariant Walked(a, b, wheel[h], k, jiffies, max, out[..len])
        decreases |wheel[h]| - k
      {
        var bucket := wheel[h];
        if k == |bucket| {
          break;
        }
        var p := bucket[k];
        assert p in bucket && Waits(State().t, p);
        WalkStep(a, b, bucket, k, jiffies, max, out[..len]);
        if procs[p].wakeup_jiffies > jiffies {
          k := k + 1;
          continue;
        }
        wheel := wheel[h := bucket[..k] + bucket[k + 1..]];
        assert forall x | x in wheel[h] :: x in bucket;
        ghost var taken := out[..len];
        out[len] := p;
        assert out[..len + 1] == taken + [p];
        len := len + 1;
      }
      WalkEnds(a, b, wheel[h], k, jiffies, max, out[..len]);
    }

    // How far the wake loop of do_timer has come: waking the rest of the bucket completes it.
    ghost predicate Waking(s0: System, h: nat)
      reads this, frames
    {
      && h == Hash(jiffies) && |s0.z.wheel| == |wheel| == WHEEL_SIZE && Shape(State().t) && Shape(s0.t)
      && Alarms(State().t) == Alarms(s0.t) && |procs| == |s0.t.procs|
      && NoRepeats(wheel[h]) && (forall p | p in wheel[h] :: Waits(State().t, p))
      && State() == s0.(t := State().t, z := s0.z.(wheel := s0.z.wheel[h := wheel[h]]))
      && (forall p | p in s0.z.wheel[h] :: p < |s0.t.procs|)
      && NoRepeats(s0.z.wheel[h])
      && Later(Alarms(s0.t), wheel[h], jiffies) == Later(Alarms(s0.t), s0.z.wheel[h], jiffies)
      && WakesRest(State().t, s0.t, wheel[h], s0.z.wheel[h], jiffies)
    }

    method WakeLoop()
      requires |wheel| == WHEEL_SIZE && Shape(State().t)
      requires NoRepeats(wheel[Hash(jiffies)]) && forall p | p in wheel[Hash(jiffies)] :: Waits(State().t, p)
      modifies this`procs, this`queues, this`unborn, this`wheel
      ensures var t, z := old(State().t), old(State().z);
        var b := z.wheel[Hash(jiffies)];
        && (forall p | p in Due(Alarms(t), b, jiffies) :: p < |t.procs|)
        && State() == old(State()).(
          t := EnqueueAll(t, Due(Alarms(t), b, jiffies)),
          z := z.(wheel := z.wheel[Hash(jiffies) := Later(Alarms(t), b, jiffies)]))
    {
      ghost var s0, h, a := State(), Hash(jiffies), Alarms(State().t);
      var ready := new Pid[PROC_LEN];
      var len := PROC_LEN;
      DueAndLater(a, wheel[h], jiffies);
      while len == PROC_LEN
        invariant Waking(s0, h) && len <= PROC_LEN
        invariant len < PROC_LEN ==> Due(a, wheel[h], jiffies) == [] && Later(a, wheel[h], jiffies) == wheel[h]
        decreases |wheel[h]| + if len == PROC_LEN then 1 else 0
      {
        len := WakeBatch(ready, s0, h);
      }
    }

    method WakeBatch(ready: array<Pid>, ghost s0: System, ghost h: nat) returns (len: nat)
      requires ready.Length == PROC_LEN && Waking(s0, h)
      modifies this`procs, this`queues, this`unborn, this`wheel, ready
      ensures Waking(s0, h) && len <= PROC_LEN && |wheel[h]| + len == |old(wheel[h])|
      ensures len < PROC_LEN ==> Due(Alarms(s0.t), wheel[h], jiffies) == []
      ensures len < PROC_LEN ==> Later(Alarms(s0.t), wheel[h], jiffies) == wheel[h]
    {
      ghost var t, a, b := State().t, Alarms(State().t), wheel[h];
      BatchSplits(a, b, jiffies, PROC_LEN);
      TakenAndLeft(a, b, jiffies, PROC_LEN);
      BatchWakes(t, s0.t, b, s0.z.wheel[h], jiffies, PROC_LEN);
      len := ReadyProcesses(ready, PROC_LEN);
      EnqueueBatch(ready, len);
    }

    method EnqueueBatch(ready: array<Pid>, len: nat)
      requires len <= ready.Length && Shape(State().t) && forall p | p in ready[..len] :: p < |procs|
      modifies this`procs, this`queues, this`unborn
      ensures State() == old(State()).(t := EnqueueAll(old(State().t), ready[..len]))
    {
      var i: nat := 0;
      assert ready[0..len] == ready[..len] && forall j | 0 <= j < len :: ready[j] in ready[..len];
      while i < len
        invariant i <= len && Shape(State().t) && forall j | i <= j < len :: ready[j] < |procs|
        invariant EnqueueAll(State().t, ready[i..len]) == EnqueueAll(old(State().t), ready[..len])
        invariant State() == old(State()).(t := State().t)
      {
        assert ready[i..len][0] == ready[i] && ready[i..len][1..] == ready[i + 1..len];
        InSchedQueue(ready[i]);
        i := i + 1;
      }
    }

    /** do_timer: whoever is due wakes up, however many, and then the processor is given on. */
    method DoTimer()
      requires Ok()
      modifies this`procs, this`queues, this`active_queue, this`cur_process, this`unborn, this`wheel, this`jiffies
      ensures Ok() && State() == Next(old(State()), Tick)
    {
      ghost var s := State();
      WakenKeeps(s);
      NextKeeps(s, Tick);
      WakeDue();
      Schedule();
    }

    // Up to the call of schedule.
    method WakeDue()
      requires Valid(State()) && forall p | p in DueNow(State().t, State().z) :: p < |procs|
      modifies this`procs, this`queues, this`unborn, this`wheel, this`jiffies
      ensures State() == Waken(old(State()))
    {
      ghost var s := State();
      assert BucketOk(s.t, s.z, Hash(Now(s.z)));
      jiffies := jiffies + 1;
      WakeLoop();
    }

    // ---------- src/ksemaphore.c ----------

    method KSemaphoreUp(i: nat, num: nat)
      requires i < |sems| && Base(Raised(State(), i, num))
      modifies this`procs, this`queues, this`unborn, this`wait_list, this`sems, this`granted
      ensures State() == Up(old(State()), i, num)
    {
      sems := sems[i := sems[i].(surplus := sems[i].surplus + num)];
      while true
        invariant i < |sems| && Base(State()) && Grants(State(), i) == Up(old(State()), i, num)
        decreases |sems[i].waiters|
      {
        ghost var s := State();
        if sems[i].waiters == [] {
          return;
        }
        var p := sems[i].waiters[0];
        assert SemListed(s.t, s.z, sems[i]) && p in sems[i].waiters;
        if procs[p].demand > sems[i].surplus {
          return;
        }
        GrantKeeps(s, i);
        GrantFirst(i, p);
      }
    }

    // One turn of the loop.
    method GrantFirst(i: nat, p: Pid)
      requires i < |sems| && Base(State()) && CanGrant(State(), i) && p == sems[i].waiters[0]
      modifies this`procs, this`queues, this`unborn, this`wait_list, this`sems, this`granted
      ensures State() == Grant(old(State()), i)
    {
      GrantWakes(State(), i);
      KWakeup(p);
      InSchedQueue(p);
      sems := sems[i := sems[i].(waiters := sems[i].waiters[1..])];
      sems := sems[i := sems[i].(surplus := sems[i].surplus - procs[p].demand)];
      procs := procs[p := procs[p].(demand := 0)];
      granted := if i == FRAMES then granted + {p} else granted;
    }

    /** ksemaphore_down up to its return or its call of schedule. */
    method KSemaphoreDown(i: nat, demand: nat, timeout: int) returns (r: Outcome)
      requires Ok() && Runnable(State().t, cur_process) && i < |sems| && demand > 0 && cur_process !in granted
      requires Immediate(State(), i, demand) || timeout < 0 || cur_process != PROCESS1
      requires i == FRAMES ==> demand == 1
      modifies this`procs, this`queues, this`active_queue, this`cur_process, this`wheel, this`wait_list, this`sems
      ensures r == if Immediate(old(State()), i, demand) then Got(demand) else if timeout < 0 then Again else Blocked
      ensures State() == if r == Again then old(State())
        else if r == Blocked && timeout > 0 then DownTimed(old(State()), i, demand, timeout)
        else Down(old(State()), i, demand)
    {
      if sems[i].surplus >= demand && sems[i].waiters == [] {
        sems := sems[i := sems[i].(surplus := sems[i].surplus - demand)];
        return Got(demand);
      }
      if timeout < 0 {
        return Again;
      }
      if timeout > 0 {
        JoinTimedWaits(State(), i, demand, timeout);
        JoinLineTimed(i, demand, timeout);
      } else {
        JoinKeeps(State(), i, demand);
        JoinLine(i, demand);
      }
      Schedule();
      return Blocked;
    }

    method JoinLineTimed(i: nat, demand: nat, timeout: nat)
      requires Shape(State().t) && |wheel| == WHEEL_SIZE && i < |sems| && procs[cur_process].state.Running?
      modifies this`procs, this`queues, this`wheel, this`sems
      ensures State() == JoinTimed(old(State()), i, demand, timeout)
    {
      procs := procs[cur_process := procs[cur_process].(demand := demand)];
      sems := sems[i := sems[i].(waiters := sems[i].waiters + [cur_process])];
      OutSchedQueue(cur_process);
      KSleep(cur_process, timeout);
    }

    // The current process joins the waiters.
    method JoinLine(i: nat, demand: nat)
      requires Shape(State().t) && i < |sems| && procs[cur_process].state.Running?
      modifies this`procs, this`queues, this`wait_list, this`sems
      ensures State() == Join(old(State()), i, demand)
    {
      procs := procs[cur_process := procs[cur_process].(demand := demand)];
      sems := sems[i := sems[i].(waiters := sems[i].waiters + [cur_process])];
      OutSchedQueue(cur_process);
      KWait(cur_process);
    }

    method SemUp(i: nat, num: nat)
      requires Ok() && Enabled(State(), Action.SemUp(i, num))
      modifies this`procs, this`queues, this`unborn, this`wait_list, this`sems, this`granted
      ensures Ok() && State() == Next(old(State()), Action.SemUp(i, num))
    {
      RaisedKeeps(State(), i, num);
      NextKeeps(State(), Action.SemUp(i, num));
      KSemaphoreUp(i, num);
    }

    method SemDown(i: nat, demand: nat, timeout: int) returns (r: Outcome)
      requires Ok() && Enabled(State(), Action.SemDown(i, demand, timeout < 0))
      requires timeout <= 0 || Immediate(State(), i, demand)
      modifies this`procs, this`queues, this`active_queue, this`cur_process, this`wheel, this`wait_list, this`sems
      ensures Ok() && State() == Next(old(State()), Action.SemDown(i, demand, timeout < 0))
      ensures r == if Immediate(old(State()), i, demand) then Got(demand) else if timeout < 0 then Again else Blocked
    {
      NextKeeps(State(), Action.SemDown(i, demand, timeout < 0));
      r := KSemaphoreDown(i, demand, timeout);
    }

    // ---------- src/mem.c ----------

    // Frames in use stay known when the free list is popped.
    method TakeHead() returns (f: Frame)
      requires FramesKnown() && frames.free != [] && forall f | f in frames.free :: f !in used
      modifies this`used, frames, frames.mem_descs
      ensures FramesKnown() && State() == Pop(old(State())) && f == old(frames.free)[0]
    {
      f := frames.Pop();
      used := used + {f};
    }

    /** getonefreepage: the frame, or Blocked when the caller has to wait for one. */
    method GetOneFreePage() returns (r: Outcome)
      requires Ok() && Enabled(State(), GetFrame)
      modifies this`procs, this`queues, this`active_queue, this`cur_process, this`wheel, this`wait_list, this`sems
      modifies this`used, frames, frames.mem_descs
      ensures Ok() && State() == Next(old(State()), GetFrame)
      ensures r == if Immediate(old(State()), FRAMES, 1) then Got(old(frames.free)[0]) else Blocked
    {
      ghost var s := State();
      NextKeeps(s, GetFrame);
      if Immediate(s, FRAMES, 1) {
        GetNowKeeps(s);
      }
      r := KSemaphoreDown(FRAMES, 1, 0);
      if r != Blocked {
        var f := TakeHead();
        r := Got(f);
      }
    }

    /** The rest of getonefreepage once a wait is over; the frame list is not empty. */
    method ResumeGetPage() returns (f: Frame)
      requires Ok() && Enabled(State(), TakeFrame)
      modifies this`used, this`granted, frames, frames.mem_descs
      ensures Ok() && State() == Next(old(State()), TakeFrame) && f == old(frames.free)[0]
    {
      TakeUpKeeps(State());
      NextKeeps(State(), TakeFrame);
      assert frames.free != [];
      f := TakeHead();
      granted := granted - {cur_process};
    }

    /** freeonepage */
    method FreeOnePage(f: Frame)
      requires Ok() && Enabled(State(), FreeFrame(f))
      modifies this`procs, this`queues, this`unborn, this`wait_list, this`sems, this`granted
      modifies this`used, frames, frames.mem_descs
      ensures Ok() && State() == Next(old(State()), FreeFrame(f))
    {
      ghost var s := State();
      GiveBackBase(s, f);
      NextKeeps(s, FreeFrame(f));
      GrantsFrame(Raised(Push(s, f), FRAMES, 1), FRAMES);
      assert frames.mem_descs[f].present;
      frames.Push(f);
      used := used - {f};
      assert State() == Push(s, f);
      KSemaphoreUp(FRAMES, 1);
    }

    /** get_free_mem_size; its check needs that no grant is waiting to be taken up. */
    method GetFreeMemSize() returns (size: nat)
      requires Ok() && granted == {}
      ensures size == |frames.free| * 4096
    {
      var fc := frames.Count();
      CountMatchesSurplus(State());
      assert fc == sems[FRAMES].surplus;
      size := fc * 4096;
    }

    // ---------- sys_fork ----------

    // As far as the copy of the process page.
    method ForkCopy()
      requires Ok() && Enabled(State(), Fork)
      modifies this`procs, this`unborn
      ensures Ok() && State() == Next(old(State()), Fork)
    {
      NextKeeps(State(), Fork);
      unborn := unborn + {|procs|};
      procs := procs + [procs[cur_process].(parent := cur_process)];
    }

    method ForkShare(child: Pid)
      requires Ok() && Enabled(State(), ShareSlice(child))
      modifies this`procs
      ensures Ok() && State() == Next(old(State()), ShareSlice(child))
    {
      NextKeeps(State(), ShareSlice(child));
      var rest := procs[cur_process].rest_time;
      procs := procs[child := procs[child].(rest_time := rest - rest / 2)];
    }

    // mem_fork or fd_fork has failed: the child's page is given back.
    method ForkFails(child: Pid)
      requires Ok() && Enabled(State(), DropChild(child))
      modifies this`procs
      ensures Ok() && State() == Next(old(State()), DropChild(child))
    {
      NextKeeps(State(), DropChild(child));
      procs := procs[child := procs[child].(parent := NO_PARENT)];
    }

    // From the second lock_task to unlock_task; sys_yield's call of schedule follows.
    method ForkEnter(child: Pid)
      requires Ok() && Enabled(State(), EnterChild(child))
      modifies this`procs, this`queues, this`unborn
      ensures Ok() && State() == Next(old(State()), EnterChild(child))
    {
      NextKeeps(State(), EnterChild(child));
      EnterQueue(child);
    }

    method EnterQueue(child: Pid)
      requires Shape(State().t) && child < |procs|
      modifies this`procs, this`queues, this`unborn
      ensures State() == old(State()).(t := Enter(old(State()).t, child))
    {
      procs := procs[cur_process := procs[cur_process].(rest_time := procs[cur_process].rest_time / 2)];
      if procs[cur_process].rest_time == 0 {
        procs := procs[cur_process := procs[cur_process].(rest_time := 1)];
      }
      InSchedQueue(child);
    }
  }

  lemma {:induction false} AlarmsStay(t: Tasks, ps: seq<Pid>)
    requires Shape(t) && forall p | p in ps :: p < |t.procs|
    ensures Alarms(EnqueueAll(t, ps)) == Alarms(t)
    decreases |ps|
  {
    if ps != [] {
      assert ps[0] in ps && forall p | p in ps[1..] :: p in ps;
      AlarmsStay(Enqueue(t, ps[0]), ps[1..]);
      assert Alarms(Enqueue(t, ps[0])) == Alarms(t);
    }
  }

  // Waking what is due of b in t gives what waking what is due of b0 in t0 does.
  ghost predicate WakesRest(t: Tasks, t0: Tasks, b: seq<Pid>, b0: seq<Pid>, now: nat)
    requires Shape(t) && Shape(t0)
  {
    && (forall p | p in Due(Alarms(t0), b, now) :: p < |t.procs|)
    && (forall p | p in Due(Alarms(t0), b0, now) :: p < |t0.procs|)
    && EnqueueAll(t, Due(Alarms(t0), b, now)) == EnqueueAll(t0, Due(Alarms(t0), b0, now))
  }

  lemma {:induction false} TakenAndLeft(alarms: seq<nat>, b: seq<Pid>, now: nat, max: nat)
    requires NoRepeats(b)
    ensures var taken, left := Taken(alarms, b, now, max), Left(alarms, b, now, max);
      && NoRepeats(left) && NoRepeats(taken)
      && (forall p | p in taken :: p in b) && (forall p | p in left :: p in b && p !in taken)
  {
    if b != [] && max > 0 {
      assert forall p | p in b[1..] :: p in b && p != b[0];
      if Overdue(alarms, b[0], now) {
        TakenAndLeft(alarms, b[1..], now, max - 1);
        NoRepeatsPrepend(b[0], Taken(alarms, b[1..], now, max - 1));
      } else {
        TakenAndLeft(alarms, b[1..], now, max);
        NoRepeatsPrepend(b[0], Left(alarms, b[1..], now, max));
      }
    }
  }

  // One batch of the wake loop.
  lemma BatchWakes(t: Tasks, t0: Tasks, b: seq<Pid>, b0: seq<Pid>, now: nat, max: nat)
    requires Shape(t) && Shape(t0) && Alarms(t) == Alarms(t0) && NoRepeats(b) && (forall p | p in b :: Waits(t, p))
    requires WakesRest(t, t0, b, b0, now)
    ensures var a := Alarms(t0);
      var taken, left := Taken(a, b, now, max), Left(a, b, now, max);
      && (forall p | p in taken :: p < |t.procs|)
      && Alarms(EnqueueAll(t, taken)) == a && WakesRest(EnqueueAll(t, taken), t0, left, b0, now)
      && forall p | p in left :: Waits(EnqueueAll(t, taken), p)
  {
    var a := Alarms(t0);
    var taken, left := Taken(a, b, now, max), Left(a, b, now, max);
    BatchSplits(a, b, now, max);
    TakenAndLeft(a, b, now, max);
    DueAndLater(a, left, now);
    AlarmsStay(t, taken);
    EnqueueAllSplits(t, taken, Due(a, left, now));
    forall p | p in left ensures Waits(EnqueueAll(t, taken), p) {
      OthersNotWoken(t, taken, p);
    }
  }

  // ready_processes on its way through bucket b0: it is at node k of what is left, b.
  ghost predicate Walked(a: seq<nat>, b0: seq<Pid>, b: seq<Pid>, k: nat, now: nat, max: nat, taken: seq<Pid>) {
    && k <= |b| && |taken| <= max
    && taken + Taken(a, b[k..], now, max - |taken|) == Taken(a, b0, now, max)
    && b[..k] + Left(a, b[k..], now, max - |taken|) == Left(a, b0, now, max)
  }

  lemma WalkStarts(a: seq<nat>, b: seq<Pid>, now: nat, max: nat)
    ensures Walked(a, b, b, 0, now, max, [])
  {
    assert b[0..] == b && [] + Taken(a, b, now, max) == Taken(a, b, now, max);
    assert b[..0] + Left(a, b, now, max) == Left(a, b, now, max);
  }

  // Past node k, or on from it after its removal.
  lemma WalkStep(a: seq<nat>, b0: seq<Pid>, b: seq<Pid>, k: nat, now: nat, max: nat, taken: seq<Pid>)
    requires Walked(a, b0, b, k, now, max, taken) && k < |b| && |taken| < max
    ensures if Overdue(a, b[k], now) then Walked(a, b0, b[..k] + b[k + 1..], k, now, max, taken + [b[k]])
      else Walked(a, b0, b, k + 1, now, max, taken)
  {
    var r := b[..k] + b[k + 1..];
    assert b[k..][0] == b[k] && b[k..][1..] == b[k + 1..];
    if Overdue(a, b[k], now) {
      assert r[..k] == b[..k] && r[k..] == b[k + 1..];
      var rest := Taken(a, b[k + 1..], now, max - |taken| - 1);
      assert taken + ([b[k]] + rest) == (taken + [b[k]]) + rest;
    } else {
      var rest := Left(a, b[k + 1..], now, max - |taken|);
      assert b[..k] + ([b[k]] + rest) == (b[..k] + [b[k]]) + rest;
      assert b[..k + 1] == b[..k] + [b[k]];
    }
  }

  lemma WalkEnds(a: seq<nat>, b0: seq<Pid>, b: seq<Pid>, k: nat, now: nat, max: nat, taken: seq<Pid>)
    requires Walked(a, b0, b, k, now, max, taken) && (k == |b| || |taken| == max)
    ensures taken == Taken(a, b0, now, max) && b == Left(a, b0, now, max)
  {
    assert b[..k] + b[k..] == b && taken + [] == taken;
  }
}
