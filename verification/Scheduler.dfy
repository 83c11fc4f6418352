/** The run queues of src/sched.c as values: what in_sched_queue, out_sched_queue and schedule
    make of them, and the invariant they keep. */
module Scheduler {
  import opened Lists

  type Pid = nat                     // index in the process table
  const PROCESS1: Pid := 0
  const LEVELS: nat := 16            // SCHED_LEVEL_SIZE

  datatype ProcState = Running | Waiting

  const NO_PARENT: int := -1

  // The fields of process_info_t that the scheduler, sys_fork and the waits use.
  datatype Process = Process(
    nice: nat,
    state: ProcState,
    rest_time: nat,
    sched_queue: nat,
    wakeup_jiffies: nat,
    demand: nat,
    parent: int)

  datatype RunQueue = RunQueue(levels: seq<seq<Pid>>, count: int)

  /** queues are sched_queue1 and sched_queue2; active says which one active_queue points to.
      unborn holds the children that sys_fork has copied but not yet put in a queue. */
  datatype Tasks = Tasks(
    procs: seq<Process>,
    queues: seq<RunQueue>,
    active: nat,
    cur: Pid,
    unborn: set<Pid>)

  function FlushRestTime(pr: Process): nat { pr.nice + 1 }

  predicate TwoQueues(t: Tasks) {
    |t.queues| == 2 && forall q | 0 <= q < 2 :: |t.queues[q].levels| == LEVELS
  }

  predicate Shape(t: Tasks) {
    && TwoQueues(t)
    && t.active < 2 && t.cur < |t.procs|
    && (forall p | 0 <= p < |t.procs| :: ProcOk(t.procs[p]))
  }

  predicate ProcOk(pr: Process) {
    pr.nice < LEVELS && pr.rest_time <= LEVELS && pr.sched_queue < 2
  }

  function List(t: Tasks, q: nat, l: nat): seq<Pid>
    requires TwoQueues(t) && q < 2 && l < LEVELS
  {
    t.queues[q].levels[l]
  }

  function Total(levels: seq<seq<Pid>>): nat {
    if levels == [] then 0 else |levels[0]| + Total(levels[1..])
  }

  // ---------- the operations ----------

  function PutLast(queues: seq<RunQueue>, q: nat, l: nat, p: Pid): seq<RunQueue>
    requires q < |queues| && l < |queues[q].levels|
  {
    var r := queues[q];
    queues[q := RunQueue(r.levels[l := r.levels[l] + [p]], r.count + 1)]
  }

  function TakeOut(queues: seq<RunQueue>, q: nat, l: nat, p: Pid): seq<RunQueue>
    requires q < |queues| && l < |queues[q].levels|
  {
    var r := queues[q];
    queues[q := RunQueue(r.levels[l := Without(r.levels[l], p)], r.count - 1)]
  }

  // p as in_sched_queue leaves it.
  function Revived(t: Tasks, pr: Process): Process
    requires t.active < 2
  {
    if pr.rest_time > 0 then pr.(sched_queue := t.active, state := Running)
    else pr.(sched_queue := 1 - t.active, rest_time := FlushRestTime(pr), state := Running)
  }

  /** in_sched_queue */
  function Enqueue(t: Tasks, p: Pid): (t': Tasks)
    requires Shape(t) && p < |t.procs|
    ensures Shape(t') && |t'.procs| == |t.procs|
  {
    var pr := Revived(t, t.procs[p]);
    t.(procs := t.procs[p := pr], queues := PutLast(t.queues, pr.sched_queue, pr.nice, p), unborn := t.unborn - {p})
  }

  /** out_sched_queue, and the state that kwait and ksleep set */
  function Block(t: Tasks): Tasks
    requires Shape(t)
  {
    var pr := t.procs[t.cur];
    t.(procs := t.procs[t.cur := pr.(state := Waiting)], queues := TakeOut(t.queues, pr.sched_queue, pr.nice, t.cur))
  }

  // The current process as schedule leaves it, its slice one shorter.
  function Aged(t: Tasks, pr: Process): Process
    requires t.active < 2 && pr.rest_time > 0
  {
    if pr.state.Running? && pr.rest_time == 1 then pr.(rest_time := FlushRestTime(pr), sched_queue := 1 - t.active)
    else pr.(rest_time := pr.rest_time - 1)
  }

  // The first half of schedule: the current process goes last in its level, here or expired.
  function Spend(t: Tasks): Tasks
    requires Shape(t) && t.procs[t.cur].rest_time > 0
  {
    var pr := t.procs[t.cur];
    var t1 := t.(procs := t.procs[t.cur := Aged(t, pr)]);
    if pr.state.Waiting? then t1
    else
      var out := TakeOut(t.queues, pr.sched_queue, pr.nice, t.cur);
      t1.(queues := PutLast(out, Aged(t, pr).sched_queue, pr.nice, t.cur))
  }

  predicate Flips(t: Tasks)
    requires Shape(t)
  {
    t.queues[t.active].count == 0
  }

  function Flip(t: Tasks): Tasks
    requires Shape(t)
  {
    if Flips(t) then t.(active := 1 - t.active) else t
  }

  // Head of the lowest non-empty level from l on, process 1 when there is none.
  function Choice(levels: seq<seq<Pid>>, l: nat): Pid
    decreases |levels| - l
  {
    if l >= |levels| then PROCESS1
    else if levels[l] != [] then levels[l][0]
    else Choice(levels, l + 1)
  }

  function Schedule(t: Tasks): Tasks
    requires Shape(t) && t.procs[t.cur].rest_time > 0
  {
    var t' := Flip(Spend(t));
    t'.(cur := Choice(t'.queues[t'.active].levels, 0))
  }

  // The two shares of a time slice in sys_fork.
  function ChildShare(r: nat): nat { r - r / 2 }
  function ParentShare(r: nat): nat { if r / 2 == 0 then 1 else r / 2 }

  // sys_fork up to the copy.
  function Copy(t: Tasks): Tasks
    requires t.cur < |t.procs|
  {
    t.(procs := t.procs + [t.procs[t.cur].(parent := t.cur)], unborn := t.unborn + {|t.procs|})
  }

  // The child's share, taken with interrupts on from what is then left of the slice.
  function Share(t: Tasks, child: Pid): Tasks
    requires t.cur < |t.procs| && child < |t.procs|
  {
    t.(procs := t.procs[child := t.procs[child].(rest_time := ChildShare(t.procs[t.cur].rest_time))])
  }

  // sys_fork gives up: nobody holds the child any more.
  function Drop(t: Tasks, child: Pid): Tasks
    requires child < |t.procs|
  {
    t.(procs := t.procs[child := t.procs[child].(parent := NO_PARENT)])
  }

  // sys_fork from its second lock_task to unlock_task.
  function Enter(t: Tasks, child: Pid): Tasks
    requires Shape(t) && child < |t.procs|
  {
    var pr := t.procs[t.cur];
    Enqueue(t.(procs := t.procs[t.cur := pr.(rest_time := ParentShare(pr.rest_time))]), child)
  }

  // ---------- the invariant ----------

  predicate Born(t: Tasks, p: Pid) { p < |t.procs| && p !in t.unborn }

  predicate Runnable(t: Tasks, p: Pid) { Born(t, p) && t.procs[p].state.Running? }

  predicate Queued(t: Tasks, p: Pid, q: nat, l: nat) {
    Runnable(t, p) && t.procs[p].sched_queue == q && t.procs[p].nice == l
  }

  // The list of a level holds, each once, exactly the processes that say they are there, but x.
  ghost predicate ListOkBut(t: Tasks, q: nat, l: nat, x: int)
    requires Shape(t) && q < 2 && l < LEVELS
  {
    NoRepeats(List(t, q, l)) && forall p :: p in List(t, q, l) <==> Queued(t, p, q, l) && p != x
  }

  ghost predicate CountOk(t: Tasks, q: nat)
    requires Shape(t) && q < 2
  {
    t.queues[q].count == Total(t.queues[q].levels)
  }

  ghost predicate Fed(t: Tasks, p: Pid)
    requires p < |t.procs|
  {
    && (p in t.unborn ==> t.procs[p].state.Running?)
    && (t.procs[p].state.Running? ==> t.procs[p].rest_time >= 1)
    && (Runnable(t, p) && t.procs[p].sched_queue != t.active ==> t.procs[p].rest_time == t.procs[p].nice + 1)
  }

  ghost predicate QueuesOkBut(t: Tasks, x: int) {
    && Shape(t)
    && (forall q, l | 0 <= q < 2 && 0 <= l < LEVELS :: ListOkBut(t, q, l, x))
    && (forall q | 0 <= q < 2 :: CountOk(t, q))
    && (forall p | 0 <= p < |t.procs| && p != x :: Fed(t, p))
    && (forall p | p in t.unborn :: p < |t.procs|)
  }

  /** Each runnable process is in exactly one list, of the queue and level it names; counts are
      the numbers of listed processes; nobody queued is out of time, and whoever is in the expire
      queue has a whole slice, of one tick more than its level. */
  ghost predicate QueuesOk(t: Tasks) { QueuesOkBut(t, -1) }

  // The current process has time left and, unless it has just fallen asleep, is in the active queue.
  predicate CurOk(t: Tasks) {
    && Born(t, t.cur) && t.procs[t.cur].rest_time > 0
    && (Runnable(t, t.cur) ==> t.procs[t.cur].sched_queue == t.active)
  }

  /** What holds between steps; process 1 never blocks. */
  ghost predicate TasksOk(t: Tasks) {
    QueuesOk(t) && CurOk(t) && Runnable(t, PROCESS1)
  }

  lemma {:induction false} TotalUpdated(levels: seq<seq<Pid>>, l: nat, s: seq<Pid>)
    requires l < |levels|
    ensures Total(levels[l := s]) == Total(levels) - |levels[l]| + |s|
  {
    if l > 0 {
      TotalUpdated(levels[1..], l - 1, s);
      assert levels[l := s][1..] == levels[1..][l - 1 := s];
    } else {
      assert levels[0 := s][1..] == levels[1..];
    }
  }

  lemma {:induction false} TotalZero(levels: seq<seq<Pid>>)
    ensures Total(levels) == 0 <==> forall l | 0 <= l < |levels| :: levels[l] == []
  {
    if levels != [] {
      TotalZero(levels[1..]);
      assert forall l | 0 < l < |levels| :: levels[l] == levels[1..][l - 1];
    }
  }

  // Taking a queued process out of its list.
  lemma TakeOutKeeps(t: Tasks, p: Pid)
    requires QueuesOk(t) && Runnable(t, p)
    ensures var pr := t.procs[p];
      QueuesOkBut(t.(queues := TakeOut(t.queues, pr.sched_queue, pr.nice, p)), p)
  {
    var q, l := t.procs[p].sched_queue, t.procs[p].nice;
    var t' := t.(queues := TakeOut(t.queues, q, l, p));
    assert ListOkBut(t, q, l, -1) && Queued(t, p, q, l);
    WithoutKeeps(List(t, q, l), p);
    TotalUpdated(t.queues[q].levels, l, Without(List(t, q, l), p));
    assert CountOk(t, q) && CountOk(t, 1 - q);
    forall q', l' | 0 <= q' < 2 && 0 <= l' < LEVELS ensures ListOkBut(t', q', l', p) {
      assert ListOkBut(t, q', l', -1);
      assert forall x :: Queued(t', x, q', l') <==> Queued(t, x, q', l');
    }
    forall x | 0 <= x < |t'.procs| && x != p ensures Fed(t', x) {
      assert Fed(t, x);
    }
  }

  // Whoever is blocked or unborn is in no list.
  lemma OutAlready(t: Tasks, p: Pid)
    requires QueuesOk(t) && p < |t.procs| && !Runnable(t, p)
    ensures QueuesOkBut(t, p)
  {
    forall q, l | 0 <= q < 2 && 0 <= l < LEVELS ensures ListOkBut(t, q, l, p) {
      assert ListOkBut(t, q, l, -1);
    }
    forall x | 0 <= x < |t.procs| && x != p ensures Fed(t, x) {
      assert x != -1 && Fed(t, x);
    }
  }

  // What p's own fields say does not matter while p is in no list.
  lemma ChangeOut(t: Tasks, p: Pid, pr: Process)
    requires QueuesOkBut(t, p) && p < |t.procs| && ProcOk(pr)
    ensures QueuesOkBut(t.(procs := t.procs[p := pr]), p)
  {
    var t' := t.(procs := t.procs[p := pr]);
    forall q, l | 0 <= q < 2 && 0 <= l < LEVELS ensures ListOkBut(t', q, l, p) {
      assert ListOkBut(t, q, l, p);
      assert forall x :: x != p ==> (Queued(t', x, q, l) <==> Queued(t, x, q, l));
    }
    assert forall q | 0 <= q < 2 :: CountOk(t, q) ==> CountOk(t', q);
    forall x | 0 <= x < |t'.procs| && x != p ensures Fed(t', x) {
      assert Fed(t, x);
    }
  }

  // Putting p last in the list it names.
  lemma PutInKeeps(t: Tasks, p: Pid)
    requires QueuesOkBut(t, p) && p < |t.procs| && t.procs[p].state.Running? && t.procs[p].rest_time >= 1
    requires t.procs[p].sched_queue != t.active ==> t.procs[p].rest_time == t.procs[p].nice + 1
    ensures var pr := t.procs[p];
      QueuesOk(t.(queues := PutLast(t.queues, pr.sched_queue, pr.nice, p), unborn := t.unborn - {p}))
  {
    var q, l := t.procs[p].sched_queue, t.procs[p].nice;
    var t' := t.(queues := PutLast(t.queues, q, l, p), unborn := t.unborn - {p});
    assert ListOkBut(t, q, l, p) && Queued(t', p, q, l);
    NoRepeatsAppend(List(t, q, l), p);
    TotalUpdated(t.queues[q].levels, l, List(t, q, l) + [p]);
    assert CountOk(t, q) && CountOk(t, 1 - q);
    forall q', l' | 0 <= q' < 2 && 0 <= l' < LEVELS ensures ListOkBut(t', q', l', -1) {
      assert ListOkBut(t, q', l', p);
      assert forall x :: x != p ==> (Queued(t', x, q', l') <==> Queued(t, x, q', l'));
    }
    forall x | 0 <= x < |t'.procs| ensures Fed(t', x) {
      if x != p { assert Fed(t, x); }
    }
  }

  // Leaving p out for good: it is blocked now.
  lemma StayOut(t: Tasks, p: Pid)
    requires QueuesOkBut(t, p) && p < |t.procs| && t.procs[p].state.Waiting? && p !in t.unborn
    ensures QueuesOk(t)
  {
    forall q, l | 0 <= q < 2 && 0 <= l < LEVELS ensures ListOkBut(t, q, l, -1) {
      assert ListOkBut(t, q, l, p);
    }
    forall x | 0 <= x < |t.procs| ensures Fed(t, x) {
      if x != p { assert Fed(t, x); }
    }
  }

  lemma EnqueueKeeps(t: Tasks, p: Pid)
    requires QueuesOk(t) && p < |t.procs| && !Runnable(t, p)
    ensures QueuesOk(Enqueue(t, p)) && Runnable(Enqueue(t, p), p)
  {
    OutAlready(t, p);
    var pr := Revived(t, t.procs[p]);
    ChangeOut(t, p, pr);
    PutInKeeps(t.(procs := t.procs[p := pr]), p);
  }

  lemma BlockKeeps(t: Tasks)
    requires QueuesOk(t) && Runnable(t, t.cur)
    ensures QueuesOk(Block(t)) && Block(t).procs[t.cur].rest_time >= 1
  {
    var pr := t.procs[t.cur];
    assert Fed(t, t.cur);
    TakeOutKeeps(t, t.cur);
    var t1 := t.(queues := TakeOut(t.queues, pr.sched_queue, pr.nice, t.cur));
    ChangeOut(t1, t.cur, pr.(state := Waiting));
    assert Block(t) == t1.(procs := t1.procs[t.cur := pr.(state := Waiting)]);
    StayOut(Block(t), t.cur);
  }

  lemma SpendKeeps(t: Tasks)
    requires QueuesOk(t) && CurOk(t)
    ensures QueuesOk(Spend(t))
  {
    var pr := t.procs[t.cur];
    var pr' := Aged(t, pr);
    if pr.state.Waiting? {
      OutAlready(t, t.cur);
      ChangeOut(t, t.cur, pr');
      StayOut(Spend(t), t.cur);
    } else {
      TakeOutKeeps(t, t.cur);
      var t1 := t.(queues := TakeOut(t.queues, pr.sched_queue, pr.nice, t.cur));
      ChangeOut(t1, t.cur, pr');
      var t2 := t1.(procs := t1.procs[t.cur := pr']);
      PutInKeeps(t2, t.cur);
      assert t2.unborn - {t.cur} == t.unborn;
      assert Spend(t) == t2.(
        queues := PutLast(t2.queues, pr'.sched_queue, pr'.nice, t.cur), unborn := t2.unborn - {t.cur});
    }
  }

  lemma FlipKeeps(t: Tasks)
    requires QueuesOk(t)
    ensures QueuesOk(Flip(t))
  {
    var t' := Flip(t);
    forall q, l | 0 <= q < 2 && 0 <= l < LEVELS ensures ListOkBut(t', q, l, -1) {
      assert ListOkBut(t, q, l, -1);
      assert forall x :: Queued(t', x, q, l) <==> Queued(t, x, q, l);
    }
    assert forall q | 0 <= q < 2 :: CountOk(t, q) ==> CountOk(t', q);
    forall p | 0 <= p < |t.procs| ensures Fed(t', p) {
      assert Fed(t, p);
      if Flips(t) && Runnable(t, p) {
        EmptyMeansNobody(t, p);
      }
    }
  }

  ghost predicate LowestHead(levels: seq<seq<Pid>>, l: nat, p: Pid) {
    l < |levels| && levels[l] != [] && levels[l][0] == p && forall k | 0 <= k < l :: levels[k] == []
  }

  lemma {:induction false} ChoiceFrom(levels: seq<seq<Pid>>, l: nat) returns (k: nat)
    requires l <= |levels| && forall j | 0 <= j < l :: levels[j] == []
    requires exists j :: 0 <= j < |levels| && levels[j] != []
    ensures LowestHead(levels, k, Choice(levels, l))
    decreases |levels| - l
  {
    if levels[l] != [] {
      k := l;
    } else {
      k := ChoiceFrom(levels, l + 1);
    }
  }

  // The active queue is empty only when nobody is in it.
  lemma EmptyMeansNobody(t: Tasks, p: Pid)
    requires QueuesOk(t) && Runnable(t, p)
    ensures t.queues[t.procs[p].sched_queue].count != 0 && List(t, t.procs[p].sched_queue, t.procs[p].nice) != []
  {
    var q, l := t.procs[p].sched_queue, t.procs[p].nice;
    assert ListOkBut(t, q, l, -1) && Queued(t, p, q, l);
    assert CountOk(t, q);
    TotalZero(t.queues[q].levels);
  }

  /** schedule keeps the invariant, dispatches the head of the lowest non-empty level of the
      active queue, and never falls back on process 1 by default. */
  lemma ScheduleKeeps(t: Tasks) returns (l: nat)
    requires TasksOk(t)
    ensures var t' := Schedule(t);
      TasksOk(t') && Runnable(t', t'.cur) && LowestHead(t'.queues[t'.active].levels, l, t'.cur)
  {
    SpendKeeps(t);
    FlipKeeps(Spend(t));
    var t1 := Flip(Spend(t));
    SomebodyActive(Spend(t), PROCESS1);
    l := ChoiceFrom(t1.queues[t1.active].levels, 0);
    var t' := Schedule(t);
    assert ListOkBut(t1, t1.active, l, -1);
    assert t'.cur in List(t1, t1.active, l);
    assert Queued(t1, t'.cur, t1.active, l);
    CurDoesNotMatter(t1, t'.cur);
    assert Fed(t1, t'.cur);
  }

  // Whoever is runnable keeps the queue that is active after the swap from being empty.
  lemma SomebodyActive(t: Tasks, p: Pid)
    requires QueuesOk(t) && Runnable(t, p)
    ensures var t' := Flip(t); exists j :: 0 <= j < LEVELS && t'.queues[t'.active].levels[j] != []
  {
    var t' := Flip(t);
    if Flips(t) {
      EmptyMeansNobody(t, p);
      assert t'.queues[t'.active].levels[t.procs[p].nice] != [];
    } else {
      assert CountOk(t, t.active);
      TotalZero(t.queues[t.active].levels);
    }
  }

  lemma {:induction false} NoChoice(levels: seq<seq<Pid>>, l: nat)
    requires l <= |levels| && forall j | l <= j < |levels| :: levels[j] == []
    ensures Choice(levels, l) == PROCESS1
    decreases |levels| - l
  {
    if l < |levels| {
      NoChoice(levels, l + 1);
    }
  }

  /** schedule dispatches a runnable process exactly when there is one; with nobody runnable it
      falls back on process 1, which is then blocked. */
  lemma DispatchesRunnable(t: Tasks)
    requires QueuesOk(t) && CurOk(t)
    ensures Runnable(Schedule(t), Schedule(t).cur) <==> exists p :: Runnable(t, p)
    ensures !(exists p :: Runnable(t, p)) ==> Schedule(t).cur == PROCESS1
  {
    var t1, t' := Flip(Spend(t)), Schedule(t);
    assert forall p :: Runnable(t', p) <==> Runnable(t, p);
    if p :| Runnable(t, p) {
      SpendKeeps(t);
      FlipKeeps(Spend(t));
      SomebodyActive(Spend(t), p);
      var l := ChoiceFrom(t1.queues[t1.active].levels, 0);
      assert ListOkBut(t1, t1.active, l, -1) && t'.cur in List(t1, t1.active, l);
      assert Queued(t1, t'.cur, t1.active, l);
    } else {
      FallsBack(t);
    }
  }

  lemma SomeMember(s: seq<Pid>)
    requires s != []
    ensures exists p: Pid :: p in s
  {
    assert s[0] in s;
  }

  lemma FallsBack(t: Tasks)
    requires QueuesOk(t) && CurOk(t) && forall p: Pid :: !Runnable(t, p)
    ensures Schedule(t).cur == PROCESS1
  {
    var t1 := Flip(Spend(t));
    SpendKeeps(t);
    FlipKeeps(Spend(t));
    assert forall p: Pid :: Runnable(t1, p) <==> Runnable(t, p);
    forall l | 0 <= l < LEVELS ensures t1.queues[t1.active].levels[l] == [] {
      assert ListOkBut(t1, t1.active, l, -1);
      assert forall p: Pid :: !Queued(t1, p, t1.active, l);
      if List(t1, t1.active, l) != [] {
        SomeMember(List(t1, t1.active, l));
        assert false;
      }
    }
    NoChoice(t1.queues[t1.active].levels, 0);
  }

  lemma CurDoesNotMatter(t: Tasks, p: Pid)
    requires QueuesOk(t) && p < |t.procs|
    ensures QueuesOk(t.(cur := p))
  {
    var t' := t.(cur := p);
    forall q, l | 0 <= q < 2 && 0 <= l < LEVELS ensures ListOkBut(t', q, l, -1) {
      assert ListOkBut(t, q, l, -1);
      assert forall x :: Queued(t', x, q, l) <==> Queued(t, x, q, l);
    }
    assert forall q | 0 <= q < 2 :: CountOk(t, q) ==> CountOk(t', q);
    assert forall x | 0 <= x < |t.procs| :: Fed(t, x) ==> Fed(t', x);
  }

  // ---------- fork ----------

  lemma CopyKeeps(t: Tasks)
    requires TasksOk(t) && Runnable(t, t.cur)
    ensures TasksOk(Copy(t)) && |t.procs| in Copy(t).unborn && |Copy(t).procs| == |t.procs| + 1
  {
    var t' := Copy(t);
    assert Fed(t, t.cur);
    forall q, l | 0 <= q < 2 && 0 <= l < LEVELS ensures ListOkBut(t', q, l, -1) {
      assert ListOkBut(t, q, l, -1);
      assert forall x :: Queued(t', x, q, l) <==> Queued(t, x, q, l);
    }
    assert forall q | 0 <= q < 2 :: CountOk(t, q) ==> CountOk(t', q);
    assert forall p | 0 <= p < |t.procs| :: Fed(t, p) ==> Fed(t', p);
  }

  // What is left of a slice changes no list.
  lemma RestChanged(t: Tasks, p: Pid, r: nat)
    requires QueuesOk(t) && p < |t.procs| && 1 <= r <= LEVELS && (Runnable(t, p) ==> t.procs[p].sched_queue == t.active)
    ensures QueuesOk(t.(procs := t.procs[p := t.procs[p].(rest_time := r)]))
  {
    var t' := t.(procs := t.procs[p := t.procs[p].(rest_time := r)]);
    forall q, l | 0 <= q < 2 && 0 <= l < LEVELS ensures ListOkBut(t', q, l, -1) {
      assert ListOkBut(t, q, l, -1);
      assert forall x :: Queued(t', x, q, l) <==> Queued(t, x, q, l);
    }
    assert forall q | 0 <= q < 2 :: CountOk(t, q) ==> CountOk(t', q);
    assert forall x | 0 <= x < |t.procs| :: Fed(t, x) ==> Fed(t', x);
  }

  /** The child's share is at least one tick. */
  lemma ShareKeeps(t: Tasks, child: Pid)
    requires TasksOk(t) && child in t.unborn
    ensures TasksOk(Share(t, child))
  {
    RestChanged(t, child, ChildShare(t.procs[t.cur].rest_time));
  }

  lemma DropKeeps(t: Tasks, child: Pid)
    requires TasksOk(t) && child in t.unborn
    ensures TasksOk(Drop(t, child))
  {
    var t' := Drop(t, child);
    forall q, l | 0 <= q < 2 && 0 <= l < LEVELS ensures ListOkBut(t', q, l, -1) {
      assert ListOkBut(t, q, l, -1);
      assert forall x :: Queued(t', x, q, l) <==> Queued(t, x, q, l);
    }
    assert forall q | 0 <= q < 2 :: CountOk(t, q) ==> CountOk(t', q);
    assert forall x | 0 <= x < |t.procs| :: Fed(t, x) ==> Fed(t', x);
  }

  /** The child enters the queue with time left, and the parent keeps some. */
  lemma EnterKeeps(t: Tasks, child: Pid)
    requires TasksOk(t) && child in t.unborn
    ensures TasksOk(Enter(t, child))
  {
    var r := ParentShare(t.procs[t.cur].rest_time);
    RestChanged(t, t.cur, r);
    EnqueueKeeps(t.(procs := t.procs[t.cur := t.procs[t.cur].(rest_time := r)]), child);
  }
}
