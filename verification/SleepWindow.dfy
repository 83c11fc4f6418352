/** sys_tsleep taken apart.  It holds no lock: out_sched_queue enables interrupts again, and a tick
    can come before the caller is in the wheel or the wait list.  Here its stores are moves of their
    own; the invariants hold after a run of moves if and only if no tick fell between those of one call. */
module SleepWindow {
  import opened Scheduler
  import opened TimeWheel
  import opened Semaphores
  import opened KernelSteps
  import opened KernelRuns

  /** Where a process is in sys_tsleep.  Left: out of its run queue; Marked: state set as well; Armed:
      deadline set as well; Joined: all done but the call of schedule.  before is the state at the call. */
  datatype Phase =
    | Outside
    | Left(timeout: nat, before: System)
    | Marked(timeout: nat, before: System)
    | Armed(timeout: nat, before: System)
    | Joined

  datatype Machine = Machine(s: System, at: map<Pid, Phase>)

  datatype Move =
    | Do(a: Action)
    | Leave(timeout: nat)
    | Mark
    | Arm
    | Join

  function PhaseOf(m: Machine, p: Pid): Phase {
    if p in m.at then m.at[p] else Outside
  }

  function Here(m: Machine): Phase { PhaseOf(m, m.s.t.cur) }

  predicate InWindow(h: Phase) { h.Left? || h.Marked? || h.Armed? }

  predicate WindowTick(m: Machine, v: Move) {
    v == Do(Tick) && InWindow(Here(m))
  }

  // ---------- the moves ----------

  function OutOf(t: Tasks): Tasks
    requires Shape(t)
  {
    var pr := t.procs[t.cur];
    t.(queues := TakeOut(t.queues, pr.sched_queue, pr.nice, t.cur))
  }

  function Stopped(t: Tasks): Tasks
    requires t.cur < |t.procs|
  {
    t.(procs := t.procs[t.cur := t.procs[t.cur].(state := Waiting)])
  }

  // circular_list_insert of the sleeper's node, at the head of the wait list or of its bucket.
  function Inserted(s: System, timeout: nat): System
    requires s.t.cur < |s.t.procs| && |s.z.wheel| == WHEEL_SIZE
  {
    if timeout == 0 then s.(z := WaitInList(s.z, s.t.cur))
    else s.(z := SleepInWheel(s.z, s.t.cur, s.t.procs[s.t.cur].wakeup_jiffies))
  }

  // The current process was last in its list when it left, so its node still points to the head.
  predicate PointsToHead(b: System)
    requires Shape(b.t)
  {
    var r := List(b.t, b.t.procs[b.t.cur].sched_queue, b.t.procs[b.t.cur].nice);
    r != [] && r[|r| - 1] == b.t.cur
  }

  // circular_list_remove of a node that is not linked: its stale neighbours are joined again, which
  // drops whatever was appended between them since.
  function UnlinkedAgain(t: Tasks, b: System, t1: Tasks): Tasks
    requires Shape(t) && Shape(t1) && Shape(b.t)
  {
    var q, l := t1.procs[t1.cur].sched_queue, t1.procs[t1.cur].nice;
    if PointsToHead(b) then
      t1.(queues := t1.queues[q := t1.queues[q].(levels := t1.queues[q].levels[l := List(t, q, l)])])
    else t1
  }

  // The current process has left its list and is to be unlinked by schedule once more.
  predicate Loose(m: Machine)
    requires Shape(m.s.t)
  {
    Here(m).Left? && Shape(Here(m).before.t) && Unlisted(m.s.t, m.s.t.cur)
  }

  // do_timer as far as schedule, with what schedule's removal of the current process does.
  ghost function Ticked(m: Machine): System
    requires Defined(m.s, Tick)
  {
    var s1 := Done(m.s, Tick);
    if Loose(m) then s1.(t := UnlinkedAgain(m.s.t, Here(m).before, s1.t)) else s1
  }

  // schedule finds time left, and a runnable caller in the list of the active queue that it names.
  predicate CanSpend(t: Tasks) {
    CanSchedule(t) && (t.procs[t.cur].state.Running? ==> t.procs[t.cur].sched_queue == t.active && CanLeave(t))
  }

  /** Who may move, and the source is defined: see Defined. */
  ghost predicate Possible(m: Machine, v: Move) {
    var s, h := m.s, Here(m);
    && Shape(s.t) && |s.z.wheel| == WHEEL_SIZE
    && match v
       case Do(a) =>
         && !a.Sleep? && Allowed(s, a) && Defined(s, a)
         && (a.Tick? || h.Outside? || (a.Yield? && h.Joined?))
         && (a.Tick? && Loose(m) ==>
              CanSchedule(Ticked(m).t) && s.t.procs[s.t.cur].sched_queue == s.t.active)
         && (Reschedules(s, a) && !(a.Tick? && Loose(m)) ==> CanSpend(Done(s, a).t))
       case Leave(n) => h.Outside? && Allowed(s, Sleep(n)) && CanLeave(s.t)
       case Mark => h.Left?
       case Arm => h.Marked? && h.timeout > 0
       case Join => (h.Marked? && h.timeout == 0) || (h.Armed? && h.timeout > 0)
  }

  ghost function After(m: Machine, v: Move): Machine
    requires Possible(m, v)
  {
    var s, h, p := m.s, Here(m), m.s.t.cur;
    match v
    case Do(a) =>
      Machine(
        if a.Tick? then Scheduled(Ticked(m)) else if Reschedules(s, a) then Scheduled(Done(s, a)) else Done(s, a),
        if a.Yield? then m.at[p := Outside] else m.at)
    case Leave(n) => Machine(s.(t := OutOf(s.t)), m.at[p := Left(n, s)])
    case Mark => Machine(s.(t := Stopped(s.t)), m.at[p := Marked(h.timeout, h.before)])
    case Arm => Machine(s.(t := WithAlarm(s.t, p, h.timeout + s.z.jiffies)), m.at[p := Armed(h.timeout, h.before)])
    case Join => Machine(Inserted(s, h.timeout), m.at[p := Joined])
  }

  // ---------- runs without a tick in a window ----------

  ghost predicate CanSleep(b: System, n: nat) { Valid(b) && Enabled(b, Sleep(n)) }

  function LeftOf(b: System): System
    requires Shape(b.t)
  {
    b.(t := OutOf(b.t))
  }

  function MarkedOf(b: System): System
    requires Shape(b.t)
  {
    b.(t := Block(b.t))
  }

  function ArmedOf(b: System, n: nat): System
    requires Shape(b.t)
  {
    b.(t := WithAlarm(Block(b.t), b.t.cur, n + b.z.jiffies))
  }

  // The current process is as far as its phase says, from a valid state on.
  ghost predicate HereOk(m: Machine) {
    match Here(m)
    case Outside => Valid(m.s) && Runnable(m.s.t, m.s.t.cur)
    case Joined => Valid(m.s)
    case Left(n, b) => CanSleep(b, n) && m.s == LeftOf(b)
    case Marked(n, b) => CanSleep(b, n) && m.s == MarkedOf(b)
    case Armed(n, b) => CanSleep(b, n) && n > 0 && m.s == ArmedOf(b, n)
  }

  /** Nobody but the current process is inside a window, and where it is not the state is valid. */
  ghost predicate Consistent(m: Machine) {
    HereOk(m) && forall p: Pid :: p != m.s.t.cur ==> !InWindow(PhaseOf(m, p))
  }

  /** The state of the step system: inside a window, that at the call. */
  function Abstract(m: Machine): System {
    if InWindow(Here(m)) then Here(m).before else m.s
  }

  // What a move is in the step system: the whole of Sleep happens as its node is inserted.
  function Visible(m: Machine, v: Move): seq<Action> {
    match v
    case Do(a) => [a]
    case Join => if InWindow(Here(m)) then [Sleep(Here(m).timeout)] else []
    case _ => []
  }

  lemma JoinedIsAsleep(b: System, n: nat)
    requires CanSleep(b, n)
    ensures PutToSleep(b, n) == Inserted(if n == 0 then MarkedOf(b) else ArmedOf(b, n), n)
  {
  }

  lemma CurStaysRunnable(s: System, a: Action)
    requires Valid(s) && Enabled(s, a) && Runnable(s.t, s.t.cur) && !a.Sleep? && !Reschedules(s, a)
    ensures Runnable(Acted(s, a).t, s.t.cur) && Acted(s, a).t.cur == s.t.cur
  {
    ActedCosts(s, a);
    match a
    case SemUp(i, num) => RaisedKeeps(s, i, num); GrantsSpare(Raised(s, i, num), i, s.t.cur);
    case FreeFrame(f) => GiveBackBase(s, f); GrantsSpare(Raised(Push(s, f), FRAMES, 1), FRAMES, s.t.cur);
    case _ =>
  }

  // An action outside windows is a step.
  lemma DoKeeps(m: Machine, a: Action)
    requires Consistent(m) && Possible(m, Do(a)) && !InWindow(Here(m))
    ensures Enabled(m.s, a) && After(m, Do(a)).s == Next(m.s, a)
    ensures Consistent(After(m, Do(a))) && !InWindow(Here(After(m, Do(a))))
  {
    var m' := After(m, Do(a));
    NextKeeps(m.s, a);
    if Reschedules(m.s, a) {
      assert Runnable(m'.s.t, m'.s.t.cur);
    } else {
      CurStaysRunnable(m.s, a);
    }
    forall p: Pid ensures !InWindow(PhaseOf(m', p)) {
      assert !InWindow(PhaseOf(m, p));
    }
  }

  // Inside a window only the current process moves on.
  lemma WindowKeeps(m: Machine, v: Move)
    requires Consistent(m) && Possible(m, v) && !v.Do? && !v.Join?
    ensures Consistent(After(m, v)) && Abstract(After(m, v)) == Abstract(m)
  {
    var m' := After(m, v);
    forall p: Pid | p != m'.s.t.cur ensures !InWindow(PhaseOf(m', p)) {
      assert !InWindow(PhaseOf(m, p));
    }
  }

  lemma JoinSleeps(m: Machine)
    requires Consistent(m) && Possible(m, Move.Join)
    ensures var b, n, m' := Abstract(m), Here(m).timeout, After(m, Move.Join);
      Consistent(m') && CanSleep(b, n) && m'.s == Next(b, Sleep(n)) && Here(m') == Joined
  {
    var b, n, m' := Here(m).before, Here(m).timeout, After(m, Move.Join);
    JoinedIsAsleep(b, n);
    PutToSleepKeeps(b, n);
    forall p: Pid | p != m'.s.t.cur ensures !InWindow(PhaseOf(m', p)) {
      assert !InWindow(PhaseOf(m, p));
    }
  }

  // m' is what the visible steps make of m.
  ghost predicate Follows(s: System, acts: seq<Action>, s': System) {
    if acts == [] then s' == s else |acts| == 1 && Valid(s) && Enabled(s, acts[0]) && s' == Next(s, acts[0])
  }

  /** A move that is not a tick in a window keeps everything consistent, and is a step or nothing
      in the step system. */
  lemma CleanMoveRefines(m: Machine, v: Move)
    requires Consistent(m) && Possible(m, v) && !WindowTick(m, v)
    ensures Consistent(After(m, v)) && Follows(Abstract(m), Visible(m, v), Abstract(After(m, v)))
  {
    if v.Do? {
      DoKeeps(m, v.a);
    } else if v.Join? {
      JoinSleeps(m);
    } else {
      WindowKeeps(m, v);
    }
  }
}
