/** Runs of moves: consistent if and only if clean, and then runs of the step system. */
module SleepRuns {
  import opened Scheduler
  import opened TimeWheel
  import opened Semaphores
  import opened KernelSteps
  import opened KernelRuns
  import opened SleepWindow
  import opened SleepDamage

  // ---------- what is possible ----------

  lemma {:induction false} DueIgnores(a: seq<nat>, a': seq<nat>, b: seq<Pid>, now: nat)
    requires |a| == |a'| && forall p | p in b && p < |a| :: a'[p] == a[p]
    ensures Due(a', b, now) == Due(a, b, now)
  {
    if b != [] {
      assert b[0] in b && forall p | p in b[1..] :: p in b;
      DueIgnores(a, a', b[1..], now);
    }
  }

  // The due sleepers are those of the state at the call, and still in no run queue.
  lemma DueInWindow(m: Machine)
    requires Consistent(m) && InWindow(Here(m))
    ensures Defined(m.s, Tick) && m.s.t.cur !in DueNow(m.s.t, m.s.z)
  {
    var b, s := Here(m).before, m.s;
    NowhereInWindow(m);
    LostNotDue(s, s.t.cur);
    DueIgnores(Alarms(b.t), Alarms(s.t), s.z.wheel[Hash(Now(s.z))], Now(s.z));
    DueCanWake(b);
    forall p | p in DueNow(s.t, s.z) ensures Waits(s.t, p) && Unlisted(s.t, p) {
      OthersInWindow(m, p);
    }
  }

  lemma TickInWindow(m: Machine)
    requires Consistent(m) && InWindow(Here(m))
    ensures Possible(m, Do(Tick))
  {
    var s := m.s;
    DueInWindow(m);
    NowhereInWindow(m);
    OthersNotWoken(s.t, DueNow(s.t, s.z), s.t.cur);
    CurInWindow(m);
  }

  lemma CurInWindow(m: Machine)
    requires Consistent(m) && InWindow(Here(m))
    ensures var t := m.s.t; t.cur < |t.procs| && t.procs[t.cur].rest_time > 0 && t.procs[t.cur].sched_queue == t.active
  {
  }

  /** Outside windows whatever the step system allows is possible. */
  lemma EnabledPossible(m: Machine, a: Action)
    requires Consistent(m) && Enabled(m.s, a) && !a.Sleep?
    requires if a.Tick? then !InWindow(Here(m)) else Here(m).Outside? || (a.Yield? && Here(m).Joined?)
    ensures Possible(m, Do(a))
  {
    EnabledDefined(m.s, a);
    ActedKeeps(m.s, a);
    CurSpends(Acted(m.s, a).t);
  }

  /** And a tick can come at any time: no assertion of the source stops it. */
  lemma TickAlwaysPossible(m: Machine)
    requires Consistent(m)
    ensures Possible(m, Do(Tick))
  {
    if InWindow(Here(m)) { TickInWindow(m); } else { EnabledPossible(m, Tick); }
  }

  lemma CurSpends(t: Tasks)
    requires TasksOk(t)
    ensures CanSpend(t)
  {
    if t.procs[t.cur].state.Running? { RunnableListed(t, t.cur); }
  }

  // ---------- runs ----------

  ghost predicate MoveNo(ms: seq<Machine>, vs: seq<Move>, k: nat)
    requires |ms| == |vs| + 1 && k < |vs|
  {
    Possible(ms[k], vs[k]) && ms[k + 1] == After(ms[k], vs[k])
  }

  /** ms are the states of a run of moves from a consistent one, vs the moves between them. */
  ghost predicate IsMoveRun(ms: seq<Machine>, vs: seq<Move>) {
    |ms| == |vs| + 1 && Consistent(ms[0]) && forall k: nat | k < |vs| :: MoveNo(ms, vs, k)
  }

  ghost predicate Clean(ms: seq<Machine>, vs: seq<Move>, n: nat)
    requires |ms| == |vs| + 1 && n <= |vs|
  {
    forall k | 0 <= k < n :: !WindowTick(ms[k], vs[k])
  }

  /** After a run of moves the invariants hold if and only if no tick fell into a window. */
  lemma {:induction false} ConsistentIffClean(ms: seq<Machine>, vs: seq<Move>, n: nat)
    requires IsMoveRun(ms, vs) && n <= |vs|
    ensures Consistent(ms[n]) <==> Clean(ms, vs, n)
    ensures !Clean(ms, vs, n) ==> Damaged(ms[n])
  {
    if n > 0 {
      ConsistentIffClean(ms, vs, n - 1);
      assert MoveNo(ms, vs, n - 1);
      if Clean(ms, vs, n - 1) {
        StepConsistent(ms[n - 1], vs[n - 1]);
      } else {
        DamageStays(ms[n - 1], vs[n - 1]);
        DamageShows(ms[n]);
      }
    }
  }

  lemma MoveOn(ms: seq<Machine>, vs: seq<Move>, v: Move) returns (ms': seq<Machine>, vs': seq<Move>)
    requires IsMoveRun(ms, vs) && Possible(ms[|vs|], v)
    ensures IsMoveRun(ms', vs') && vs' == vs + [v] && ms' == ms + [After(ms[|vs|], v)]
  {
    ms', vs' := ms + [After(ms[|vs|], v)], vs + [v];
    forall k: nat | k < |vs'| ensures MoveNo(ms', vs', k) {
      if k < |vs| { assert MoveNo(ms, vs, k); }
    }
  }

  function CallMoves(n: nat): seq<Move> {
    if n == 0 then [Leave(0), Mark, Move.Join] else [Leave(n), Mark, Arm, Move.Join]
  }

  /** Undisturbed, all the moves of a call are possible, and they amount to its step. */
  lemma Undisturbed(m: Machine, n: nat) returns (ms: seq<Machine>, vs: seq<Move>)
    requires Consistent(m) && Here(m).Outside? && Allowed(m.s, Sleep(n))
    ensures IsMoveRun(ms, vs) && ms[0] == m && vs == CallMoves(n)
    ensures CanSleep(m.s, n) && ms[|vs|].s == Next(m.s, Sleep(n)) && Here(ms[|vs|]) == Joined
  {
    ms, vs := [m], [];
    ms, vs := Leaving(ms, vs, n);
    ms, vs := Marking(ms, vs);
    if n > 0 {
      ms, vs := Arming(ms, vs);
    }
    ms, vs := Joining(ms, vs);
  }

  lemma Leaving(ms: seq<Machine>, vs: seq<Move>, n: nat) returns (ms': seq<Machine>, vs': seq<Move>)
    requires IsMoveRun(ms, vs) && Consistent(ms[|vs|]) && Here(ms[|vs|]).Outside? && Allowed(ms[|vs|].s, Sleep(n))
    ensures IsMoveRun(ms', vs') && vs' == vs + [Leave(n)] && ms'[0] == ms[0]
    ensures Consistent(ms'[|vs'|]) && Here(ms'[|vs'|]) == Left(n, ms[|vs|].s)
    ensures ms'[|vs'|].at == ms[|vs|].at[ms[|vs|].s.t.cur := Left(n, ms[|vs|].s)]
  {
    EnabledDefined(ms[|vs|].s, Sleep(n));
    WindowKeeps(ms[|vs|], Leave(n));
    ms', vs' := MoveOn(ms, vs, Leave(n));
  }

  lemma Marking(ms: seq<Machine>, vs: seq<Move>) returns (ms': seq<Machine>, vs': seq<Move>)
    requires IsMoveRun(ms, vs) && Consistent(ms[|vs|]) && Here(ms[|vs|]).Left?
    ensures IsMoveRun(ms', vs') && vs' == vs + [Mark] && ms'[0] == ms[0]
    ensures Consistent(ms'[|vs'|]) && Here(ms'[|vs'|]) == Marked(Here(ms[|vs|]).timeout, Here(ms[|vs|]).before)
  {
    WindowKeeps(ms[|vs|], Mark);
    ms', vs' := MoveOn(ms, vs, Mark);
  }

  lemma Arming(ms: seq<Machine>, vs: seq<Move>) returns (ms': seq<Machine>, vs': seq<Move>)
    requires IsMoveRun(ms, vs) && Consistent(ms[|vs|]) && Here(ms[|vs|]).Marked? && Here(ms[|vs|]).timeout > 0
    ensures IsMoveRun(ms', vs') && vs' == vs + [Arm] && ms'[0] == ms[0]
    ensures Consistent(ms'[|vs'|]) && Here(ms'[|vs'|]) == Armed(Here(ms[|vs|]).timeout, Here(ms[|vs|]).before)
  {
    WindowKeeps(ms[|vs|], Arm);
    ms', vs' := MoveOn(ms, vs, Arm);
  }

  lemma Joining(ms: seq<Machine>, vs: seq<Move>) returns (ms': seq<Machine>, vs': seq<Move>)
    requires IsMoveRun(ms, vs) && Consistent(ms[|vs|])
    requires var h := Here(ms[|vs|]); if h.Marked? then h.timeout == 0 else h.Armed?
    ensures IsMoveRun(ms', vs') && vs' == vs + [Move.Join] && ms'[0] == ms[0]
    ensures var b, n := Here(ms[|vs|]).before, Here(ms[|vs|]).timeout;
      CanSleep(b, n) && ms'[|vs'|].s == Next(b, Sleep(n)) && Here(ms'[|vs'|]) == Joined
  {
    NowhereInWindow(ms[|vs|]);
    JoinSleeps(ms[|vs|]);
    ms', vs' := MoveOn(ms, vs, Move.Join);
  }

  /** The steps that the first n moves amount to. */
  function Steps(ms: seq<Machine>, vs: seq<Move>, n: nat): seq<Action>
    requires |ms| == |vs| + 1 && n <= |vs|
  {
    if n == 0 then [] else Steps(ms, vs, n - 1) + Visible(ms[n - 1], vs[n - 1])
  }

  /** A run without such a tick is a run of the step system, so that all that is proved of those
      runs holds of it. */
  lemma {:induction false} CleanRunRefines(ms: seq<Machine>, vs: seq<Move>, n: nat) returns (ss: seq<System>)
    requires IsMoveRun(ms, vs) && n <= |vs| && Clean(ms, vs, n)
    ensures Refines(ms, vs, n, ss)
  {
    if n == 0 {
      ss := [Abstract(ms[0])];
    } else {
      ss := CleanRunRefines(ms, vs, n - 1);
      ss := RefinesOn(ms, vs, n - 1, ss);
    }
  }

  ghost predicate Refines(ms: seq<Machine>, vs: seq<Move>, n: nat, ss: seq<System>)
    requires |ms| == |vs| + 1 && n <= |vs|
  {
    IsRun(ss, Steps(ms, vs, n)) && ss[0] == Abstract(ms[0]) && ss[|ss| - 1] == Abstract(ms[n])
  }

  lemma RefinesOn(ms: seq<Machine>, vs: seq<Move>, n: nat, ss: seq<System>) returns (ss': seq<System>)
    requires IsMoveRun(ms, vs) && n < |vs| && Clean(ms, vs, n + 1) && Refines(ms, vs, n, ss)
    ensures Refines(ms, vs, n + 1, ss')
  {
    CleanMoveAt(ms, vs, n);
    ss' := RunFollows(ss, Steps(ms, vs, n), Visible(ms[n], vs[n]), Abstract(ms[n + 1]));
  }

  lemma CleanMoveAt(ms: seq<Machine>, vs: seq<Move>, k: nat)
    requires IsMoveRun(ms, vs) && k < |vs| && Clean(ms, vs, k + 1)
    ensures Follows(Abstract(ms[k]), Visible(ms[k], vs[k]), Abstract(ms[k + 1]))
  {
    ConsistentIffClean(ms, vs, k);
    assert MoveNo(ms, vs, k);
    CleanMoveRefines(ms[k], vs[k]);
  }

  lemma RunFollows(ss: seq<System>, acts: seq<Action>, more: seq<Action>, s': System) returns (ss': seq<System>)
    requires IsRun(ss, acts) && Follows(ss[|acts|], more, s')
    ensures IsRun(ss', acts + more) && ss'[0] == ss[0] && ss'[|ss'| - 1] == s'
  {
    if more == [] {
      assert acts + more == acts;
      ss' := ss;
    } else {
      assert more == [more[0]];
      RunExtends(ss, acts, more[0]);
      ss' := ss + [s'];
    }
  }
}
