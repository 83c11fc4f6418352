/** sys_fork: how it shares the time slice, and what becomes of a fork that fails. */
module Forks {
  import opened Scheduler
  import opened Epochs
  import opened TimeWheel
  import opened Semaphores
  import opened KernelSteps
  import opened KernelRuns

  // ---------- the slice ----------

  /** The child is copied with its parent's level, outside every list. */
  lemma ForkCopies(s: System)
    requires Valid(s) && Enabled(s, Fork)
    ensures var t, t' := s.t, Next(s, Fork).t;
      && |t'.procs| == |t.procs| + 1 && ChildOfCur(t', |t.procs|) && Unlisted(t', |t.procs|)
      && t'.procs[|t.procs|].nice == t.procs[t.cur].nice
  {
    NextKeeps(s, Fork);
    BlockedUnlisted(Next(s, Fork).t, |s.t.procs|);
  }

  // The two halves of the second part of sys_fork, with nothing in between.
  ghost function SharedAndEntered(s: System, c: Pid): System
    requires Valid(s) && Enabled(s, ShareSlice(c))
  {
    NextKeeps(s, ShareSlice(c));
    Next(Next(s, ShareSlice(c)), EnterChild(c))
  }

  /** Parent and child share the parent's slice: nothing is lost and nothing gained, but that the child
      of a parent with one tick left gets one too; the child has as much as its parent or one tick more,
      and joins the active queue. */
  lemma ForkSharesSlice(s: System, c: Pid)
    requires Valid(s) && Enabled(s, ShareSlice(c))
    ensures var t, t' := s.t, SharedAndEntered(s, c).t;
      var r, parent, child := t.procs[t.cur].rest_time, t'.procs[t.cur].rest_time, t'.procs[c].rest_time;
      && (if r == 1 then parent == 1 && child == 1 else parent + child == r)
      && parent <= child <= parent + 1
      && Runnable(t', c) && t'.procs[c].sched_queue == t'.active == t.active && t'.procs[c].nice == t.procs[c].nice
  {
    NextKeeps(s, ShareSlice(c));
    NextKeeps(Next(s, ShareSlice(c)), EnterChild(c));
  }

  lemma {:induction false} WeightCopied(t: Tasks, k: nat)
    requires t.cur < |t.procs| && k <= |t.procs|
    ensures WeightFrom(Copy(t), k) == WeightFrom(t, k) + t.procs[t.cur].rest_time
    decreases |t.procs| - k
  {
    if k < |t.procs| {
      WeightCopied(t, k + 1);
    }
  }

  // The three parts of sys_fork, with nothing in between.
  ghost function ForkedWhole(s: System): System
    requires Valid(s) && Enabled(s, Fork)
  {
    NextKeeps(s, Fork);
    SharedAndEntered(Next(s, Fork), |s.t.procs|)
  }

  /** A fork adds nothing to the time outside the expire queue, but for the one tick of a child whose
      parent has one left. */
  lemma ForkTotal(s: System)
    requires Valid(s) && Enabled(s, Fork)
    ensures Potential(ForkedWhole(s).t) == Potential(s.t) + if s.t.procs[s.t.cur].rest_time == 1 then 1 else 0
  {
    var c := |s.t.procs|;
    NextKeeps(s, Fork);
    CopyTotal(s);
    ShareTotal(Next(s, Fork), c);
    EnterTotal(Next(Next(s, Fork), ShareSlice(c)), c);
  }

  lemma CopyTotal(s: System)
    requires Valid(s) && Enabled(s, Fork)
    ensures var c, s1 := |s.t.procs|, Next(s, Fork);
      && Valid(s1) && Enabled(s1, ShareSlice(c)) && s1.t.cur == s.t.cur
      && s1.t.procs[s.t.cur].rest_time == s1.t.procs[c].rest_time == s.t.procs[s.t.cur].rest_time
      && Potential(s1.t) == Potential(s.t) + s.t.procs[s.t.cur].rest_time
  {
    NextKeeps(s, Fork);
    WeightCopied(s.t, 0);
  }

  lemma ShareTotal(s: System, c: Pid)
    requires Valid(s) && Enabled(s, ShareSlice(c))
    ensures var r, s1 := s.t.procs[s.t.cur].rest_time, Next(s, ShareSlice(c));
      && Valid(s1) && Enabled(s1, EnterChild(c)) && s1.t.cur == s.t.cur && s1.t.procs[s.t.cur].rest_time == r
      && Potential(s1.t) == Potential(s.t) - s.t.procs[c].rest_time + (r - r / 2)
  {
    NextKeeps(s, ShareSlice(c));
    WeightChanged(s.t, Next(s, ShareSlice(c)).t, c, 0);
  }

  lemma EnterTotal(s: System, c: Pid)
    requires Valid(s) && Enabled(s, EnterChild(c))
    ensures var r := s.t.procs[s.t.cur].rest_time;
      Potential(Next(s, EnterChild(c)).t) == Potential(s.t) - r + if r == 1 then 1 else r / 2
  {
    var t := s.t;
    var t1 := t.(procs := t.procs[t.cur := t.procs[t.cur].(rest_time := ParentShare(t.procs[t.cur].rest_time))]);
    WeightChanged(t, t1, t.cur, 0);
    RestChanged(t, t.cur, ParentShare(t.procs[t.cur].rest_time));
    EnqueueFree(t1, c);
  }

  // ---------- forks that fail ----------

  // c is a copied child that nobody is forking any more.
  predicate Disowned(s: System, c: Pid) {
    c in s.t.unborn && c < |s.t.procs| && s.t.procs[c].parent == NO_PARENT
  }

  lemma {:induction false} GrantsSpareUnborn(s: System, i: nat, c: Pid)
    requires Base(s) && i < |s.sems| && Disowned(s, c)
    ensures Disowned(Grants(s, i), c)
    decreases |s.sems[i].waiters|
  {
    if CanGrant(s, i) {
      GrantWakes(s, i);
      GrantKeeps(s, i);
      assert Fed(s.t, c);
      GrantsSpareUnborn(Grant(s, i), i, c);
    }
  }

  lemma ActedSparesUnborn(s: System, a: Action, c: Pid)
    requires Valid(s) && Enabled(s, a) && Disowned(s, c)
    ensures Disowned(Acted(s, a), c)
  {
    match a
    case Tick => WakenKeeps(s); DueIsDeadline(s.t, s.z); assert Fed(s.t, c);
    case SemUp(i, num) => RaisedKeeps(s, i, num); GrantsSpareUnborn(Raised(s, i, num), i, c);
    case FreeFrame(f) => GiveBackBase(s, f); GrantsSpareUnborn(Raised(Push(s, f), FRAMES, 1), FRAMES, c);
    case _ =>
  }

  lemma StepSparesUnborn(s: System, a: Action, c: Pid)
    requires Valid(s) && Enabled(s, a) && Disowned(s, c)
    ensures Disowned(Next(s, a), c) && a != EnterChild(c)
  {
    ActedKeeps(s, a);
    ActedSparesUnborn(s, a, c);
  }

  lemma DropDisowns(s: System, c: Pid)
    requires Valid(s) && Enabled(s, DropChild(c))
    ensures Disowned(Next(s, DropChild(c)), c)
  {
  }

  lemma DisownedAt(ss: seq<System>, acts: seq<Action>, n: nat, c: Pid)
    requires IsRun(ss, acts) && n < |acts| && (Disowned(ss[n], c) || acts[n] == DropChild(c))
    ensures Disowned(ss[n + 1], c) && acts[n] != EnterChild(c)
  {
    StepAt(ss, acts, n);
    if Disowned(ss[n], c) { StepSparesUnborn(ss[n], acts[n], c); } else { DropDisowns(ss[n], c); }
  }

  /** Once its fork has failed, a child is never queued. */
  lemma {:induction false} DroppedForGood(ss: seq<System>, acts: seq<Action>, k: nat, n: nat)
    requires IsRun(ss, acts) && k < n <= |acts| && acts[k].DropChild?
    ensures Disowned(ss[n], acts[k].child)
    ensures n < |acts| ==> acts[n] != EnterChild(acts[k].child)
    ensures Shape(ss[n].t) && Unlisted(ss[n].t, acts[k].child)
    decreases n
  {
    var c := acts[k].child;
    if n > k + 1 {
      DroppedForGood(ss, acts, k, n - 1);
    }
    DisownedAt(ss, acts, n - 1, c);
    if n < |acts| {
      DisownedAt(ss, acts, n, c);
    }
    DisownedUnlisted(ss, acts, n, c);
  }

  lemma DisownedUnlisted(ss: seq<System>, acts: seq<Action>, n: nat, c: Pid)
    requires IsRun(ss, acts) && n <= |acts| && Disowned(ss[n], c)
    ensures Shape(ss[n].t) && Unlisted(ss[n].t, c)
  {
    RunStaysValid(ss, acts, n);
    BlockedUnlisted(ss[n].t, c);
  }
}
