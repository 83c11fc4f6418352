/** Time slices: how long the active queue of src/sched.c can last. */
module Epochs {
  import opened Scheduler

  // Ticks that p can still spend before the queues swap.
  function Weight(t: Tasks, p: Pid): nat
    requires p < |t.procs|
  {
    if Runnable(t, p) && t.procs[p].sched_queue != t.active then 0 else t.procs[p].rest_time
  }

  function WeightFrom(t: Tasks, k: nat): nat
    requires k <= |t.procs|
    decreases |t.procs| - k
  {
    if k == |t.procs| then 0 else Weight(t, k) + WeightFrom(t, k + 1)
  }

  /** The sum of rest_time over all processes not in the expire queue. */
  function Potential(t: Tasks): nat { WeightFrom(t, 0) }

  lemma {:induction false} WeightChanged(t: Tasks, t': Tasks, p: Pid, k: nat)
    requires |t'.procs| == |t.procs| && p < |t.procs| && k <= |t.procs|
    requires forall x | 0 <= x < |t.procs| && x != p :: Weight(t', x) == Weight(t, x)
    ensures WeightFrom(t', k) - WeightFrom(t, k) == if k <= p then Weight(t', p) - Weight(t, p) else 0
    decreases |t.procs| - k
  {
    if k < |t.procs| {
      WeightChanged(t, t', p, k + 1);
    }
  }

  lemma {:induction false} WeightBound(t: Tasks, k: nat)
    requires Shape(t) && k <= |t.procs|
    ensures WeightFrom(t, k) <= LEVELS * (|t.procs| - k)
    decreases |t.procs| - k
  {
    if k < |t.procs| {
      WeightBound(t, k + 1);
    }
  }

  lemma PotentialBound(t: Tasks)
    requires Shape(t)
    ensures Potential(t) <= LEVELS * |t.procs|
  {
    WeightBound(t, 0);
  }

  /** Waking up costs nothing: with time left into the active queue, with none into the other. */
  lemma EnqueueFree(t: Tasks, p: Pid)
    requires QueuesOk(t) && p < |t.procs| && !Runnable(t, p)
    ensures Potential(Enqueue(t, p)) == Potential(t)
  {
    WeightChanged(t, Enqueue(t, p), p, 0);
  }

  /** Neither does going to sleep. */
  lemma BlockFree(t: Tasks)
    requires QueuesOk(t) && Runnable(t, t.cur) && t.procs[t.cur].sched_queue == t.active
    ensures Potential(Block(t)) == Potential(t)
  {
    WeightChanged(t, Block(t), t.cur, 0);
  }

  lemma CurWeightless(t: Tasks, p: Pid, k: nat)
    requires k <= |t.procs|
    ensures WeightFrom(t.(cur := p), k) == WeightFrom(t, k)
    decreases |t.procs| - k
  {
    if k < |t.procs| {
      CurWeightless(t, p, k + 1);
    }
  }

  /** A call of schedule that does not swap the queues uses up exactly one tick. */
  lemma ScheduleCosts(t: Tasks)
    requires QueuesOk(t) && CurOk(t)
    requires Schedule(t).active == t.active
    ensures Potential(Schedule(t)) == Potential(t) - 1
  {
    WeightChanged(t, Spend(t), t.cur, 0);
    assert Flip(Spend(t)) == Spend(t);
    CurWeightless(Spend(t), Schedule(t).cur, 0);
  }

  // p waits for its turn in the active queue.
  predicate Ready(t: Tasks, p: Pid) {
    Runnable(t, p) && t.procs[p].sched_queue == t.active && p != t.cur
  }

  /** While somebody in the active queue has not been dispatched the queues do not swap. */
  lemma ReadyHoldsSwap(t: Tasks, p: Pid)
    requires QueuesOk(t) && CurOk(t) && Ready(t, p)
    ensures Schedule(t).active == t.active && Schedule(t).procs[p] == t.procs[p]
  {
    SpendKeeps(t);
    EmptyMeansNobody(Spend(t), p);
  }
}
