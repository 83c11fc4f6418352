/** src/wait.c as values: the wait list and the 512-bucket wheel of sleepers. */
module TimeWheel {
  import opened Lists
  import opened Scheduler
  import opened Epochs

  const WHEEL_SIZE: nat := 512

  function Hash(time: nat): (h: nat)
    ensures h < WHEEL_SIZE
  {
    time % WHEEL_SIZE
  }

  /** Two deadlines share a bucket exactly when they are whole turns of 512 ticks apart. */
  lemma SharedBucket(a: nat, b: nat)
    ensures Hash(a) == Hash(b) <==> (a - b) % 512 == 0
  {
    assert a == a / 512 * 512 + Hash(a) && b == b / 512 * 512 + Hash(b);
    assert a - b == (a / 512 - b / 512) * 512 + (Hash(a) - Hash(b));
  }

  datatype Sleepers = Sleepers(wheel: seq<seq<Pid>>, wait_list: seq<Pid>, jiffies: nat)

  function Alarms(t: Tasks): (a: seq<nat>)
    ensures |a| == |t.procs| && forall p | 0 <= p < |a| :: a[p] == t.procs[p].wakeup_jiffies
  {
    seq(|t.procs|, p requires 0 <= p < |t.procs| => t.procs[p].wakeup_jiffies)
  }

  predicate Overdue(alarms: seq<nat>, p: Pid, now: nat) {
    p < |alarms| && alarms[p] <= now
  }

  // The sleepers of a bucket whose time has come, and the others, in list order.
  function Due(alarms: seq<nat>, b: seq<Pid>, now: nat): seq<Pid> {
    if b == [] then []
    else if Overdue(alarms, b[0], now) then [b[0]] + Due(alarms, b[1..], now)
    else Due(alarms, b[1..], now)
  }

  function Later(alarms: seq<nat>, b: seq<Pid>, now: nat): seq<Pid> {
    if b == [] then []
    else if Overdue(alarms, b[0], now) then Later(alarms, b[1..], now)
    else [b[0]] + Later(alarms, b[1..], now)
  }

  // One call of ready_processes: at most max of them are taken, what is left stays in order.
  function Taken(alarms: seq<nat>, b: seq<Pid>, now: nat, max: nat): seq<Pid> {
    if b == [] || max == 0 then []
    else if Overdue(alarms, b[0], now) then [b[0]] + Taken(alarms, b[1..], now, max - 1)
    else Taken(alarms, b[1..], now, max)
  }

  function Left(alarms: seq<nat>, b: seq<Pid>, now: nat, max: nat): seq<Pid> {
    if b == [] || max == 0 then b
    else if Overdue(alarms, b[0], now) then Left(alarms, b[1..], now, max - 1)
    else [b[0]] + Left(alarms, b[1..], now, max)
  }

  /** Batch after batch takes what is due, in order, whatever the size of a batch; a batch that
      is not full was the last. */
  lemma {:induction false} BatchSplits(alarms: seq<nat>, b: seq<Pid>, now: nat, max: nat)
    ensures Due(alarms, b, now) == Taken(alarms, b, now, max) + Due(alarms, Left(alarms, b, now, max), now)
    ensures Later(alarms, Left(alarms, b, now, max), now) == Later(alarms, b, now)
    ensures |Taken(alarms, b, now, max)| <= max
    ensures |Taken(alarms, b, now, max)| + |Left(alarms, b, now, max)| == |b|
    ensures |Taken(alarms, b, now, max)| < max ==> Due(alarms, Left(alarms, b, now, max), now) == []
    ensures |Taken(alarms, b, now, max)| < max ==> Left(alarms, b, now, max) == Later(alarms, b, now)
  {
    if b != [] && max > 0 {
      var due := Overdue(alarms, b[0], now);
      BatchSplits(alarms, b[1..], now, if due then max - 1 else max);
      if !due {
        var r := Left(alarms, b[1..], now, max);
        assert ([b[0]] + r)[1..] == r;
      }
    }
  }

  lemma {:induction false} DueAndLater(alarms: seq<nat>, b: seq<Pid>, now: nat)
    requires NoRepeats(b)
    ensures NoRepeats(Due(alarms, b, now)) && NoRepeats(Later(alarms, b, now))
    ensures forall p :: p in Due(alarms, b, now) <==> p in b && Overdue(alarms, p, now)
    ensures forall p :: p in Later(alarms, b, now) <==> p in b && !Overdue(alarms, p, now)
  {
    if b != [] {
      DueAndLater(alarms, b[1..], now);
      assert forall p :: p in b <==> p == b[0] || p in b[1..];
    }
  }

  function EnqueueAll(t: Tasks, ps: seq<Pid>): (t': Tasks)
    requires Shape(t) && forall p | p in ps :: p < |t.procs|
    ensures Shape(t') && |t'.procs| == |t.procs|
    decreases |ps|
  {
    if ps == [] then t
    else
      assert ps[0] in ps && forall p | p in ps[1..] :: p in ps;
      var t1 := Enqueue(t, ps[0]);
      EnqueueAll(t1, ps[1..])
  }

  lemma {:induction false} EnqueueAllSplits(t: Tasks, a: seq<Pid>, b: seq<Pid>)
    requires Shape(t) && (forall p | p in a :: p < |t.procs|) && (forall p | p in b :: p < |t.procs|)
    ensures (forall p | p in a + b :: p < |t.procs|)
    ensures EnqueueAll(t, a + b) == EnqueueAll(EnqueueAll(t, a), b)
    decreases |a|
  {
    if a == [] {
      assert a + b == b;
    } else {
      assert (a + b)[1..] == a[1..] + b && (a + b)[0] == a[0] && a[0] in a && forall p | p in a[1..] :: p in a;
      EnqueueAllSplits(Enqueue(t, a[0]), a[1..], b);
    }
  }

  lemma {:induction false} OthersNotWoken(t: Tasks, ps: seq<Pid>, x: Pid)
    requires Shape(t) && (forall p | p in ps :: p < |t.procs|) && x < |t.procs| && x !in ps
    ensures var t' := EnqueueAll(t, ps); t'.procs[x] == t.procs[x] && t'.cur == t.cur && t'.active == t.active
    decreases |ps|
  {
    if ps != [] {
      assert ps[0] in ps && forall p | p in ps[1..] :: p in ps;
      OthersNotWoken(Enqueue(t, ps[0]), ps[1..], x);
    }
  }

  // What waking ps leaves of each process.
  ghost predicate Woken(t: Tasks, t': Tasks, ps: seq<Pid>) {
    && t.active < 2 && |t'.procs| == |t.procs| && t'.cur == t.cur && t'.active == t.active && t'.unborn == t.unborn
    && (forall x | 0 <= x < |t.procs| && x !in ps :: t'.procs[x] == t.procs[x])
    && (forall x | 0 <= x < |t.procs| && x in ps :: t'.procs[x] == Revived(t, t.procs[x]))
  }

  lemma {:induction false} EnqueueAllKeeps(t: Tasks, ps: seq<Pid>)
    requires QueuesOk(t) && NoRepeats(ps) && forall p | p in ps :: p < |t.procs| && t.procs[p].state.Waiting?
    ensures var t' := EnqueueAll(t, ps);
      QueuesOk(t') && Woken(t, t', ps) && Potential(t') == Potential(t)
    decreases |ps|
  {
    if ps != [] {
      var p := ps[0];
      assert p in ps;
      EnqueueKeeps(t, p);
      EnqueueFree(t, p);
      var t1 := Enqueue(t, p);
      assert Fed(t, p);
      assert t1.unborn == t.unborn;
      assert p !in ps[1..] && forall x | x in ps[1..] :: x in ps;
      EnqueueAllKeeps(t1, ps[1..]);
      var t' := EnqueueAll(t, ps);
      forall x | 0 <= x < |t.procs|
        ensures t'.procs[x] == if x in ps then Revived(t, t.procs[x]) else t.procs[x]
      {
        assert x in ps <==> x == p || x in ps[1..];
      }
    }
  }

  // ---------- the invariant ----------

  predicate Waits(t: Tasks, p: Pid) { p < |t.procs| && t.procs[p].state.Waiting? }

  /** p sleeps in the wheel, in bucket h. */
  predicate Asleep(t: Tasks, z: Sleepers, p: Pid, h: nat) {
    Waits(t, p) && p !in z.wait_list && Hash(t.procs[p].wakeup_jiffies) == h
  }

  ghost predicate BucketOk(t: Tasks, z: Sleepers, h: nat)
    requires h < |z.wheel|
  {
    NoRepeats(z.wheel[h]) && forall p :: p in z.wheel[h] <==> Asleep(t, z, p, h)
  }

  ghost predicate Timely(t: Tasks, z: Sleepers, p: Pid) {
    Waits(t, p) && p !in z.wait_list ==> t.procs[p].wakeup_jiffies > z.jiffies
  }

  /** Each blocked process is in the wait list or in the one bucket of its deadline, which has
      not come; nobody else is in either. */
  ghost predicate SleepersOk(t: Tasks, z: Sleepers) {
    && |z.wheel| == WHEEL_SIZE && NoRepeats(z.wait_list)
    && (forall p | p in z.wait_list :: Waits(t, p))
    && (forall h | 0 <= h < WHEEL_SIZE :: BucketOk(t, z, h))
    && (forall p | 0 <= p < |t.procs| :: Timely(t, z, p))
  }

  // The waits see the state and the deadline of a process only.
  ghost predicate SameWaits(t: Tasks, t': Tasks) {
    && (forall p | 0 <= p < |t.procs| && 0 <= p < |t'.procs| ::
      t'.procs[p].state == t.procs[p].state && t'.procs[p].wakeup_jiffies == t.procs[p].wakeup_jiffies)
    && |t'.procs| >= |t.procs|
    && (forall p | |t.procs| <= p < |t'.procs| :: t'.procs[p].state.Running?)
  }

  lemma SleepersUnaffected(t: Tasks, t': Tasks, z: Sleepers)
    requires SleepersOk(t, z) && SameWaits(t, t')
    ensures SleepersOk(t', z)
  {
    assert forall p :: Waits(t', p) <==> Waits(t, p);
    forall h | 0 <= h < WHEEL_SIZE ensures BucketOk(t', z, h) {
      assert BucketOk(t, z, h);
      assert forall p :: Asleep(t', z, p, h) <==> Asleep(t, z, p, h);
    }
    forall p | 0 <= p < |t'.procs| ensures Timely(t', z, p) {
      if p < |t.procs| { assert Timely(t, z, p); }
    }
  }

  // ---------- going to sleep ----------

  function WaitInList(z: Sleepers, p: Pid): Sleepers {
    z.(wait_list := [p] + z.wait_list)
  }

  function WithAlarm(t: Tasks, p: Pid, deadline: nat): Tasks
    requires p < |t.procs|
  {
    t.(procs := t.procs[p := t.procs[p].(wakeup_jiffies := deadline)])
  }

  function SleepInWheel(z: Sleepers, p: Pid, deadline: nat): Sleepers
    requires |z.wheel| == WHEEL_SIZE
  {
    z.(wheel := z.wheel[Hash(deadline) := [p] + z.wheel[Hash(deadline)]])
  }

  // t' is t but for p, who is blocked now.
  ghost predicate OnlyBlocked(t: Tasks, t': Tasks, p: Pid) {
    && |t'.procs| == |t.procs| && p < |t.procs| && t.procs[p].state.Running? && t'.procs[p].state.Waiting?
    && forall x | 0 <= x < |t.procs| && x != p :: t'.procs[x] == t.procs[x]
  }

  lemma WaitKeeps(t: Tasks, t': Tasks, z: Sleepers, p: Pid)
    requires SleepersOk(t, z) && OnlyBlocked(t, t', p)
    ensures SleepersOk(t', WaitInList(z, p)) && p !in z.wait_list
  {
    var z' := WaitInList(z, p);
    assert !Waits(t, p);
    NoRepeatsPrepend(p, z.wait_list);
    forall x ensures x in z'.wait_list <==> x in z.wait_list || x == p {
    }
    forall h | 0 <= h < WHEEL_SIZE ensures BucketOk(t', z', h) {
      assert BucketOk(t, z, h);
      assert forall x :: Asleep(t', z', x, h) <==> Asleep(t, z, x, h);
    }
    forall x | 0 <= x < |t'.procs| ensures Timely(t', z', x) {
      assert Timely(t, z, x);
    }
  }

  lemma SleepKeeps(t: Tasks, t': Tasks, z: Sleepers, p: Pid, deadline: nat)
    requires SleepersOk(t, z) && OnlyBlocked(t, t', p) && t'.procs[p].wakeup_jiffies == deadline > z.jiffies
    ensures SleepersOk(t', SleepInWheel(z, p, deadline))
  {
    var z' := SleepInWheel(z, p, deadline);
    assert !Waits(t, p);
    forall h | 0 <= h < WHEEL_SIZE ensures BucketOk(t', z', h) {
      assert BucketOk(t, z, h);
      assert forall x :: x != p ==> (Asleep(t', z', x, h) <==> Asleep(t, z, x, h));
      if h == Hash(deadline) {
        assert !Asleep(t, z, p, h) && Asleep(t', z', p, h);
        NoRepeatsPrepend(p, z.wheel[h]);
      }
    }
    forall x | 0 <= x < |t'.procs| ensures Timely(t', z', x) {
      assert Timely(t, z, x);
    }
  }

  // ---------- waking up ----------

  function OutOfList(z: Sleepers, p: Pid): Sleepers {
    z.(wait_list := Without(z.wait_list, p))
  }

  lemma WakeupKeeps(t: Tasks, z: Sleepers, p: Pid)
    requires QueuesOk(t) && SleepersOk(t, z) && p in z.wait_list
    ensures p < |t.procs| && !Runnable(t, p) && SleepersOk(Enqueue(t, p), OutOfList(z, p))
  {
    assert Waits(t, p);
    var t', z' := Enqueue(t, p), OutOfList(z, p);
    WithoutKeeps(z.wait_list, p);
    forall x | x in z'.wait_list ensures Waits(t', x) {
      assert Waits(t, x);
    }
    forall h | 0 <= h < WHEEL_SIZE ensures BucketOk(t', z', h) {
      assert BucketOk(t, z, h);
      assert forall x :: Asleep(t', z', x, h) <==> Asleep(t, z, x, h);
    }
    forall x | 0 <= x < |t'.procs| ensures Timely(t', z', x) {
      assert Timely(t, z, x);
    }
  }

  // ---------- one tick ----------

  function Now(z: Sleepers): nat { z.jiffies + 1 }

  function DueNow(t: Tasks, z: Sleepers): seq<Pid>
    requires |z.wheel| == WHEEL_SIZE
  {
    Due(Alarms(t), z.wheel[Hash(Now(z))], Now(z))
  }

  // The wheel after the wake loop of do_timer.
  function Turned(t: Tasks, z: Sleepers): Sleepers
    requires |z.wheel| == WHEEL_SIZE
  {
    var h := Hash(Now(z));
    z.(jiffies := Now(z), wheel := z.wheel[h := Later(Alarms(t), z.wheel[h], Now(z))])
  }

  /** Those taken from the bucket are exactly the sleepers whose deadline is this very tick,
      whatever other turns of the wheel share the bucket. */
  lemma DueIsDeadline(t: Tasks, z: Sleepers)
    requires SleepersOk(t, z)
    ensures NoRepeats(DueNow(t, z))
    ensures forall p: Pid :: p in DueNow(t, z) <==>
      Waits(t, p) && p !in z.wait_list && t.procs[p].wakeup_jiffies == Now(z)
  {
    var h := Hash(Now(z));
    assert BucketOk(t, z, h);
    DueAndLater(Alarms(t), z.wheel[h], Now(z));
    forall p: Pid
      ensures p in DueNow(t, z) <==> Waits(t, p) && p !in z.wait_list && t.procs[p].wakeup_jiffies == Now(z)
    {
      assert p in z.wheel[h] <==> Asleep(t, z, p, h);
      if Waits(t, p) { assert Timely(t, z, p); }
    }
  }

  lemma TurnKeeps(t: Tasks, z: Sleepers)
    requires QueuesOk(t) && SleepersOk(t, z)
    ensures forall p | p in DueNow(t, z) :: p < |t.procs| && t.procs[p].state.Waiting?
    ensures QueuesOk(EnqueueAll(t, DueNow(t, z))) && SleepersOk(EnqueueAll(t, DueNow(t, z)), Turned(t, z))
  {
    DueIsDeadline(t, z);
    assert forall p | p in DueNow(t, z) :: Waits(t, p);
    EnqueueAllKeeps(t, DueNow(t, z));
    TurnedOk(t, EnqueueAll(t, DueNow(t, z)), z);
  }

  lemma TurnedOk(t: Tasks, t': Tasks, z: Sleepers)
    requires SleepersOk(t, z) && t.active < 2 && Woken(t, t', DueNow(t, z))
    ensures SleepersOk(t', Turned(t, z))
  {
    var z', h := Turned(t, z), Hash(Now(z));
    DueIsDeadline(t, z);
    forall p ensures Waits(t', p) <==> Waits(t, p) && p !in DueNow(t, z) {
    }
    forall k | 0 <= k < WHEEL_SIZE ensures BucketOk(t', z', k) {
      assert BucketOk(t, z, k);
      if k == h {
        DueAndLater(Alarms(t), z.wheel[h], Now(z));
        forall p ensures p in z'.wheel[h] <==> Asleep(t', z', p, h) {
          assert p in z.wheel[h] <==> Asleep(t, z, p, h);
        }
      } else {
        forall p ensures p in z'.wheel[k] <==> Asleep(t', z', p, k) {
          assert p in z.wheel[k] <==> Asleep(t, z, p, k);
        }
      }
    }
    forall p | 0 <= p < |t'.procs| ensures Timely(t', z', p) {
      assert Timely(t, z, p);
    }
    forall p | p in z'.wait_list ensures Waits(t', p) {
      assert Waits(t, p);
    }
  }
}
