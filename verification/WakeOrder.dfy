/** In which order sleepers of one tick wake up: who fell asleep last comes first. */
module WakeOrder {
  import opened Lists
  import opened Scheduler
  import opened TimeWheel
  import opened Semaphores
  import opened KernelSteps
  import opened Bystanders
  import opened RunOrder

  /** Those taken from a bucket, and those left in it, keep their order. */
  lemma {:induction false} DueInOrder(alarms: seq<nat>, b: seq<Pid>, now: nat, x: Pid, y: Pid)
    requires NoRepeats(b) && Ahead(b, x, y)
    ensures Overdue(alarms, x, now) && Overdue(alarms, y, now) ==> Ahead(Due(alarms, b, now), x, y)
    ensures !Overdue(alarms, x, now) && !Overdue(alarms, y, now) ==> Ahead(Later(alarms, b, now), x, y)
  {
    RestOfAhead(b, x, y);
    DueAndLater(alarms, b[1..], now);
    if Ahead(b[1..], x, y) {
      DueInOrder(alarms, b[1..], now, x, y);
    }
    var due, later := Due(alarms, b, now), Later(alarms, b, now);
    if Overdue(alarms, b[0], now) {
      assert due[1..] == Due(alarms, b[1..], now);
      if Overdue(alarms, x, now) && Overdue(alarms, y, now) { AheadByRest(due, x, y); }
    } else {
      assert later[1..] == Later(alarms, b[1..], now);
      if !Overdue(alarms, x, now) && !Overdue(alarms, y, now) { AheadByRest(later, x, y); }
    }
  }

  lemma {:induction false} EnqueueAllInOrder(t: Tasks, ps: seq<Pid>, q: nat, l: nat, x: Pid, y: Pid)
    requires Shape(t) && (forall p | p in ps :: p < |t.procs|) && NoRepeats(ps) && q < 2 && l < LEVELS
    requires Ahead(ps, x, y) && x !in List(t, q, l) && y !in List(t, q, l)
    requires x in List(EnqueueAll(t, ps), q, l) && y in List(EnqueueAll(t, ps), q, l)
    ensures Ahead(List(EnqueueAll(t, ps), q, l), x, y)
    decreases |ps|
  {
    RestOfAhead(ps, x, y);
    assert ps[0] in ps && forall p | p in ps[1..] :: p in ps && p != ps[0];
    assert x in ps && y in ps && y in ps[1..];
    var t1 := Enqueue(t, ps[0]);
    EnqueueSpares(t, ps[0], y);
    assert y !in List(t1, q, l);
    if x == ps[0] {
      EnqueueAllSpares(t1, ps[1..], x);
      EnqueueAllPrefix(t1, ps[1..], q, l);
      AheadOfNew(List(t1, q, l), List(EnqueueAll(t1, ps[1..]), q, l), x, y);
    } else {
      EnqueueSpares(t, ps[0], x);
      EnqueueAllInOrder(t1, ps[1..], q, l, x, y);
    }
  }

  /** Two sleepers that a tick puts into the same list stand there in the order of their bucket. */
  lemma TickWakesInOrder(s: System, q: nat, l: nat, x: Pid, y: Pid)
    requires Valid(s) && q < 2 && l < LEVELS && x != s.t.cur && y != s.t.cur && Shape(Next(s, Tick).t)
    requires Ahead(s.z.wheel[Hash(Now(s.z))], x, y) && x in DueNow(s.t, s.z) && y in DueNow(s.t, s.z)
    requires x in List(Next(s, Tick).t, q, l) && y in List(Next(s, Tick).t, q, l)
    ensures Ahead(List(Next(s, Tick).t, q, l), x, y)
  {
    var h := Hash(Now(s.z));
    assert BucketOk(s.t, s.z, h);
    DueIsDeadline(s.t, s.z);
    DueInOrder(Alarms(s.t), s.z.wheel[h], Now(s.z), x, y);
    DueCanWake(s);
    WakenKeeps(s);
    var t1 := Waken(s).t;
    ScheduledLists(t1, q, l);
    MemberAfterWithout(List(t1, q, l), s.t.cur, x);
    MemberAfterWithout(List(t1, q, l), s.t.cur, y);
    EnqueueAllInOrder(s.t, DueNow(s.t, s.z), q, l, x, y);
    AheadWithout(List(t1, q, l), s.t.cur, x, y);
    AheadInLonger(Without(List(t1, q, l), s.t.cur), List(Next(s, Tick).t, q, l), x, y);
  }

  /** Whoever goes to sleep comes before everyone in its bucket. */
  lemma SleeperGoesFirst(s: System, timeout: nat, y: Pid)
    requires Valid(s) && Enabled(s, Sleep(timeout)) && timeout > 0
    requires y in s.z.wheel[Hash(s.z.jiffies + timeout)]
    ensures Ahead(Next(s, Sleep(timeout)).z.wheel[Hash(s.z.jiffies + timeout)], s.t.cur, y)
  {
    var b := s.z.wheel[Hash(s.z.jiffies + timeout)];
    AheadByRest([s.t.cur] + b, s.t.cur, y);
  }

  lemma {:induction false} GrantsLeaveWheel(s: System, i: nat)
    requires i < |s.sems| && Shape(s.t)
    ensures Grants(s, i).z.wheel == s.z.wheel
    decreases |s.sems[i].waiters|
  {
    if CanGrant(s, i) {
      GrantsLeaveWheel(Grant(s, i), i);
    }
  }

  // Only a tick and a sleep touch the wheel.
  lemma WheelStays(s: System, a: Action)
    requires Valid(s) && Enabled(s, a) && !a.Tick? && !a.Sleep?
    ensures Next(s, a).z.wheel == s.z.wheel
  {
    match a
    case SemUp(i, num) => GrantsLeaveWheel(Raised(s, i, num), i);
    case FreeFrame(f) => GrantsLeaveWheel(Raised(Push(s, f), FRAMES, 1), FRAMES);
    case _ =>
  }

  /** And the order in a bucket stays. */
  lemma StepKeepsBuckets(s: System, a: Action, h: nat, x: Pid, y: Pid)
    requires Valid(s) && Enabled(s, a) && h < WHEEL_SIZE && Ahead(s.z.wheel[h], x, y)
    requires |Next(s, a).z.wheel| == WHEEL_SIZE && x in Next(s, a).z.wheel[h] && y in Next(s, a).z.wheel[h]
    ensures Ahead(Next(s, a).z.wheel[h], x, y)
  {
    assert BucketOk(s.t, s.z, h);
    if a.Tick? {
      if h == Hash(Now(s.z)) {
        DueAndLater(Alarms(s.t), s.z.wheel[h], Now(s.z));
        DueInOrder(Alarms(s.t), s.z.wheel[h], Now(s.z), x, y);
      }
    } else if a.Sleep? {
      if a.timeout > 0 && h == Hash(s.z.jiffies + a.timeout) {
        var b := [s.t.cur] + s.z.wheel[h];
        assert b[1..] == s.z.wheel[h];
        AheadByRest(b, x, y);
      }
    } else {
      WheelStays(s, a);
    }
  }
}
