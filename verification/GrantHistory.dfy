/** What a semaphore has given out over a whole run, to whom and in which order. */
module GrantHistory {
  import opened Lists
  import opened Scheduler
  import opened TimeWheel
  import opened Semaphores
  import opened KernelSteps
  import opened KernelRuns

  datatype Request = Request(p: Pid, demand: nat)

  function RequestOf(t: Tasks, p: Pid): Request {
    Request(p, if p < |t.procs| then t.procs[p].demand else 0)
  }

  function Line(t: Tasks, ws: seq<Pid>): (rs: seq<Request>)
    ensures |rs| == |ws| && forall k | 0 <= k < |rs| :: rs[k] == RequestOf(t, ws[k])
  {
    seq(|ws|, k requires 0 <= k < |ws| => RequestOf(t, ws[k]))
  }

  /** The requests that wait for semaphore i, first come first. */
  function WaitLine(s: System, i: nat): seq<Request>
    requires i < |s.sems|
  {
    Line(s.t, s.sems[i].waiters)
  }

  function Sum(rs: seq<Request>): nat {
    if rs == [] then 0 else rs[0].demand + Sum(rs[1..])
  }

  lemma {:induction false} SumSplits(a: seq<Request>, b: seq<Request>)
    ensures Sum(a + b) == Sum(a) + Sum(b)
  {
    if a == [] {
      assert a + b == b;
    } else {
      SumSplits(a[1..], b);
      assert (a + b)[1..] == a[1..] + b;
    }
  }

  ghost predicate SameDemands(t: Tasks, t': Tasks) {
    |t'.procs| >= |t.procs| && forall p | 0 <= p < |t.procs| :: t'.procs[p].demand == t.procs[p].demand
  }

  lemma SameLine(s: System, s': System, i: nat)
    requires Base(s) && i < |s.sems| && i < |s'.sems| && s'.sems[i] == s.sems[i] && SameDemands(s.t, s'.t)
    ensures WaitLine(s', i) == WaitLine(s, i)
  {
    assert SemListed(s.t, s.z, s.sems[i]);
    forall k | 0 <= k < |s.sems[i].waiters| ensures WaitLine(s', i)[k] == WaitLine(s, i)[k] {
      assert s.sems[i].waiters[k] in s.sems[i].waiters;
    }
  }

  // ---------- one step ----------

  // What the loop of ksemaphore_up hands out, in order.
  function Served(s: System, i: nat): seq<Request>
    requires i < |s.sems| && Shape(s.t)
    decreases if i < |s.sems| then |s.sems[i].waiters| else 0
  {
    if CanGrant(s, i) then [RequestOf(s.t, s.sems[i].waiters[0])] + Served(Grant(s, i), i) else []
  }

  lemma GrantLines(s: System, i: nat, j: nat)
    requires Base(s) && i < |s.sems| && j < |s.sems| && CanGrant(s, i)
    ensures WaitLine(Grant(s, i), j) == if j == i then WaitLine(s, i)[1..] else WaitLine(s, j)
  {
    GrantWakes(s, i);
    var s', p := Grant(s, i), s.sems[i].waiters[0];
    assert SemListed(s.t, s.z, s.sems[j]) && SemListed(s.t, s.z, s.sems[i]);
    assert p in s.sems[i].waiters;
    forall k | 0 <= k < |s.sems[j].waiters| && (j == i ==> k > 0)
      ensures RequestOf(s'.t, s.sems[j].waiters[k]) == RequestOf(s.t, s.sems[j].waiters[k])
    {
      assert s.sems[j].waiters[k] in s.sems[j].waiters;
    }
  }

  /** The line splits into those served, in order, and those who still wait. */
  lemma {:induction false} ServedFirst(s: System, i: nat)
    requires Base(s) && i < |s.sems|
    ensures var s' := Grants(s, i);
      && |s'.sems| == |s.sems| && WaitLine(s, i) == Served(s, i) + WaitLine(s', i)
      && s.sems[i].surplus == s'.sems[i].surplus + Sum(Served(s, i))
    decreases |s.sems[i].waiters|
  {
    GrantsFrame(s, i);
    if CanGrant(s, i) {
      GrantKeeps(s, i);
      GrantLines(s, i, i);
      ServedFirst(Grant(s, i), i);
      HeadFirst(WaitLine(s, i), Served(Grant(s, i), i), WaitLine(Grants(s, i), i));
    }
  }

  lemma HeadFirst(line: seq<Request>, served: seq<Request>, rest: seq<Request>)
    requires line != [] && line[1..] == served + rest
    ensures line == ([line[0]] + served) + rest && Sum([line[0]] + served) == line[0].demand + Sum(served)
  {
    assert line == [line[0]] + line[1..];
    assert ([line[0]] + served)[1..] == served;
  }

  lemma {:induction false} OthersNotServed(s: System, i: nat, j: nat)
    requires Base(s) && i < |s.sems| && j < |s.sems| && j != i
    ensures |Grants(s, i).sems| == |s.sems| && WaitLine(Grants(s, i), j) == WaitLine(s, j)
    decreases |s.sems[i].waiters|
  {
    GrantsFrame(s, i);
    if CanGrant(s, i) {
      GrantKeeps(s, i);
      GrantLines(s, i, j);
      OthersNotServed(Grant(s, i), i, j);
    }
  }

  // What a step adds to semaphore i.
  function Added(a: Action, i: nat): nat {
    match a
    case SemUp(j, num) => if j == i then num else 0
    case FreeFrame(_) => if i == FRAMES then 1 else 0
    case _ => 0
  }

  // The call of ksemaphore_down in a step, if it is for semaphore i.
  predicate Asks(a: Action, i: nat) {
    match a
    case SemDown(j, _, _) => j == i
    case GetFrame => i == FRAMES
    case _ => false
  }

  function Demand(a: Action): nat {
    if a.SemDown? then a.demand else 1
  }

  // Granted at once.
  function Direct(s: System, a: Action, i: nat): nat
    requires i < |s.sems|
  {
    if Asks(a, i) && Immediate(s, i, Demand(a)) then Demand(a) else 0
  }

  // Put at the end of the line.
  function Arrived(s: System, a: Action, i: nat): seq<Request>
    requires i < |s.sems|
  {
    if Asks(a, i) && !Immediate(s, i, Demand(a)) && !(a.SemDown? && a.nowait) then [Request(s.t.cur, Demand(a))] else []
  }

  // Granted to those who waited.
  function Granted(s: System, a: Action, i: nat): seq<Request>
    requires i < |s.sems| && Shape(s.t)
  {
    match a
    case SemUp(j, num) => if j == i then Served(Raised(s, i, num), i) else []
    case FreeFrame(f) => if i == FRAMES then Served(Raised(Push(s, f), FRAMES, 1), FRAMES) else []
    case _ => []
  }

  // The account of one step from s to s'.
  ghost predicate Balanced(s: System, a: Action, s': System, i: nat)
    requires i < |s.sems| && Shape(s.t)
  {
    && |s'.sems| == |s.sems|
    && WaitLine(s, i) + Arrived(s, a, i) == Granted(s, a, i) + WaitLine(s', i)
    && s.sems[i].surplus + Added(a, i) == s'.sems[i].surplus + Sum(Granted(s, a, i)) + Direct(s, a, i)
  }

  lemma QuietBalance(s: System, a: Action, s': System, i: nat)
    requires Base(s) && i < |s.sems| && s'.sems == s.sems && SameDemands(s.t, s'.t)
    requires Added(a, i) == 0 && Granted(s, a, i) == [] && Arrived(s, a, i) == [] && Direct(s, a, i) == 0
    ensures Balanced(s, a, s', i)
  {
    SameLine(s, s', i);
    assert WaitLine(s, i) + [] == [] + WaitLine(s', i);
  }

  lemma UpBalance(s: System, a: Action, i: nat, num: nat, j: nat)
    requires Valid(s) && i < |s.sems| && j < |s.sems| && Base(Raised(s, i, num))
    requires Added(a, j) == (if j == i then num else 0) && !Asks(a, j)
    requires Granted(s, a, j) == if j == i then Served(Raised(s, i, num), i) else []
    ensures Balanced(s, a, Up(s, i, num), j)
  {
    var s1 := Raised(s, i, num);
    assert WaitLine(s1, j) == WaitLine(s, j);
    if j == i {
      ServedFirst(s1, i);
      assert WaitLine(s, j) + [] == WaitLine(s, j);
    } else {
      OthersNotServed(s1, i, j);
      GrantsFrame(s1, i);
      assert WaitLine(s, j) + [] == [] + WaitLine(s, j);
    }
  }

  lemma JoinLine(s: System, i: nat, d: nat, j: nat)
    requires Valid(s) && Runnable(s.t, s.t.cur) && i < |s.sems| && j < |s.sems| && d > 0
    ensures WaitLine(Join(s, i, d), j) == WaitLine(s, j) + if j == i then [Request(s.t.cur, d)] else []
  {
    var s1 := Join(s, i, d);
    assert SemListed(s.t, s.z, s.sems[j]);
    forall k | 0 <= k < |s.sems[j].waiters|
      ensures RequestOf(s1.t, s.sems[j].waiters[k]) == RequestOf(s.t, s.sems[j].waiters[k])
    {
      assert s.sems[j].waiters[k] in s.sems[j].waiters && Waits(s.t, s.sems[j].waiters[k]);
    }
  }

  lemma LoweredBalance(s: System, a: Action, s': System, i: nat, d: nat, j: nat)
    requires Base(s) && i < |s.sems| && j < |s.sems| && Immediate(s, i, d)
    requires s'.sems == Lowered(s, i, d).sems && s'.t == s.t
    requires Added(a, j) == 0 && Granted(s, a, j) == [] && Arrived(s, a, j) == []
    requires Direct(s, a, j) == if j == i then d else 0
    ensures Balanced(s, a, s', j)
  {
    assert WaitLine(s', j) == WaitLine(s, j);
    assert WaitLine(s, j) + [] == [] + WaitLine(s, j);
  }

  lemma ActedBalances(s: System, a: Action, i: nat)
    requires Valid(s) && Enabled(s, a) && i < |s.sems|
    ensures Balanced(s, a, Acted(s, a), i)
  {
    match a
    case SemUp(j, num) => RaisedKeeps(s, j, num); UpBalance(s, a, j, num, i);
    case SemDown(j, d, _) => AskedBalances(s, a, j, i);
    case GetFrame => AskedBalances(s, a, FRAMES, i);
    case FreeFrame(f) => FreeBalance(s, f, i);
    case _ => OtherBalances(s, a, i);
  }

  // The actions that touch no semaphore.
  lemma OtherBalances(s: System, a: Action, i: nat)
    requires Valid(s) && Enabled(s, a) && i < |s.sems|
    requires !a.SemUp? && !a.SemDown? && !a.GetFrame? && !a.FreeFrame?
    ensures Balanced(s, a, Acted(s, a), i)
  {
    SemsUntouched(s, a);
    QuietBalance(s, a, Acted(s, a), i);
  }

  lemma SemsUntouched(s: System, a: Action)
    requires Valid(s) && Enabled(s, a) && !a.SemUp? && !a.SemDown? && !a.GetFrame? && !a.FreeFrame?
    ensures Acted(s, a).sems == s.sems && SameDemands(s.t, Acted(s, a).t)
  {
    if a.Tick? {
      WakenKeeps(s);
    } else if Forks(a) {
      ForksTouchNothing(s, a);
    }
  }

  lemma ForksTouchNothing(s: System, a: Action)
    requires Valid(s) && Enabled(s, a) && Forks(a)
    ensures Acted(s, a).sems == s.sems && SameDemands(s.t, Acted(s, a).t)
  {
  }

  // ksemaphore_down on semaphore j.
  lemma AskedBalances(s: System, a: Action, j: nat, i: nat)
    requires Valid(s) && Enabled(s, a) && i < |s.sems| && Asks(a, j)
    ensures Balanced(s, a, Acted(s, a), i)
  {
    if Immediate(s, j, Demand(a)) {
      if a.GetFrame? { GetNowKeeps(s); }
      LoweredBalance(s, a, Acted(s, a), j, Demand(a), i);
    } else if a.SemDown? && a.nowait {
      QuietBalance(s, a, s, i);
    } else {
      JoinLine(s, j, Demand(a), i);
    }
  }

  lemma ScheduledBalance(s: System, a: Action, s1: System, i: nat)
    requires i < |s.sems| && Shape(s.t) && Balanced(s, a, s1, i) && CanSchedule(s1.t)
    ensures Balanced(s, a, Scheduled(s1), i)
  {
    ScheduleQuiet(s1.t);
    assert WaitLine(Scheduled(s1), i) == WaitLine(s1, i);
  }

  /** Each step's account balances. */
  lemma StepBalances(s: System, a: Action, i: nat)
    requires Valid(s) && Enabled(s, a) && i < |s.sems|
    ensures Balanced(s, a, Next(s, a), i)
  {
    ActedKeeps(s, a);
    ActedBalances(s, a, i);
    if Reschedules(s, a) {
      ScheduledBalance(s, a, Acted(s, a), i);
    }
  }

  lemma FreeBalance(s: System, f: Frame, i: nat)
    requires Valid(s) && f in s.used && i < |s.sems|
    ensures Balanced(s, FreeFrame(f), GiveBack(s, f), i)
  {
    GiveBackBase(s, f);
    var s1 := Raised(Push(s, f), FRAMES, 1);
    assert WaitLine(s1, i) == WaitLine(s, i);
    RaisedBalance(s, FreeFrame(f), s1, i);
  }

  // From the raised surplus of the frames' semaphore on.
  lemma RaisedBalance(s: System, a: Action, s1: System, i: nat)
    requires Shape(s.t) && i < |s.sems| && |s1.sems| == |s.sems| && Base(s1) && WaitLine(s1, i) == WaitLine(s, i)
    requires s1.sems[i].surplus == s.sems[i].surplus + Added(a, i) && !Asks(a, i)
    requires Granted(s, a, i) == if i == FRAMES then Served(s1, FRAMES) else []
    ensures Balanced(s, a, Grants(s1, FRAMES), i)
  {
    assert WaitLine(s, i) + [] == WaitLine(s, i);
    if i == FRAMES {
      ServedFirst(s1, FRAMES);
    } else {
      OthersNotServed(s1, FRAMES, i);
      GrantsFrame(s1, FRAMES);
      assert [] + WaitLine(s, i) == WaitLine(s, i);
    }
  }

  // ---------- a whole run ----------

  ghost predicate HasSem(ss: seq<System>, acts: seq<Action>, i: nat) {
    |ss| == |acts| + 1 && forall k | 0 <= k < |ss| :: i < |ss[k].sems| && Shape(ss[k].t)
  }

  ghost function Arrivals(ss: seq<System>, acts: seq<Action>, i: nat, n: nat): seq<Request>
    requires HasSem(ss, acts, i) && n <= |acts|
  {
    if n == 0 then [] else Arrivals(ss, acts, i, n - 1) + Arrived(ss[n - 1], acts[n - 1], i)
  }

  ghost function Services(ss: seq<System>, acts: seq<Action>, i: nat, n: nat): seq<Request>
    requires HasSem(ss, acts, i) && n <= |acts|
  {
    if n == 0 then [] else Services(ss, acts, i, n - 1) + Granted(ss[n - 1], acts[n - 1], i)
  }

  ghost function Directs(ss: seq<System>, acts: seq<Action>, i: nat, n: nat): nat
    requires HasSem(ss, acts, i) && n <= |acts|
  {
    if n == 0 then 0 else Directs(ss, acts, i, n - 1) + Direct(ss[n - 1], acts[n - 1], i)
  }

  function Ups(acts: seq<Action>, i: nat, n: nat): nat
    requires n <= |acts|
  {
    if n == 0 then 0 else Ups(acts, i, n - 1) + Added(acts[n - 1], i)
  }

  lemma {:induction false} SemsStay(ss: seq<System>, acts: seq<Action>, n: nat)
    requires IsRun(ss, acts) && n <= |acts|
    ensures |ss[n].sems| == |ss[0].sems| && Shape(ss[n].t)
  {
    if n > 0 {
      SemsStay(ss, acts, n - 1);
      SemsStep(ss, acts, n - 1);
    }
    RunShape(ss, acts, n);
  }

  lemma SemsStep(ss: seq<System>, acts: seq<Action>, k: nat)
    requires IsRun(ss, acts) && k < |acts|
    ensures |ss[k + 1].sems| == |ss[k].sems|
  {
    StepAt(ss, acts, k);
    StepBalances(ss[k], acts[k], FRAMES);
  }

  lemma RunHasSem(ss: seq<System>, acts: seq<Action>, i: nat)
    requires IsRun(ss, acts) && i < |ss[0].sems|
    ensures HasSem(ss, acts, i)
  {
    forall k | 0 <= k < |ss| ensures i < |ss[k].sems| && Shape(ss[k].t) {
      SemsStay(ss, acts, k);
    }
  }

  lemma BalanceAt(ss: seq<System>, acts: seq<Action>, i: nat, k: nat)
    requires IsRun(ss, acts) && HasSem(ss, acts, i) && k < |acts|
    ensures Balanced(ss[k], acts[k], ss[k + 1], i)
  {
    StepAt(ss, acts, k);
    StepBalances(ss[k], acts[k], i);
  }

  lemma Regroup(a: seq<Request>, b: seq<Request>, c: seq<Request>, d: seq<Request>,
                e: seq<Request>, f: seq<Request>, g: seq<Request>)
    requires a + b == c + d && d + e == f + g
    ensures a + (b + e) == (c + f) + g
  {
    assert a + (b + e) == (a + b) + e == (c + d) + e == c + (d + e) == c + (f + g) == (c + f) + g;
  }

  // The books of semaphore i after n steps.
  ghost predicate Accounted(ss: seq<System>, acts: seq<Action>, i: nat, n: nat)
    requires HasSem(ss, acts, i) && n <= |acts|
  {
    && WaitLine(ss[0], i) + Arrivals(ss, acts, i, n) == Services(ss, acts, i, n) + WaitLine(ss[n], i)
    && ss[0].sems[i].surplus + Ups(acts, i, n)
       == ss[n].sems[i].surplus + Sum(Services(ss, acts, i, n)) + Directs(ss, acts, i, n)
  }

  lemma NothingYet(ss: seq<System>, acts: seq<Action>, i: nat)
    requires HasSem(ss, acts, i)
    ensures Accounted(ss, acts, i, 0)
  {
    assert WaitLine(ss[0], i) + [] == [] + WaitLine(ss[0], i);
  }

  lemma AccountStep(ss: seq<System>, acts: seq<Action>, i: nat, n: nat)
    requires HasSem(ss, acts, i) && n < |acts| && Accounted(ss, acts, i, n) && Balanced(ss[n], acts[n], ss[n + 1], i)
    ensures Accounted(ss, acts, i, n + 1)
  {
    var s, a := ss[n], acts[n];
    Regroup(WaitLine(ss[0], i), Arrivals(ss, acts, i, n), Services(ss, acts, i, n), WaitLine(s, i),
      Arrived(s, a, i), Granted(s, a, i), WaitLine(ss[n + 1], i));
    SumSplits(Services(ss, acts, i, n), Granted(s, a, i));
  }

  /** First come, first served, and nothing lost: over any run, those who waited at the start
      followed by those who came are those served followed by those who wait at the end, and the
      surplus at the start plus all ups is the surplus at the end plus all demands granted. */
  lemma {:induction false} FirstComeFirstServed(ss: seq<System>, acts: seq<Action>, i: nat, n: nat)
    requires IsRun(ss, acts) && n <= |acts| && i < |ss[0].sems|
    ensures HasSem(ss, acts, i) && Accounted(ss, acts, i, n)
  {
    RunHasSem(ss, acts, i);
    if n == 0 {
      NothingYet(ss, acts, i);
    } else {
      FirstComeFirstServed(ss, acts, i, n - 1);
      BalanceAt(ss, acts, i, n - 1);
      AccountStep(ss, acts, i, n - 1);
    }
  }

  /** No barging: whoever is served at once at step n comes after all who came before. */
  lemma NoBarging(ss: seq<System>, acts: seq<Action>, i: nat, n: nat)
    requires IsRun(ss, acts) && n < |acts| && i < |ss[0].sems| && HasSem(ss, acts, i)
    requires Direct(ss[n], acts[n], i) > 0
    ensures Services(ss, acts, i, n) == WaitLine(ss[0], i) + Arrivals(ss, acts, i, n)
  {
    FirstComeFirstServed(ss, acts, i, n);
    assert WaitLine(ss[n], i) == [];
  }

  // ---------- what a waiter comes back to ----------

  // p waits for semaphore i, or it has been granted and its demand cleared.
  ghost predicate WaitsOrGranted(s: System, i: nat, p: Pid) {
    i < |s.sems| && (p in s.sems[i].waiters || (Runnable(s.t, p) && s.t.procs[p].demand == 0))
  }

  lemma {:induction false} GrantsAndWaiter(s: System, i: nat, j: nat, p: Pid)
    requires Base(s) && i < |s.sems| && j < |s.sems| && p in s.sems[j].waiters
    ensures WaitsOrGranted(Grants(s, i), j, p)
    decreases |s.sems[i].waiters|
  {
    GrantsFrame(s, i);
    if CanGrant(s, i) {
      GrantKeeps(s, i);
      var q := s.sems[i].waiters[0];
      assert q in s.sems[i].waiters;
      if p == q {
        GrantWakes(s, i);
        GrantsSpare(Grant(s, i), i, p);
      } else {
        if j == i { MemberOfRest(s.sems[i].waiters, p); }
        GrantsAndWaiter(Grant(s, i), i, j, p);
      }
    }
  }

  lemma ActedAndWaiter(s: System, a: Action, i: nat, p: Pid)
    requires Valid(s) && Enabled(s, a) && i < |s.sems| && p in s.sems[i].waiters
    ensures WaitsOrGranted(Acted(s, a), i, p)
  {
    match a
    case SemUp(j, num) => RaisedKeeps(s, j, num); GrantsAndWaiter(Raised(s, j, num), j, i, p);
    case FreeFrame(f) => GiveBackBase(s, f); GrantsAndWaiter(Raised(Push(s, f), FRAMES, 1), FRAMES, i, p);
    case _ =>
  }

  lemma StepAndWaiter(s: System, a: Action, i: nat, p: Pid)
    requires Valid(s) && Enabled(s, a) && i < |s.sems| && p in s.sems[i].waiters
    ensures WaitsOrGranted(Next(s, a), i, p)
  {
    ActedKeeps(s, a);
    ActedAndWaiter(s, a, i, p);
    if Reschedules(s, a) {
      ScheduleQuiet(Acted(s, a).t);
    }
  }

  lemma WaiterAt(ss: seq<System>, acts: seq<Action>, i: nat, k: nat, p: Pid)
    requires IsRun(ss, acts) && k < |acts| && WaitsOrGranted(ss[k], i, p) && ss[k].t.cur != p
    ensures WaitsOrGranted(ss[k + 1], i, p)
  {
    StepAt(ss, acts, k);
    SemsStep(ss, acts, k);
    if p in ss[k].sems[i].waiters {
      StepAndWaiter(ss[k], acts[k], i, p);
    } else {
      StepSpares(ss[k], acts[k], p);
    }
  }

  /** Whenever a process that joined the line runs again, its demand has been granted: the test
      at the end of ksemaphore_down succeeds. */
  lemma {:induction false} ResumesGranted(ss: seq<System>, acts: seq<Action>, i: nat, n: nat, p: Pid)
    requires IsRun(ss, acts) && n <= |acts| && i < |ss[0].sems| && p in ss[0].sems[i].waiters
    requires forall k | 0 <= k < n :: ss[k].t.cur != p
    ensures WaitsOrGranted(ss[n], i, p)
    ensures n > 0 && ss[n].t.cur == p ==> p < |ss[n].t.procs| && ss[n].t.procs[p].demand == 0
  {
    if n > 0 {
      ResumesGranted(ss, acts, i, n - 1, p);
      WaiterAt(ss, acts, i, n - 1, p);
      if ss[n].t.cur == p {
        RunsUnblocked(ss, acts, i, n - 1, p);
      }
    }
  }

  // Whoever a step dispatches is runnable, hence in no line.
  lemma RunsUnblocked(ss: seq<System>, acts: seq<Action>, i: nat, k: nat, p: Pid)
    requires IsRun(ss, acts) && k < |acts| && i < |ss[k + 1].sems| && ss[k].t.cur != p && ss[k + 1].t.cur == p
    ensures p !in ss[k + 1].sems[i].waiters
  {
    StepAt(ss, acts, k);
    NextKeeps(ss[k], acts[k]);
    ActedCosts(ss[k], acts[k]);
    assert SemListed(ss[k + 1].t, ss[k + 1].z, ss[k + 1].sems[i]);
    assert p in ss[k + 1].sems[i].waiters ==> Waits(ss[k + 1].t, p);
  }
}
