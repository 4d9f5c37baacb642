/** The order in which the scheduler serves: wait lists, ready queues and messages. */
module SchedOrder {
  import opened Queues
  import opened Wrappers
  import opened Sched
  import opened SchedRuns
  import opened SchedSteps
  import opened SchedTheorems
  import opened SchedProgress

  // ---------------------------------------------------------------- queues of a moved task

  lemma MovedList(s: State, u: nat, b: Task, wl: WaitList)
    requires Placed(s) && u in s.tasks && b.priority < PRIORITIES
    ensures var q := Queue(s.lists, wl);
      Queue(Move(s, u, b).lists, wl) == Without(q, u) + if InList(b, wl) then [u] else []
  {
    var q := Queue(s.lists, wl);
    assert HoldsWaiting(s.tasks, q, wl);
    NotThere(q, u);
  }

  lemma MovedReady(s: State, u: nat, b: Task, p: nat)
    requires Placed(s) && u in s.tasks && b.priority < PRIORITIES && p < PRIORITIES
    ensures Move(s, u, b).ready[p] == Without(s.ready[p], u) + if InReady(b, p) then [u] else []
  {
    assert HoldsReady(s.tasks, s.ready[p], p);
    NotThere(s.ready[p], u);
  }

  lemma {:induction false} NotThere(q: seq<nat>, u: nat)
    ensures u !in q ==> Without(q, u) == q
  {
    if q != [] && u !in q {
      assert q == [q[0]] + q[1..];
      NotThere(q[1..], u);
    }
  }

  /** `x` is still in the queue, with no more before it than there were. */
  predicate Kept(q: seq<nat>, q': seq<nat>, x: nat) {
    x in q ==> x in q' && Place(q', x) <= Place(q, x)
  }

  lemma MovedKeeps(q: seq<nat>, u: nat, more: seq<nat>, x: nat)
    requires u != x
    ensures Kept(q, Without(q, u) + more, x)
  {
    if x in q {
      PlaceWithout(q, u, x);
      PlaceFrom(Without(q, u), 0, more, x);
      assert Without(q, u)[0..] == Without(q, u);
    }
  }

  lemma MoveKeepsReady(s: State, u: nat, b: Task, p: nat, t: nat)
    requires Placed(s) && u in s.tasks && b.priority < PRIORITIES && p < PRIORITIES && u != t
    ensures Kept(s.ready[p], Move(s, u, b).ready[p], t)
  {
    MovedReady(s, u, b, p);
    MovedKeeps(s.ready[p], u, if InReady(b, p) then [u] else [], t);
  }

  lemma MoveKeepsList(s: State, u: nat, b: Task, wl: WaitList, t: nat)
    requires Placed(s) && u in s.tasks && b.priority < PRIORITIES && u != t
    ensures Kept(Queue(s.lists, wl), Queue(Move(s, u, b).lists, wl), t)
  {
    MovedList(s, u, b, wl);
    MovedKeeps(Queue(s.lists, wl), u, if InList(b, wl) then [u] else [], t);
  }

  // ---------------------------------------------------------------- waking

  /** First come, first woken: the head of the list, and nobody else, becomes ready without the
      mark of a timeout and goes to the end of the queue of its priority. */
  lemma WakesFirst(s: State, wl: WaitList)
    requires Placed(s)
    ensures var (r, woken) := WakeOne(s, wl);
      var q := Queue(s.lists, wl);
      && (woken <==> q != []) && (!woken ==> r == s)
      && (woken ==>
          && q[0] in s.tasks && Queue(r.lists, wl) == q[1..]
            && (forall w :: w != wl ==> Queue(r.lists, w) == Queue(s.lists, w))
          && r.tasks == s.tasks[q[0] := s.tasks[q[0]].(state := Ready, waitFor := None, hasTimeout := false)]
          && r.ready == s.ready[s.tasks[q[0]].priority := s.ready[s.tasks[q[0]].priority] + [q[0]]]
          && q[0] !in r.timeouts)
  {
    var q := Queue(s.lists, wl);
    if q != [] {
      assert HoldsWaiting(s.tasks, q, wl) && q[0] in q;
      WithoutSorted(s.tasks, s.timeouts, q[0]);
    }
  }

  lemma {:induction false} WakesUpTo(s: State, wl: WaitList, q: seq<nat>, n: nat, w: WaitList)
    requires Placed(s) && q == Queue(s.lists, wl) && n <= |q|
    ensures Queue(WakeMany(s, wl, n).lists, w) == if w == wl then q[n..] else Queue(s.lists, w)
    decreases n
  {
    if n > 0 {
      WakesFirst(s, wl);
      TailOfTail(q, n);
      WakesUpTo(WakeOne(s, wl).0, wl, q[1..], n - 1, w);
    }
  }

  lemma TailOfTail(q: seq<nat>, n: nat)
    requires 0 < n <= |q|
    ensures q[1..][n - 1..] == q[n..]
  {}

  function Readied(a: Task): Task {
    a.(state := Ready, waitFor := None, hasTimeout := false)
  }

  /** `t` is one of the first `n`. */
  predicate Among(q: seq<nat>, n: nat, t: nat)
    decreases n
  {
    n > 0 && q != [] && (q[0] == t || Among(q[1..], n - 1, t))
  }

  lemma {:induction false} AmongIff(q: seq<nat>, n: nat, t: nat)
    requires n <= |q|
    ensures Among(q, n, t) <==> t in q[..n]
    decreases n
  {
    if n > 0 {
      AmongIff(q[1..], n - 1, t);
      assert q[..n] == [q[0]] + q[1..][..n - 1];
    }
  }

  /** So `wait_list_wake_all` wakes everybody who is there, in turn. */
  lemma WakesInTurn(s: State, wl: WaitList, q: seq<nat>, n: nat, t: nat)
    requires Placed(s) && q == Queue(s.lists, wl) && n <= |q| && t in s.tasks
    ensures t in WakeMany(s, wl, n).tasks
    ensures WakeMany(s, wl, n).tasks[t] == if Among(q, n, t) then Readied(s.tasks[t]) else s.tasks[t]
  {
    if Among(q, n, t) {
      AmongIsWoken(s, wl, q, n, t);
    } else {
      OtherIsNot(s, wl, q, n, t);
    }
  }

  lemma {:induction false} AmongIsWoken(s: State, wl: WaitList, q: seq<nat>, n: nat, t: nat)
    requires Placed(s) && q == Queue(s.lists, wl) && n <= |q| && t in s.tasks && Among(q, n, t)
    ensures t in WakeMany(s, wl, n).tasks && WakeMany(s, wl, n).tasks[t] == Readied(s.tasks[t])
    decreases n
  {
    WokenOrNot(s, wl, q, t);
    if t == q[0] {
      WakeManyFrame(WakeOne(s, wl).0, wl, n - 1, t);
    } else {
      AmongIsWoken(WakeOne(s, wl).0, wl, q[1..], n - 1, t);
    }
  }

  lemma {:induction false} OtherIsNot(s: State, wl: WaitList, q: seq<nat>, n: nat, t: nat)
    requires Placed(s) && q == Queue(s.lists, wl) && n <= |q| && t in s.tasks && !Among(q, n, t)
    ensures t in WakeMany(s, wl, n).tasks && WakeMany(s, wl, n).tasks[t] == s.tasks[t]
    decreases n
  {
    if n > 0 {
      WokenOrNot(s, wl, q, t);
      OtherIsNot(WakeOne(s, wl).0, wl, q[1..], n - 1, t);
    }
  }

  lemma WokenOrNot(s: State, wl: WaitList, q: seq<nat>, t: nat)
    requires Placed(s) && q == Queue(s.lists, wl) && q != [] && t in s.tasks
    ensures Queue(WakeOne(s, wl).0.lists, wl) == q[1..] && t in WakeOne(s, wl).0.tasks
    ensures WakeOne(s, wl).0.tasks[t] == if t == q[0] then Readied(s.tasks[t]) else s.tasks[t]
  {
    WakesFirst(s, wl);
  }

  // ---------------------------------------------------------------- waiting

  /** The current task has left the processor for the list it was given: it stands behind all
      who wait there, and its deadline is the given one. */
  lemma BlockIs(s: State, wl: Option<WaitList>, timeout: nat)
    requires Inv(s)
    ensures var r, a := Block(s, wl, timeout), s.tasks[s.current];
      && r.tasks == s.tasks[s.current := Task(Waiting, a.priority, wl, timeout != INFINITY,
                                              if timeout != INFINITY then timeout else a.waitTimeout, a.refcount)]
      && r.ready == s.ready && r.current == s.current
      && r.soonest <= s.soonest && (timeout != INFINITY ==> r.soonest <= timeout)
      && (r.soonest == s.soonest || (timeout != INFINITY && r.soonest == timeout))
      && (forall w :: Queue(r.lists, w) == Queue(s.lists, w) + if wl == Some(w) then [s.current] else [])
  {}

  /** `schedule` leaves the lists alone but for that of the message event, and whoever waits in
      them or for nothing. */
  lemma ScheduleLists(s: State, w: WaitList)
    requires Mid(s) && w != IrqEvent
    ensures Queue(Schedule(s).lists, w) == Queue(s.lists, w)
  {
    NotifyLists(s, w);
    NotifyMid(s);
    SwitchLists(Notify(s), w);
  }

  lemma NotifyLists(s: State, w: WaitList)
    requires Mid(s) && w != IrqEvent
    ensures Queue(Notify(s).lists, w) == Queue(s.lists, w)
  {
    if s.soonest <= s.tick {
      PushLists(s, TimeoutMsg, w);
    }
  }

  lemma PushLists(s: State, msg: Msg, w: WaitList)
    requires Placed(s) && w != IrqEvent
    ensures Queue(PushMsg(s, msg).0.lists, w) == Queue(s.lists, w)
  {
    WakesFirst(s.(irq := Dropped(s.irq)), IrqEvent);
    WakesFirst(s.(irq := Queued(s.irq, msg)), IrqEvent);
  }

  lemma SwitchLists(s: State, w: WaitList)
    requires Mid(s)
    ensures Queue(Switch(s).lists, w) == Queue(s.lists, w)
  {
    TopReady(s, 0);
    GiveUpLists(s);
    if Answer(s).Some? {
      DispatchLists(GiveUp(s), Top(s.ready, 0).value);
    }
  }

  lemma GiveUpLists(s: State)
    requires Placed(s) && s.current in s.tasks
    ensures GiveUp(s).lists == s.lists
    ensures forall t :: t in s.tasks && s.tasks[t].state == Ready ==> GiveUp(s).tasks[t] == s.tasks[t]
  {}

  lemma DispatchLists(s: State, next: nat)
    requires Placed(s) && next in s.tasks && s.tasks[next].state == Ready
    ensures Dispatch(s, next).lists == s.lists
  {}

  lemma ScheduleWaiter(s: State, t: nat)
    requires Mid(s) && t in s.tasks && s.tasks[t].state == Waiting && s.tasks[t].waitFor != Some(IrqEvent)
    ensures t in Schedule(s).tasks && Schedule(s).tasks[t] == s.tasks[t]
  {
    NotifyWaiter(s, t);
    SwitchWaiter(Notify(s), t);
  }

  lemma SwitchWaiter(s: State, t: nat)
    requires Placed(s) && s.current in s.tasks && t in s.tasks && s.tasks[t].state == Waiting
    ensures t in Switch(s).tasks && Switch(s).tasks[t] == s.tasks[t]
  {
    TopReady(s, 0);
  }

  lemma NotifyWaiter(s: State, t: nat)
    requires Mid(s) && t in s.tasks && s.tasks[t].state == Waiting && s.tasks[t].waitFor != Some(IrqEvent)
    ensures t in Notify(s).tasks && Notify(s).tasks[t] == s.tasks[t]
  {
    assert HoldsWaiting(s.tasks, Queue(s.lists, IrqEvent), IrqEvent);
  }

  /** `task_wait` in terms of lists and tasks: the caller waits, last in the list it gave, until
      the deadline it gave. */
  lemma WaitEnters(s: State, wl: Option<WaitList>, timeout: nat)
    requires Inv(s) && Enabled(s, Wait(wl, timeout))
    ensures var r, a := WaitStep(s, wl, timeout), s.tasks[s.current];
      && s.current in r.tasks
      && r.tasks[s.current] == Task(Waiting, a.priority, wl, timeout != INFINITY,
                                    if timeout != INFINITY then timeout else a.waitTimeout, a.refcount)
      && (forall w :: w != IrqEvent ==>
          Queue(r.lists, w) == Queue(s.lists, w) + if wl == Some(w) then [s.current] else [])
  {
    BlockIs(s, wl, timeout);
    BlockMid(s, wl, timeout);
    var s1 := Block(s, wl, timeout);
    ScheduleWaiter(s1, s.current);
    forall w | w != IrqEvent
      ensures Queue(Schedule(s1).lists, w) == Queue(s1.lists, w)
    {
      ScheduleLists(s1, w);
    }
  }

  // ---------------------------------------------------------------- the turn of a waiter

  lemma KeptAppended(q: seq<nat>, more: seq<nat>, x: nat)
    ensures Kept(q, q + more, x) && (x in q ==> Place(q + more, x) == Place(q, x))
  {
    if x in q {
      PlaceFrom(q, 0, more, x);
      assert q[0..] == q;
    }
  }

  /** Only tasks whose deadline has passed leave their lists. */
  lemma {:induction false} ExpireKeeps(s: State, w: WaitList, p: nat, t: nat)
    requires Placed(s) && t in s.tasks && p < PRIORITIES && !(InTree(s.tasks[t]) && s.tasks[t].waitTimeout <= s.tick)
    ensures Kept(Queue(s.lists, w), Queue(Expire(s).lists, w), t) && Kept(s.ready[p], Expire(s).ready[p], t)
    decreases |s.timeouts|
  {
    if s.timeouts != [] {
      var u := s.timeouts[0];
      assert u in s.timeouts;
      if s.tasks[u].waitTimeout <= s.tick {
        MoveKeepsList(s, u, TimedOut(s.tasks[u]), w, t);
        MoveKeepsReady(s, u, TimedOut(s.tasks[u]), p, t);
        MovePlaced(s, u, TimedOut(s.tasks[u]));
        ExpireKeeps(Move(s, u, TimedOut(s.tasks[u])), w, p, t);
      }
    }
  }

  /** The alarm is then set for the first deadline that is left, if any. */
  lemma {:induction false} ExpireAlarm(s: State)
    requires Placed(s)
    ensures var r := Expire(s);
      && (r.timeouts == [] ==> r.soonest == s.soonest)
      && (r.timeouts != [] ==> r.soonest == Deadline(r.tasks, r.timeouts[0]) > s.tick)
    decreases |s.timeouts|
  {
    if s.timeouts != [] {
      var u := s.timeouts[0];
      assert u in s.timeouts;
      if s.tasks[u].waitTimeout <= s.tick {
        MovePlaced(s, u, TimedOut(s.tasks[u]));
        ExpireAlarm(Move(s, u, TimedOut(s.tasks[u])));
      }
    }
  }

  /** When a task dies, only those who wait for its end leave their list. */
  lemma DieLists(s: State, d: nat, w: WaitList, t: nat)
    requires Placed(s) && d in s.tasks && d != t
    ensures ListMovesUp(s, Die(s, d), w, t, 0)
  {
    MovePlaced(s, d, Corpse(s.tasks[d]));
    MoveKeepsList(s, d, Corpse(s.tasks[d]), w, t);
    var s1 := Move(s, d, Corpse(s.tasks[d]));
    WakesUpTo(s1, Join(d), Queue(s1.lists, Join(d)), |Queue(s1.lists, Join(d))|, w);
  }

  /** Whoever is in the list of a wait is waiting. */
  lemma InListIs(s: State, w: WaitList, t: nat)
    requires Placed(s)
    ensures t in Queue(s.lists, w) <==> t in s.tasks && InList(s.tasks[t], w)
    ensures Distinct(Queue(s.lists, w))
  {
    assert HoldsWaiting(s.tasks, Queue(s.lists, w), w);
  }

  lemma WaiterAtWake(s: State, wl: WaitList, n: nat, w: WaitList, t: nat)
    requires Placed(s) && n <= |Queue(s.lists, wl)|
    ensures ListMovesUp(s, WakeMany(s, wl, n), w, t, if wl == w then n else 0)
  {
    var q := Queue(s.lists, wl);
    WakesUpTo(s, wl, q, n, w);
    if wl == w && t in q[n..] {
      InListIs(s, w, t);
      PlaceAtLeast(q, n, t);
      PlaceFrom(q, n, [], t);
      assert q[n..] + [] == q[n..];
    }
  }

  lemma WaiterAtTerminate(s: State, u: nat, w: WaitList, t: nat)
    requires Inv(s) && Enabled(s, Terminate(u))
    ensures ListMovesUp(s, Next(s, Terminate(u)), w, t, 0)
  {
    TerminateMid(s, u);
    if u == t {
      TerminatedGone(s, u, w);
    } else {
      DieLists(s, u, w, t);
    }
  }

  lemma TerminatedGone(s: State, u: nat, w: WaitList)
    requires Inv(s) && Enabled(s, Terminate(u))
    ensures u !in Queue(TerminateStep(s, u).lists, w)
  {
    TerminateMid(s, u);
    DieDead(s, u);
    InListIs(TerminateStep(s, u), w, u);
  }

  lemma DieDead(s: State, d: nat)
    requires Placed(s) && d in s.tasks
    ensures Die(s, d).tasks[d].state == Dead
  {
    MovePlaced(s, d, Corpse(s.tasks[d]));
    var s1 := Move(s, d, Corpse(s.tasks[d]));
    WakeManyFrame(s1, Join(d), |Queue(s1.lists, Join(d))|, d);
  }

  lemma WaiterAtExit(s: State, w: WaitList, t: nat)
    requires Inv(s) && Enabled(s, Exit) && w != IrqEvent
    ensures ListMovesUp(s, Next(s, Exit), w, t, 0)
  {
    DieBuried(s);
    ScheduleLists(Buried(Die(s, s.current), s.current), w);
    InListIs(s, w, t);
    if t != s.current {
      DieLists(s, s.current, w, t);
    }
  }

  lemma WaiterAtSuspend(s: State, u: nat, w: WaitList, t: nat)
    requires Inv(s) && Enabled(s, Suspend(u)) && w != IrqEvent
    ensures ListMovesUp(s, Next(s, Suspend(u)), w, t, 0)
  {
    InListIs(s, w, t);
    assert TaskOk(s, u);
    MoveMid(s, u, Parked(s.tasks[u]));
    if u != t {
      MoveKeepsList(s, u, Parked(s.tasks[u]), w, t);
    }
    if u == s.current {
      ScheduleLists(Move(s, u, Parked(s.tasks[u])), w);
    }
  }

  lemma WaiterAtHandle(s: State, w: WaitList, t: nat)
    requires Inv(s) && Enabled(s, DrainHandle)
    ensures ListMovesUp(s, Next(s, DrainHandle), w, t, 0)
  {
    InListIs(s, w, t);
    if s.irq.pc.msg == TimeoutMsg && t in Queue(s.lists, w) {
      ExpireExact(s, t);
      ExpireMid(s);
      InListIs(Expire(s), w, t);
      if !(InTree(s.tasks[t]) && s.tasks[t].waitTimeout <= s.tick) {
        ExpireKeeps(s, w, 0, t);
      }
    }
  }

  lemma WaiterAtWait(s: State, wl: Option<WaitList>, timeout: nat, w: WaitList, t: nat)
    requires Inv(s) && w != IrqEvent && Mid(Block(s, wl, timeout))
    ensures ListMovesUp(s, Schedule(Block(s, wl, timeout)), w, t, 0)
  {
    BlockIs(s, wl, timeout);
    ScheduleLists(Block(s, wl, timeout), w);
    KeptAppended(Queue(s.lists, w), if wl == Some(w) then [s.current] else [], t);
  }

  predicate TouchesLists(step: Step) {
    step.Suspend? || step.Terminate? || step.Exit? || step.Wait? || step.WakeFirst? || step.WakeEach?
    || step.DrainWait? || step.DrainHandle?
  }

  lemma WaiterAtOther(s: State, step: Step, w: WaitList, t: nat)
    requires Inv(s) && Enabled(s, step) && w != IrqEvent && !TouchesLists(step)
    ensures ListMovesUp(s, Next(s, step), w, t, 0)
  {
    match step
    case Tick =>
      TickIs(s);
      ScheduleLists(Later(s), w);
    case Yield => ScheduleLists(s, w);
    case Resume(u) =>
      InListIs(s, w, t);
      if u != t {
        MoveKeepsList(s, u, s.tasks[u].(state := Ready), w, t);
      }
    case Interrupt(data) => PushLists(s, DeviceMsg(data), w);
    case DrainDead => ReapRefs(s);
    case _ =>
  }

  /** If `x` is in both queues it is nearer to the head by `k` in the second. */
  predicate MovedUp(q: seq<nat>, q': seq<nat>, x: nat, k: nat) {
    x in q && x in q' ==> Place(q', x) + k <= Place(q, x)
  }

  predicate ListMovesUp(s: State, s': State, w: WaitList, t: nat, k: nat) {
    MovedUp(Queue(s.lists, w), Queue(s'.lists, w), t, k)
  }

  /** One step: a waiter that stays in its list comes nearer to its head by one with each
      `WakeFirst` and never steps back. */
  lemma WaiterMovesUp(s: State, step: Step, w: WaitList, t: nat)
    requires Inv(s) && Enabled(s, step) && w != IrqEvent
    ensures ListMovesUp(s, Next(s, step), w, t, Woken1(step, w))
  {
    if step.WakeFirst? || step.WakeEach? {
      WaiterAtWakeStep(s, step, w, t);
    } else if TouchesLists(step) {
      WaiterKept(s, step, w, t);
    } else {
      WaiterAtOther(s, step, w, t);
    }
  }

  lemma WaiterAtWakeStep(s: State, step: Step, w: WaitList, t: nat)
    requires Inv(s) && Enabled(s, step) && (step.WakeFirst? || step.WakeEach?)
    ensures ListMovesUp(s, Next(s, step), w, t, Woken1(step, w))
  {
    match step
    case WakeFirst(wl) => WaiterAtWakeFirst(s, wl, w, t);
    case WakeEach(wl) => WaiterAtWakeEach(s, wl, w, t);
  }

  lemma WaiterKept(s: State, step: Step, w: WaitList, t: nat)
    requires Inv(s) && Enabled(s, step) && w != IrqEvent && TouchesLists(step) && !step.WakeFirst? && !step.WakeEach?
    ensures ListMovesUp(s, Next(s, step), w, t, 0)
  {
    if step.Suspend? {
      WaiterAtSuspend(s, step.t, w, t);
    } else if step.Terminate? {
      WaiterAtTerminate(s, step.t, w, t);
    } else if step.Exit? {
      WaiterAtExit(s, w, t);
    } else if step.Wait? {
      WaiterAtWaitStep(s, step.wl, step.timeout, w, t);
    } else if step.DrainWait? {
      WaiterAtDrainWait(s, w, t);
    } else {
      WaiterAtHandle(s, w, t);
    }
  }

  lemma WaiterAtWaitStep(s: State, wl: Option<WaitList>, timeout: nat, w: WaitList, t: nat)
    requires Inv(s) && Enabled(s, Wait(wl, timeout)) && w != IrqEvent
    ensures ListMovesUp(s, Next(s, Wait(wl, timeout)), w, t, 0)
  {
    BlockMid(s, wl, timeout);
    WaiterAtWait(s, wl, timeout, w, t);
  }

  function Woken1(step: Step, w: WaitList): nat {
    if step == WakeFirst(w) then 1 else 0
  }

  lemma WaiterAtWakeFirst(s: State, wl: WaitList, w: WaitList, t: nat)
    requires Inv(s) && Enabled(s, WakeFirst(wl))
    ensures ListMovesUp(s, Next(s, WakeFirst(wl)), w, t, if wl == w then 1 else 0)
  {
    if Queue(s.lists, wl) != [] {
      WaiterAtWake(s, wl, 1, w, t);
    } else {
      assert WakeMany(s, wl, 1) == WakeMany(s, wl, 0);
    }
  }

  lemma WaiterAtWakeEach(s: State, wl: WaitList, w: WaitList, t: nat)
    requires Inv(s) && Enabled(s, WakeEach(wl))
    ensures ListMovesUp(s, Next(s, WakeEach(wl)), w, t, 0)
    ensures wl == w ==> t !in Queue(Next(s, WakeEach(wl)).lists, w)
  {
    WaiterAtWake(s, wl, |Queue(s.lists, wl)|, w, t);
    WakesUpTo(s, wl, Queue(s.lists, wl), |Queue(s.lists, wl)|, w);
  }

  lemma WaiterAtDrainWait(s: State, w: WaitList, t: nat)
    requires Inv(s) && Enabled(s, DrainWait) && w != IrqEvent
    ensures ListMovesUp(s, Next(s, DrainWait), w, t, 0)
  {
    if !s.irq.signaled {
      BlockMid(s, Some(IrqEvent), INFINITY);
      WaiterAtWait(s, Some(IrqEvent), INFINITY, w, t);
    }
  }

  /** `t` waits in the list in every state of the run. */
  ghost predicate WaitsAllAlong(s: State, run: seq<Step>, w: WaitList, t: nat)
    requires Inv(s) && Feasible(s, run)
    decreases |run|
  {
    t in Queue(s.lists, w) && (run != [] ==> WaitsAllAlong(Next(s, run[0]), run[1..], w, t))
  }

  function WakesOf(run: seq<Step>, w: WaitList): nat {
    if run == [] then 0 else Woken1(run[0], w) + WakesOf(run[1..], w)
  }

  /** Over every run: whoever goes on waiting in a list has seen no more wake-ups of it than there
      were waiters before it, so the next one after that is its own; and none of all waiters. */
  lemma {:induction false} WokenInTurn(s: State, run: seq<Step>, w: WaitList, t: nat)
    requires Inv(s) && Feasible(s, run) && w != IrqEvent && WaitsAllAlong(s, run, w, t)
    ensures t in Queue(Exec(s, run).lists, w)
    ensures WakesOf(run, w) + Place(Queue(Exec(s, run).lists, w), t) <= Place(Queue(s.lists, w), t)
    ensures WakeEach(w) !in run
    decreases |run|
  {
    if run != [] {
      WaiterMovesUp(s, run[0], w, t);
      if run[0] == WakeEach(w) {
        WaiterAtWakeEach(s, w, w, t);
        assert false;
      }
      WokenInTurn(Next(s, run[0]), run[1..], w, t);
    }
  }

  // ---------------------------------------------------------------- round robin

  /** How a readied task stands: behind all of its priority. */
  lemma {:induction false} WakesKeepReady(s: State, wl: WaitList, n: nat, p: nat, t: nat)
    requires Placed(s) && p < PRIORITIES && t in s.ready[p]
    ensures Kept(s.ready[p], WakeMany(s, wl, n).ready[p], t)
    decreases n
  {
    if n > 0 {
      WakeKeepsReady(s, wl, p, t);
      WakesKeepReady(WakeOne(s, wl).0, wl, n - 1, p, t);
    }
  }

  lemma WakeKeepsReady(s: State, wl: WaitList, p: nat, t: nat)
    requires Placed(s) && p < PRIORITIES
    ensures Kept(s.ready[p], WakeOne(s, wl).0.ready[p], t)
  {
    WakesFirst(s, wl);
    if Queue(s.lists, wl) != [] {
      KeptAppended(s.ready[p], [Queue(s.lists, wl)[0]], t);
    }
  }

  lemma PushKeepsReady(s: State, msg: Msg, p: nat, t: nat)
    requires Placed(s) && p < PRIORITIES
    ensures Kept(s.ready[p], PushMsg(s, msg).0.ready[p], t)
  {
    WakeKeepsReady(s.(irq := Dropped(s.irq)), IrqEvent, p, t);
    WakeKeepsReady(s.(irq := Queued(s.irq, msg)), IrqEvent, p, t);
  }

  lemma NotifyKeepsReady(s: State, p: nat, t: nat)
    requires Placed(s) && p < PRIORITIES
    ensures Kept(s.ready[p], Notify(s).ready[p], t)
  {
    if s.soonest <= s.tick {
      PushKeepsReady(s, TimeoutMsg, p, t);
    }
  }

  lemma InReadyIs(s: State, p: nat, t: nat)
    requires Placed(s) && p < PRIORITIES
    ensures t in s.ready[p] <==> t in s.tasks && InReady(s.tasks[t], p)
  {
    assert HoldsReady(s.tasks, s.ready[p], p);
  }

  /** The switch takes the head of the queue it serves. */
  lemma SwitchServes(s: State, p: nat, t: nat)
    requires Mid(s) && p < PRIORITIES && t in s.ready[p] && t in Switch(s).ready[p]
    ensures Place(Switch(s).ready[p], t) + Served(s, p) <= Place(s.ready[p], t)
  {
    InReadyIs(s, p, t);
    InReadyIs(Switch(s), p, t);
    if Answer(s).Some? {
      TopReady(s, 0);
      TopIsHead(s, 0);
      var next := Top(s.ready, 0).value;
      GiveUpKeepsReady(s, p, t);
      var s1 := GiveUp(s);
      DispatchServes(s1, next, p, t);
    }
  }

  /** `t` stands first in the queue of the best priority that has a ready task. */
  ghost predicate First(ready: seq<seq<nat>>, t: nat) {
    exists p :: 0 <= p < |ready| && ready[p] != [] && ready[p][0] == t && forall q :: 0 <= q < p ==> ready[q] == []
  }

  lemma {:induction false} TopIsFirst(ready: seq<seq<nat>>, p: nat)
    requires p <= |ready| && forall q :: 0 <= q < p ==> ready[q] == []
    ensures Top(ready, p).Some? ==> First(ready, Top(ready, p).value)
    ensures Top(ready, p).None? ==> forall q :: 0 <= q < |ready| ==> ready[q] == []
    decreases |ready| - p
  {
    if p < |ready| && ready[p] == [] {
      TopIsFirst(ready, p + 1);
    }
  }

  /** Who gets the processor: the first ready task of the best priority, unless the current task
      goes on, which it does exactly if it still runs and every ready task has a worse priority. */
  lemma SwitchIs(s: State)
    requires Mid(s)
    ensures var stays := s.tasks[s.current].state == Running
        && forall t :: t in s.tasks && s.tasks[t].state == Ready ==> s.tasks[s.current].priority < s.tasks[t].priority;
      if stays then Switch(s) == s else First(s.ready, Switch(s).current)
  {
    TopReady(s, 0);
    TopIsFirst(s.ready, 0);
    assert TaskOk(s, IDLE);
    if Top(s.ready, 0).None? {
      NobodyReady(s);
    }
  }

  lemma NobodyReady(s: State)
    requires Mid(s) && Top(s.ready, 0).None?
    ensures forall t :: t in s.tasks ==> s.tasks[t].state != Ready
    ensures s.tasks[s.current].state == Running
  {
    TopReady(s, 0);
    assert TaskOk(s, IDLE) && TaskOk(s, s.current);
  }

  /** An alarm rings once: `schedule` asks for one message, not for one each time it is called. */
  lemma NotifyOnce(s: State)
    requires Placed(s) && s.tick < INFINITY && |s.irq.queue| < IRQ_QUEUE_SIZE
    ensures Notify(Notify(s)) == Notify(s)
  {}

  /** Whether the processor goes to a task of priority `p`. */
  function Served(s: State, p: nat): nat
    requires Placed(s) && s.current in s.tasks
  {
    var next := Top(s.ready, 0);
    if Answer(s).Some? && next.Some? && next.value in s.tasks && s.tasks[next.value].priority == p then 1 else 0
  }

  lemma GiveUpKeepsReady(s: State, p: nat, t: nat)
    requires Mid(s) && p < PRIORITIES && t in s.ready[p]
    ensures Kept(s.ready[p], GiveUp(s).ready[p], t)
    ensures s.ready[p] != [] && GiveUp(s).ready[p] != [] && GiveUp(s).ready[p][0] == s.ready[p][0]
  {
    InReadyIs(s, p, t);
    var cur := s.tasks[s.current];
    if cur.state == Running {
      MovedReady(s, s.current, cur.(state := Ready), p);
      InReadyIs(s, p, s.current);
      NotThere(s.ready[p], s.current);
      KeptAppended(s.ready[p], if cur.priority == p then [s.current] else [], t);
    }
  }

  lemma DispatchServes(s: State, next: nat, p: nat, t: nat)
    requires Placed(s) && next in s.tasks && s.tasks[next].state == Ready && next != t && p < PRIORITIES
    requires t in s.ready[p]
    requires s.tasks[next].priority == p ==> s.ready[p][0] == next
    ensures t in Dispatch(s, next).ready[p]
    ensures Place(Dispatch(s, next).ready[p], t)
      + (if s.tasks[next].priority == p then 1 else 0) <= Place(s.ready[p], t)
  {
    MovedReady(s, next, Dispatched(s.tasks[next]), p);
    PlaceWithout(s.ready[p], next, t);
    assert Without(s.ready[p], next) + [] == Without(s.ready[p], next);
  }

  lemma ScheduleServes(s: State, p: nat, t: nat)
    requires Mid(s) && p < PRIORITIES && t in s.ready[p] && t in Schedule(s).ready[p]
    ensures Place(Schedule(s).ready[p], t) + Served(Notify(s), p) <= Place(s.ready[p], t)
  {
    NotifyKeepsReady(s, p, t);
    NotifyMid(s);
    SwitchServes(Notify(s), p, t);
  }

  /** How many of the processor's turns that the step gives go to priority `p`. */
  function StepServed(s: State, step: Step, p: nat): nat
    requires Inv(s) && Enabled(s, step)
  {
    match Scheduling(s, step)
    case None => 0
    case Some(s1) => Served(Notify(s1), p)
  }

  lemma DieKeepsReady(s: State, d: nat, p: nat, t: nat)
    requires Placed(s) && d in s.tasks && d != t && p < PRIORITIES && t in s.ready[p]
    ensures Kept(s.ready[p], Die(s, d).ready[p], t)
  {
    MovePlaced(s, d, Corpse(s.tasks[d]));
    MoveKeepsReady(s, d, Corpse(s.tasks[d]), p, t);
    var s1 := Move(s, d, Corpse(s.tasks[d]));
    WakesKeepReady(s1, Join(d), |Queue(s1.lists, Join(d))|, p, t);
  }

  /** Until `schedule` is called nobody gets before `t`. */
  lemma SchedulingKeepsReady(s: State, step: Step, p: nat, t: nat)
    requires Inv(s) && Enabled(s, step) && p < PRIORITIES && t in s.ready[p] && Scheduling(s, step).Some?
    ensures Kept(s.ready[p], Scheduling(s, step).value.ready[p], t)
  {
    InReadyIs(s, p, t);
    match step
    case Exit => DieKeepsReady(s, s.current, p, t);
    case Suspend(u) => MoveKeepsReady(s, u, Parked(s.tasks[u]), p, t);
    case Wait(wl, timeout) => BlockIs(s, wl, timeout);
    case DrainWait => BlockIs(s, Some(IrqEvent), INFINITY);
    case _ =>
  }

  lemma SchedulingMid(s: State, step: Step)
    requires Inv(s) && Enabled(s, step) && Scheduling(s, step).Some?
    ensures Mid(Scheduling(s, step).value)
  {
    match step
    case Tick => TickIs(s);
    case Exit => ExitIs(s);
    case Suspend(t) =>
      assert TaskOk(s, t);
      MoveMid(s, t, Parked(s.tasks[t]));
    case Wait(wl, timeout) => BlockMid(s, wl, timeout);
    case DrainWait => BlockMid(s, Some(IrqEvent), INFINITY);
    case _ =>
  }

  /** A step that does not call `schedule` leaves a ready task its place, unless it takes it out. */
  lemma OtherKeepsReady(s: State, step: Step, p: nat, t: nat)
    requires Inv(s) && Enabled(s, step) && p < PRIORITIES && t in s.ready[p] && Scheduling(s, step).None?
    requires t in Next(s, step).ready[p]
    ensures Kept(s.ready[p], Next(s, step).ready[p], t)
  {
    if step.WakeFirst? || step.WakeEach? || step.Interrupt? {
      ReadyAtWake(s, step, p, t);
    } else if step.Resume? {
      ReadyAtResume(s, step.t, p, t);
    } else if step.Suspend? {
      ReadyAtSuspend(s, step.t, p, t);
    } else if step.Terminate? {
      ReadyAtTerminate(s, step.t, p, t);
    } else if step.DrainHandle? {
      ReadyAtHandle(s, p, t);
    } else if step.DrainDead? {
      ReapReady(s);
    } else {
      SameReady(s, step);
    }
  }

  lemma ReadyAtWake(s: State, step: Step, p: nat, t: nat)
    requires Inv(s) && Enabled(s, step) && p < PRIORITIES && t in s.ready[p]
    requires step.WakeFirst? || step.WakeEach? || step.Interrupt?
    ensures Kept(s.ready[p], Next(s, step).ready[p], t)
  {
    match step
    case WakeFirst(wl) => WakesKeepReady(s, wl, 1, p, t);
    case WakeEach(wl) => WakesKeepReady(s, wl, |Queue(s.lists, wl)|, p, t);
    case Interrupt(data) => PushKeepsReady(s, DeviceMsg(data), p, t);
  }

  lemma SameReady(s: State, step: Step)
    requires Inv(s) && Enabled(s, step) && Scheduling(s, step).None?
    requires step.Create? || step.Retain? || step.ReleaseRef? || step.DrainWait? || step.DrainPop?
    ensures Next(s, step).ready == s.ready
  {}

  lemma ReapReady(s: State)
    requires Inv(s) && Enabled(s, DrainDead)
    ensures Next(s, DrainDead).ready == s.ready
  {
    ReapRefs(s);
  }

  lemma ReadyAtResume(s: State, u: nat, p: nat, t: nat)
    requires Inv(s) && Enabled(s, Resume(u)) && p < PRIORITIES && t in s.ready[p]
    ensures Kept(s.ready[p], Next(s, Resume(u)).ready[p], t)
  {
    InReadyIs(s, p, t);
    MoveKeepsReady(s, u, s.tasks[u].(state := Ready), p, t);
  }

  lemma ReadyAtHandle(s: State, p: nat, t: nat)
    requires Inv(s) && Enabled(s, DrainHandle) && p < PRIORITIES && t in s.ready[p]
    ensures Kept(s.ready[p], Next(s, DrainHandle).ready[p], t)
  {
    InReadyIs(s, p, t);
    ExpireKeeps(s, IrqEvent, p, t);
  }

  lemma ReadyAtSuspend(s: State, u: nat, p: nat, t: nat)
    requires Inv(s) && Enabled(s, Suspend(u)) && u != s.current && p < PRIORITIES && t in Next(s, Suspend(u)).ready[p]
    ensures Kept(s.ready[p], Next(s, Suspend(u)).ready[p], t)
  {
    InReadyIs(SuspendStep(s, u), p, t);
    assert TaskOk(s, u);
    if u != t {
      MoveKeepsReady(s, u, Parked(s.tasks[u]), p, t);
    }
  }

  lemma ReadyAtTerminate(s: State, u: nat, p: nat, t: nat)
    requires Inv(s) && Enabled(s, Terminate(u)) && p < PRIORITIES && t in s.ready[p]
    requires t in Next(s, Terminate(u)).ready[p]
    ensures Kept(s.ready[p], Next(s, Terminate(u)).ready[p], t)
  {
    TerminateMid(s, u);
    InReadyIs(TerminateStep(s, u), p, t);
    DieDead(s, u);
    if u != t {
      DieKeepsReady(s, u, p, t);
    }
  }

  /** One step: a task that stays ready comes nearer to the head of its queue by one with each
      turn of its priority, and never steps back. */
  lemma ReadyMovesUp(s: State, step: Step, p: nat, t: nat)
    requires Inv(s) && Enabled(s, step) && p < PRIORITIES && t in s.ready[p] && t in Next(s, step).ready[p]
    ensures Place(Next(s, step).ready[p], t) + StepServed(s, step, p) <= Place(s.ready[p], t)
  {
    if Scheduling(s, step).None? {
      OtherKeepsReady(s, step, p, t);
    } else {
      SchedulingIs(s, step);
      SchedulingMid(s, step);
      SchedulingKeepsReady(s, step, p, t);
      ScheduleServes(Scheduling(s, step).value, p, t);
    }
  }

  /** `t` is ready in every state of the run. */
  ghost predicate ReadyAllAlong(s: State, run: seq<Step>, p: nat, t: nat)
    requires Inv(s) && Feasible(s, run) && p < PRIORITIES
    decreases |run|
  {
    t in s.ready[p] && (run != [] ==> ReadyAllAlong(Next(s, run[0]), run[1..], p, t))
  }

  ghost function Turns(s: State, run: seq<Step>, p: nat): nat
    requires Inv(s) && Feasible(s, run)
    decreases |run|
  {
    if run == [] then 0 else StepServed(s, run[0], p) + Turns(Next(s, run[0]), run[1..], p)
  }

  /** Round robin, over every run: whoever goes on being ready has seen no more turns of its
      priority than there were tasks before it in its queue. */
  lemma {:induction false} RoundRobin(s: State, run: seq<Step>, p: nat, t: nat)
    requires Inv(s) && Feasible(s, run) && p < PRIORITIES && ReadyAllAlong(s, run, p, t)
    ensures t in Exec(s, run).ready[p]
    ensures Turns(s, run, p) + Place(Exec(s, run).ready[p], t) <= Place(s.ready[p], t)
    decreases |run|
  {
    if run != [] {
      ReadyMovesUp(s, run[0], p, t);
      RoundRobin(Next(s, run[0]), run[1..], p, t);
    }
  }

  // ---------------------------------------------------------------- suspending, resuming and ending

  /** `task_resume`: the task, and no other, is ready, last of its priority. */
  lemma ResumedIs(s: State, u: nat)
    requires Inv(s) && Enabled(s, Resume(u))
    ensures var r, p := Next(s, Resume(u)), s.tasks[u].priority;
      r.tasks == s.tasks[u := s.tasks[u].(state := Ready)] && r.ready == s.ready[p := s.ready[p] + [u]]
        && r.lists == s.lists
  {}

  /** `task_suspend`: the task waits for nothing but a resume, whether it was running or ready. */
  lemma SuspendedIs(s: State, u: nat)
    requires Inv(s) && Enabled(s, Suspend(u))
    ensures var r := Next(s, Suspend(u));
      && u in r.tasks && r.tasks[u] == s.tasks[u].(state := Waiting, waitFor := None, hasTimeout := false)
      && (u != s.current ==> r.tasks == s.tasks[u := r.tasks[u]] && r.lists == s.lists)
  {
    assert TaskOk(s, u);
    MoveMid(s, u, Parked(s.tasks[u]));
    if u == s.current {
      ScheduleWaiter(Move(s, u, Parked(s.tasks[u])), u);
    }
  }

  /** Whoever waits for the end of `d` is readied when it dies, and nobody else. */
  lemma DeathIs(s: State, d: nat, t: nat)
    requires Placed(s) && d in s.tasks && t in s.tasks
    ensures t in Die(s, d).tasks
    ensures t != d ==> Die(s, d).tasks[t] == if InList(s.tasks[t], Join(d)) then Readied(s.tasks[t]) else s.tasks[t]
  {
    MovePlaced(s, d, Corpse(s.tasks[d]));
    var s1 := Move(s, d, Corpse(s.tasks[d]));
    var q := Queue(s1.lists, Join(d));
    InListIs(s1, Join(d), t);
    WakesInTurn(s1, Join(d), q, |q|, t);
    AmongIff(q, |q|, t);
    assert q[..|q|] == q;
  }

  /** `task_terminate`: the task is dead, or gone if nothing refers to it any more; its joiners
      are ready and everybody else is as before. */
  lemma TerminatedIs(s: State, u: nat, t: nat)
    requires Inv(s) && Enabled(s, Terminate(u)) && t in s.tasks
    ensures var r := Next(s, Terminate(u));
      && (u in r.tasks ==> r.tasks[u].state == Dead) && (u !in r.tasks <==> Handles(s, u) == 1)
      && (t != u ==> t in r.tasks)
      && (t != u ==> r.tasks[t] == if InList(s.tasks[t], Join(u)) then Readied(s.tasks[t]) else s.tasks[t])
  {
    DeathIs(s, u, t);
    DieDead(s, u);
    TerminateMid(s, u);
    TerminatedRefs(s, u);
  }

  lemma TerminatedRefs(s: State, u: nat)
    requires Inv(s) && Enabled(s, Terminate(u))
    ensures Die(s, u).tasks[u].refcount == Handles(s, u) && Die(s, u).handles == s.handles
  {
    DieCounts(s, u);
    assert RefOk(s, u);
  }

  /** `task_exit`: the caller is dead and last on the list of the dead, and another task runs. */
  lemma ExitedIs(s: State)
    requires Inv(s) && Enabled(s, Exit)
    ensures var r := Next(s, Exit);
      s.current in r.tasks && r.tasks[s.current].state == Dead && r.current != s.current
        && r.dead == s.dead + [s.current]
  {
    DieDead(s, s.current);
    DieCounts(s, s.current);
    DieBuried(s);
    var s1 := Buried(Die(s, s.current), s.current);
    ScheduleDead(s1, s.current);
  }

  lemma ScheduleDead(s: State, t: nat)
    requires Mid(s) && t in s.tasks && s.tasks[t].state == Dead
    ensures Schedule(s).dead == s.dead && t in Schedule(s).tasks && Schedule(s).tasks[t] == s.tasks[t]
  {
    NotifyMid(s);
    NotifyDead(s, t);
    SwitchDead(Notify(s), t);
  }

  lemma NotifyDead(s: State, t: nat)
    requires Placed(s) && t in s.tasks && s.tasks[t].state == Dead
    ensures Notify(s).dead == s.dead && t in Notify(s).tasks && Notify(s).tasks[t] == s.tasks[t]
  {
    PushFrame(s, TimeoutMsg, t);
  }

  lemma SwitchDead(s: State, t: nat)
    requires Placed(s) && s.current in s.tasks && t in s.tasks && s.tasks[t].state == Dead
    ensures Switch(s).dead == s.dead && t in Switch(s).tasks && Switch(s).tasks[t] == s.tasks[t]
  {
    TopReady(s, 0);
  }
}
