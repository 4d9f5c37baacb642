/**
 Runs of the scheduler: any task, interrupt or timer tick may take any step its code allows.
 */
module SchedSteps {
  import opened Queues
  import opened Wrappers
  import opened Sched
  import opened SchedRuns

  datatype Step =
    | Tick                                         // timer interrupt
    | Yield                                        // schedule() by the current task
    | Create(priority: nat)
    | Resume(t: nat)
    | Suspend(t: nat)
    | Terminate(t: nat)
    | Exit
    | Retain(t: nat)
    | ReleaseRef(t: nat)
    | Wait(wl: Option<WaitList>, timeout: nat)     // the blocking part of task_wait
    | WakeFirst(list: WaitList)
    | WakeEach(list: WaitList)
    | Interrupt(data: nat)                         // a device pushes a message
    | DrainWait                                    // event_wait of the drain loop
    | DrainPop
    | DrainHandle
    | DrainDead                                    // by the idle task

  const TID_END: nat := 0x7FFF_FFFF

  /** What the code demands of its callers; the idle task and the drain loop are never
      suspended or ended, and only the drain loop waits for its event. */
  predicate Enabled(s: State, step: Step)
    requires s.current in s.tasks
  {
    match step
    case Tick => true
    case Yield => true
    case Create(p) => p < PRIORITIES && s.nextTid < TID_END
    case Resume(t) => t in s.tasks && s.tasks[t].state == Waiting && s.tasks[t].waitFor.None? && !s.tasks[t].hasTimeout
    case Suspend(t) => t in s.tasks && t != IDLE && t != DRAINER && (t == s.current || s.tasks[t].state == Ready)
    case Terminate(t) =>
      t in s.tasks && t != IDLE && t != DRAINER && Handles(s, t) > 0
        && (s.tasks[t].state == Ready || s.tasks[t].state == Waiting)
    case Exit => s.current != IDLE && s.current != DRAINER
    case Retain(t) => t in s.tasks
    case ReleaseRef(t) => t in s.tasks && Handles(s, t) > 0
    case Wait(wl, timeout) =>
      && s.current != IDLE && wl != Some(IrqEvent)
      && (wl.Some? && wl.value.Join? ==> wl.value.tid in s.tasks && s.tasks[wl.value.tid].state != Dead)
    case WakeFirst(wl) => wl != IrqEvent
    case WakeEach(wl) => wl != IrqEvent
    case Interrupt(_) => true
    case DrainWait => s.current == DRAINER && s.irq.pc == AtWait
    case DrainPop => s.current == DRAINER && s.irq.pc == AtPop
    case DrainHandle => s.current == DRAINER && s.irq.pc.AtHandle?
    case DrainDead => s.current == IDLE && s.dead != []
  }

  function Blocked(a: Task, wl: Option<WaitList>, timeout: nat): Task {
    if timeout == INFINITY then a.(state := Waiting, waitFor := wl, hasTimeout := false)
    else a.(state := Waiting, waitFor := wl, hasTimeout := true, waitTimeout := timeout)
  }

  /** The current task blocks, before it gives up the processor. */
  function Block(s: State, wl: Option<WaitList>, timeout: nat): (r: State)
    requires Placed(s) && s.current in s.tasks
    ensures Placed(r) && Beside(s, r)
  {
    var b := Blocked(s.tasks[s.current], wl, timeout);
    var s1 := s.(soonest := if timeout != INFINITY && s.soonest > timeout then timeout else s.soonest);
    MovePlaced(s1, s.current, b);
    Move(s1, s.current, b)
  }

  function Popped(irq: Irq): Irq {
    if irq.dropEvent then irq.(dropEvent := false, pc := AtHandle(DropMsg))
    else if irq.queue == [] then irq.(pc := AtWait)
    else irq.(queue := irq.queue[1..], pc := AtHandle(irq.queue[0]))
  }

  function NewTask(priority: nat): Task {
    Task(Waiting, priority, None, false, 0, 1)
  }

  function Parked(a: Task): Task {
    a.(state := Waiting, waitFor := None, hasTimeout := false)
  }

  /** The dead task keeps a reference for the list it is put on. */
  function Buried(s: State, t: nat): State
    requires t in s.tasks
  {
    s.(tasks := s.tasks[t := s.tasks[t].(refcount := s.tasks[t].refcount + 1)], dead := s.dead + [t])
  }

  // ---------------------------------------------------------------- each operation keeps the invariant

  function Created(s: State, p: nat): State {
    s.(tasks := s.tasks[s.nextTid := NewTask(p)], nextTid := s.nextTid + 1, handles := s.handles[s.nextTid := 1])
  }

  lemma FreshTid(s: State)
    requires RefsOk(s)
    ensures s.nextTid !in s.tasks
  {
    forall t | t in s.tasks
      ensures t < s.nextTid
    {
      assert RefOk(s, t);
    }
  }

  lemma CreatePlaced(s: State, p: nat)
    requires Placed(s) && RefsOk(s) && p < PRIORITIES
    ensures Placed(Created(s, p))
  {
    var s' := Created(s, p);
    FreshTid(s);
    RecountedReady(s.tasks, s'.tasks, s.ready);
    RecountedLists(s.tasks, s'.tasks, s.lists);
    RecountedTree(s.tasks, s'.tasks, s.timeouts);
  }

  lemma CreateTasks(s: State, p: nat)
    requires TasksOk(s) && RefsOk(s)
    ensures TasksOk(Created(s, p))
  {
    var s' := Created(s, p);
    FreshTid(s);
    forall u | u in s'.tasks
      ensures TaskOk(s', u)
    {
      if u != s.nextTid {
        assert TaskOk(s, u);
      }
    }
  }

  lemma CreateRefs(s: State, p: nat)
    requires RefsOk(s)
    ensures RefsOk(Created(s, p))
  {
    var s' := Created(s, p);
    FreshTid(s);
    forall u | u in s'.tasks
      ensures RefOk(s', u)
    {
      if u != s.nextTid {
        assert RefOk(s, u);
      }
    }
  }

  lemma EarlierAlarm(s: State, soonest: nat)
    requires Mid(s) && soonest <= s.soonest
    ensures Mid(s.(soonest := soonest))
  {
    var s1 := s.(soonest := soonest);
    forall t | t in s1.tasks
      ensures TaskOk(s1, t)
    {
      assert TaskOk(s, t);
    }
    SameRefs(s, s1);
  }

  /** The lists the current task may wait in. */
  ghost predicate MayWait(s: State, wl: Option<WaitList>, timeout: nat) {
    && (wl.Some? && wl.value.Join? ==> wl.value.tid in s.tasks && s.tasks[wl.value.tid].state != Dead)
    && (wl == Some(IrqEvent) ==> s.current == DRAINER && timeout == INFINITY && s.irq.pc == AtWait && !s.irq.signaled)
  }

  lemma MayBlock(s: State, wl: Option<WaitList>, timeout: nat)
    requires TasksOk(s) && s.tasks[s.current].state == Running && s.current != IDLE && MayWait(s, wl, timeout)
    requires timeout != INFINITY ==> s.soonest <= timeout
    ensures MayBecome(s, s.current, Blocked(s.tasks[s.current], wl, timeout))
  {
    assert TaskOk(s, s.current);
  }

  lemma BlockMid(s: State, wl: Option<WaitList>, timeout: nat)
    requires Inv(s) && s.current != IDLE && MayWait(s, wl, timeout)
    ensures Mid(Block(s, wl, timeout))
  {
    var soonest := if timeout != INFINITY && s.soonest > timeout then timeout else s.soonest;
    EarlierAlarm(s, soonest);
    MayBlock(s.(soonest := soonest), wl, timeout);
    MoveMid(s.(soonest := soonest), s.current, Blocked(s.tasks[s.current], wl, timeout));
  }

  lemma DieBuried(s: State)
    requires Inv(s) && s.current != IDLE && s.current != DRAINER
    ensures Mid(Buried(Die(s, s.current), s.current))
  {
    var t := s.current;
    var s1 := Die(s, t);
    DieTasks(s, t);
    DieCounts(s, t);
    var s2 := Buried(s1, t);
    assert Recounted(s1, s2, t);
    RecountedPlaced(s1, s2, t);
    RecountedTasks(s1, s2, t);
    BuriedRefs(s, s1, t);
  }

  lemma BuriedRefs(s: State, s1: State, t: nat)
    requires RefsOk(s) && t in s.tasks && s.tasks[t].state != Dead && SameCounts(s, s1, Some(t))
    ensures RefsOk(Buried(s1, t))
  {
    var s2 := Buried(s1, t);
    forall u | u in s2.tasks
      ensures RefOk(s2, u)
    {
      assert RefOk(s, u);
    }
  }

  lemma ReleaseRefs(s: State, t: nat)
    requires RefsOk(s) && t in s.tasks && Handles(s, t) > 0
    ensures s.tasks[t].refcount > 0 && RefsOk(Release(s, t))
  {
    assert RefOk(s, t);
    var s' := Release(s, t);
    forall u | u in s'.tasks
      ensures RefOk(s', u)
    {
      assert RefOk(s, u);
    }
  }

  lemma ReleaseMid(s: State, t: nat)
    requires Mid(s) && t in s.tasks && Handles(s, t) > 0 && (s.tasks[t].state == Dead ==> t != s.current)
    ensures s.tasks[t].refcount > 0 && Mid(Release(s, t))
  {
    ReleaseRefs(s, t);
    var s' := Release(s, t);
    assert Recounted(s, s', t);
    RecountedPlaced(s, s', t);
    RecountedTasks(s, s', t);
  }

  lemma TerminateMid(s: State, t: nat)
    requires Mid(s) && t in s.tasks && t != IDLE && t != DRAINER && Handles(s, t) > 0 && s.tasks[t].state != Dead
    requires t != s.current
    ensures var s1 := Die(s, t); s1.tasks[t].refcount > 0 && Handles(s1, t) > 0 && Mid(Release(s1, t))
  {
    DieTasks(s, t);
    DieCounts(s, t);
    assert RefOk(s, t);
    DeadRefs(s, Die(s, t), t);
    ReleaseMid(Die(s, t), t);
  }

  lemma DeadRefs(s: State, s1: State, t: nat)
    requires RefsOk(s) && t in s.tasks && s.tasks[t].refcount > 0 && s.tasks[t].state != Dead
    requires SameCounts(s, s1, Some(t))
    ensures RefsOk(s1)
  {
    forall u | u in s1.tasks
      ensures RefOk(s1, u)
    {
      assert RefOk(s, u);
    }
  }

  /** The idle task drops the reference of the first task on the list of the dead. */
  function Reaped(s: State): State
    requires s.dead != [] && s.dead[0] in s.tasks && s.tasks[s.dead[0]].refcount > 0
  {
    Unref(s.(dead := s.dead[1..]), s.dead[0])
  }

  lemma ReapRefs(s: State)
    requires RefsOk(s) && s.dead != []
    ensures s.dead[0] in s.tasks && s.tasks[s.dead[0]].refcount > 0 && s.tasks[s.dead[0]].state == Dead
    ensures RefsOk(Reaped(s))
  {
    var t := s.dead[0];
    assert t in s.dead && RefOk(s, t);
    var s' := Reaped(s);
    TailWithout(s.dead);
    forall u | u in s'.tasks
      ensures RefOk(s', u)
    {
      assert RefOk(s, u);
    }
  }

  lemma TailWithout(q: seq<nat>)
    requires q != [] && Distinct(q)
    ensures Distinct(q[1..]) && forall u :: u in q[1..] <==> u in q && u != q[0]
  {
    assert q == [q[0]] + q[1..];
  }

  lemma ReapMid(s: State)
    requires Inv(s) && s.dead != []
    ensures s.dead[0] in s.tasks && s.tasks[s.dead[0]].refcount > 0 && Mid(Reaped(s))
  {
    ReapRefs(s);
    var t, s' := s.dead[0], Reaped(s);
    assert Recounted(s, s', t);
    RecountedPlaced(s, s', t);
    RecountedTasks(s, s', t);
  }

  function Retained(s: State, t: nat): State
    requires t in s.tasks
  {
    s.(tasks := s.tasks[t := s.tasks[t].(refcount := s.tasks[t].refcount + 1)],
       handles := s.handles[t := Handles(s, t) + 1])
  }

  lemma RetainMid(s: State, t: nat)
    requires Mid(s) && t in s.tasks
    ensures Mid(Retained(s, t))
  {
    var s' := Retained(s, t);
    assert Recounted(s, s', t);
    RecountedPlaced(s, s', t);
    RecountedTasks(s, s', t);
    forall u | u in s'.tasks
      ensures RefOk(s', u)
    {
      assert RefOk(s, u);
    }
  }

  /** The drain loop runs, so nobody waits for its event. */
  lemma DrainerIrq(s: State, irq: Irq)
    requires Inv(s) && s.current == DRAINER && IrqOk(irq)
    requires AlarmSet(s) || (Notified(s) ==> Notified(s.(irq := irq)))
    ensures Inv(s.(irq := irq))
  {
    var s' := s.(irq := irq);
    forall u | u in s'.tasks
      ensures TaskOk(s', u)
    {
      assert TaskOk(s, u);
    }
    SameRefs(s, s');
  }

  lemma {:induction false} WakeManyMid(s: State, wl: WaitList, n: nat)
    requires Mid(s) && !wl.IrqEvent?
    ensures Mid(WakeMany(s, wl, n))
    decreases n
  {
    if n > 0 {
      WakeOneMid(s, wl);
      WakeManyMid(WakeOne(s, wl).0, wl, n - 1);
    }
  }

  /** Waking leaves tasks that do not wait alone. */
  lemma {:induction false} WakeManyFrame(s: State, wl: WaitList, n: nat, t: nat)
    requires Placed(s) && t in s.tasks && s.tasks[t].state != Waiting
    ensures t in WakeMany(s, wl, n).tasks && WakeMany(s, wl, n).tasks[t] == s.tasks[t]
    decreases n
  {
    if n > 0 {
      assert HoldsWaiting(s.tasks, Queue(s.lists, wl), wl);
      WakeManyFrame(WakeOne(s, wl).0, wl, n - 1, t);
    }
  }

  lemma PushFrame(s: State, msg: Msg, t: nat)
    requires Placed(s) && t in s.tasks && s.tasks[t].state != Waiting
    ensures t in PushMsg(s, msg).0.tasks && PushMsg(s, msg).0.tasks[t] == s.tasks[t]
  {
    assert HoldsWaiting(s.tasks, Queue(s.lists, IrqEvent), IrqEvent);
  }

  lemma {:induction false} ExpireRunning(s: State)
    requires Placed(s) && s.current in s.tasks && s.tasks[s.current].state == Running
    ensures Expire(s).current in Expire(s).tasks && Expire(s).current == s.current
    ensures Expire(s).tasks[s.current].state == Running
  {
    ExpireExact(s, s.current);
    ExpireCurrent(s);
  }

  lemma {:induction false} ExpireCurrent(s: State)
    requires Placed(s)
    ensures Expire(s).current == s.current && Expire(s).irq == s.irq && Expire(s).tick == s.tick
    decreases |s.timeouts|
  {
    if s.timeouts != [] {
      var t := s.timeouts[0];
      assert t in s.timeouts;
      if s.tasks[t].waitTimeout <= s.tick {
        MovePlaced(s, t, TimedOut(s.tasks[t]));
        ExpireCurrent(Move(s, t, TimedOut(s.tasks[t])));
      }
    }
  }

  lemma LaterMid(s: State)
    requires Mid(s)
    ensures Mid(s.(tick := s.tick + 1))
  {
    var s' := s.(tick := s.tick + 1);
    forall u | u in s'.tasks
      ensures TaskOk(s', u)
    {
      assert TaskOk(s, u);
    }
    SameRefs(s, s');
  }

  // ---------------------------------------------------------------- steps

  /** The timer interrupt, and `schedule` called by the current task. */
  function TickStep(s: State): (r: State)
    requires Inv(s)
    ensures Inv(r) && Ranked(r)
  {
    LaterMid(s);
    ScheduleInv(s.(tick := s.tick + 1));
    Schedule(s.(tick := s.tick + 1))
  }

  function YieldStep(s: State): (r: State)
    requires Inv(s)
    ensures Inv(r) && Ranked(r)
  {
    ScheduleInv(s);
    Schedule(s)
  }

  /** `task_create`. */
  function CreateStep(s: State, p: nat): (r: State)
    requires Inv(s) && p < PRIORITIES
    ensures Inv(r)
    ensures s.nextTid !in s.tasks && r.tasks == s.tasks[s.nextTid := Task(Waiting, p, None, false, 0, 1)]
  {
    CreatePlaced(s, p);
    CreateTasks(s, p);
    CreateRefs(s, p);
    FreshTid(s);
    Created(s, p)
  }

  /** `task_resume`. */
  function ResumeStep(s: State, t: nat): (r: State)
    requires Inv(s) && Enabled(s, Resume(t))
    ensures Inv(r)
  {
    assert TaskOk(s, t);
    MoveMid(s, t, s.tasks[t].(state := Ready));
    Move(s, t, s.tasks[t].(state := Ready))
  }

  /** `task_suspend`. */
  function SuspendStep(s: State, t: nat): (r: State)
    requires Inv(s) && Enabled(s, Suspend(t))
    ensures Inv(r) && (t == s.current ==> Ranked(r))
  {
    assert TaskOk(s, t);
    MoveMid(s, t, Parked(s.tasks[t]));
    var s1 := Move(s, t, Parked(s.tasks[t]));
    if t != s.current then s1
    else
      ScheduleInv(s1);
      Schedule(s1)
  }

  lemma TerminateRunning(s: State, t: nat)
    requires Inv(s) && t in s.tasks && t != s.current && Die(s, t).tasks[t].refcount > 0 && Handles(Die(s, t), t) > 0
    ensures var r := Release(Die(s, t), t); r.current in r.tasks && r.tasks[r.current].state == Running
  {
    MovePlaced(s, t, Corpse(s.tasks[t]));
    var s1 := Move(s, t, Corpse(s.tasks[t]));
    WakeManyFrame(s1, Join(t), |Queue(s1.lists, Join(t))|, s.current);
  }

  /** `task_terminate`, with the reference it is given. */
  function TerminateStep(s: State, t: nat): (r: State)
    requires Inv(s) && Enabled(s, Terminate(t))
    ensures Inv(r)
  {
    assert TaskOk(s, t);
    TerminateMid(s, t);
    TerminateRunning(s, t);
    Release(Die(s, t), t)
  }

  /** `task_exit`. */
  function ExitStep(s: State): (r: State)
    requires Inv(s) && Enabled(s, Exit)
    ensures Inv(r) && Ranked(r)
  {
    DieBuried(s);
    var s1 := Buried(Die(s, s.current), s.current);
    ScheduleInv(s1);
    Schedule(s1)
  }

  /** `task_retain` and `task_from_id`; `task_release`. */
  function RetainStep(s: State, t: nat): (r: State)
    requires Inv(s) && t in s.tasks
    ensures Inv(r)
  {
    RetainMid(s, t);
    Retained(s, t)
  }

  function ReleaseStep(s: State, t: nat): (r: State)
    requires Inv(s) && t in s.tasks && Handles(s, t) > 0
    ensures Inv(r)
  {
    ReleaseMid(s, t);
    Release(s, t)
  }

  /** `task_wait` from where it holds the lock. */
  function WaitStep(s: State, wl: Option<WaitList>, timeout: nat): (r: State)
    requires Inv(s) && Enabled(s, Wait(wl, timeout))
    ensures Inv(r) && Ranked(r)
  {
    BlockMid(s, wl, timeout);
    ScheduleInv(Block(s, wl, timeout));
    Schedule(Block(s, wl, timeout))
  }

  /** `wait_list_wake_one` and `wait_list_wake_all`. */
  function WakeStep(s: State, wl: WaitList, n: nat): (r: State)
    requires Inv(s) && wl != IrqEvent
    ensures Inv(r)
  {
    WakeManyMid(s, wl, n);
    WakeManyFrame(s, wl, n, s.current);
    WakeMany(s, wl, n)
  }

  /** `irqmsg_push` by a device. */
  function InterruptStep(s: State, data: nat): (r: State)
    requires Inv(s)
    ensures Inv(r)
  {
    PushMid(s, DeviceMsg(data));
    PushFrame(s, DeviceMsg(data), s.current);
    PushMsg(s, DeviceMsg(data)).0
  }

  /** `event_wait` of the drain loop. */
  function DrainWaitStep(s: State): (r: State)
    requires Inv(s) && Enabled(s, DrainWait)
    ensures Inv(r)
  {
    if s.irq.signaled then
      DrainerIrq(s, s.irq.(signaled := false, pc := AtPop));
      s.(irq := s.irq.(signaled := false, pc := AtPop))
    else
      BlockMid(s, Some(IrqEvent), INFINITY);
      ScheduleInv(Block(s, Some(IrqEvent), INFINITY));
      Schedule(Block(s, Some(IrqEvent), INFINITY))
  }

  /** `irqmsg_pop`. */
  function DrainPopStep(s: State): (r: State)
    requires Inv(s) && Enabled(s, DrainPop)
    ensures Inv(r)
  {
    assert s.irq.queue != [] ==> s.irq.queue == [s.irq.queue[0]] + s.irq.queue[1..];
    DrainerIrq(s, Popped(s.irq));
    s.(irq := Popped(s.irq))
  }

  /** The handler of a message; only that of the timeout message concerns the scheduler. */
  function DrainHandleStep(s: State): (r: State)
    requires Inv(s) && Enabled(s, DrainHandle)
    ensures Inv(r)
  {
    if s.irq.pc.msg == TimeoutMsg then
      ExpireMid(s);
      ExpireRunning(s);
      var s1 := Expire(s);
      DrainerIrq(s1, s1.irq.(pc := AtPop));
      s1.(irq := s1.irq.(pc := AtPop))
    else
      DrainerIrq(s, s.irq.(pc := AtPop));
      s.(irq := s.irq.(pc := AtPop))
  }

  /** `drain_dead` of the idle task. */
  function DrainDeadStep(s: State): (r: State)
    requires Inv(s) && Enabled(s, DrainDead)
    ensures Inv(r)
  {
    ReapMid(s);
    ReapRefs(s);
    Reaped(s)
  }

  function Next(s: State, step: Step): (r: State)
    requires Inv(s) && Enabled(s, step)
    ensures Inv(r)
  {
    match step
    case Tick => TickStep(s)
    case Yield => YieldStep(s)
    case Create(p) => CreateStep(s, p)
    case Resume(t) => ResumeStep(s, t)
    case Suspend(t) => SuspendStep(s, t)
    case Terminate(t) => TerminateStep(s, t)
    case Exit => ExitStep(s)
    case Retain(t) => RetainStep(s, t)
    case ReleaseRef(t) => ReleaseStep(s, t)
    case Wait(wl, timeout) => WaitStep(s, wl, timeout)
    case WakeFirst(wl) => WakeStep(s, wl, 1)
    case WakeEach(wl) => WakeStep(s, wl, |Queue(s.lists, wl)|)
    case Interrupt(data) => InterruptStep(s, data)
    case DrainWait => DrainWaitStep(s)
    case DrainPop => DrainPopStep(s)
    case DrainHandle => DrainHandleStep(s)
    case DrainDead => DrainDeadStep(s)
  }
}
