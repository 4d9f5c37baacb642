/** What holds in every state that a run of the scheduler reaches. */
module SchedTheorems {
  import opened Queues
  import opened Wrappers
  import opened Sched
  import opened SchedRuns
  import opened SchedSteps

  const PRIORITY_KERNEL: nat := 1

  /** After `sched_init`: the first task runs, the idle task is ready. */
  function Init(): (s: State)
    ensures Inv(s)
  {
    var tasks: Tasks := map[
      DRAINER := Task(Running, PRIORITY_KERNEL, None, false, 0, 1),
      IDLE := Task(Ready, LOWEST, None, false, 0, 1)];
    var ready: seq<seq<nat>> := [[], [], [], [], [], [], [], [IDLE]];
    var s := State(tasks, ready, map[], [], INFINITY, DRAINER, [], 2, map[DRAINER := 1, IDLE := 1],
                   Irq([], false, 0, false, AtWait), 0);
    assert ReadyOk(tasks, ready) by {
      assert forall p :: 0 <= p < 7 ==> HoldsReady(tasks, ready[p], p);
      assert HoldsReady(tasks, ready[7], 7);
    }
    assert TaskOk(s, DRAINER) && TaskOk(s, IDLE) && RefOk(s, DRAINER) && RefOk(s, IDLE);
    s
  }

  ghost predicate Feasible(s: State, run: seq<Step>)
    requires Inv(s)
    decreases |run|
  {
    run == [] || (Enabled(s, run[0]) && Feasible(Next(s, run[0]), run[1..]))
  }

  ghost function Exec(s: State, run: seq<Step>): (r: State)
    requires Inv(s) && Feasible(s, run)
    ensures Inv(r)
    decreases |run|
  {
    if run == [] then s else Exec(Next(s, run[0]), run[1..])
  }

  /** One step, and a run, from one state to another. */
  ghost predicate Leads(s: State, step: Step, r: State) {
    Inv(s) && Enabled(s, step) && Next(s, step) == r
  }

  ghost predicate Runs(s: State, run: seq<Step>, r: State) {
    Inv(s) && Feasible(s, run) && Exec(s, run) == r
  }

  // ---------------------------------------------------------------- where tasks are

  /** A running task is the current one; a ready task is once in the queue of its priority, a
      waiting task once in the list it waits for, if any; none is anywhere else. */
  lemma EveryTaskInItsPlace(run: seq<Step>, t: nat)
    requires Feasible(Init(), run)
    ensures var s := Exec(Init(), run);
      t in s.tasks ==>
        && (s.tasks[t].state == Running <==> t == s.current)
        && (forall p :: 0 <= p < PRIORITIES ==> multiset(s.ready[p])[t] == if InReady(s.tasks[t], p) then 1 else 0)
        && (forall wl :: multiset(Queue(s.lists, wl))[t] == if InList(s.tasks[t], wl) then 1 else 0)
        && multiset(s.timeouts)[t] == if InTree(s.tasks[t]) then 1 else 0
  {
    var s := Exec(Init(), run);
    if t in s.tasks {
      assert TaskOk(s, t);
      forall p | 0 <= p < PRIORITIES
        ensures multiset(s.ready[p])[t] == if InReady(s.tasks[t], p) then 1 else 0
      {
        assert HoldsReady(s.tasks, s.ready[p], p);
        CountOnce(s.ready[p], t);
      }
      forall wl
        ensures multiset(Queue(s.lists, wl))[t] == if InList(s.tasks[t], wl) then 1 else 0
      {
        assert HoldsWaiting(s.tasks, Queue(s.lists, wl), wl);
        CountOnce(Queue(s.lists, wl), t);
      }
      CountOnce(s.timeouts, t);
    }
  }

  lemma {:induction false} CountOnce(q: seq<nat>, t: nat)
    requires Distinct(q)
    ensures multiset(q)[t] == if t in q then 1 else 0
  {
    if q != [] {
      assert q == [q[0]] + q[1..];
      CountOnce(q[1..], t);
    }
  }

  // ---------------------------------------------------------------- the processor

  /** The current task cannot go on, but another can: the idle task never blocks. */
  lemma BlockedFindsSuccessor(s: State)
    requires Mid(s) && s.tasks[s.current].state != Running
    ensures Top(Notify(s).ready, 0).Some?
    ensures Schedule(s).tasks[Schedule(s).current].state == Running
    ensures Schedule(s).current == Top(Notify(s).ready, 0).value
  {
    NotifyMid(s);
    var s1 := Notify(s);
    TopReady(s1, 0);
    assert TaskOk(s1, IDLE);
    NotifyNotRunning(s);
    ScheduleInv(s);
  }

  lemma NotifyNotRunning(s: State)
    requires Mid(s) && s.tasks[s.current].state != Running
    ensures Notify(s).tasks[s.current].state != Running
  {
    assert HoldsWaiting(s.tasks, Queue(s.lists, IrqEvent), IrqEvent);
  }

  // ---------------------------------------------------------------- timeouts

  /** No timed waiter is forgotten: the alarm is set for the first deadline or earlier, or the
      message is on its way to a drain loop that does not sleep. */
  lemma NoWaiterForgotten(run: seq<Step>)
    requires Feasible(Init(), run)
    ensures var s := Exec(Init(), run);
      s.timeouts != [] ==>
        || s.soonest <= Deadline(s.tasks, s.timeouts[0])
        || (TimeoutMsg in s.irq.queue && DRAINER in s.tasks && !InList(s.tasks[DRAINER], IrqEvent)
            && (s.irq.pc == AtWait ==> s.irq.signaled))
        || s.irq.pc == AtHandle(TimeoutMsg)
  {
    var s := Exec(Init(), run);
    if s.timeouts != [] {
      assert s.timeouts[0] in s.timeouts;
      assert TaskOk(s, s.timeouts[0]) && TaskOk(s, DRAINER);
    }
  }

  /** Once the first deadline has passed, the next `schedule` sends the message, unless the
      queue is full; then the alarm stays on. */
  lemma AlarmRings(s: State)
    requires Inv(s) && s.timeouts != [] && Deadline(s.tasks, s.timeouts[0]) <= s.tick
    ensures Notified(Notify(s)) || (|s.irq.queue| == IRQ_QUEUE_SIZE && Notify(s).soonest == s.soonest <= s.tick)
  {
    assert s.timeouts[0] in s.timeouts;
    assert TaskOk(s, s.timeouts[0]);
    if s.soonest <= s.tick {
      PushMid(s, TimeoutMsg);
      var s1 := PushMsg(s, TimeoutMsg).0;
      if PushMsg(s, TimeoutMsg).1 {
        assert TimeoutMsg in s1.irq.queue;
      }
    }
  }

  /** A task is marked as timed out only once its deadline has passed. */
  lemma NeverTimedOutEarly(run: seq<Step>, t: nat)
    requires Feasible(Init(), run)
    ensures var s := Exec(Init(), run);
      t in s.tasks && s.tasks[t].state == Ready && s.tasks[t].hasTimeout ==> s.tasks[t].waitTimeout <= s.tick
  {
    var s := Exec(Init(), run);
    if t in s.tasks {
      assert TaskOk(s, t);
    }
  }

  /** The handler readies the tasks whose deadline has passed and no others. */
  lemma HandlerIsExact(s: State, t: nat)
    requires Inv(s) && Enabled(s, DrainHandle) && s.irq.pc == AtHandle(TimeoutMsg) && t in s.tasks
    ensures t in Next(s, DrainHandle).tasks
    ensures Next(s, DrainHandle).tasks[t] ==
      if s.tasks[t].state == Waiting && s.tasks[t].hasTimeout && s.tasks[t].waitTimeout <= s.tick
        then TimedOut(s.tasks[t]) else s.tasks[t]
  {
    ExpireExact(s, t);
  }

  // ---------------------------------------------------------------- the answer of task_wait

  /** `t` still is marked as timed out, or has got the processor and is told now. */
  predicate Told(s: State, t: nat) {
    Marked(s, t) || s.current == t
  }

  lemma SwitchTells(s: State, t: nat)
    requires Mid(s) && Marked(s, t)
    ensures Told(Switch(s), t)
  {
    TopReady(s, 0);
    GiveUpMid(s);
    assert TaskOk(s, t);
  }

  lemma NotifyTells(s: State, t: nat)
    requires Placed(s) && Marked(s, t)
    ensures Marked(Notify(s), t)
  {
    PushFrame(s, TimeoutMsg, t);
  }

  lemma ScheduleTells(s: State, t: nat)
    requires Mid(s) && Marked(s, t)
    ensures Told(Schedule(s), t)
  {
    NotifyTells(s, t);
    NotifyMid(s);
    SwitchTells(Notify(s), t);
  }

  lemma DieTells(s: State, t: nat, d: nat)
    requires Placed(s) && Marked(s, t) && d in s.tasks && d != t
    ensures Marked(Die(s, d), t)
  {
    MovePlaced(s, d, Corpse(s.tasks[d]));
    var s1 := Move(s, d, Corpse(s.tasks[d]));
    WakeManyFrame(s1, Join(d), |Queue(s1.lists, Join(d))|, t);
  }

  lemma TickTells(s: State, t: nat)
    requires Inv(s) && Marked(s, t)
    ensures Told(TickStep(s), t)
  {
    LaterMid(s);
    ScheduleTells(s.(tick := s.tick + 1), t);
  }

  lemma SuspendTells(s: State, t: nat, u: nat)
    requires Inv(s) && Enabled(s, Suspend(u)) && Marked(s, t)
    ensures Told(SuspendStep(s, u), t) <==> t != u
  {
    assert TaskOk(s, t) && TaskOk(s, u);
    MoveMid(s, u, Parked(s.tasks[u]));
    if u == s.current {
      ScheduleTells(Move(s, u, Parked(s.tasks[u])), t);
    }
  }

  lemma ExitTells(s: State, t: nat)
    requires Inv(s) && Enabled(s, Exit) && Marked(s, t)
    ensures Told(ExitStep(s), t)
  {
    DieTells(s, t, s.current);
    DieBuried(s);
    ScheduleTells(Buried(Die(s, s.current), s.current), t);
  }

  lemma TerminateTells(s: State, t: nat, u: nat)
    requires Inv(s) && Enabled(s, Terminate(u)) && Marked(s, t) && t != u
    ensures Told(TerminateStep(s, u), t)
  {
    DieTells(s, t, u);
    TerminateMid(s, u);
  }

  lemma WaitTells(s: State, t: nat, wl: Option<WaitList>, timeout: nat)
    requires Inv(s) && Marked(s, t) && t != s.current && Mid(Block(s, wl, timeout))
    ensures Told(Schedule(Block(s, wl, timeout)), t)
  {
    ScheduleTells(Block(s, wl, timeout), t);
  }

  lemma HandleTells(s: State, t: nat)
    requires Inv(s) && Enabled(s, DrainHandle) && Marked(s, t)
    ensures Told(DrainHandleStep(s), t)
  {
    ExpireExact(s, t);
  }

  lemma DrainWaitTells(s: State, t: nat)
    requires Inv(s) && Enabled(s, DrainWait) && Marked(s, t)
    ensures Told(DrainWaitStep(s), t)
  {
    if !s.irq.signaled {
      BlockMid(s, Some(IrqEvent), INFINITY);
      WaitTells(s, t, Some(IrqEvent), INFINITY);
    }
  }

  lemma ReapTells(s: State, t: nat)
    requires Inv(s) && Enabled(s, DrainDead) && Marked(s, t)
    ensures Told(DrainDeadStep(s), t)
  {
    ReapRefs(s);
  }

  /** A task that is timed out gets to know it, unless it is ended or suspended before it runs:
      being suspended wipes the mark, and its `task_wait` then answers that it was woken. */
  lemma TimeoutIsReported(s: State, step: Step, t: nat)
    requires Inv(s) && Enabled(s, step) && Marked(s, t) && step != Terminate(t)
    ensures Told(Next(s, step), t) <==> step != Suspend(t)
  {
    match step
    case Tick => TickTells(s, t);
    case Yield => ScheduleTells(s, t);
    case Suspend(u) => SuspendTells(s, t, u);
    case Terminate(u) => TerminateTells(s, t, u);
    case Exit => ExitTells(s, t);
    case Wait(wl, timeout) =>
      BlockMid(s, wl, timeout);
      WaitTells(s, t, wl, timeout);
    case WakeFirst(wl) => WakeManyFrame(s, wl, 1, t);
    case WakeEach(wl) => WakeManyFrame(s, wl, |Queue(s.lists, wl)|, t);
    case Interrupt(data) => PushFrame(s, DeviceMsg(data), t);
    case DrainWait => DrainWaitTells(s, t);
    case DrainHandle => HandleTells(s, t);
    case DrainDead => ReapTells(s, t);
    case _ => PlainTells(s, step, t);
  }

  lemma PlainTells(s: State, step: Step, t: nat)
    requires Inv(s) && Enabled(s, step) && Marked(s, t)
    requires step.Create? || step.Resume? || step.Retain? || step.ReleaseRef? || step.DrainPop?
    ensures Told(Next(s, step), t)
  {
    FreshTid(s);
  }

  // ---------------------------------------------------------------- the end of tasks

  /** Nobody waits for a task that has ended or is gone. */
  lemma NoJoinerLeft(run: seq<Step>, t: nat, u: nat)
    requires Feasible(Init(), run)
    ensures var s := Exec(Init(), run);
      t in s.tasks && InList(s.tasks[t], Join(u)) ==> u in s.tasks && s.tasks[u].state != Dead
  {
    var s := Exec(Init(), run);
    if t in s.tasks {
      assert TaskOk(s, t);
    }
  }

  /** A task that is gone is referenced by nobody, is not current and is in no queue. */
  lemma FreedIsUnused(run: seq<Step>, t: nat)
    requires Feasible(Init(), run)
    ensures var s := Exec(Init(), run);
      t !in s.tasks ==>
        && t != s.current && Handles(s, t) == 0 && t !in s.dead && t !in s.timeouts
        && (forall p :: 0 <= p < PRIORITIES ==> t !in s.ready[p]) && (forall wl :: t !in Queue(s.lists, wl))
  {
    var s := Exec(Init(), run);
    if t !in s.tasks {
      forall p | 0 <= p < PRIORITIES
        ensures t !in s.ready[p]
      {
        assert HoldsReady(s.tasks, s.ready[p], p);
      }
      forall wl
        ensures t !in Queue(s.lists, wl)
      {
        assert HoldsWaiting(s.tasks, Queue(s.lists, wl), wl);
      }
    }
  }
}
