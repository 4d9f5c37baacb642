/** How long a waiter whose deadline has passed waits for the drain loop, and what it is told. */
module SchedProgress {
  import opened Wrappers
  import opened Sched
  import opened SchedRuns
  import opened SchedSteps
  import opened SchedTheorems

  // ---------------------------------------------------------------- the way of a timeout message

  /** The message is queued or being handled. */
  predicate Pending(irq: Irq) {
    TimeoutMsg in irq.queue || irq.pc == AtHandle(TimeoutMsg)
  }

  /** The number of messages before the first timeout message. */
  function Ahead(q: seq<Msg>): (n: nat)
    ensures n <= |q|
  {
    if q == [] || q[0] == TimeoutMsg then 0 else 1 + Ahead(q[1..])
  }

  /** The number of steps of the drain loop up to the end of the handler, if nothing is dropped. */
  function Delay(irq: Irq): nat {
    if irq.pc == AtHandle(TimeoutMsg) then 1
    else (if irq.pc == AtPop then 0 else 1) + (if irq.dropEvent then 2 else 0) + 2 * (Ahead(irq.queue) + 1)
  }

  /** The message is `steps` steps nearer, but for what was dropped in between. */
  predicate Nearer(irq: Irq, irq': Irq, steps: nat) {
    && irq.drops <= irq'.drops
    && (Pending(irq) ==> Pending(irq') && Delay(irq') + steps <= Delay(irq) + 2 * (irq'.drops - irq.drops))
  }

  predicate IsDrain(step: Step) {
    step.DrainWait? || step.DrainPop? || step.DrainHandle?
  }

  lemma {:induction false} AheadAppended(q: seq<Msg>, msg: Msg)
    requires TimeoutMsg in q
    ensures Ahead(q + [msg]) == Ahead(q)
  {
    if q[0] != TimeoutMsg {
      assert q == [q[0]] + q[1..];
      AheadAppended(q[1..], msg);
      assert (q + [msg])[1..] == q[1..] + [msg];
    }
  }

  /** Whoever is woken by the event sleeps in `event_wait` and pops next. */
  lemma SignalNearer(s: State)
    requires Placed(s) && TasksOk(s)
    ensures Signal(s).irq == s.irq.(pc := Signal(s).irq.pc, signaled := Signal(s).irq.signaled)
    ensures Nearer(s.irq, Signal(s).irq, 0)
  {
    var q := Queue(s.lists, IrqEvent);
    assert HoldsWaiting(s.tasks, q, IrqEvent);
    if q != [] {
      assert q[0] in q && TaskOk(s, q[0]);
    }
  }

  lemma PushNearer(s: State, msg: Msg)
    requires Placed(s) && TasksOk(s)
    ensures Nearer(s.irq, PushMsg(s, msg).0.irq, 0)
    ensures PushMsg(s, msg).1 ==> PushMsg(s, msg).0.irq.queue == s.irq.queue + [msg]
    ensures !PushMsg(s, msg).1 ==> PushMsg(s, msg).0.irq.drops == s.irq.drops + 1
  {
    if |s.irq.queue| == IRQ_QUEUE_SIZE {
      SignalWith(s, Dropped(s.irq));
    } else {
      if TimeoutMsg in s.irq.queue {
        AheadAppended(s.irq.queue, msg);
      }
      SignalWith(s, Queued(s.irq, msg));
    }
  }

  lemma SignalWith(s: State, irq: Irq)
    requires Placed(s) && TasksOk(s) && irq.pc == s.irq.pc && irq.signaled == s.irq.signaled && Nearer(s.irq, irq, 0)
    requires TimeoutMsg in s.irq.queue ==> TimeoutMsg in irq.queue
    ensures var s1 := Signal(s.(irq := irq));
      Nearer(s.irq, s1.irq, 0) && s1.irq.queue == irq.queue && s1.irq.drops == irq.drops
  {
    QueueTasks(s, irq);
    SignalNearer(s.(irq := irq));
  }

  lemma NotifyNearer(s: State)
    requires Placed(s) && TasksOk(s)
    ensures Nearer(s.irq, Notify(s).irq, 0)
    ensures s.soonest <= s.tick ==> Pending(Notify(s).irq) || Notify(s).irq.drops > s.irq.drops
  {
    if s.soonest <= s.tick {
      PushNearer(s, TimeoutMsg);
      assert PushMsg(s, TimeoutMsg).1 ==> TimeoutMsg in s.irq.queue + [TimeoutMsg];
    }
  }

  lemma SwitchIrq(s: State)
    requires Placed(s) && s.current in s.tasks
    ensures Switch(s).irq == s.irq
  {
    TopReady(s, 0);
  }

  lemma ScheduleNearer(s: State)
    requires Placed(s) && TasksOk(s)
    ensures Nearer(s.irq, Schedule(s).irq, 0)
    ensures s.soonest <= s.tick ==> Pending(Schedule(s).irq) || Schedule(s).irq.drops > s.irq.drops
  {
    NotifyNearer(s);
    SwitchIrq(Notify(s));
  }

  /** The handler of the timeout message is about to run. */
  predicate HandlesTimeout(s: State, step: Step) {
    step.DrainHandle? && s.irq.pc == AtHandle(TimeoutMsg)
  }

  lemma DrainNearer(s: State, step: Step)
    requires Inv(s) && Enabled(s, step) && IsDrain(step) && Pending(s.irq) && !HandlesTimeout(s, step)
    ensures Nearer(s.irq, Next(s, step).irq, 1)
  {
    if step.DrainPop? {
      PopNearer(s.irq);
    }
  }

  lemma PopNearer(irq: Irq)
    requires irq.pc == AtPop && Pending(irq)
    ensures Nearer(irq, Popped(irq), 1)
  {
    assert irq.queue == [irq.queue[0]] + irq.queue[1..];
  }

  lemma TickNearer(s: State)
    requires Inv(s)
    ensures Nearer(s.irq, TickStep(s).irq, 0)
    ensures s.soonest <= s.tick ==> Pending(TickStep(s).irq) || TickStep(s).irq.drops > s.irq.drops
  {
    TickIs(s);
    MidNearer(s, Later(s));
  }

  function Later(s: State): State {
    s.(tick := s.tick + 1)
  }

  lemma TickIs(s: State)
    requires Inv(s)
    ensures Mid(Later(s)) && TickStep(s) == Schedule(Later(s))
  {
    LaterMid(s);
  }

  /** `schedule` in `s1`, with the messages of `s`. */
  lemma MidNearer(s: State, s1: State)
    requires Mid(s1) && s1.irq == s.irq && s1.soonest == s.soonest && s.tick <= s1.tick
    ensures Nearer(s.irq, Schedule(s1).irq, 0)
    ensures s.soonest <= s.tick ==> Pending(Schedule(s1).irq) || Schedule(s1).irq.drops > s.irq.drops
  {
    ScheduleNearer(s1);
  }

  lemma SuspendNearer(s: State, t: nat)
    requires Inv(s) && Enabled(s, Suspend(t))
    ensures Nearer(s.irq, SuspendStep(s, t).irq, 0)
  {
    assert TaskOk(s, t);
    MoveMid(s, t, Parked(s.tasks[t]));
    ScheduleNearer(Move(s, t, Parked(s.tasks[t])));
  }

  lemma ExitNearer(s: State)
    requires Inv(s) && Enabled(s, Exit)
    ensures Nearer(s.irq, ExitStep(s).irq, 0)
  {
    DieCounts(s, s.current);
    DieBuried(s);
    ScheduleNearer(Buried(Die(s, s.current), s.current));
  }

  lemma WaitNearer(s: State, wl: Option<WaitList>, timeout: nat)
    requires Inv(s) && Enabled(s, Wait(wl, timeout))
    ensures Nearer(s.irq, WaitStep(s, wl, timeout).irq, 0)
  {
    BlockMid(s, wl, timeout);
    ScheduleNearer(Block(s, wl, timeout));
  }

  /** The steps that leave the messages alone. */
  lemma SameIrq(s: State, step: Step)
    requires Inv(s) && Enabled(s, step)
    requires step.Create? || step.Resume? || step.Terminate? || step.Retain? || step.ReleaseRef? || step.WakeFirst?
      || step.WakeEach? || step.DrainDead?
    ensures Next(s, step).irq == s.irq
  {
    match step
    case Terminate(t) => TerminateIrq(s, t);
    case WakeFirst(wl) => WakeCounts(s, wl, 1);
    case WakeEach(wl) => WakeCounts(s, wl, |Queue(s.lists, wl)|);
    case DrainDead => ReapIrq(s);
    case _ =>
  }

  lemma TerminateIrq(s: State, t: nat)
    requires Inv(s) && Enabled(s, Terminate(t))
    ensures TerminateStep(s, t).irq == s.irq && TerminateStep(s, t).current == s.current
  {
    DieCounts(s, t);
    TerminateMid(s, t);
  }

  lemma ReapIrq(s: State)
    requires Inv(s) && s.dead != []
    ensures s.dead[0] in s.tasks && s.tasks[s.dead[0]].refcount > 0 && Reaped(s).irq == s.irq
    ensures Reaped(s).current == s.current
  {
    ReapRefs(s);
  }

  lemma OtherNearer(s: State, step: Step)
    requires Inv(s) && Enabled(s, step) && !IsDrain(step)
    ensures Nearer(s.irq, Next(s, step).irq, 0)
  {
    match step
    case Tick => TickNearer(s);
    case Yield => ScheduleNearer(s);
    case Suspend(t) => SuspendNearer(s, t);
    case Exit => ExitNearer(s);
    case Wait(wl, timeout) => WaitNearer(s, wl, timeout);
    case Interrupt(data) => PushNearer(s, DeviceMsg(data));
    case _ => SameIrq(s, step);
  }

  // ---------------------------------------------------------------- how long a waiter waits

  /** `t` waits though its deadline has passed. */
  predicate Overdue(s: State, t: nat) {
    t in s.tasks && InTree(s.tasks[t]) && s.tasks[t].waitTimeout <= s.tick
  }

  /** In every state of the run. */
  ghost predicate OverdueAllAlong(s: State, run: seq<Step>, t: nat)
    requires Inv(s) && Feasible(s, run)
    decreases |run|
  {
    Overdue(s, t) && (run != [] ==> OverdueAllAlong(Next(s, run[0]), run[1..], t))
  }

  function DrainSteps(run: seq<Step>): nat {
    if run == [] then 0 else (if IsDrain(run[0]) then 1 else 0) + DrainSteps(run[1..])
  }

  /** Handling the message leaves nobody whose deadline has passed. */
  lemma NobodyOverdue(s: State, t: nat)
    requires Inv(s) && Enabled(s, DrainHandle) && HandlesTimeout(s, DrainHandle)
    ensures !Overdue(Next(s, DrainHandle), t)
  {
    ExpireMid(s);
    if t in s.tasks {
      ExpireExact(s, t);
    }
  }

  /** Once the message is on its way, nobody stays overdue for more than `Delay` steps of the
      drain loop, with two more for each message that is dropped on the way. */
  lemma {:induction false} ReleasedInTime(s: State, run: seq<Step>, t: nat)
    requires Inv(s) && Feasible(s, run) && Pending(s.irq)
    requires OverdueAllAlong(s, run, t)
    ensures s.irq.drops <= Exec(s, run).irq.drops
    ensures DrainSteps(run) < Delay(s.irq) + 2 * (Exec(s, run).irq.drops - s.irq.drops)
    decreases |run|
  {
    if run != [] {
      if HandlesTimeout(s, run[0]) {
        NobodyOverdue(s, t);
        assert false;
      } else {
        if IsDrain(run[0]) {
          DrainNearer(s, run[0]);
        } else {
          OtherNearer(s, run[0]);
        }
        ReleasedInTime(Next(s, run[0]), run[1..], t);
      }
    }
  }

  lemma {:induction false} AheadBound(q: seq<Msg>)
    requires TimeoutMsg in q
    ensures Ahead(q) < |q|
  {
    if q[0] != TimeoutMsg {
      assert q == [q[0]] + q[1..];
      AheadBound(q[1..]);
    }
  }

  lemma DelayBound(irq: Irq)
    requires Pending(irq) && |irq.queue| <= IRQ_QUEUE_SIZE
    ensures Delay(irq) <= 2 * IRQ_QUEUE_SIZE + 3
  {
    if TimeoutMsg in irq.queue {
      AheadBound(irq.queue);
    }
  }

  lemma OverdueIsAlarmed(s: State, t: nat)
    requires Inv(s) && Overdue(s, t)
    ensures Pending(s.irq) || s.soonest <= s.tick
  {
    assert TaskOk(s, t);
  }

  /** From the next tick on, nobody stays overdue for longer than it takes to drain a full
      queue, unless the message asked for at that tick is dropped. */
  lemma ReleasedAfterTick(s: State, run: seq<Step>, t: nat)
    requires Inv(s) && Feasible(s, run) && OverdueAllAlong(s, run, t)
    requires run != [] && run[0] == Tick && Next(s, Tick).irq.drops == s.irq.drops
    ensures s.irq.drops <= Exec(s, run).irq.drops
    ensures DrainSteps(run) < 2 * IRQ_QUEUE_SIZE + 3 + 2 * (Exec(s, run).irq.drops - s.irq.drops)
  {
    OverdueIsAlarmed(s, t);
    TickNearer(s);
    ReleasedInTime(Next(s, Tick), run[1..], t);
    DelayBound(Next(s, Tick).irq);
  }

  // ---------------------------------------------------------------- what it is told

  /** The state in which the step calls `schedule`, if it does. */
  function Scheduling(s: State, step: Step): (r: Option<State>)
    requires Inv(s) && Enabled(s, step)
    ensures r.Some? ==> Placed(r.value) && r.value.current in r.value.tasks
  {
    match step
    case Tick => Some(Later(s))
    case Yield => Some(s)
    case Suspend(t) =>
      MovePlaced(s, t, Parked(s.tasks[t]));
      if t == s.current then Some(Move(s, t, Parked(s.tasks[t]))) else None
    case Exit =>
      DieBuried(s);
      Some(Buried(Die(s, s.current), s.current))
    case Wait(wl, timeout) => Some(Block(s, wl, timeout))
    case DrainWait => if s.irq.signaled then None else Some(Block(s, Some(IrqEvent), INFINITY))
    case _ => None
  }

  /** What the `task_wait` that the step lets return answers. */
  function StepAnswer(s: State, step: Step): Option<bool>
    requires Inv(s) && Enabled(s, step)
  {
    match Scheduling(s, step)
    case None => None
    case Some(s1) => Answer(Notify(s1))
  }

  lemma SchedulingIs(s: State, step: Step)
    requires Inv(s) && Enabled(s, step) && Scheduling(s, step).Some?
    ensures Next(s, step) == Schedule(Scheduling(s, step).value)
    ensures Scheduling(s, step).value.current == s.current
  {
    match step
    case Exit => ExitIs(s);
    case Suspend(t) => SuspendIs(s, t);
    case Tick => TickIs(s);
    case _ => OthersAre(s, step);
  }

  lemma OthersAre(s: State, step: Step)
    requires Inv(s) && Enabled(s, step) && Scheduling(s, step).Some? && (step.Yield? || step.Wait? || step.DrainWait?)
    ensures Next(s, step) == Schedule(Scheduling(s, step).value)
    ensures Scheduling(s, step).value.current == s.current
  {}

  lemma ExitIs(s: State)
    requires Inv(s) && Enabled(s, Exit)
    ensures Mid(Buried(Die(s, s.current), s.current)) && Buried(Die(s, s.current), s.current).current == s.current
    ensures ExitStep(s) == Schedule(Buried(Die(s, s.current), s.current))
  {
    DieBuried(s);
  }

  lemma SuspendIs(s: State, t: nat)
    requires Inv(s) && Enabled(s, Suspend(t)) && t == s.current
    ensures Placed(Move(s, t, Parked(s.tasks[t]))) && Move(s, t, Parked(s.tasks[t])).current == t
    ensures SuspendStep(s, t) == Schedule(Move(s, t, Parked(s.tasks[t])))
  {
    MovePlaced(s, t, Parked(s.tasks[t]));
  }

  lemma NotScheduling(s: State, step: Step)
    requires Inv(s) && Enabled(s, step) && Scheduling(s, step).None?
    ensures Next(s, step).current == s.current
  {
    match step
    case Terminate(t) => TerminateIrq(s, t);
    case DrainDead => ReapIrq(s);
    case DrainHandle => ExpireCurrent(s);
    case _ =>
  }

  /** The mark is still there when `schedule` is called. */
  lemma MarkedTill(s: State, step: Step, t: nat)
    requires Inv(s) && Enabled(s, step) && Marked(s, t) && Scheduling(s, step).Some? && t != s.current
    ensures Marked(Scheduling(s, step).value, t)
  {
    if step.Exit? {
      DieTells(s, t, s.current);
    }
  }

  /** A marked task that gets the processor is told that it was timed out. */
  lemma TimeoutIsAnswered(s: State, step: Step, t: nat)
    requires Inv(s) && Enabled(s, step) && Marked(s, t) && Next(s, step).current == t
    ensures StepAnswer(s, step) == Some(false)
  {
    assert TaskOk(s, t);
    assert t != s.current;
    if Scheduling(s, step).None? {
      NotScheduling(s, step);
      assert false;
    }
    SchedulingIs(s, step);
    MarkedTill(s, step, t);
    var s1 := Scheduling(s, step).value;
    NotifyTells(s1, t);
    TopReady(Notify(s1), 0);
  }

  /** `t` is marked in every state of the run up to the step that gives it the processor, and
      the wait it then returns from answers that it was timed out. */
  ghost predicate ToldWhenItRuns(s: State, run: seq<Step>, t: nat)
    requires Inv(s) && Feasible(s, run)
    decreases |run|
  {
    && Marked(s, t)
    && (run != [] ==>
      var s' := Next(s, run[0]);
      if s'.current == t then StepAnswer(s, run[0]) == Some(false) else ToldWhenItRuns(s', run[1..], t))
  }

  /** However long it takes, a task that was timed out is told so when it first runs, if it is
      neither suspended nor ended. */
  lemma {:induction false} MarkedIsTold(s: State, run: seq<Step>, t: nat)
    requires Inv(s) && Feasible(s, run) && Marked(s, t)
    requires forall i :: 0 <= i < |run| ==> run[i] != Suspend(t) && run[i] != Terminate(t)
    ensures ToldWhenItRuns(s, run, t)
    decreases |run|
  {
    if run != [] {
      TimeoutIsReported(s, run[0], t);
      if Next(s, run[0]).current == t {
        TimeoutIsAnswered(s, run[0], t);
      } else {
        MarkedIsTold(Next(s, run[0]), run[1..], t);
      }
    }
  }
}
