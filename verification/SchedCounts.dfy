/** What the scheduler keeps count of: references, priorities and messages. */
module SchedCounts {
  import opened Wrappers
  import opened Sched
  import opened SchedRuns
  import opened SchedSteps
  import opened SchedTheorems
  import opened SchedProgress

  // ---------------------------------------------------------------- tasks, references and priorities

  /** The same tasks with the same priorities, and the same references from outside. */
  ghost predicate SameBooks(s: State, s': State) {
    && s'.handles == s.handles && s'.nextTid == s.nextTid && s'.tasks.Keys == s.tasks.Keys
    && forall t :: t in s.tasks ==> s'.tasks[t].priority == s.tasks[t].priority
  }

  lemma WakeBooks(s: State, wl: WaitList)
    requires Placed(s)
    ensures SameBooks(s, WakeOne(s, wl).0)
  {
    assert HoldsWaiting(s.tasks, Queue(s.lists, wl), wl);
  }

  lemma {:induction false} WakesBooks(s: State, wl: WaitList, n: nat)
    requires Placed(s)
    ensures SameBooks(s, WakeMany(s, wl, n))
    decreases n
  {
    if n > 0 {
      WakeBooks(s, wl);
      WakesBooks(WakeOne(s, wl).0, wl, n - 1);
    }
  }

  lemma PushBooks(s: State, msg: Msg)
    requires Placed(s)
    ensures SameBooks(s, PushMsg(s, msg).0)
  {
    WakeBooks(s.(irq := Dropped(s.irq)), IrqEvent);
    WakeBooks(s.(irq := Queued(s.irq, msg)), IrqEvent);
  }

  lemma NotifyBooks(s: State)
    requires Placed(s)
    ensures SameBooks(s, Notify(s))
  {
    if s.soonest <= s.tick {
      PushBooks(s, TimeoutMsg);
    }
  }

  lemma SwitchBooks(s: State)
    requires Placed(s) && s.current in s.tasks
    ensures SameBooks(s, Switch(s))
  {
    TopReady(s, 0);
  }

  lemma ScheduleBooks(s: State)
    requires Placed(s) && s.current in s.tasks
    ensures SameBooks(s, Schedule(s))
  {
    NotifyBooks(s);
    SwitchBooks(Notify(s));
  }

  lemma DieBooks(s: State, d: nat)
    requires Placed(s) && d in s.tasks
    ensures SameBooks(s, Die(s, d))
  {
    MovePlaced(s, d, Corpse(s.tasks[d]));
    var s1 := Move(s, d, Corpse(s.tasks[d]));
    WakesBooks(s1, Join(d), |Queue(s1.lists, Join(d))|);
  }

  lemma {:induction false} ExpireBooks(s: State)
    requires Placed(s)
    ensures SameBooks(s, Expire(s))
    decreases |s.timeouts|
  {
    if s.timeouts != [] {
      var u := s.timeouts[0];
      assert u in s.timeouts;
      if s.tasks[u].waitTimeout <= s.tick {
        MovePlaced(s, u, TimedOut(s.tasks[u]));
        ExpireBooks(Move(s, u, TimedOut(s.tasks[u])));
      }
    }
  }

  /** The references to `t` that the step takes from outside, and those it gives back. */
  function Taken(s: State, step: Step, t: nat): nat {
    if step == Retain(t) || (step.Create? && t == s.nextTid) then 1 else 0
  }

  function Given(step: Step, t: nat): nat {
    if step == ReleaseRef(t) || step == Terminate(t) then 1 else 0
  }

  /** One step: references are counted, ids are not used again, and priorities do not change. */
  ghost predicate Booked(s: State, step: Step, s': State, t: nat) {
    && Handles(s', t) + Given(step, t) == Handles(s, t) + Taken(s, step, t)
    && s'.nextTid == s.nextTid + (if step.Create? then 1 else 0)
    && (t in s'.tasks && t != s.nextTid ==> t in s.tasks && s'.tasks[t].priority == s.tasks[t].priority)
    && (t == s.nextTid && step.Create? ==>
        t !in s.tasks && t in s'.tasks && s'.tasks[t] == Task(Waiting, step.priority, None, false, 0, 1))
  }

  predicate Plain(step: Step) {
    !step.Create? && !step.Retain? && !step.ReleaseRef? && !step.Terminate?
  }

  lemma PlainBooked(s: State, step: Step, s': State, t: nat)
    requires Plain(step) && SameBooks(s, s')
    ensures Booked(s, step, s', t)
  {}

  lemma SchedulingBooks(s: State, step: Step)
    requires Inv(s) && Enabled(s, step) && Scheduling(s, step).Some?
    ensures SameBooks(s, Next(s, step))
  {
    SchedulingIs(s, step);
    var s1 := Scheduling(s, step).value;
    UpToScheduling(s, step);
    ScheduleBooks(s1);
    BooksCompose(s, s1, Schedule(s1));
  }

  lemma BooksCompose(s: State, s1: State, s2: State)
    requires SameBooks(s, s1) && SameBooks(s1, s2)
    ensures SameBooks(s, s2)
  {}

  lemma UpToScheduling(s: State, step: Step)
    requires Inv(s) && Enabled(s, step) && Scheduling(s, step).Some?
    ensures SameBooks(s, Scheduling(s, step).value)
  {
    match step
    case Exit => ExitBooks(s);
    case Suspend(t) => MoveBooks(s, t, Parked(s.tasks[t]));
    case Wait(wl, timeout) => BlockBooks(s, wl, timeout);
    case DrainWait => BlockBooks(s, Some(IrqEvent), INFINITY);
    case _ =>
  }

  lemma ExitBooks(s: State)
    requires Placed(s) && s.current in s.tasks
    ensures SameBooks(s, Buried(Die(s, s.current), s.current))
  {
    DieBooks(s, s.current);
  }

  lemma MoveBooks(s: State, u: nat, b: Task)
    requires u in s.tasks && b.priority == s.tasks[u].priority < |s.ready|
    ensures SameBooks(s, Move(s, u, b))
  {}

  lemma BlockBooks(s: State, wl: Option<WaitList>, timeout: nat)
    requires Placed(s) && s.current in s.tasks
    ensures SameBooks(s, Block(s, wl, timeout))
  {}

  lemma WakeStepBooks(s: State, step: Step)
    requires Inv(s) && Enabled(s, step) && (step.WakeFirst? || step.WakeEach? || step.Interrupt?)
    ensures SameBooks(s, Next(s, step))
  {
    match step
    case WakeFirst(wl) => WakesBooks(s, wl, 1);
    case WakeEach(wl) => WakesBooks(s, wl, |Queue(s.lists, wl)|);
    case Interrupt(data) => PushBooks(s, DeviceMsg(data));
  }

  lemma DrainBooks(s: State, step: Step)
    requires Inv(s) && Enabled(s, step) && (step.DrainHandle? || step.DrainPop? || (step.DrainWait? && s.irq.signaled))
    ensures SameBooks(s, Next(s, step))
  {
    ExpireBooks(s);
  }

  lemma MoveStepBooks(s: State, step: Step)
    requires Inv(s) && Enabled(s, step) && (step.Resume? || (step.Suspend? && step.t != s.current))
    ensures SameBooks(s, Next(s, step))
  {
    if step.Resume? {
      MoveBooks(s, step.t, s.tasks[step.t].(state := Ready));
    } else {
      MoveBooks(s, step.t, Parked(s.tasks[step.t]));
    }
  }

  lemma ReapBooked(s: State, t: nat)
    requires Inv(s) && Enabled(s, DrainDead)
    ensures Booked(s, DrainDead, Next(s, DrainDead), t)
  {
    ReapRefs(s);
  }

  lemma TerminateBooked(s: State, u: nat, t: nat)
    requires Inv(s) && Enabled(s, Terminate(u))
    ensures Booked(s, Terminate(u), Next(s, Terminate(u)), t)
  {
    TerminateMid(s, u);
    DieBooks(s, u);
    ReleaseBooked(s, Die(s, u), Terminate(u), u, t);
  }

  lemma ReleaseBooked(s: State, s1: State, step: Step, u: nat, t: nat)
    requires SameBooks(s, s1) && u in s1.tasks && s1.tasks[u].refcount > 0 && Handles(s1, u) > 0
    requires step == Terminate(u) || step == ReleaseRef(u)
    ensures Booked(s, step, Release(s1, u), t)
  {}

  lemma ReferenceBooked(s: State, step: Step, t: nat)
    requires Inv(s) && Enabled(s, step) && (step.Retain? || step.ReleaseRef?)
    ensures Booked(s, step, Next(s, step), t)
  {
    if step.ReleaseRef? {
      ReleaseRefBooked(s, step.t, t);
    } else {
      RetainBooked(s, step.t, t);
    }
  }

  lemma ReleaseRefBooked(s: State, u: nat, t: nat)
    requires Inv(s) && Enabled(s, ReleaseRef(u))
    ensures Booked(s, ReleaseRef(u), Next(s, ReleaseRef(u)), t)
  {
    ReleaseMid(s, u);
    ReleaseBooked(s, s, ReleaseRef(u), u, t);
  }

  lemma RetainBooked(s: State, u: nat, t: nat)
    requires Inv(s) && Enabled(s, Retain(u))
    ensures Booked(s, Retain(u), Next(s, Retain(u)), t)
  {}

  /** A new task has the next id, the given priority and one reference, and waits. */
  lemma CreateBooked(s: State, p: nat, t: nat)
    requires Inv(s) && Enabled(s, Create(p))
    ensures Booked(s, Create(p), Next(s, Create(p)), t)
  {
    FreshTid(s);
  }

  lemma StepBooked(s: State, step: Step, t: nat)
    requires Inv(s) && Enabled(s, step)
    ensures Booked(s, step, Next(s, step), t)
  {
    if step.Create? {
      CreateBooked(s, step.priority, t);
    } else if step.Terminate? {
      TerminateBooked(s, step.t, t);
    } else if step.Retain? || step.ReleaseRef? {
      ReferenceBooked(s, step, t);
    } else if step.DrainDead? {
      ReapBooked(s, t);
    } else {
      StepBooks(s, step);
      PlainBooked(s, step, Next(s, step), t);
    }
  }

  lemma StepBooks(s: State, step: Step)
    requires Inv(s) && Enabled(s, step) && Plain(step) && !step.DrainDead?
    ensures SameBooks(s, Next(s, step))
  {
    if Scheduling(s, step).Some? {
      SchedulingBooks(s, step);
    } else if step.WakeFirst? || step.WakeEach? || step.Interrupt? {
      WakeStepBooks(s, step);
    } else if step.DrainHandle? || step.DrainPop? || step.DrainWait? {
      DrainBooks(s, step);
    } else {
      MoveStepBooks(s, step);
    }
  }

  ghost function TakenIn(s: State, run: seq<Step>, t: nat): nat
    requires Inv(s) && Feasible(s, run)
    decreases |run|
  {
    if run == [] then 0 else Taken(s, run[0], t) + TakenIn(Next(s, run[0]), run[1..], t)
  }

  function GivenIn(run: seq<Step>, t: nat): nat {
    if run == [] then 0 else Given(run[0], t) + GivenIn(run[1..], t)
  }

  /** Over every run: the references from outside are those taken and not given back, ids are
      never used again, and a task keeps its priority. */
  lemma {:induction false} BooksKept(s: State, run: seq<Step>, t: nat)
    requires Inv(s) && Feasible(s, run)
    ensures var r := Exec(s, run);
      && Handles(r, t) + GivenIn(run, t) == Handles(s, t) + TakenIn(s, run, t) && s.nextTid <= r.nextTid
      && (t in r.tasks && t < s.nextTid ==> t in s.tasks && r.tasks[t].priority == s.tasks[t].priority)
    decreases |run|
  {
    if run != [] {
      StepBooked(s, run[0], t);
      BooksKept(Next(s, run[0]), run[1..], t);
    }
  }

  // ---------------------------------------------------------------- time

  /** Only the timer moves the clock. */
  lemma StepTick(s: State, step: Step)
    requires Inv(s) && Enabled(s, step)
    ensures Next(s, step).tick == s.tick + if step.Tick? then 1 else 0
  {
    if Scheduling(s, step).Some? {
      SchedulingTick(s, step);
    } else if step.Terminate? {
      TerminateTick(s, step.t);
    } else if step.DrainDead? {
      ReapTick(s);
    } else if step.DrainHandle? {
      ExpireCurrent(s);
    } else {
      PlainTick(s, step);
    }
  }

  lemma TerminateTick(s: State, t: nat)
    requires Inv(s) && Enabled(s, Terminate(t))
    ensures Next(s, Terminate(t)).tick == s.tick
  {
    TerminateMid(s, t);
  }

  lemma ReapTick(s: State)
    requires Inv(s) && Enabled(s, DrainDead)
    ensures Next(s, DrainDead).tick == s.tick
  {
    ReapRefs(s);
  }

  lemma PlainTick(s: State, step: Step)
    requires Inv(s) && Enabled(s, step) && Scheduling(s, step).None?
    requires !step.Terminate? && !step.DrainDead? && !step.DrainHandle?
    ensures Next(s, step).tick == s.tick
  {}

  lemma SchedulingTick(s: State, step: Step)
    requires Inv(s) && Enabled(s, step) && Scheduling(s, step).Some?
    ensures Next(s, step).tick == s.tick + if step.Tick? then 1 else 0
  {
    SchedulingIs(s, step);
    var s1 := Scheduling(s, step).value;
    SwitchTick(Notify(s1));
  }

  lemma SwitchTick(s: State)
    requires Placed(s) && s.current in s.tasks
    ensures Switch(s).tick == s.tick
  {
    TopReady(s, 0);
  }

  function Ticks(run: seq<Step>): nat {
    if run == [] then 0 else (if run[0].Tick? then 1 else 0) + Ticks(run[1..])
  }

  /** Over every run the clock counts the ticks. */
  lemma {:induction false} ClockCounts(s: State, run: seq<Step>)
    requires Inv(s) && Feasible(s, run)
    ensures Exec(s, run).tick == s.tick + Ticks(run)
    decreases |run|
  {
    if run != [] {
      StepTick(s, run[0]);
      ClockCounts(Next(s, run[0]), run[1..]);
    }
  }

  // ---------------------------------------------------------------- messages

  /** What is pushed now: the message if there is room, else a drop. */
  function Accepted(irq: Irq, msg: Msg): seq<Msg> {
    if |irq.queue| == IRQ_QUEUE_SIZE then [] else [msg]
  }

  function Refused(irq: Irq): nat {
    if |irq.queue| == IRQ_QUEUE_SIZE then 1 else 0
  }

  /** The messages that the step puts into the queue, those it refuses and those it takes out. */
  function Pushes(s: State, step: Step): seq<Msg>
    requires Inv(s) && Enabled(s, step)
  {
    match Scheduling(s, step)
    case Some(s1) => if s1.soonest <= s1.tick then Accepted(s.irq, TimeoutMsg) else []
    case None => if step.Interrupt? then Accepted(s.irq, DeviceMsg(step.data)) else []
  }

  function Refuses(s: State, step: Step): nat
    requires Inv(s) && Enabled(s, step)
  {
    match Scheduling(s, step)
    case Some(s1) => if s1.soonest <= s1.tick then Refused(s.irq) else 0
    case None => if step.Interrupt? then Refused(s.irq) else 0
  }

  function Pops(s: State, step: Step): seq<Msg> {
    if step.DrainPop? && !s.irq.dropEvent && s.irq.queue != [] then [s.irq.queue[0]] else []
  }

  /** `pushed` went in at the end, `popped` came out in front, `refused` were counted and are
      reported once before anything else is popped. */
  predicate Passed(irq: Irq, irq': Irq, pushed: seq<Msg>, refused: nat, popped: seq<Msg>, report: bool) {
    && irq.queue + pushed == popped + irq'.queue && irq'.drops == irq.drops + refused
    && (irq'.dropEvent <==> (irq.dropEvent && !report) || refused > 0)
    && (popped != [] ==> !irq.dropEvent && irq'.pc == AtHandle(popped[0]))
    && (report && irq.dropEvent ==> irq'.pc == AtHandle(DropMsg))
  }

  lemma PushPasses(s: State, msg: Msg)
    requires Placed(s)
    ensures Passed(s.irq, PushMsg(s, msg).0.irq, Accepted(s.irq, msg), Refused(s.irq), [], false)
  {}

  lemma NotifyPasses(s: State)
    requires Placed(s)
    ensures var rings := s.soonest <= s.tick;
      Passed(s.irq, Notify(s).irq, if rings then Accepted(s.irq, TimeoutMsg) else [],
             if rings then Refused(s.irq) else 0, [], false)
  {
    if s.soonest <= s.tick {
      PushPasses(s, TimeoutMsg);
    }
  }

  lemma SchedulingIrq(s: State, step: Step)
    requires Inv(s) && Enabled(s, step) && Scheduling(s, step).Some?
    ensures Scheduling(s, step).value.irq == s.irq
  {
    if step.Exit? {
      DieCounts(s, s.current);
    }
  }

  lemma SchedulingPasses(s: State, step: Step)
    requires Inv(s) && Enabled(s, step) && Scheduling(s, step).Some?
    ensures Passed(s.irq, Next(s, step).irq, Pushes(s, step), Refuses(s, step), [], false)
  {
    SchedulingIs(s, step);
    SchedulingIrq(s, step);
    var s1 := Scheduling(s, step).value;
    NotifyPasses(s1);
    SwitchIrq(Notify(s1));
  }

  lemma DrainPasses(s: State, step: Step)
    requires Inv(s) && Enabled(s, step) && Scheduling(s, step).None? && IsDrain(step)
    ensures Passed(s.irq, Next(s, step).irq, [], 0, Pops(s, step), step.DrainPop?)
  {
    DrainIrq(s, step);
    if step.DrainPop? {
      PopPasses(s.irq);
    }
  }

  lemma PopPasses(irq: Irq)
    ensures Passed(irq, Popped(irq), [], 0, if !irq.dropEvent && irq.queue != [] then [irq.queue[0]] else [], true)
  {}

  lemma DrainIrq(s: State, step: Step)
    requires Inv(s) && Enabled(s, step) && Scheduling(s, step).None? && IsDrain(step)
    ensures step.DrainPop? ==> Next(s, step).irq == Popped(s.irq)
    ensures step.DrainWait? ==> Next(s, step).irq == s.irq.(signaled := false, pc := AtPop)
    ensures step.DrainHandle? ==> Next(s, step).irq == s.irq.(pc := AtPop)
  {
    ExpireCurrent(s);
  }

  /** One step: messages pass through the queue first in, first out, and none is lost but those
      that are counted as dropped. */
  lemma StepPasses(s: State, step: Step)
    requires Inv(s) && Enabled(s, step)
    ensures Passed(s.irq, Next(s, step).irq, Pushes(s, step), Refuses(s, step), Pops(s, step), step.DrainPop?)
  {
    if Scheduling(s, step).Some? {
      SchedulingPasses(s, step);
    } else if IsDrain(step) {
      DrainPasses(s, step);
    } else {
      OtherPasses(s, step);
    }
  }

  lemma OtherPasses(s: State, step: Step)
    requires Inv(s) && Enabled(s, step) && Scheduling(s, step).None? && !IsDrain(step)
    ensures Passed(s.irq, Next(s, step).irq, Pushes(s, step), Refuses(s, step), [], false)
  {
    if step.Interrupt? {
      PushPasses(s, DeviceMsg(step.data));
    } else {
      OtherSameIrq(s, step);
    }
  }

  lemma OtherSameIrq(s: State, step: Step)
    requires Inv(s) && Enabled(s, step) && Scheduling(s, step).None? && !IsDrain(step) && !step.Interrupt?
    ensures Next(s, step).irq == s.irq
  {
    if !step.Suspend? {
      SameIrq(s, step);
    }
  }

  ghost function PushedIn(s: State, run: seq<Step>): seq<Msg>
    requires Inv(s) && Feasible(s, run)
    decreases |run|
  {
    if run == [] then [] else Pushes(s, run[0]) + PushedIn(Next(s, run[0]), run[1..])
  }

  ghost function PoppedIn(s: State, run: seq<Step>): seq<Msg>
    requires Inv(s) && Feasible(s, run)
    decreases |run|
  {
    if run == [] then [] else Pops(s, run[0]) + PoppedIn(Next(s, run[0]), run[1..])
  }

  ghost function RefusedIn(s: State, run: seq<Step>): nat
    requires Inv(s) && Feasible(s, run)
    decreases |run|
  {
    if run == [] then 0 else Refuses(s, run[0]) + RefusedIn(Next(s, run[0]), run[1..])
  }

  /** Over every run: what was queued and what was accepted since is what was handled and what is
      queued now, in that order; the rest was counted as dropped. */
  lemma {:induction false} MessagesInOrder(s: State, run: seq<Step>)
    requires Inv(s) && Feasible(s, run)
    ensures s.irq.queue + PushedIn(s, run) == PoppedIn(s, run) + Exec(s, run).irq.queue
    ensures Exec(s, run).irq.drops == s.irq.drops + RefusedIn(s, run)
    decreases |run|
  {
    if run != [] {
      StepPasses(s, run[0]);
      var s1 := Next(s, run[0]);
      MessagesInOrder(s1, run[1..]);
      Chained(s.irq.queue, Pushes(s, run[0]), Pops(s, run[0]), s1.irq.queue, PushedIn(s1, run[1..]),
              PoppedIn(s1, run[1..]), Exec(s, run).irq.queue);
    }
  }

  lemma Chained(q: seq<Msg>, pushed: seq<Msg>, popped: seq<Msg>, q1: seq<Msg>, pushed1: seq<Msg>, popped1: seq<Msg>,
                q2: seq<Msg>)
    requires q + pushed == popped + q1 && q1 + pushed1 == popped1 + q2
    ensures q + (pushed + pushed1) == popped + popped1 + q2
  {
    assert q + (pushed + pushed1) == q + pushed + pushed1;
    assert popped + q1 + pushed1 == popped + (q1 + pushed1);
    assert popped + (popped1 + q2) == popped + popped1 + q2;
  }
}
