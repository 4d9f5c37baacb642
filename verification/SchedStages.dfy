/** A run of three tasks in which a suspension makes a wait give the wrong answer. */
module SchedStages {
  import opened Wrappers
  import opened Sched
  import opened SchedRuns
  import opened SchedSteps
  import opened SchedTheorems

  /** The first task, the idle task and task 2, of best priority; the queues follow from `Inv`. */
  ghost predicate Stage(s: State, main: TaskState, third: Task, soonest: nat, current: nat, irq: Irq, tick: nat) {
    && s.tasks.Keys == {DRAINER, IDLE, 2} && s.tasks[DRAINER] == Task(main, PRIORITY_KERNEL, None, false, 0, 1)
    && s.tasks[IDLE] == Task(Ready, LOWEST, None, false, 0, 1) && s.tasks[2] == third
    && third.priority == 0 && third.waitFor.None?
    && s.soonest == soonest && s.current == current && s.irq == irq && s.tick == tick
  }

  /** No alarm is due and `next` is the best of the ready tasks: it gets the processor. */
  lemma ScheduleTo(s: State, next: nat)
    requires Placed(s) && s.current in s.tasks && s.soonest > s.tick && next in s.tasks && s.tasks[next].state == Ready
    requires forall t :: t in s.tasks && t != next && s.tasks[t].state == Ready ==>
      s.tasks[next].priority < s.tasks[t].priority
    requires s.tasks[s.current].state == Running ==> s.tasks[next].priority <= s.tasks[s.current].priority
    ensures var r, cur := Schedule(s), s.tasks[s.current];
      && r.tasks == s.tasks[s.current := if cur.state == Running then cur.(state := Ready)
                                         else cur][next := Dispatched(s.tasks[next])]
      && r.current == next && r.irq == s.irq && r.soonest == s.soonest && r.tick == s.tick
    ensures Answer(Notify(s)) == Some(!s.tasks[next].hasTimeout)
  {
    TopReady(s, 0);
    assert Top(s.ready, 0) == Some(next);
  }

  lemma StageCreate(s: State)
    requires s == Init()
    ensures Stage(CreateStep(s, 0), Running, NewTask(0), INFINITY, DRAINER, s.irq, 0)
  {}

  lemma StageResume(s: State, third: Task, soonest: nat, irq: Irq, tick: nat)
    requires Inv(s) && Stage(s, Running, third, soonest, DRAINER, irq, tick) && third.state == Waiting
    requires !third.hasTimeout
    ensures Enabled(s, Resume(2))
    ensures Stage(ResumeStep(s, 2), Running, third.(state := Ready), soonest, DRAINER, irq, tick)
  {}

  lemma StageYield(s: State, third: Task, soonest: nat, irq: Irq, tick: nat)
    requires Inv(s) && Stage(s, Running, third, soonest, DRAINER, irq, tick) && third.state == Ready && tick < soonest
    ensures Stage(YieldStep(s), Ready, third.(state := Running, hasTimeout := false), soonest, 2, irq, tick)
    ensures Answer(Notify(s)) == Some(!third.hasTimeout)
  {
    ScheduleTo(s, 2);
  }

  lemma BlockFacts(s: State, wl: Option<WaitList>, timeout: nat)
    requires Placed(s) && s.current in s.tasks
    ensures var r := Block(s, wl, timeout);
      && r.tasks == s.tasks[s.current := Blocked(s.tasks[s.current], wl, timeout)]
      && r.current == s.current && r.irq == s.irq && r.tick == s.tick
      && r.soonest == if timeout != INFINITY && timeout < s.soonest then timeout else s.soonest
  {}

  /** The current task waits, and `next` is the best of the ready tasks. */
  lemma WaitTo(s: State, timeout: nat, next: nat)
    requires Placed(s) && s.current in s.tasks && s.soonest > s.tick && s.tick < timeout < INFINITY
    requires next in s.tasks && next != s.current && s.tasks[next].state == Ready
    requires forall t :: t in s.tasks && t != next && s.tasks[t].state == Ready ==>
      s.tasks[next].priority < s.tasks[t].priority
    ensures var r := Schedule(Block(s, None, timeout));
      && r.tasks == s.tasks[s.current := Blocked(s.tasks[s.current], None, timeout)][next := Dispatched(s.tasks[next])]
      && r.current == next && r.irq == s.irq && r.tick == s.tick
      && r.soonest == if timeout < s.soonest then timeout else s.soonest
  {
    BlockFacts(s, None, timeout);
    ScheduleTo(Block(s, None, timeout), next);
  }

  lemma StageWait(s: State, third: Task, irq: Irq)
    requires Inv(s) && Stage(s, Ready, third, INFINITY, 2, irq, 0) && third.state == Running
    ensures Stage(WaitStep(s, None, 1), Running, third.(state := Waiting, hasTimeout := true, waitTimeout := 1), 1,
                  DRAINER, irq, 0)
  {
    WaitTo(s, 1, DRAINER);
  }

  /** The alarm rings while the drain loop runs. */
  lemma TickRings(s: State)
    requires Inv(s) && s.current == DRAINER && s.soonest == s.tick + 1 && |s.irq.queue| < IRQ_QUEUE_SIZE
    requires forall t :: t in s.tasks && s.tasks[t].state == Ready ==> s.tasks[DRAINER].priority < s.tasks[t].priority
    ensures var r := TickStep(s);
      && r.tasks == s.tasks && r.current == DRAINER && r.tick == s.tick + 1 && r.soonest == INFINITY
      && r.irq == s.irq.(queue := s.irq.queue + [TimeoutMsg], signaled := true)
  {
    LaterMid(s);
    var s0 := s.(tick := s.tick + 1);
    NobodyDrains(s0);
    var s1 := Notify(s0);
    TopReady(s1, 0);
  }

  lemma NobodyDrains(s: State)
    requires Mid(s) && s.tasks[DRAINER].state == Running
    ensures Queue(s.lists, IrqEvent) == []
  {
    var q := Queue(s.lists, IrqEvent);
    assert HoldsWaiting(s.tasks, q, IrqEvent);
    forall u | u in s.tasks
      ensures !InList(s.tasks[u], IrqEvent)
    {
      assert TaskOk(s, u);
    }
    if q != [] {
      HeadIsIn(q);
      assert false;
    }
  }

  lemma HeadIsIn(q: seq<nat>)
    requires q != []
    ensures q[0] in q
  {}

  lemma StageTick(s: State, third: Task, irq: Irq)
    requires Inv(s) && Stage(s, Running, third, 1, DRAINER, irq, 0) && third.state == Waiting && irq.queue == []
    ensures Stage(TickStep(s), Running, third, INFINITY, DRAINER, irq.(queue := [TimeoutMsg], signaled := true), 1)
  {
    TickRings(s);
  }

  lemma {:induction false} ExpireAlarm(s: State)
    requires Placed(s)
    ensures Expire(s).soonest == s.soonest || Expire(s).soonest > s.tick
    decreases |s.timeouts|
  {
    if s.timeouts != [] {
      var t := s.timeouts[0];
      assert t in s.timeouts;
      if s.tasks[t].waitTimeout <= s.tick {
        MovePlaced(s, t, TimedOut(s.tasks[t]));
        ExpireAlarm(Move(s, t, TimedOut(s.tasks[t])));
      }
    }
  }

  lemma StageDrain(s: State, third: Task, irq: Irq)
    requires Inv(s) && Stage(s, Running, third, INFINITY, DRAINER, irq, 1)
    requires irq.pc == AtHandle(TimeoutMsg) && InTree(third) && third.waitTimeout <= 1
    ensures Stage(DrainHandleStep(s), Running, TimedOut(third), DrainHandleStep(s).soonest, DRAINER, irq.(pc := AtPop),
                  1)
    ensures DrainHandleStep(s).soonest > 1
  {
    ExpireAlarm(s);
    ExpireExact(s, DRAINER);
    ExpireExact(s, IDLE);
    ExpireExact(s, 2);
    ExpireCurrent(s);
    ExpireMid(s);
  }

  lemma StageSuspend(s: State, third: Task, soonest: nat, irq: Irq, tick: nat)
    requires Inv(s) && Stage(s, Running, third, soonest, DRAINER, irq, tick) && third.state == Ready
    ensures Stage(SuspendStep(s, 2), Running, Parked(third), soonest, DRAINER, irq, tick)
  {}

  // ---------------------------------------------------------------- the run

  ghost predicate Reach(run: seq<Step>, s: State) {
    Runs(Init(), run, s)
  }

  /** `run` leads to a stage. */
  ghost predicate At(run: seq<Step>, s: State, main: TaskState, third: Task, soonest: nat, current: nat, irq: Irq,
                     tick: nat) {
    Inv(s) && Reach(run, s) && Stage(s, main, third, soonest, current, irq, tick)
  }

  lemma RunsOn(s: State, step: Step, s1: State, run: seq<Step>, r: State)
    requires Leads(s, step, s1)
    ensures Runs(s, [step] + run, r) <==> Runs(s1, run, r)
  {
    assert ([step] + run)[1..] == run;
  }

  lemma FirstStep(s: State, run: seq<Step>, r: State) returns (s1: State)
    requires Runs(s, run, r) && run != []
    ensures Leads(s, run[0], s1) && Runs(s1, run[1..], r)
  {
    s1 := Next(s, run[0]);
  }

  lemma {:induction false} ExecAppended(s: State, run: seq<Step>, s1: State, step: Step, r: State)
    requires Runs(s, run, s1) && Leads(s1, step, r)
    ensures Runs(s, run + [step], r)
    decreases |run|
  {
    if run == [] {
      RunsOn(s, step, r, [], r);
      assert run + [step] == [step] + [];
    } else {
      var s2 := FirstStep(s, run, s1);
      ExecAppended(s2, run[1..], s1, step, r);
      RunsOn(s, run[0], s2, run[1..] + [step], r);
      HeadFirst(run, step);
    }
  }

  lemma HeadFirst(run: seq<Step>, step: Step)
    requires run != []
    ensures run + [step] == [run[0]] + (run[1..] + [step])
  {}

  lemma Then(run: seq<Step>, s: State, step: Step, r: State)
    requires Reach(run, s) && Leads(s, step, r)
    ensures Reach(run + [step], r)
  {
    ExecAppended(Init(), run, s, step, r);
  }

  lemma YieldLeads(s: State)
    requires Inv(s)
    ensures Leads(s, Yield, YieldStep(s))
  {}

  lemma CreateLeads(s: State)
    requires Inv(s) && s.nextTid < TID_END
    ensures Leads(s, Create(0), CreateStep(s, 0))
  {}

  lemma PlayCreate() returns (run: seq<Step>, s: State)
    ensures At(run, s, Running, NewTask(0), INFINITY, DRAINER, Init().irq, 0)
  {
    assert Reach([], Init());
    StageCreate(Init());
    run, s := [] + [Create(0)], CreateStep(Init(), 0);
    CreateLeads(Init());
    Then([], Init(), Create(0), s);
  }

  lemma PlayResume(run: seq<Step>, s: State, third: Task, soonest: nat, irq: Irq, tick: nat) returns (r: State)
    requires At(run, s, Running, third, soonest, DRAINER, irq, tick) && third.state == Waiting && !third.hasTimeout
    ensures At(run + [Resume(2)], r, Running, third.(state := Ready), soonest, DRAINER, irq, tick)
  {
    StageResume(s, third, soonest, irq, tick);
    r := ResumeStep(s, 2);
    Then(run, s, Resume(2), r);
  }

  lemma PlayYield(run: seq<Step>, s: State, third: Task, soonest: nat, irq: Irq, tick: nat) returns (r: State)
    requires At(run, s, Running, third, soonest, DRAINER, irq, tick) && third.state == Ready && tick < soonest
    ensures At(run + [Yield], r, Ready, third.(state := Running, hasTimeout := false), soonest, 2, irq, tick)
  {
    StageYield(s, third, soonest, irq, tick);
    r := YieldStep(s);
    YieldLeads(s);
    Then(run, s, Yield, r);
  }

  lemma PlayWait(run: seq<Step>, s: State, third: Task, irq: Irq) returns (r: State)
    requires At(run, s, Ready, third, INFINITY, 2, irq, 0) && third.state == Running
    ensures At(run + [Wait(None, 1)], r, Running, third.(state := Waiting, hasTimeout := true, waitTimeout := 1), 1,
               DRAINER, irq, 0)
  {
    StageWait(s, third, irq);
    r := WaitStep(s, None, 1);
    Then(run, s, Wait(None, 1), r);
  }

  lemma PlayTick(run: seq<Step>, s: State, third: Task, irq: Irq) returns (r: State)
    requires At(run, s, Running, third, 1, DRAINER, irq, 0) && third.state == Waiting && irq.queue == []
    ensures At(run + [Tick], r, Running, third, INFINITY, DRAINER, irq.(queue := [TimeoutMsg], signaled := true), 1)
  {
    StageTick(s, third, irq);
    r := TickStep(s);
    Then(run, s, Tick, r);
  }

  lemma PlayDrainWait(run: seq<Step>, s: State, third: Task, irq: Irq) returns (r: State)
    requires At(run, s, Running, third, INFINITY, DRAINER, irq, 1) && irq.signaled && irq.pc == AtWait
    ensures At(run + [DrainWait], r, Running, third, INFINITY, DRAINER, irq.(signaled := false, pc := AtPop), 1)
  {
    r := DrainWaitStep(s);
    Then(run, s, DrainWait, r);
  }

  lemma PlayDrainPop(run: seq<Step>, s: State, third: Task, irq: Irq) returns (r: State)
    requires At(run, s, Running, third, INFINITY, DRAINER, irq, 1) && irq.pc == AtPop && !irq.dropEvent
    requires irq.queue == [TimeoutMsg]
    ensures At(run + [DrainPop], r, Running, third, INFINITY, DRAINER, irq.(queue := [], pc := AtHandle(TimeoutMsg)), 1)
  {
    r := DrainPopStep(s);
    Then(run, s, DrainPop, r);
  }

  lemma PlayDrainHandle(run: seq<Step>, s: State, third: Task, irq: Irq) returns (r: State)
    requires At(run, s, Running, third, INFINITY, DRAINER, irq, 1)
    requires irq.pc == AtHandle(TimeoutMsg) && InTree(third) && third.waitTimeout <= 1
    ensures At(run + [DrainHandle], r, Running, TimedOut(third), r.soonest, DRAINER, irq.(pc := AtPop), 1)
    ensures r.soonest > 1
  {
    StageDrain(s, third, irq);
    r := DrainHandleStep(s);
    Then(run, s, DrainHandle, r);
  }

  lemma PlaySuspend(run: seq<Step>, s: State, third: Task, soonest: nat, irq: Irq, tick: nat) returns (r: State)
    requires At(run, s, Running, third, soonest, DRAINER, irq, tick) && third.state == Ready
    ensures At(run + [Suspend(2)], r, Running, Parked(third), soonest, DRAINER, irq, tick)
  {
    StageSuspend(s, third, soonest, irq, tick);
    r := SuspendStep(s, 2);
    Then(run, s, Suspend(2), r);
  }

  /** Task 2 is created, gets the processor, waits until tick 1 and is timed out. */
  lemma TimesOut() returns (run: seq<Step>, s: State)
    ensures At(run, s, Running, NewTask(0).(state := Ready, hasTimeout := true, waitTimeout := 1), s.soonest, DRAINER,
               s.irq, 1)
    ensures s.soonest > 1
  {
    var third, irq := NewTask(0), Init().irq;
    run, s := PlayCreate();
    s := PlayResume(run, s, third, INFINITY, irq, 0);
    run, third := run + [Resume(2)], third.(state := Ready);
    s := PlayYield(run, s, third, INFINITY, irq, 0);
    run, third := run + [Yield], third.(state := Running);
    s := PlayWait(run, s, third, irq);
    run, third := run + [Wait(None, 1)], third.(state := Waiting, hasTimeout := true, waitTimeout := 1);
    s := PlayTick(run, s, third, irq);
    run, irq := run + [Tick], irq.(queue := [TimeoutMsg], signaled := true);
    s := PlayDrainWait(run, s, third, irq);
    run, irq := run + [DrainWait], irq.(signaled := false, pc := AtPop);
    s := PlayDrainPop(run, s, third, irq);
    run, irq := run + [DrainPop], irq.(queue := [], pc := AtHandle(TimeoutMsg));
    s := PlayDrainHandle(run, s, third, irq);
    run := run + [DrainHandle];
  }

  /** Task 2 has waited up to its deadline and nobody woke it.  If it is scheduled now, its
      wait answers false; if it is suspended and resumed first, the same wait answers true. */
  lemma SuspendLosesTimeout() returns (run: seq<Step>, s: State, s': State)
    ensures Reach(run, s) && Inv(s) && Marked(s, 2) && s.tasks[2].waitTimeout <= s.tick && Enabled(s, Suspend(2))
    ensures Schedule(s).current == 2 && Answer(Notify(s)) == Some(false)
    ensures Reach(run + [Suspend(2)] + [Resume(2)], s') && Inv(s')
    ensures Schedule(s').current == 2 && Answer(Notify(s')) == Some(true)
  {
    run, s := TimesOut();
    var third, soonest, irq := s.tasks[2], s.soonest, s.irq;
    StageYield(s, third, soonest, irq, 1);
    s' := PlaySuspend(run, s, third, soonest, irq, 1);
    s' := PlayResume(run + [Suspend(2)], s', Parked(third), soonest, irq, 1);
    StageYield(s', Parked(third).(state := Ready), soonest, irq, 1);
  }
}
