/**
 The scheduler of kernel/src/task/task.c as it changes its globals step by step, proved against
 the operations of `SchedRuns` and `SchedSteps`.
 */
module SchedImplementation {
  import opened Queues
  import opened Wrappers
  import opened Sched
  import opened SchedRuns
  import opened SchedSteps
  import opened SchedTheorems
  import SchedOrder

  // ---------------------------------------------------------------- setters amount to moves

  /** `linkedlist_pop_front` and `wait_for = NULL`. */
  function Unlisted(s: State, wl: WaitList, t: nat): State
    requires t in s.tasks && Queue(s.lists, wl) != []
  {
    Put(s, t, s.tasks[t].(waitFor := None)).(lists := s.lists[wl := Queue(s.lists, wl)[1..]])
  }

  lemma WakeBySetters(s: State, wl: WaitList)
    requires Placed(s) && Queue(s.lists, wl) != []
    ensures var t := Queue(s.lists, wl)[0];
      t in s.tasks && SetReady(ResetTimeout(Unlisted(s, wl, t), t), t) == Move(s, t, Woken(s.tasks[t]))
  {
    var q := Queue(s.lists, wl);
    assert HoldsWaiting(s.tasks, q, wl) && q[0] in q;
  }

  lemma TimeOutBySetters(s: State)
    requires Placed(s) && s.timeouts != []
    ensures var t := s.timeouts[0];
      t in s.tasks && SetReady(ResetWaitFor(s.(timeouts := Without(s.timeouts, t)), t), t) ==
        Move(s, t, TimedOut(s.tasks[t]))
  {
    assert s.timeouts[0] in s.timeouts;
  }

  lemma BlockBySetters(s: State, wl: Option<WaitList>, timeout: nat)
    requires Placed(s) && s.current in s.tasks && s.tasks[s.current].state == Running
    ensures (if timeout == INFINITY then SetWaitFor(s, s.current, wl) else SetWaitTimeout(s, s.current, wl, timeout)) ==
      Block(s, wl, timeout)
  {
    var b := Blocked(s.tasks[s.current], wl, timeout);
    if timeout != INFINITY {
      assert SetWaitTimeout(s, s.current, wl, timeout).tasks == s.tasks[s.current := b];
    }
  }

  /** A task that blocks makes room for another one, which is told how its own wait ended. */
  lemma BlockAnswers(s: State, wl: Option<WaitList>, timeout: nat)
    requires Inv(s) && Enabled(s, Wait(wl, timeout))
    ensures var s1 := Notify(Block(s, wl, timeout));
      s1.current in s1.tasks && Answer(s1) == Some(!Marked(s1, WaitStep(s, wl, timeout).current))
  {
    BlockMid(s, wl, timeout);
    BlockedFindsSuccessor(Block(s, wl, timeout));
  }

  lemma SuspendBySetters(s: State, t: nat)
    requires Placed(s) && t in s.tasks && (s.tasks[t].state == Ready || s.tasks[t].state == Running)
    ensures SetWaitFor(if s.tasks[t].state == Ready then ResetReady(s, t) else s, t, None) ==
      Move(s, t, Parked(s.tasks[t]))
  {}

  /** Taken from its queues, then dead. */
  function Slain(s: State, t: nat): State
    requires Placed(s) && t in s.tasks
  {
    var s1 := match s.tasks[t].state
      case Ready => ResetReady(s, t)
      case Waiting => ResetWaitFor(ResetTimeout(s, t), t)
      case _ => s;
    Put(s1, t, s1.tasks[t].(state := Dead))
  }

  lemma DieBySetters(s: State, t: nat)
    requires Placed(s) && t in s.tasks && (s.tasks[t].state != Waiting ==> s.tasks[t].waitFor.None?)
    ensures Slain(s, t) == Move(s, t, Corpse(s.tasks[t]))
  {}

  lemma DispatchBySetters(s: State, next: nat)
    requires Placed(s) && next in s.tasks && s.tasks[next].state == Ready
    ensures Put(ResetReady(s, next), next, s.tasks[next].(state := Running, hasTimeout := false)).(current := next) ==
      Dispatch(s, next)
  {}

  lemma GiveUpBySetters(s: State)
    requires Placed(s) && s.current in s.tasks && s.tasks[s.current].state == Running
    ensures SetReady(s, s.current) == GiveUp(s)
  {}

  // ---------------------------------------------------------------- setters and queues

  /** `reset_ready` takes a ready task out, `reset_timeout` and `reset_wait_for` a waiting one. */
  lemma ResetTakesOut(s: State, t: nat)
    requires Placed(s) && t in s.tasks
    ensures s.tasks[t].state == Ready ==> TakenOut(ResetReady(s, t), t)
    ensures s.tasks[t].state == Waiting ==> TakenOut(ResetWaitFor(ResetTimeout(s, t), t), t)
    ensures s.tasks[t].state == Running || s.tasks[t].state == Dead ==> TakenOut(s, t)
  {
    var a := s.tasks[t];
    var gone := a.(state := Dead);
    ReadyMoved(s.tasks, s.ready, t, gone);
    ListsMoved(s.tasks, s.lists, t, gone);
    TreeMoved(s.tasks, s.timeouts, t, gone);
    DeadOrNone(s.tasks, Requeue(s.ready, t, a, gone), Relist(s.lists, t, a, gone),
               Retree(s.tasks, s.timeouts, t, a, gone), t, gone);
    var s1 := match a.state
      case Ready => ResetReady(s, t)
      case Waiting => ResetWaitFor(ResetTimeout(s, t), t)
      case _ => s;
    assert s1.tasks - {t} == s.tasks - {t};
    assert s1.ready == Requeue(s.ready, t, a, gone);
    assert s1.lists == Relist(s.lists, t, a, gone);
    assert s1.timeouts == Retree(s.tasks, s.timeouts, t, a, gone);
  }

  /** For the queues a dead task is as good as none. */
  lemma DeadOrNone(tasks: Tasks, ready: seq<seq<nat>>, lists: map<WaitList, seq<nat>>, q: seq<nat>, t: nat, gone: Task)
    requires gone.state == Dead
    ensures ReadyOk(tasks[t := gone], ready) <==> ReadyOk(tasks - {t}, ready)
    ensures ListsOk(tasks[t := gone], lists) <==> ListsOk(tasks - {t}, lists)
    ensures TreeOk(tasks[t := gone], q) <==> TreeOk(tasks - {t}, q)
  {
    forall p: nat, r
      ensures HoldsReady(tasks[t := gone], r, p) <==> HoldsReady(tasks - {t}, r, p)
    {}
    forall wl, r
      ensures HoldsWaiting(tasks[t := gone], r, wl) <==> HoldsWaiting(tasks - {t}, r, wl)
    {}
    DeadOrNoneTree(tasks, q, t, gone);
  }

  lemma DeadOrNoneTree(tasks: Tasks, q: seq<nat>, t: nat, gone: Task)
    requires gone.state == Dead
    ensures TreeOk(tasks[t := gone], q) <==> TreeOk(tasks - {t}, q)
  {
    if t !in q {
      assert forall i :: 0 <= i < |q| ==> q[i] in q;
      assert forall u :: u in q ==> Deadline(tasks[t := gone], u) == Deadline(tasks - {t}, u);
    }
  }

  /** A task that was taken out and is made ready, or put to wait, is where it belongs. */
  lemma SetReadyPlaces(s: State, t: nat)
    requires TakenOut(s, t) && t in s.tasks
    ensures Placed(SetReady(s, t))
  {
    var a := s.tasks[t].(state := Dead);
    DeadOrNone(s.tasks, s.ready, s.lists, s.timeouts, t, a);
    MovePlaced(Put(s, t, a), t, s.tasks[t].(state := Ready));
    assert SetReady(s, t) == Move(Put(s, t, a), t, s.tasks[t].(state := Ready));
  }

  /** A task made ready runs next exactly if every other ready task has a worse priority. */
  lemma ReadiedOnTop(s: State, t: nat)
    requires TakenOut(s, t) && t in s.tasks && Placed(SetReady(s, t))
    ensures var r := SetReady(s, t);
      Top(r.ready, 0) == Some(t) <==>
        forall u :: u in r.tasks && u != t && r.tasks[u].state == Ready ==> r.tasks[t].priority < r.tasks[u].priority
  {
    var r, p := SetReady(s, t), s.tasks[t].priority;
    TopReady(r, 0);
    assert t in r.tasks && r.tasks[t].state == Ready;
    TopIsHead(r, 0);
    if Top(r.ready, 0) == Some(t) {
      assert HoldsReady(s.tasks - {t}, s.ready[p], p) && HoldsReady(r.tasks, r.ready[p], p);
      assert t !in s.ready[p] && r.ready[p] == s.ready[p] + [t];
    }
  }

  lemma SetWaitForPlaces(s: State, t: nat, wl: Option<WaitList>)
    requires TakenOut(s, t) && t in s.tasks
    ensures Placed(SetWaitFor(s, t, wl))
  {
    var a, b := s.tasks[t].(state := Dead), s.tasks[t].(state := Waiting, waitFor := wl, hasTimeout := false);
    DeadOrNone(s.tasks, s.ready, s.lists, s.timeouts, t, a);
    MovePlaced(Put(s, t, a), t, b);
    assert SetWaitFor(s, t, wl) == Move(Put(s, t, a), t, b);
  }

  lemma SetWaitTimeoutPlaces(s: State, t: nat, wl: Option<WaitList>, timeout: nat)
    requires TakenOut(s, t) && t in s.tasks
    ensures Placed(SetWaitTimeout(s, t, wl, timeout))
  {
    var a := s.tasks[t].(state := Dead);
    var b := s.tasks[t].(state := Waiting, waitFor := wl, hasTimeout := true, waitTimeout := timeout);
    DeadOrNone(s.tasks, s.ready, s.lists, s.timeouts, t, a);
    var s0 := Put(s, t, a);
    MovePlaced(s0, t, b);
    var s1 := SetWaitTimeout(s, t, wl, timeout);
    assert s1.tasks == s0.tasks[t := b];
    assert s1.lists == Relist(s0.lists, t, a, b);
  }

  // ---------------------------------------------------------------- the scheduler

  class Scheduler {
    var tasks: Tasks
    var readyQueue: seq<seq<nat>>
    var lists: map<WaitList, seq<nat>>
    var timeoutQueue: seq<nat>
    var soonestTimeout: nat
    var current: nat
    var deadList: seq<nat>
    var tidNext: nat
    var handles: map<nat, nat>
    var irq: Irq
    var tick: nat

    function Abs(): State
      reads this
    {
      State(tasks, readyQueue, lists, timeoutQueue, soonestTimeout, current, deadList, tidNext, handles, irq, tick)
    }

    // -------------------------------------------------------------- setters

    method SetState(t: nat, state: TaskState)
      requires t in tasks
      modifies this`tasks
      ensures Abs() == Put(old(Abs()), t, old(tasks)[t].(state := state))
    {
      tasks := tasks[t := tasks[t].(state := state)];
    }

    method MakeReady(t: nat)
      requires t in tasks && tasks[t].priority < |readyQueue|
      modifies this`tasks, this`readyQueue
      ensures Abs() == SetReady(old(Abs()), t)
      ensures tasks == old(tasks)[t := old(tasks)[t].(state := Ready)]
      ensures forall p :: 0 <= p < |readyQueue| ==>
        readyQueue[p] == old(readyQueue)[p] + if p == tasks[t].priority then [t] else []
      ensures old(TakenOut(Abs(), t)) ==> Placed(Abs())
      ensures old(TakenOut(Abs(), t)) ==> (Top(readyQueue, 0) == Some(t) <==>
        forall u :: u in tasks && u != t && tasks[u].state == Ready ==> tasks[t].priority < tasks[u].priority)
    {
      ghost var s := Abs();
      SetState(t, Ready);
      var p := tasks[t].priority;
      readyQueue := readyQueue[p := readyQueue[p] + [t]];
      if TakenOut(s, t) {
        SetReadyPlaces(s, t);
        ReadiedOnTop(s, t);
      }
    }

    method LeaveReady(t: nat)
      requires t in tasks && tasks[t].priority < |readyQueue|
      modifies this`readyQueue
      ensures Abs() == ResetReady(old(Abs()), t)
    {
      var p := tasks[t].priority;
      readyQueue := readyQueue[p := Without(readyQueue[p], t)];
    }

    method LeaveWaitList(t: nat)
      requires t in tasks
      modifies this`tasks, this`lists
      ensures Abs() == ResetWaitFor(old(Abs()), t)
    {
      if tasks[t].waitFor.None? {
        return;
      }
      var wl := tasks[t].waitFor.value;
      lists := lists[wl := Without(Queue(lists, wl), t)];
      tasks := tasks[t := tasks[t].(waitFor := None)];
    }

    method LeaveTimeouts(t: nat)
      requires t in tasks
      modifies this`tasks, this`timeoutQueue
      ensures Abs() == ResetTimeout(old(Abs()), t)
    {
      if !tasks[t].hasTimeout {
        return;
      }
      timeoutQueue := Without(timeoutQueue, t);
      tasks := tasks[t := tasks[t].(hasTimeout := false)];
    }

    method EnterWaitList(t: nat, wl: Option<WaitList>)
      requires t in tasks
      modifies this`tasks, this`lists
      ensures Abs() == SetWaitFor(old(Abs()), t, wl)
      ensures tasks == old(tasks)[t := old(tasks)[t].(state := Waiting, waitFor := wl, hasTimeout := false)]
      ensures forall w :: Queue(lists, w) == Queue(old(lists), w) + if wl == Some(w) then [t] else []
      ensures old(TakenOut(Abs(), t)) ==> Placed(Abs())
    {
      ghost var s := Abs();
      tasks := tasks[t := tasks[t].(state := Waiting, waitFor := wl, hasTimeout := false)];
      if wl.Some? {
        lists := lists[wl.value := Queue(lists, wl.value) + [t]];
      }
      if TakenOut(s, t) {
        SetWaitForPlaces(s, t, wl);
      }
    }

    method EnterTimeouts(t: nat, wl: Option<WaitList>, timeout: nat)
      requires t in tasks
      modifies this`tasks, this`lists, this`timeoutQueue, this`soonestTimeout
      ensures Abs() == SetWaitTimeout(old(Abs()), t, wl, timeout)
      ensures tasks[t] == old(tasks)[t].(state := Waiting, waitFor := wl, hasTimeout := true, waitTimeout := timeout)
      ensures forall w :: Queue(lists, w) == Queue(old(lists), w) + if wl == Some(w) then [t] else []
      ensures old(TakenOut(Abs(), t)) ==> Placed(Abs()) && (old(AlarmSet(Abs())) ==> AlarmSet(Abs()))
      ensures soonestTimeout <= timeout && (soonestTimeout == timeout || soonestTimeout == old(soonestTimeout))
    {
      ghost var s := Abs();
      EnterWaitList(t, wl);
      tasks := tasks[t := tasks[t].(hasTimeout := true, waitTimeout := timeout)];
      timeoutQueue := Insert(tasks, timeoutQueue, t);
      if soonestTimeout > timeout {
        soonestTimeout := timeout;
      }
      if TakenOut(s, t) {
        SetWaitTimeoutPlaces(s, t, wl, timeout);
      }
    }

    // -------------------------------------------------------------- waking

    method WakeOneOf(wl: WaitList) returns (woken: bool)
      requires Placed(Abs())
      modifies this`tasks, this`lists, this`timeoutQueue, this`readyQueue, this`irq
      ensures Abs() == WakeOne(old(Abs()), wl).0 && woken == WakeOne(old(Abs()), wl).1
      ensures Placed(Abs())
    {
      var q := Queue(lists, wl);
      if q == [] {
        return false;
      }
      WakeBySetters(Abs(), wl);
      var t := q[0];
      lists := lists[wl := q[1..]];
      tasks := tasks[t := tasks[t].(waitFor := None)];
      if tasks[t].hasTimeout {
        LeaveTimeouts(t);
      }
      MakeReady(t);
      if wl.IrqEvent? {
        irq := irq.(pc := AtPop);
      }
      return true;
    }

    method WakeAllOf(wl: WaitList)
      requires Placed(Abs())
      modifies this`tasks, this`lists, this`timeoutQueue, this`readyQueue, this`irq
      ensures Placed(Abs()) && Abs() == WakeAll(old(Abs()), wl)
    {
      ghost var goal := WakeAll(Abs(), wl);
      while Queue(lists, wl) != []
        invariant Placed(Abs()) && WakeAll(Abs(), wl) == goal
        decreases |Queue(lists, wl)|
      {
        OneLess(Abs(), wl);
        var _ := WakeOneOf(wl);
      }
    }

    method EventSignal()
      requires Placed(Abs())
      modifies this`tasks, this`lists, this`timeoutQueue, this`readyQueue, this`irq
      ensures Placed(Abs()) && Abs() == Signal(old(Abs()))
    {
      var woken := WakeOneOf(IrqEvent);
      irq := irq.(signaled := !woken);
    }

    method IrqmsgPush(msg: Msg) returns (pushed: bool)
      requires Placed(Abs())
      modifies this`tasks, this`lists, this`timeoutQueue, this`readyQueue, this`irq
      ensures Placed(Abs()) && Abs() == PushMsg(old(Abs()), msg).0 && pushed == PushMsg(old(Abs()), msg).1
    {
      if |irq.queue| == IRQ_QUEUE_SIZE {
        irq := irq.(drops := irq.drops + 1, dropEvent := true);
        EventSignal();
        return false;
      }
      irq := irq.(queue := irq.queue + [msg]);
      EventSignal();
      return true;
    }

    // -------------------------------------------------------------- schedule

    method ReadyQueueTop() returns (next: Option<nat>)
      requires |readyQueue| == PRIORITIES
      ensures next == Top(readyQueue, 0)
    {
      for i := 0 to PRIORITIES
        invariant Top(readyQueue, 0) == Top(readyQueue, i)
      {
        if readyQueue[i] != [] {
          return Some(readyQueue[i][0]);
        }
      }
      return None;
    }

    method RunSchedule() returns (answer: Option<bool>)
      requires Placed(Abs()) && current in tasks
      modifies this`tasks, this`lists, this`timeoutQueue, this`readyQueue, this`irq, this`soonestTimeout, this`current
      ensures Placed(Abs()) && Abs() == Schedule(old(Abs()))
      ensures answer == Answer(Notify(old(Abs())))
    {
      if soonestTimeout <= tick {
        var pushed := IrqmsgPush(TimeoutMsg);
        if pushed {
          soonestTimeout := INFINITY;
        }
      }
      assert Abs() == Notify(old(Abs()));
      answer := SwitchTask();
    }

    /** The second part of `schedule`, with the end of the wait that the next task was in. */
    method SwitchTask() returns (answer: Option<bool>)
      requires Placed(Abs()) && current in tasks
      modifies this`tasks, this`readyQueue, this`current
      ensures Placed(Abs()) && Abs() == Switch(old(Abs()))
      ensures answer == Answer(old(Abs()))
    {
      var top := ReadyQueueTop();
      TopReady(Abs(), 0);
      if top.None? {
        return None;
      }
      var next := top.value;
      if tasks[current].state == Running {
        if tasks[current].priority < tasks[next].priority {
          return None;
        }
        GiveUpBySetters(Abs());
        MakeReady(current);
      }
      assert Abs() == GiveUp(old(Abs()));
      var notTimedOut := DispatchTo(next);
      return Some(notTimedOut);
    }

    /** The end of `task_wait` in the task that runs now is part of this. */
    method DispatchTo(next: nat) returns (answer: bool)
      requires Placed(Abs()) && next in tasks && tasks[next].state == Ready
      modifies this`tasks, this`readyQueue, this`current
      ensures Placed(Abs()) && Abs() == Dispatch(old(Abs()), next)
      ensures answer == !old(tasks)[next].hasTimeout
    {
      DispatchBySetters(Abs(), next);
      LeaveReady(next);
      SetState(next, Running);
      answer := !tasks[next].hasTimeout;
      tasks := tasks[next := tasks[next].(hasTimeout := false)];
      current := next;
    }

    // -------------------------------------------------------------- timeouts

    method IrqmsgTimeout()
      requires Placed(Abs())
      modifies this`tasks, this`lists, this`timeoutQueue, this`readyQueue, this`soonestTimeout
      ensures Placed(Abs()) && Abs() == Expire(old(Abs()))
    {
      ghost var goal := Expire(Abs());
      while timeoutQueue != []
        invariant Placed(Abs()) && Expire(Abs()) == goal
        decreases |timeoutQueue|
      {
        var t := timeoutQueue[0];
        TimeOutBySetters(Abs());
        if tasks[t].waitTimeout > tick {
          soonestTimeout := tasks[t].waitTimeout;
          return;
        }
        MovePlaced(Abs(), t, TimedOut(tasks[t]));
        timeoutQueue := Without(timeoutQueue, t);
        LeaveWaitList(t);
        MakeReady(t);
      }
    }

    // -------------------------------------------------------------- operations of tasks

    /** `task_wait` up to where another task runs, and from there in that task: `answer` is
        what the call that ends here returns, the caller's own if it did not block and that
        of the task which runs now if it did. */
    method TaskWait(wl: Option<WaitList>, timeout: nat) returns (blocked: bool, answer: bool)
      requires Inv(Abs()) && Enabled(Abs(), Wait(wl, timeout))
      modifies this
      ensures blocked == (timeout > old(tick))
      ensures Abs() == if blocked then WaitStep(old(Abs()), wl, timeout) else old(Abs())
      ensures answer == (blocked && !Marked(Notify(Block(old(Abs()), wl, timeout)), current))
      ensures blocked ==> old(current) in tasks
      ensures blocked ==>
        tasks[old(current)] == Task(Waiting, old(tasks[current].priority), wl, timeout != INFINITY,
                                    if timeout != INFINITY then timeout else old(tasks[current].waitTimeout),
                                    old(tasks[current].refcount))
      ensures blocked ==> forall w :: w != IrqEvent ==>
        Queue(lists, w) == Queue(old(lists), w) + if wl == Some(w) then [old(current)] else []
    {
      if timeout <= tick {
        return false, false;
      }
      SchedOrder.WaitEnters(Abs(), wl, timeout);
      BlockAnswers(Abs(), wl, timeout);
      BlockBySetters(Abs(), wl, timeout);
      if timeout == INFINITY {
        EnterWaitList(current, wl);
      } else {
        EnterTimeouts(current, wl, timeout);
      }
      var told := RunSchedule();
      return true, told.value;
    }

    method TaskSuspend(t: nat)
      requires Inv(Abs()) && Enabled(Abs(), Suspend(t))
      modifies this
      ensures Abs() == SuspendStep(old(Abs()), t)
    {
      SuspendBySetters(Abs(), t);
      MovePlaced(Abs(), t, Parked(tasks[t]));
      if current == t {
        EnterWaitList(t, None);
        var _ := RunSchedule();
      } else {
        LeaveReady(t);
        EnterWaitList(t, None);
      }
    }

    method TaskResume(t: nat)
      requires Inv(Abs()) && Enabled(Abs(), Resume(t))
      modifies this
      ensures Abs() == ResumeStep(old(Abs()), t)
    {
      LeaveWaitList(t);
      MakeReady(t);
    }

    /** Answers the id of the task, or none when this was the last reference to a dead task,
        which is freed. */
    method TaskRelease(t: nat) returns (id: Option<nat>)
      requires Inv(Abs()) && t in tasks && Handles(Abs(), t) > 0
      modifies this
      ensures Abs() == ReleaseStep(old(Abs()), t)
      ensures id == if old(tasks[t].state == Dead && Handles(Abs(), t) == 1 && t !in deadList) then None else Some(t)
      ensures id.Some? <==> t in tasks
    {
      ReleaseMid(Abs(), t);
      assert RefOk(Abs(), t);
      id := DropHandle(t);
    }

    method DropHandle(t: nat) returns (id: Option<nat>)
      requires t in tasks && tasks[t].refcount > 0 && Handles(Abs(), t) > 0
      modifies this`tasks, this`handles
      ensures Abs() == Release(old(Abs()), t)
      ensures id == if t in tasks then Some(t) else None
    {
      handles := handles[t := handles[t] - 1];
      id := DropRef(t);
    }

    method DropRef(t: nat) returns (id: Option<nat>)
      requires t in tasks && tasks[t].refcount > 0
      modifies this`tasks
      ensures Abs() == Unref(old(Abs()), t)
      ensures id == if t in tasks then Some(t) else None
    {
      tasks := tasks[t := tasks[t].(refcount := tasks[t].refcount - 1)];
      if tasks[t].refcount == 0 && tasks[t].state == Dead {
        tasks := tasks - {t};
        return None;
      }
      return Some(t);
    }

    /** Out of its queue, as `task_terminate` does first, and `task_before_dying`. */
    method Kill(t: nat)
      requires Placed(Abs()) && t in tasks && (tasks[t].state != Waiting ==> tasks[t].waitFor.None?)
      modifies this`tasks, this`lists, this`timeoutQueue, this`readyQueue, this`irq
      ensures Placed(Abs()) && Abs() == Die(old(Abs()), t)
    {
      DieBySetters(Abs(), t);
      MovePlaced(Abs(), t, Corpse(tasks[t]));
      if tasks[t].state == Ready {
        LeaveReady(t);
      } else if tasks[t].state == Waiting {
        LeaveTimeouts(t);
        LeaveWaitList(t);
      }
      SetState(t, Dead);
      assert Abs() == Move(old(Abs()), t, Corpse(old(tasks)[t]));
      WakeAllOf(Join(t));
    }

    method TaskTerminate(t: nat)
      requires Inv(Abs()) && Enabled(Abs(), Terminate(t))
      modifies this
      ensures Abs() == TerminateStep(old(Abs()), t)
    {
      assert TaskOk(Abs(), t);
      TerminateMid(Abs(), t);
      Kill(t);
      var _ := DropHandle(t);
    }

    method TaskExit()
      requires Inv(Abs()) && Enabled(Abs(), Exit)
      modifies this
      ensures Abs() == ExitStep(old(Abs()))
    {
      var t := current;
      assert TaskOk(Abs(), t);
      DieBuried(Abs());
      Kill(t);
      Bury(t);
      var _ := RunSchedule();
    }

    /** The list of the dead keeps a reference. */
    method Bury(t: nat)
      requires t in tasks
      modifies this
      ensures Abs() == Buried(old(Abs()), t)
    {
      tasks := tasks[t := tasks[t].(refcount := tasks[t].refcount + 1)];
      deadList := deadList + [t];
    }

    method DrainOneDead() returns (any: bool)
      requires Inv(Abs()) && current == IDLE
      modifies this
      ensures any == (old(deadList) != [])
      ensures Abs() == if any then DrainDeadStep(old(Abs())) else old(Abs())
    {
      if deadList == [] {
        return false;
      }
      ReapMid(Abs());
      var t := deadList[0];
      deadList := deadList[1..];
      var _ := DropRef(t);
      return true;
    }
  }

  lemma OneLess(s: State, wl: WaitList)
    requires Placed(s) && Queue(s.lists, wl) != []
    ensures var s1 := WakeOne(s, wl).0;
      |Queue(s1.lists, wl)| == |Queue(s.lists, wl)| - 1 && WakeAll(s1, wl) == WakeAll(s, wl)
  {
    var q := Queue(s.lists, wl);
    assert HoldsWaiting(s.tasks, q, wl) && q[0] in q;
  }
}
