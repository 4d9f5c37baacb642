/**
 The operations of the scheduler, its invariant, and what holds in every run.
 */
module SchedRuns {
  import opened Queues
  import opened Wrappers
  import opened Sched

  // ---------------------------------------------------------------- waking

  function Woken(a: Task): Task {
    a.(state := Ready, waitFor := None, hasTimeout := false)
  }

  /** `wait_list_wake_one`; the task that waits for the interrupt event goes on in its loop. */
  function WakeOne(s: State, wl: WaitList): (r: (State, bool))
    requires Placed(s)
    ensures Placed(r.0) && Beside(s, r.0)
  {
    var q := Queue(s.lists, wl);
    if q == [] then (s, false)
    else
      assert HoldsWaiting(s.tasks, q, wl) && q[0] in q;
      MovePlaced(s, q[0], Woken(s.tasks[q[0]]));
      var s1 := Move(s, q[0], Woken(s.tasks[q[0]]));
      (if wl.IrqEvent? then s1.(irq := s1.irq.(pc := AtPop)) else s1, true)
  }

  /** `wait_list_wake_all` wakes the `n` tasks of the list, first come first. */
  function WakeMany(s: State, wl: WaitList, n: nat): (r: State)
    requires Placed(s)
    ensures Placed(r) && Beside(s, r)
    decreases n
  {
    if n == 0 then s else WakeMany(WakeOne(s, wl).0, wl, n - 1)
  }

  function WakeAll(s: State, wl: WaitList): (r: State)
    requires Placed(s)
    ensures Placed(r) && Beside(s, r)
  {
    WakeMany(s, wl, |Queue(s.lists, wl)|)
  }

  // ---------------------------------------------------------------- interrupt messages

  /** `event_signal` on the auto-reset event of the message queue. */
  function Signal(s: State): (r: State)
    requires Placed(s)
    ensures Placed(r) && Beside(s, r)
  {
    var (s1, woke) := WakeOne(s, IrqEvent);
    s1.(irq := s1.irq.(signaled := !woke))
  }

  function PushMsg(s: State, msg: Msg): (r: (State, bool))
    requires Placed(s)
    ensures Placed(r.0) && Beside(s, r.0)
  {
    if |s.irq.queue| == IRQ_QUEUE_SIZE then (Signal(s.(irq := Dropped(s.irq))), false)
    else (Signal(s.(irq := Queued(s.irq, msg))), true)
  }

  function Dropped(irq: Irq): Irq {
    irq.(drops := irq.drops + 1, dropEvent := true)
  }

  function Queued(irq: Irq, msg: Msg): Irq {
    irq.(queue := irq.queue + [msg])
  }

  // ---------------------------------------------------------------- choosing the next task

  /** `ready_queue_top`, from priority `p` on. */
  function Top(ready: seq<seq<nat>>, p: nat): Option<nat>
    requires p <= |ready|
    decreases |ready| - p
  {
    if p == |ready| then None else if ready[p] != [] then Some(ready[p][0]) else Top(ready, p + 1)
  }

  /** The first part of `schedule`: ask for a timeout message when one is due. */
  function Notify(s: State): (r: State)
    requires Placed(s)
    ensures Placed(r) && Beside(s, r)
  {
    if s.soonest > s.tick then s
    else
      var (s1, pushed) := PushMsg(s, TimeoutMsg);
      if pushed then s1.(soonest := INFINITY) else s1
  }

  /** The task that gets the processor; a wait it returns from ends here. */
  function Dispatched(a: Task): Task {
    a.(state := Running, hasTimeout := false)
  }

  /** The second part of `schedule`. */
  function Switch(s: State): (r: State)
    requires Placed(s) && s.current in s.tasks
    ensures Placed(r)
  {
    match Top(s.ready, 0)
    case None => s
    case Some(next) =>
      TopReady(s, 0);
      var cur := s.tasks[s.current];
      if cur.state == Running && cur.priority < s.tasks[next].priority then s
      else
        Dispatch(GiveUp(s), next)
  }

  /** What the `task_wait` of the task that `Switch` gives the processor to answers, if it
      gives it to any: false after a timeout. */
  function Answer(s: State): (answer: Option<bool>)
    requires Placed(s) && s.current in s.tasks
    ensures answer.Some? ==> answer.value == !Marked(s, Switch(s).current)
  {
    match Top(s.ready, 0)
    case None => None
    case Some(next) =>
      TopReady(s, 0);
      var cur := s.tasks[s.current];
      if cur.state == Running && cur.priority < s.tasks[next].priority then None else Some(!s.tasks[next].hasTimeout)
  }

  /** A current task that still runs goes back to the ready queue. */
  function GiveUp(s: State): (r: State)
    requires Placed(s) && s.current in s.tasks
    ensures Placed(r) && r.tasks.Keys == s.tasks.Keys
  {
    var cur := s.tasks[s.current];
    if cur.state != Running then s
    else
      MovePlaced(s, s.current, cur.(state := Ready));
      Move(s, s.current, cur.(state := Ready))
  }

  function Dispatch(s: State, next: nat): (r: State)
    requires Placed(s) && next in s.tasks
    ensures Placed(r)
  {
    MovePlaced(s, next, Dispatched(s.tasks[next]));
    Move(s, next, Dispatched(s.tasks[next])).(current := next)
  }

  lemma {:induction false} TopReady(s: State, p: nat)
    requires Placed(s) && p <= PRIORITIES
    ensures Top(s.ready, p).None? ==> forall t :: t in s.tasks && s.tasks[t].state == Ready ==> s.tasks[t].priority < p
    ensures Top(s.ready, p).Some? ==> Top(s.ready, p).value in s.tasks && s.tasks[Top(s.ready, p).value].state == Ready
    ensures Top(s.ready, p).Some? ==> forall t :: t in s.tasks && s.tasks[t].state == Ready ==>
      s.tasks[t].priority < p || s.tasks[Top(s.ready, p).value].priority <= s.tasks[t].priority
    decreases PRIORITIES - p
  {
    if p < PRIORITIES {
      assert HoldsReady(s.tasks, s.ready[p], p);
      if s.ready[p] == [] {
        TopReady(s, p + 1);
      } else {
        assert s.ready[p][0] in s.ready[p];
      }
    }
  }

  /** The head of the queue of its priority. */
  lemma {:induction false} TopIsHead(s: State, p: nat)
    requires Placed(s) && p <= PRIORITIES && Top(s.ready, p).Some?
    ensures var t := Top(s.ready, p).value;
      t in s.tasks && s.ready[s.tasks[t].priority] != [] && s.ready[s.tasks[t].priority][0] == t
    decreases PRIORITIES - p
  {
    assert HoldsReady(s.tasks, s.ready[p], p);
    if s.ready[p] == [] {
      TopIsHead(s, p + 1);
    } else {
      assert s.ready[p][0] in s.ready[p];
    }
  }

  function Schedule(s: State): (r: State)
    requires Placed(s) && s.current in s.tasks
    ensures Placed(r)
  {
    Switch(Notify(s))
  }

  // ---------------------------------------------------------------- timeouts

  /** The deadline of `a` has passed: it becomes ready and keeps the mark of the timeout. */
  function TimedOut(a: Task): Task {
    a.(state := Ready, waitFor := None)
  }

  /** `irqmsg_timeout`. */
  function Expire(s: State): (r: State)
    requires Placed(s)
    ensures Placed(r)
    decreases |s.timeouts|
  {
    if s.timeouts == [] then s
    else
      var t := s.timeouts[0];
      assert t in s.timeouts;
      if s.tasks[t].waitTimeout > s.tick then s.(soonest := s.tasks[t].waitTimeout)
      else
        MovePlaced(s, t, TimedOut(s.tasks[t]));
        Expire(Move(s, t, TimedOut(s.tasks[t])))
  }

  // ---------------------------------------------------------------- keeping it

  lemma MoveRefs(s: State, t: nat, b: Task)
    requires Placed(s) && RefsOk(s) && t in s.tasks && b.priority < PRIORITIES
    requires b.refcount == s.tasks[t].refcount && b.state != Dead && s.tasks[t].state != Dead
    ensures RefsOk(Move(s, t, b))
  {
    var s' := Move(s, t, b);
    forall u | u in s'.tasks
      ensures RefOk(s', u)
    {
      assert RefOk(s, u);
    }
  }

  lemma MoveTasks(s: State, t: nat, b: Task)
    requires Placed(s) && TasksOk(s) && t in s.tasks && b.priority < PRIORITIES && MayBecome(s, t, b)
    ensures TasksOk(Move(s, t, b))
  {
    var s' := Move(s, t, b);
    forall u | u in s'.tasks
      ensures TaskOk(s', u)
    {
      assert TaskOk(s, u);
    }
  }

  lemma MoveMid(s: State, t: nat, b: Task)
    requires Mid(s) && t in s.tasks && MayBecome(s, t, b)
    ensures b.priority < PRIORITIES && Mid(Move(s, t, b))
  {
    MovePlaced(s, t, b);
    MoveTasks(s, t, b);
    MoveRefs(s, t, b);
  }

  /** Waking a task of a list other than that of the interrupt event. */
  lemma WakeOneMid(s: State, wl: WaitList)
    requires Mid(s) && !wl.IrqEvent?
    ensures Mid(WakeOne(s, wl).0)
  {
    var q := Queue(s.lists, wl);
    if q != [] {
      assert HoldsWaiting(s.tasks, q, wl) && q[0] in q;
      assert TaskOk(s, q[0]);
      MoveMid(s, q[0], Woken(s.tasks[q[0]]));
    }
  }

  lemma OnlyOne(q: seq<nat>, t: nat)
    requires Distinct(q) && t in q && forall u :: u in q ==> u == t
    ensures q == [t]
  {
    if |q| > 1 {
      SecondDiffers(q);
      assert false;
    }
  }

  lemma SecondDiffers(q: seq<nat>)
    requires Distinct(q) && |q| > 1
    ensures exists u, v :: u in q && v in q && u != v
  {
    assert q[0] in q && q[1] in q;
  }

  /** Waking the drain loop. */
  lemma WakeDrainer(s: State)
    requires Placed(s) && TasksOk(s) && RefsOk(s) && InList(s.tasks[DRAINER], IrqEvent)
    ensures Queue(s.lists, IrqEvent) == [DRAINER] && s.irq.pc == AtWait
    ensures var s1 := WakeOne(s, IrqEvent).0; TasksOk(s1) && RefsOk(s1)
  {
    var q := Queue(s.lists, IrqEvent);
    assert HoldsWaiting(s.tasks, q, IrqEvent) && DRAINER in q;
    assert TaskOk(s, DRAINER);
    forall u | u in q
      ensures u == DRAINER
    {
      assert TaskOk(s, u);
    }
    OnlyOne(q, DRAINER);
    MoveTasks(s, DRAINER, Woken(s.tasks[DRAINER]));
    MoveRefs(s, DRAINER, Woken(s.tasks[DRAINER]));
    var s1, s2 := Move(s, DRAINER, Woken(s.tasks[DRAINER])), WakeOne(s, IrqEvent).0;
    forall u | u in s2.tasks
      ensures TaskOk(s2, u)
    {
      assert TaskOk(s1, u) && TaskOk(s, u);
    }
    SameRefs(s1, s2);
  }

  /** References do not depend on interrupts, time or who runs. */
  lemma SameRefs(s: State, s': State)
    requires RefsOk(s) && s'.tasks == s.tasks && s'.dead == s.dead && s'.handles == s.handles && s'.nextTid == s.nextTid
    ensures RefsOk(s')
  {
    forall t | t in s'.tasks
      ensures RefOk(s', t)
    {
      assert RefOk(s, t);
    }
  }

  lemma SignalMid(s: State)
    requires Placed(s) && TasksOk(s) && RefsOk(s) && |s.irq.queue| <= IRQ_QUEUE_SIZE
    ensures Mid(Signal(s)) && Signal(s).irq.queue == s.irq.queue
  {
    var q := Queue(s.lists, IrqEvent);
    assert HoldsWaiting(s.tasks, q, IrqEvent);
    var s1, s2 := WakeOne(s, IrqEvent).0, Signal(s);
    if q != [] {
      assert q[0] in q && TaskOk(s, q[0]);
      WakeDrainer(s);
    }
    forall u | u in s2.tasks
      ensures TaskOk(s2, u)
    {
      assert TaskOk(s1, u);
    }
    SameRefs(s1, s2);
  }

  /** More messages, more drops: nothing changes for the tasks. */
  lemma QueueTasks(s: State, irq: Irq)
    requires TasksOk(s) && irq.pc == s.irq.pc && irq.signaled == s.irq.signaled
    requires TimeoutMsg in s.irq.queue ==> TimeoutMsg in irq.queue
    ensures TasksOk(s.(irq := irq))
  {
    var s' := s.(irq := irq);
    forall u | u in s'.tasks
      ensures TaskOk(s', u)
    {
      assert TaskOk(s, u);
    }
  }

  lemma PushMid(s: State, msg: Msg)
    requires Mid(s)
    ensures Mid(PushMsg(s, msg).0)
    ensures PushMsg(s, msg).1 ==> PushMsg(s, msg).0.irq.queue == s.irq.queue + [msg]
  {
    if |s.irq.queue| == IRQ_QUEUE_SIZE {
      PushWith(s, Dropped(s.irq));
    } else {
      PushWith(s, Queued(s.irq, msg));
    }
  }

  lemma PushWith(s: State, irq: Irq)
    requires Mid(s) && irq.pc == s.irq.pc && irq.signaled == s.irq.signaled && |irq.queue| <= IRQ_QUEUE_SIZE
    requires TimeoutMsg in s.irq.queue ==> TimeoutMsg in irq.queue
    ensures Mid(Signal(s.(irq := irq))) && Signal(s.(irq := irq)).irq.queue == irq.queue
  {
    QueueTasks(s, irq);
    SameRefs(s, s.(irq := irq));
    SignalMid(s.(irq := irq));
  }

  lemma NotifyMid(s: State)
    requires Mid(s)
    ensures Mid(Notify(s))
  {
    if s.soonest <= s.tick {
      PushMid(s, TimeoutMsg);
      var (s1, pushed) := PushMsg(s, TimeoutMsg);
      if pushed {
        var s2 := s1.(soonest := INFINITY);
        assert TimeoutMsg in s2.irq.queue;
        forall u | u in s2.tasks
          ensures TaskOk(s2, u)
        {
          assert TaskOk(s1, u);
        }
        SameRefs(s1, s2);
      }
    }
  }

  /** Nobody has the processor: it can be given to any task. */
  lemma NewCurrent(s: State, t: nat)
    requires Mid(s) && t in s.tasks && s.tasks[s.current].state != Running
    ensures Mid(s.(current := t))
  {
    var s' := s.(current := t);
    forall u | u in s'.tasks
      ensures TaskOk(s', u)
    {
      assert TaskOk(s, u);
    }
    SameRefs(s, s');
  }

  lemma SwitchInv(s: State)
    requires Mid(s)
    ensures Inv(Switch(s)) && Switch(s).tick == s.tick
  {
    TopReady(s, 0);
    assert TaskOk(s, IDLE) && TaskOk(s, s.current);
    var top := Top(s.ready, 0);
    if top.Some? && !(s.tasks[s.current].state == Running
                      && s.tasks[s.current].priority < s.tasks[top.value].priority) {
      GiveUpMid(s);
      DispatchInv(GiveUp(s), top.value);
    }
  }

  lemma SwitchRanked(s: State)
    requires Mid(s)
    ensures Ranked(Switch(s))
  {
    TopReady(s, 0);
    assert TaskOk(s, IDLE);
    var top := Top(s.ready, 0);
    if top.Some? && !(s.tasks[s.current].state == Running
                      && s.tasks[s.current].priority < s.tasks[top.value].priority) {
      DispatchRanked(s, top.value);
    }
  }

  lemma DispatchRanked(s: State, next: nat)
    requires Mid(s) && next in s.tasks && s.tasks[next].state == Ready
    requires forall t :: t in s.tasks && s.tasks[t].state == Ready ==> s.tasks[next].priority <= s.tasks[t].priority
    requires s.tasks[s.current].state == Running ==> s.tasks[next].priority <= s.tasks[s.current].priority
    ensures Ranked(Dispatch(GiveUp(s), next))
  {
    GiveUpMid(s);
    var s1, s2 := GiveUp(s), Dispatch(GiveUp(s), next);
    assert TaskOk(s, next);
    forall t | t in s2.tasks && s2.tasks[t].state == Ready
      ensures s2.tasks[s2.current].priority <= s2.tasks[t].priority
    {
      assert s1.tasks[t] == s2.tasks[t];
    }
  }

  lemma DispatchInv(s: State, next: nat)
    requires Mid(s) && next in s.tasks && s.tasks[next].state == Ready && s.tasks[s.current].state != Running
    ensures Inv(Dispatch(s, next)) && Dispatch(s, next).tick == s.tick
    ensures Dispatch(s, next).tasks == s.tasks[next := Dispatched(s.tasks[next])]
  {
    NewCurrent(s, next);
    var s' := s.(current := next);
    assert TaskOk(s', next);
    MoveMid(s', next, Dispatched(s.tasks[next]));
    assert Move(s', next, Dispatched(s.tasks[next])) == Dispatch(s, next);
  }

  lemma GiveUpMid(s: State)
    requires Mid(s)
    ensures var s1 := GiveUp(s);
      && Mid(s1) && s1.tasks[s1.current].state != Running && s1.current == s.current && s1.tick == s.tick
      && (forall t :: t in s1.tasks ==> s1.tasks[t].priority == s.tasks[t].priority)
      && (forall t :: t in s1.tasks && t != s.current ==> s1.tasks[t] == s.tasks[t])
      && (s.tasks[s.current].state != Running ==> s1 == s)
  {
    assert TaskOk(s, s.current);
    if s.tasks[s.current].state == Running {
      MoveMid(s, s.current, s.tasks[s.current].(state := Ready));
    }
  }

  /** After `schedule` some task runs and no ready task outranks it. */
  lemma ScheduleInv(s: State)
    requires Mid(s)
    ensures Inv(Schedule(s)) && Ranked(Schedule(s)) && Schedule(s).tick == s.tick
  {
    NotifyMid(s);
    SwitchInv(Notify(s));
    SwitchRanked(Notify(s));
  }

  // ---------------------------------------------------------------- timeouts expire

  lemma TimedOutMid(s: State)
    requires Mid(s) && s.timeouts != [] && s.tasks[s.timeouts[0]].waitTimeout <= s.tick
    ensures s.timeouts[0] in s.tasks && Mid(Move(s, s.timeouts[0], TimedOut(s.tasks[s.timeouts[0]])))
  {
    var t := s.timeouts[0];
    assert t in s.timeouts;
    assert TaskOk(s, t);
    MoveMid(s, t, TimedOut(s.tasks[t]));
  }

  lemma {:induction false} ExpireMid(s: State)
    requires Mid(s)
    ensures Mid(Expire(s)) && AlarmSet(Expire(s)) && Expire(s).irq == s.irq && Beside(s, Expire(s))
    decreases |s.timeouts|
  {
    if s.timeouts != [] {
      var t := s.timeouts[0];
      assert t in s.timeouts;
      if s.tasks[t].waitTimeout > s.tick {
        FirstDeadline(s);
        NewAlarm(s, s.tasks[t].waitTimeout);
      } else {
        TimedOutMid(s);
        ExpireMid(Move(s, t, TimedOut(s.tasks[t])));
      }
    }
  }

  lemma FirstDeadline(s: State)
    requires Placed(s) && s.timeouts != []
    ensures s.timeouts[0] in s.tasks
    ensures forall t :: t in s.tasks && InTree(s.tasks[t]) ==>
      s.tasks[s.timeouts[0]].waitTimeout <= s.tasks[t].waitTimeout
  {
    assert s.timeouts[0] in s.timeouts;
    forall t | t in s.tasks && InTree(s.tasks[t])
      ensures s.tasks[s.timeouts[0]].waitTimeout <= s.tasks[t].waitTimeout
    {
      assert t in s.timeouts;
    }
  }

  lemma NewAlarm(s: State, soonest: nat)
    requires Mid(s) && AlarmSet(s.(soonest := soonest))
    ensures Mid(s.(soonest := soonest))
  {
    var s' := s.(soonest := soonest);
    forall t | t in s'.tasks
      ensures TaskOk(s', t)
    {
      assert TaskOk(s, t);
    }
    SameRefs(s, s');
  }

  /** Exactly the tasks whose deadline has passed are timed out. */
  lemma {:induction false} ExpireExact(s: State, t: nat)
    requires Placed(s) && t in s.tasks
    ensures t in Expire(s).tasks
    ensures Expire(s).tasks[t] == if InTree(s.tasks[t]) && s.tasks[t].waitTimeout <= s.tick then TimedOut(s.tasks[t])
                                  else s.tasks[t]
    decreases |s.timeouts|
  {
    if s.timeouts == [] {
      assert t !in s.timeouts;
    } else {
      var u := s.timeouts[0];
      assert u in s.timeouts;
      FirstDeadline(s);
      if s.tasks[u].waitTimeout <= s.tick {
        MovePlaced(s, u, TimedOut(s.tasks[u]));
        ExpireExact(Move(s, u, TimedOut(s.tasks[u])), t);
      }
    }
  }

  // ---------------------------------------------------------------- the end of a task

  function Corpse(a: Task): Task {
    a.(state := Dead, waitFor := None, hasTimeout := a.hasTimeout && a.state != Waiting)
  }

  /** Task `t` dies and its joiners are woken: `task_before_dying` after the task was taken
      from its queues. */
  function Die(s: State, t: nat): (r: State)
    requires Placed(s) && t in s.tasks
    ensures Placed(r) && Beside(s, r)
  {
    MovePlaced(s, t, Corpse(s.tasks[t]));
    WakeAll(Move(s, t, Corpse(s.tasks[t])), Join(t))
  }

  /** All is well but for the joiners of the dead task `d`. */
  ghost predicate TasksOkBut(s: State, d: nat) {
    && s.current in s.tasks && IDLE in s.tasks && DRAINER in s.tasks
    && forall t :: t in s.tasks ==>
      TaskOk(s, t) || (InList(s.tasks[t], Join(d)) && TaskOk(s.(tasks := s.tasks[t := Woken(s.tasks[t])]), t))
  }

  lemma CorpseOk(s: State, t: nat)
    requires Placed(s) && TasksOk(s) && t in s.tasks && t != IDLE && t != DRAINER && s.tasks[t].state != Dead
    ensures TasksOkBut(Move(s, t, Corpse(s.tasks[t])), t)
  {
    var s' := Move(s, t, Corpse(s.tasks[t]));
    forall u | u in s'.tasks
      ensures TaskOk(s', u) || (InList(s'.tasks[u], Join(t))
                                && TaskOk(s'.(tasks := s'.tasks[u := Woken(s'.tasks[u])]), u))
    {
      assert TaskOk(s, u);
    }
  }

  lemma WakeJoiner(s: State, d: nat)
    requires Placed(s) && TasksOkBut(s, d)
    ensures TasksOkBut(WakeOne(s, Join(d)).0, d)
  {
    var q := Queue(s.lists, Join(d));
    if q != [] {
      assert HoldsWaiting(s.tasks, q, Join(d)) && q[0] in q;
      var s' := Move(s, q[0], Woken(s.tasks[q[0]]));
      forall u | u in s'.tasks
        ensures TaskOk(s', u) || (InList(s'.tasks[u], Join(d))
                                  && TaskOk(s'.(tasks := s'.tasks[u := Woken(s'.tasks[u])]), u))
      {
        assert TaskOk(s, u) || TaskOk(s.(tasks := s.tasks[u := Woken(s.tasks[u])]), u);
      }
    }
  }

  lemma {:induction false} WakeJoiners(s: State, d: nat, n: nat)
    requires Placed(s) && TasksOkBut(s, d) && n == |Queue(s.lists, Join(d))|
    ensures TasksOk(WakeMany(s, Join(d), n))
    decreases n
  {
    var q := Queue(s.lists, Join(d));
    assert HoldsWaiting(s.tasks, q, Join(d));
    if n > 0 {
      assert q[0] in q;
      WakeJoiner(s, d);
      WakeJoiners(WakeOne(s, Join(d)).0, d, n - 1);
    }
  }

  lemma {:induction false} WakeCounts(s: State, wl: WaitList, n: nat)
    requires Placed(s)
    ensures SameCounts(s, WakeMany(s, wl, n), None) && WakeMany(s, wl, n).soonest == s.soonest
    ensures !wl.IrqEvent? ==> WakeMany(s, wl, n).irq == s.irq
    decreases n
  {
    if n > 0 {
      assert HoldsWaiting(s.tasks, Queue(s.lists, wl), wl);
      WakeCounts(WakeOne(s, wl).0, wl, n - 1);
    }
  }

  lemma DieTasks(s: State, t: nat)
    requires Placed(s) && TasksOk(s) && t in s.tasks && t != IDLE && t != DRAINER && s.tasks[t].state != Dead
    ensures TasksOk(Die(s, t))
  {
    MovePlaced(s, t, Corpse(s.tasks[t]));
    CorpseOk(s, t);
    var s1 := Move(s, t, Corpse(s.tasks[t]));
    WakeJoiners(s1, t, |Queue(s1.lists, Join(t))|);
  }

  lemma DieCounts(s: State, t: nat)
    requires Placed(s) && t in s.tasks
    ensures SameCounts(s, Die(s, t), Some(t)) && Die(s, t).irq == s.irq
  {
    MovePlaced(s, t, Corpse(s.tasks[t]));
    var s1 := Move(s, t, Corpse(s.tasks[t]));
    assert SameCounts(s, s1, Some(t));
    WakeCounts(s1, Join(t), |Queue(s1.lists, Join(t))|);
  }

  // ---------------------------------------------------------------- references

  /** One reference to `t` less; a dead task without references is freed. */
  function Unref(s: State, t: nat): State
    requires t in s.tasks && s.tasks[t].refcount > 0
  {
    var a := s.tasks[t].(refcount := s.tasks[t].refcount - 1);
    if a.refcount == 0 && a.state == Dead then s.(tasks := s.tasks - {t}) else s.(tasks := s.tasks[t := a])
  }

  function Release(s: State, t: nat): State
    requires t in s.tasks && s.tasks[t].refcount > 0 && Handles(s, t) > 0
  {
    Unref(s.(handles := s.handles[t := s.handles[t] - 1]), t)
  }

  lemma RecountedReady(tasks: Tasks, tasks': Tasks, ready: seq<seq<nat>>)
    requires ReadyOk(tasks, ready)
    requires forall t, p :: t in tasks' && InReady(tasks'[t], p) <==> t in tasks && InReady(tasks[t], p)
    ensures ReadyOk(tasks', ready)
  {
    forall p | 0 <= p < |ready|
      ensures HoldsReady(tasks', ready[p], p)
    {
      assert HoldsReady(tasks, ready[p], p);
    }
  }

  lemma RecountedLists(tasks: Tasks, tasks': Tasks, lists: map<WaitList, seq<nat>>)
    requires ListsOk(tasks, lists)
    requires forall t, wl :: t in tasks' && InList(tasks'[t], wl) <==> t in tasks && InList(tasks[t], wl)
    ensures ListsOk(tasks', lists)
  {
    forall wl
      ensures HoldsWaiting(tasks', Queue(lists, wl), wl)
    {
      assert HoldsWaiting(tasks, Queue(lists, wl), wl);
    }
  }

  lemma RecountedTree(tasks: Tasks, tasks': Tasks, q: seq<nat>)
    requires TreeOk(tasks, q)
    requires forall t :: t in tasks' && InTree(tasks'[t]) <==> t in tasks && InTree(tasks[t])
    requires forall t :: t in tasks && InTree(tasks[t]) ==> t in tasks' && tasks'[t].waitTimeout == tasks[t].waitTimeout
    ensures TreeOk(tasks', q)
  {
    forall i, j | 0 <= i < j < |q|
      ensures Before(tasks', q[i], q[j])
    {
      assert q[i] in q && q[j] in q && Before(tasks, q[i], q[j]);
    }
  }

  lemma RecountedPlaced(s: State, s': State, t: nat)
    requires Placed(s) && t in s.tasks && Recounted(s, s', t)
    ensures Placed(s')
  {
    RecountedReady(s.tasks, s'.tasks, s.ready);
    RecountedLists(s.tasks, s'.tasks, s.lists);
    RecountedTree(s.tasks, s'.tasks, s.timeouts);
  }

  lemma RecountedTasks(s: State, s': State, t: nat)
    requires Placed(s) && TasksOk(s) && t in s.tasks && Recounted(s, s', t) && (t in s'.tasks || t != s.current)
    ensures TasksOk(s')
  {
    assert TaskOk(s, t) && TaskOk(s, IDLE) && TaskOk(s, DRAINER);
    forall u | u in s'.tasks
      ensures TaskOk(s', u)
    {
      assert TaskOk(s, u);
    }
  }
}
