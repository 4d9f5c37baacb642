/**
 The scheduler of kernel/src/task/task.c with the interrupt messages of kernel/src/irq.c, as a
 state and the functions that change it.  Every critical section is one step.
 */
module Sched {
  import opened Queues
  import opened Wrappers

  const PRIORITIES: nat := 8                       // TASK_PRIORITY_COUNT
  const LOWEST: nat := 7                           // TASK_PRIORITY_IDLE
  const INFINITY: nat := 0xFFFF_FFFF_FFFF_FFFF     // TIMEOUT_INFINITY
  const IRQ_QUEUE_SIZE: nat := 4096

  const DRAINER: nat := 0  // the first task, which ends up in `irqmsg_drain_loop`
  const IDLE: nat := 1

  datatype TaskState = Ready | Running | Waiting | Dead

  /** The lists a task can wait in: that of the interrupt event, the joiners of a task, others. */
  datatype WaitList = IrqEvent | Join(tid: nat) | Other(id: nat)

  datatype Task = Task(
    state: TaskState,
    priority: nat,
    waitFor: Option<WaitList>,
    hasTimeout: bool,
    waitTimeout: nat,
    refcount: nat)

  datatype Msg = DropMsg | TimeoutMsg | DeviceMsg(data: nat)

  /** Where the drain loop is: before `event_wait` or inside it, before `irqmsg_pop`, or
      before the handler of a message. */
  datatype DrainPc = AtWait | AtPop | AtHandle(msg: Msg)

  datatype Irq = Irq(queue: seq<Msg>, dropEvent: bool, drops: nat, signaled: bool, pc: DrainPc)

  type Tasks = map<nat, Task>

  datatype State = State(
    tasks: Tasks,
    ready: seq<seq<nat>>,
    lists: map<WaitList, seq<nat>>,
    timeouts: seq<nat>,          // the timeout tree, in order
    soonest: nat,
    current: nat,
    dead: seq<nat>,
    nextTid: nat,
    handles: map<nat, nat>,      // references that are held outside the scheduler
    irq: Irq,
    tick: nat)

  // ---------------------------------------------------------------- queues

  function Queue(lists: map<WaitList, seq<nat>>, wl: WaitList): seq<nat> {
    if wl in lists then lists[wl] else []
  }

  function Deadline(tasks: Tasks, t: nat): nat {
    if t in tasks then tasks[t].waitTimeout else 0
  }

  /** `timeout_compare`. */
  predicate Before(tasks: Tasks, t: nat, u: nat) {
    Deadline(tasks, t) < Deadline(tasks, u) || (Deadline(tasks, t) == Deadline(tasks, u) && t < u)
  }

  function Insert(tasks: Tasks, q: seq<nat>, t: nat): seq<nat> {
    if q == [] || Before(tasks, t, q[0]) then [t] + q else [q[0]] + Insert(tasks, q[1..], t)
  }

  // ---------------------------------------------------------------- the setters of task.c

  function Put(s: State, t: nat, task: Task): State {
    s.(tasks := s.tasks[t := task])
  }

  function SetReady(s: State, t: nat): State
    requires t in s.tasks && s.tasks[t].priority < |s.ready|
  {
    var p := s.tasks[t].priority;
    Put(s, t, s.tasks[t].(state := Ready)).(ready := s.ready[p := s.ready[p] + [t]])
  }

  function ResetReady(s: State, t: nat): State
    requires t in s.tasks && s.tasks[t].priority < |s.ready|
  {
    var p := s.tasks[t].priority;
    s.(ready := s.ready[p := Without(s.ready[p], t)])
  }

  function ResetWaitFor(s: State, t: nat): State
    requires t in s.tasks
  {
    match s.tasks[t].waitFor
    case None => s
    case Some(wl) => Put(s, t, s.tasks[t].(waitFor := None)).(lists := s.lists[wl := Without(Queue(s.lists, wl), t)])
  }

  function ResetTimeout(s: State, t: nat): State
    requires t in s.tasks
  {
    if !s.tasks[t].hasTimeout then s
    else Put(s, t, s.tasks[t].(hasTimeout := false)).(timeouts := Without(s.timeouts, t))
  }

  function SetWaitFor(s: State, t: nat, wl: Option<WaitList>): State
    requires t in s.tasks
  {
    Put(s, t, s.tasks[t].(state := Waiting, waitFor := wl, hasTimeout := false))
    .(lists := if wl.None? then s.lists else s.lists[wl.value := Queue(s.lists, wl.value) + [t]])
  }

  function SetWaitTimeout(s: State, t: nat, wl: Option<WaitList>, timeout: nat): State
    requires t in s.tasks
  {
    var s1 := SetWaitFor(s, t, wl);
    var s2 := Put(s1, t, s1.tasks[t].(hasTimeout := true, waitTimeout := timeout));
    s2.(timeouts := Insert(s2.tasks, s2.timeouts, t),
        soonest := if s2.soonest > timeout then timeout else s2.soonest)
  }

  // ---------------------------------------------------------------- where tasks are

  predicate InReady(task: Task, p: nat) {
    task.state == Ready && task.priority == p
  }

  predicate InList(task: Task, wl: WaitList) {
    task.state == Waiting && task.waitFor == Some(wl)
  }

  predicate InTree(task: Task) {
    task.state == Waiting && task.hasTimeout
  }

  /** A ready task is in the queue of its priority, once, and in no other. */
  ghost predicate ReadyOk(tasks: Tasks, ready: seq<seq<nat>>) {
    |ready| == PRIORITIES && forall p :: 0 <= p < |ready| ==> HoldsReady(tasks, ready[p], p)
  }

  ghost predicate HoldsReady(tasks: Tasks, q: seq<nat>, p: nat) {
    Distinct(q) && forall t :: t in q <==> t in tasks && InReady(tasks[t], p)
  }

  /** A waiting task is in the list it waits for, once, and in no other. */
  ghost predicate ListsOk(tasks: Tasks, lists: map<WaitList, seq<nat>>) {
    forall wl :: HoldsWaiting(tasks, Queue(lists, wl), wl)
  }

  ghost predicate HoldsWaiting(tasks: Tasks, q: seq<nat>, wl: WaitList) {
    Distinct(q) && forall t :: t in q <==> t in tasks && InList(tasks[t], wl)
  }

  ghost predicate Sorted(tasks: Tasks, q: seq<nat>) {
    forall i, j :: 0 <= i < j < |q| ==> Before(tasks, q[i], q[j])
  }

  /** The timeout tree holds the waiting tasks with a timeout, by deadline. */
  ghost predicate TreeOk(tasks: Tasks, q: seq<nat>) {
    Sorted(tasks, q) && forall t :: t in q <==> t in tasks && InTree(tasks[t])
  }

  ghost predicate PrioritiesOk(tasks: Tasks) {
    forall t :: t in tasks ==> tasks[t].priority < PRIORITIES
  }

  ghost predicate Placed(s: State) {
    PrioritiesOk(s.tasks) && ReadyOk(s.tasks, s.ready) && ListsOk(s.tasks, s.lists) && TreeOk(s.tasks, s.timeouts)
  }

  /** Every task but `t` is where it belongs, and `t` is in no queue at all. */
  ghost predicate TakenOut(s: State, t: nat) {
    && PrioritiesOk(s.tasks)
    && ReadyOk(s.tasks - {t}, s.ready) && ListsOk(s.tasks - {t}, s.lists) && TreeOk(s.tasks - {t}, s.timeouts)
  }

  /** `t` was timed out and has not been told yet. */
  predicate Marked(s: State, t: nat) {
    t in s.tasks && s.tasks[t].state == Ready && s.tasks[t].hasTimeout
  }

  // ---------------------------------------------------------------- moving a task

  function Requeue(ready: seq<seq<nat>>, t: nat, a: Task, b: Task): seq<seq<nat>>
    requires a.priority < |ready| && b.priority < |ready|
  {
    var r := if a.state == Ready then ready[a.priority := Without(ready[a.priority], t)] else ready;
    if b.state == Ready then r[b.priority := r[b.priority] + [t]] else r
  }

  function Relist(lists: map<WaitList, seq<nat>>, t: nat, a: Task, b: Task): map<WaitList, seq<nat>> {
    var l := if a.state == Waiting && a.waitFor.Some? then lists[a.waitFor.value := Without(Queue(lists,
        a.waitFor.value), t)]
             else lists;
    if b.state == Waiting && b.waitFor.Some? then l[b.waitFor.value := Queue(l, b.waitFor.value) + [t]] else l
  }

  function Retree(tasks: Tasks, q: seq<nat>, t: nat, a: Task, b: Task): seq<nat> {
    var r := if InTree(a) then Without(q, t) else q;
    if InTree(b) then Insert(tasks[t := b], r, t) else r
  }

  /** Task `t` becomes `b`: it leaves the queues of what it was and enters those of `b`. */
  function Move(s: State, t: nat, b: Task): State
    requires t in s.tasks && s.tasks[t].priority < |s.ready| && b.priority < |s.ready|
  {
    var a := s.tasks[t];
    s.(tasks := s.tasks[t := b],
       ready := Requeue(s.ready, t, a, b),
       lists := Relist(s.lists, t, a, b),
       timeouts := Retree(s.tasks, s.timeouts, t, a, b))
  }

  lemma PushAdds(q: seq<nat>, t: nat)
    requires Distinct(q) && t !in q
    ensures Distinct(q + [t]) && forall u :: u in q + [t] <==> u in q || u == t
  {}

  lemma ReadyMoved(tasks: Tasks, ready: seq<seq<nat>>, t: nat, b: Task)
    requires ReadyOk(tasks, ready) && PrioritiesOk(tasks) && t in tasks && b.priority < PRIORITIES
    ensures ReadyOk(tasks[t := b], Requeue(ready, t, tasks[t], b))
  {
    var a := tasks[t];
    var r := Requeue(ready, t, a, b);
    forall p | 0 <= p < |r|
      ensures HoldsReady(tasks[t := b], r[p], p)
    {
      assert HoldsReady(tasks, ready[p], p);
      var q := if InReady(a, p) then Without(ready[p], t) else ready[p];
      WithoutRemoves(ready[p], t);
      PushAdds(q, t);
    }
  }

  lemma ListsMoved(tasks: Tasks, lists: map<WaitList, seq<nat>>, t: nat, b: Task)
    requires ListsOk(tasks, lists) && t in tasks
    ensures ListsOk(tasks[t := b], Relist(lists, t, tasks[t], b))
  {
    var a := tasks[t];
    var l := Relist(lists, t, a, b);
    forall wl
      ensures HoldsWaiting(tasks[t := b], Queue(l, wl), wl)
    {
      assert HoldsWaiting(tasks, Queue(lists, wl), wl);
      var q := if InList(a, wl) then Without(Queue(lists, wl), t) else Queue(lists, wl);
      WithoutRemoves(Queue(lists, wl), t);
      PushAdds(q, t);
    }
  }

  lemma SortedPrepend(tasks: Tasks, t: nat, rest: seq<nat>)
    requires Sorted(tasks, rest) && forall u :: u in rest ==> Before(tasks, t, u)
    ensures Sorted(tasks, [t] + rest)
  {
    var q := [t] + rest;
    forall i, j | 0 <= i < j < |q|
      ensures Before(tasks, q[i], q[j])
    {
      assert q[j] == rest[j - 1] && rest[j - 1] in rest;
    }
  }

  lemma SortedTail(tasks: Tasks, q: seq<nat>)
    requires Sorted(tasks, q) && q != []
    ensures Sorted(tasks, q[1..]) && forall u :: u in q[1..] ==> Before(tasks, q[0], u)
  {}

  lemma {:induction false} WithoutSorted(tasks: Tasks, q: seq<nat>, t: nat)
    requires Sorted(tasks, q)
    ensures Sorted(tasks, Without(q, t)) && forall u :: u in Without(q, t) <==> u in q && u != t
  {
    WithoutRemoves(q, t);
    if q != [] {
      SortedTail(tasks, q);
      WithoutSorted(tasks, q[1..], t);
      SortedPrepend(tasks, q[0], Without(q[1..], t));
    }
  }

  lemma {:induction false} InsertSorted(tasks: Tasks, q: seq<nat>, t: nat)
    requires Sorted(tasks, q) && t !in q
    ensures Sorted(tasks, Insert(tasks, q, t)) && forall u :: u in Insert(tasks, q, t) <==> u in q || u == t
  {
    if q == [] {
    } else if Before(tasks, t, q[0]) {
      SortedTail(tasks, q);
      assert q == [q[0]] + q[1..];
      SortedPrepend(tasks, t, q);
    } else {
      assert q == [q[0]] + q[1..];
      SortedTail(tasks, q);
      InsertSorted(tasks, q[1..], t);
      SortedPrepend(tasks, q[0], Insert(tasks, q[1..], t));
    }
  }

  lemma TreeMoved(tasks: Tasks, q: seq<nat>, t: nat, b: Task)
    requires TreeOk(tasks, q) && t in tasks
    ensures TreeOk(tasks[t := b], Retree(tasks, q, t, tasks[t], b))
  {
    var a, tasks' := tasks[t], tasks[t := b];
    var r := if InTree(a) then Without(q, t) else q;
    WithoutSorted(tasks, q, t);
    assert t !in r;
    forall i, j | 0 <= i < j < |r|
      ensures Before(tasks', r[i], r[j])
    {
      assert r[i] in r && r[j] in r && Before(tasks, r[i], r[j]);
    }
    if InTree(b) {
      InsertSorted(tasks', r, t);
    }
  }

  /** Moving a task keeps every task where it belongs. */
  lemma MovePlaced(s: State, t: nat, b: Task)
    requires Placed(s) && t in s.tasks && b.priority < PRIORITIES
    ensures Placed(Move(s, t, b))
  {
    ReadyMoved(s.tasks, s.ready, t, b);
    ListsMoved(s.tasks, s.lists, t, b);
    TreeMoved(s.tasks, s.timeouts, t, b);
  }

  // ---------------------------------------------------------------- the invariant

  ghost predicate Notified(s: State) {
    TimeoutMsg in s.irq.queue || s.irq.pc == AtHandle(TimeoutMsg)
  }

  /** What holds of each task, whoever has the processor. */
  ghost predicate TaskOk(s: State, t: nat)
    requires t in s.tasks
  {
    var a := s.tasks[t];
    && (a.state == Running ==> t == s.current && !a.hasTimeout)
    && (a.waitFor.Some? ==> a.state == Waiting)
    && (a.state == Ready && a.hasTimeout ==> a.waitTimeout <= s.tick)
    && (t == IDLE ==> (a.state == Ready || a.state == Running) && a.priority == LOWEST)
    && (t == DRAINER ==> a.state != Dead)
    && (InTree(a) ==> Notified(s) || s.soonest <= a.waitTimeout)
    && (a.waitFor.Some? ==> ListOk(s, t, a.waitFor.value))
  }

  /** Nobody waits for the end of a task that has ended, and the drain loop sleeps only while
      there is nothing to drain. */
  ghost predicate ListOk(s: State, t: nat, wl: WaitList)
    requires t in s.tasks
  {
    match wl
    case Other(_) => true
    case Join(u) => u in s.tasks && s.tasks[u].state != Dead
    case IrqEvent => t == DRAINER && !s.tasks[t].hasTimeout && s.irq.pc == AtWait && !s.irq.signaled
  }

  ghost predicate TasksOk(s: State) {
    && s.current in s.tasks && IDLE in s.tasks && DRAINER in s.tasks
    && forall t :: t in s.tasks ==> TaskOk(s, t)
  }

  ghost predicate IrqOk(irq: Irq) {
    |irq.queue| <= IRQ_QUEUE_SIZE && (irq.pc == AtWait && (irq.queue != [] || irq.dropEvent) ==> irq.signaled)
  }

  function Handles(s: State, t: nat): nat {
    if t in s.handles then s.handles[t] else 0
  }

  /** References are counted, and what is dead and unreferenced is gone. */
  ghost predicate RefsOk(s: State) {
    && Distinct(s.dead) && (forall t :: t in s.dead ==> t in s.tasks && s.tasks[t].state == Dead)
    && (forall t :: t in s.tasks ==> RefOk(s, t))
    && (forall t :: t in s.handles && s.handles[t] > 0 ==> t in s.tasks)
  }

  ghost predicate RefOk(s: State, t: nat)
    requires t in s.tasks
  {
    && t < s.nextTid && s.tasks[t].refcount == Handles(s, t) + (if t in s.dead then 1 else 0)
    && (s.tasks[t].state == Dead ==> s.tasks[t].refcount > 0)
  }

  /** Holds also in the middle of an operation, when the current task has given up the processor. */
  ghost predicate Mid(s: State) {
    Placed(s) && TasksOk(s) && IrqOk(s.irq) && RefsOk(s)
  }

  ghost predicate Inv(s: State) {
    Mid(s) && s.tasks[s.current].state == Running
  }

  /** No ready task has a better priority than the running one. */
  ghost predicate Ranked(s: State) {
    s.current in s.tasks
      && forall t :: t in s.tasks && s.tasks[t].state == Ready ==> s.tasks[s.current].priority <= s.tasks[t].priority
  }

  /** `b` may take the place of task `t`. */
  ghost predicate MayBecome(s: State, t: nat, b: Task)
    requires t in s.tasks
  {
    && b.priority == s.tasks[t].priority && b.refcount == s.tasks[t].refcount && b.state != Dead
      && s.tasks[t].state != Dead
    && TaskOk(s.(tasks := s.tasks[t := b]), t)
  }

  /** The same tasks, processor and time. */
  ghost predicate Beside(s: State, s': State) {
    s'.tasks.Keys == s.tasks.Keys && s'.current == s.current && s'.tick == s.tick
  }

  /** The same reference counts, and the same dead tasks but for `d`. */
  ghost predicate SameCounts(s: State, s': State, d: Option<nat>) {
    && s'.dead == s.dead && s'.handles == s.handles && s'.nextTid == s.nextTid && s'.tasks.Keys == s.tasks.Keys
    && forall t :: t in s.tasks ==>
         s'.tasks[t].refcount == s.tasks[t].refcount
           && (s'.tasks[t].state == Dead <==> s.tasks[t].state == Dead || Some(t) == d)
  }

  /** The alarm is set no later than the first deadline. */
  ghost predicate AlarmSet(s: State) {
    forall t :: t in s.tasks && InTree(s.tasks[t]) ==> s.soonest <= s.tasks[t].waitTimeout
  }

  /** Only the count of `t` differs, and a dead task may be gone. */
  ghost predicate Recounted(s: State, s': State, t: nat)
    requires t in s.tasks
  {
    && s' == s.(tasks := s'.tasks, handles := s'.handles, dead := s'.dead)
    && (s'.tasks == s.tasks[t := s.tasks[t].(refcount := if t in s'.tasks then s'.tasks[t].refcount else 0)]
        || (s'.tasks == s.tasks - {t} && s.tasks[t].state == Dead))
  }
}
