/**
 Blocking pipe over two auto-reset events (kernel/src/fs/pipefs.c, kernel/src/task/event.c).

 A critical section is one atomic step: a task runs from the point where it takes the
 interrupt lock, or from the point where it resumes after `event_wait`, until it returns
 or goes to sleep.  `PipeProtocol` gives these steps as functions on a value state and
 proves what every run keeps; `PipeImplementation` holds the mutable ring and the event
 objects and refines those functions.
 */
module PipeProtocol {
  import opened Queues

  const PIPE_BUFLEN: nat := 4000
  const COUNTER_MODULUS: nat := 0x1_0000  // readers and writers are uint16_t

  type Byte = bv8
  type Task = nat

  /** An auto-reset event.  `transit` holds the tasks that a signal has made ready and that
      have not run again yet. */
  datatype Event = Event(signaled: bool, queue: seq<Task>, transit: multiset<Task>)

  /** `event_signal`: hand the signal to the longest waiter, or remember it. */
  function Signal(ev: Event): Event {
    if ev.queue == [] then
      ev.(signaled := true)
    else
      Event(false, ev.queue[1..], ev.transit + multiset{ev.queue[0]})
  }

  /** `event_wait` seen from the waiting loops of the pipe: a pending signal is consumed and
      the loop condition looked at again, which still holds, so the task then sleeps. */
  function Sleep(ev: Event, t: Task): Event {
    Event(false, ev.queue + [t], ev.transit)
  }

  datatype Pipe = Pipe(data: seq<Byte>, readers: nat, writers: nat, readable: Event, writable: Event)

  datatype Outcome =
    | Blocked(progress: nat)
    | Returned(progress: nat)
    | IoError

  /** What one run of a task did: how it ended, and the bytes it moved. */
  datatype Result = Result(pipe: Pipe, outcome: Outcome, moved: seq<Byte>)

  function Min(a: nat, b: nat): nat {
    if a < b then a else b
  }

  /** `pipe_file_read` from a (re)entry of its loop to its return or its next sleep. */
  function Read(p: Pipe, t: Task, size: nat): Result {
    if p.data == [] then
      if p.writers == 0 then
        Result(p.(readable := Signal(p.readable)), Returned(0), [])
      else
        Result(p.(readable := Sleep(p.readable, t)), Blocked(0), [])
    else
      var n := Min(size, |p.data|);
      var rest := p.data[n..];
      var q := p.(data := rest, writable := Signal(p.writable));
      Result(if rest == [] then q else q.(readable := Signal(q.readable)), Returned(n), p.data[..n])
  }

  /** One pass of the outer loop of `pipe_file_write` with room in the buffer. */
  function WriteChunk(p: Pipe, chunk: seq<Byte>): Pipe {
    var q := p.(data := p.data + chunk, readable := Signal(p.readable));
    if |q.data| < PIPE_BUFLEN then q.(writable := Signal(q.writable)) else q
  }

  /** `pipe_file_write` from a (re)entry of its loop to its return or its next sleep. */
  function Write(p: Pipe, t: Task, bytes: seq<Byte>, written: nat): Result
    requires written <= |bytes|
    requires |p.data| <= PIPE_BUFLEN
    decreases |bytes| - written
  {
    if written == |bytes| then
      Result(p, Returned(written), [])
    else if p.readers == 0 then
      Result(p.(writable := Signal(p.writable)), if written > 0 then Returned(written) else IoError, [])
    else if |p.data| == PIPE_BUFLEN then
      Result(p.(writable := Sleep(p.writable, t)), Blocked(written), [])
    else
      var n := Min(|bytes| - written, PIPE_BUFLEN - |p.data|);
      var chunk := bytes[written..written + n];
      var r := Write(WriteChunk(p, chunk), t, bytes, written + n);
      r.(moved := chunk + r.moved)
  }

  function OpenReader(p: Pipe): Pipe {
    p.(readers := (p.readers + 1) % COUNTER_MODULUS)
  }

  function OpenWriter(p: Pipe): Pipe {
    p.(writers := (p.writers + 1) % COUNTER_MODULUS)
  }

  /** `pipe_file_close` on a reading end. */
  function CloseReader(p: Pipe): Pipe
    requires p.readers > 0
  {
    p.(readers := p.readers - 1, writable := Signal(p.writable))
  }

  /** `pipe_file_close` on a writing end. */
  function CloseWriter(p: Pipe): Pipe
    requires p.writers > 0
  {
    p.(writers := p.writers - 1, readable := Signal(p.readable))
  }

  // ---------------------------------------------------------------- the whole system

  /** The call a task is inside of, with the locals it keeps across a sleep. */
  datatype Call = Reading(size: nat) | Writing(bytes: seq<Byte>, written: nat)

  /** `log` lists every chunk accepted into the pipe with the task that wrote it, `taken` every
      chunk handed out with the task that got it and `last` how each task's latest call ended;
      all three are history, never read by a step. */
  datatype System = System(
    pipe: Pipe,
    calls: map<Task, Call>,
    log: seq<(Task, seq<Byte>)>,
    taken: seq<(Task, seq<Byte>)>,
    last: map<Task, Outcome>)

  datatype Step =
    | StartRead(task: Task, size: nat)
    | ResumeRead(task: Task)
    | StartWrite(task: Task, bytes: seq<Byte>)
    | ResumeWrite(task: Task)
    | ReaderOpened
    | WriterOpened
    | ReaderClosed
    | WriterClosed
    | SleeperKilled(task: Task)

  const Init := System(Pipe([], 0, 0, Event(false, [], multiset{}), Event(false, [], multiset{})), map[], [], [], map[])

  /** Opening an end is enabled below the 16-bit limit only; `OpenWrapStrandsReader` and
      `OpenWrapStrandsWriter` show what happens at the limit. */
  predicate Enabled(s: System, step: Step) {
    match step
    case StartRead(t, size) => t !in s.calls && size > 0
    case ResumeRead(t) => t in s.pipe.readable.transit && t in s.calls && s.calls[t].Reading?
    case StartWrite(t, bytes) => t !in s.calls && bytes != [] && |s.pipe.data| <= PIPE_BUFLEN
    case ResumeWrite(t) =>
      && t in s.pipe.writable.transit && t in s.calls && s.calls[t].Writing?
      && s.calls[t].written <= |s.calls[t].bytes| && |s.pipe.data| <= PIPE_BUFLEN
    case ReaderOpened => s.pipe.readers + 1 < COUNTER_MODULUS
    case WriterOpened => s.pipe.writers + 1 < COUNTER_MODULUS
    case ReaderClosed => s.pipe.readers > 0
    case WriterClosed => s.pipe.writers > 0
    case SleeperKilled(t) => t in s.pipe.readable.queue || t in s.pipe.writable.queue
  }

  function Dispatched(ev: Event, t: Task): Event {
    ev.(transit := ev.transit - multiset{t})
  }

  /** A task has run `Read` on `p`, having asked for `size` bytes. */
  function AfterRead(s: System, p: Pipe, t: Task, size: nat): System {
    var r := Read(p, t, size);
    System(r.pipe,
           if r.outcome.Blocked? then s.calls[t := Reading(size)] else s.calls - {t},
           s.log, if r.moved == [] then s.taken else s.taken + [(t, r.moved)], s.last[t := r.outcome])
  }

  function AfterWrite(s: System, p: Pipe, t: Task, bytes: seq<Byte>, written: nat): System
    requires written <= |bytes| && |p.data| <= PIPE_BUFLEN
  {
    var r := Write(p, t, bytes, written);
    System(r.pipe,
           if r.outcome.Blocked? then s.calls[t := Writing(bytes, r.outcome.progress)] else s.calls - {t},
           if r.moved == [] then s.log else s.log + [(t, r.moved)], s.taken, s.last[t := r.outcome])
  }

  function Next(s: System, step: Step): System
    requires Enabled(s, step)
  {
    var p := s.pipe;
    match step
    case StartRead(t, size) => AfterRead(s, p, t, size)
    case ResumeRead(t) => AfterRead(s, p.(readable := Dispatched(p.readable, t)), t, s.calls[t].size)
    case StartWrite(t, bytes) => AfterWrite(s, p, t, bytes, 0)
    case ResumeWrite(t) =>
      AfterWrite(s, p.(writable := Dispatched(p.writable, t)), t, s.calls[t].bytes, s.calls[t].written)
    case ReaderOpened => s.(pipe := OpenReader(p))
    case WriterOpened => s.(pipe := OpenWriter(p))
    case ReaderClosed => s.(pipe := CloseReader(p))
    case WriterClosed => s.(pipe := CloseWriter(p))
    case SleeperKilled(t) =>
      s.(pipe := p.(readable := p.readable.(queue := Without(p.readable.queue, t)),
                    writable := p.writable.(queue := Without(p.writable.queue, t))),
         calls := s.calls - {t})
  }

  predicate Feasible(s: System, run: seq<Step>)
    decreases |run|
  {
    run == [] || (Enabled(s, run[0]) && Feasible(Next(s, run[0]), run[1..]))
  }

  function Exec(s: System, run: seq<Step>): System
    requires Feasible(s, run)
    decreases |run|
  {
    if run == [] then s else Exec(Next(s, run[0]), run[1..])
  }

  // ---------------------------------------------------------------- the invariant

  /** Everybody who sleeps on `ev` or was woken from it. */
  ghost predicate Member(ev: Event, t: Task) {
    t in ev.queue || t in ev.transit
  }

  /** ... and does so only once. */
  ghost predicate Once(ev: Event) {
    && (forall i, j :: 0 <= i < j < |ev.queue| ==> ev.queue[i] != ev.queue[j])
    && (forall t :: t in ev.transit ==> t !in ev.queue && ev.transit[t] == 1)
  }

  /** A signal is remembered only while nobody waits. */
  predicate EventOk(ev: Event) {
    ev.signaled ==> ev.queue == []
  }

  /** Somebody who still has to run will notice `a` or `b`.  With both reasons present two
      tasks must be under way, because the first may use up reason `a` without passing
      the signal on.  `running` counts a task that was woken from this event and is
      executing its step right now. */
  predicate Covered(ev: Event, a: bool, b: bool, running: nat := 0) {
    ev.queue != [] ==>
      && (a || b ==> |ev.transit| + running >= 1)
      && (a && b ==> |ev.transit| + running >= 2)
  }

  predicate ReadersCovered(p: Pipe) {
    Covered(p.readable, p.data != [], p.writers == 0)
  }

  predicate WritersCovered(p: Pipe) {
    Covered(p.writable, |p.data| < PIPE_BUFLEN, p.readers == 0)
  }

  predicate PipeInv(p: Pipe) {
    && |p.data| <= PIPE_BUFLEN
    && EventOk(p.readable) && EventOk(p.writable)
    && ReadersCovered(p) && WritersCovered(p)
  }

  ghost predicate IsReading(calls: map<Task, Call>, t: Task) {
    t in calls && calls[t].Reading?
  }

  ghost predicate IsWriting(calls: map<Task, Call>, t: Task) {
    t in calls && calls[t].Writing? && calls[t].written < |calls[t].bytes|
  }

  /** Exactly the tasks that sleep on, or were woken from, an event are inside the matching
      call, each of them once. */
  ghost predicate CallsOk(s: System) {
    && Once(s.pipe.readable) && Once(s.pipe.writable)
    && (forall t :: Member(s.pipe.readable, t) <==> IsReading(s.calls, t))
    && (forall t :: Member(s.pipe.writable, t) <==> IsWriting(s.calls, t))
    && (forall t :: t in s.calls ==> IsReading(s.calls, t) || IsWriting(s.calls, t))
  }

  function Bytes(log: seq<(Task, seq<Byte>)>): seq<Byte> {
    if log == [] then [] else Bytes(log[..|log| - 1]) + log[|log| - 1].1
  }

  /** No byte is lost, duplicated or reordered. */
  predicate StreamOk(s: System) {
    Bytes(s.log) == Bytes(s.taken) + s.pipe.data
  }

  ghost predicate Inv(s: System) {
    PipeInv(s.pipe) && CallsOk(s) && StreamOk(s)
  }

  // ---------------------------------------------------------------- events

  ghost predicate SameMembers(ev: Event, ev': Event) {
    Once(ev') && forall t :: Member(ev', t) <==> Member(ev, t)
  }

  ghost predicate OneMoreMember(ev: Event, ev': Event, t: Task) {
    Once(ev') && forall u :: Member(ev', u) <==> u == t || Member(ev, u)
  }

  ghost predicate OneMemberLess(ev: Event, ev': Event, t: Task) {
    Once(ev') && forall u :: Member(ev', u) <==> u != t && Member(ev, u)
  }

  /** All of `Inv` for a system whose task `t` has just been given the processor, outside of
      both events, to work on `p`. */
  ghost predicate RunningInv(s: System, p: Pipe, t: Task) {
    && |p.data| <= PIPE_BUFLEN && EventOk(p.readable) && EventOk(p.writable)
    && Once(p.readable) && Once(p.writable)
    && (forall u :: Member(p.readable, u) <==> u != t && IsReading(s.calls, u))
    && (forall u :: Member(p.writable, u) <==> u != t && IsWriting(s.calls, u))
    && (forall u :: u in s.calls ==> u == t || IsReading(s.calls, u) || IsWriting(s.calls, u))
    && Bytes(s.log) == Bytes(s.taken) + p.data
  }
}
