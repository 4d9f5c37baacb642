/** What the callers of a pipe see: their answers, their bytes and their order. */
module PipeCalls {
  import opened Queues
  import opened PipeProtocol
  import opened PipeRuns

  // ---------------------------------------------------------------- answers

  predicate IsRead(s: System, step: Step, t: Task, size: nat) {
    step == StartRead(t, size) || (step == ResumeRead(t) && t in s.calls && s.calls[t] == Reading(size))
  }

  /** The step in which a reader returns: it gets the oldest bytes, as many as it asked for or
      there are, and their number as its answer; zero only at the end of the file. */
  lemma ReadAnswer(s: System, step: Step, t: Task, size: nat)
    requires Enabled(s, step) && IsRead(s, step, t, size) && size > 0
    ensures var s', d := Next(s, step), s.pipe.data;
      && t in s'.last && (t in s'.calls <==> d == [] && s.pipe.writers > 0)
      && (t in s'.calls ==> s'.calls[t] == Reading(size) && s'.pipe.data == d && s'.taken == s.taken)
      && (t !in s'.calls ==> s'.last[t].Returned? && s'.last[t].progress <= size && s'.last[t].progress <= |d|)
      && (t !in s'.calls ==> var k := s'.last[t].progress;
          && s'.pipe.data == d[k..] && Bytes(s'.taken) == Bytes(s.taken) + d[..k]
          && (k == 0 <==> d == []) && (k < size ==> k == |d|))
  {
    var p := if step.StartRead? then s.pipe else s.pipe.(readable := Dispatched(s.pipe.readable, t));
    ReadGives(p, t, size);
    var r := Read(p, t, size);
    BytesMore(s.taken, t, r.moved);
    assert r.moved == p.data[..|r.moved|] && r.pipe.data == p.data[|r.moved|..] by {
      assert (r.moved + r.pipe.data)[..|r.moved|] == r.moved;
      assert (r.moved + r.pipe.data)[|r.moved|..] == r.pipe.data;
    }
  }

  // ---------------------------------------------------------------- a single reader's view

  /** Since `t` had got `base` and called read for `size` bytes, it has got exactly as many
      bytes as its return value counts. */
  ghost predicate ReadAccounted(s: System, t: Task, base: seq<Byte>, size: nat) {
    if t in s.calls then
      s.calls[t] == Reading(size) && MovedBy(s.taken, t) == base
    else
      t in s.last && !s.last[t].IoError? &&
      var n := if s.last[t].Returned? then s.last[t].progress else 0;  // killed while asleep
      n <= size && |MovedBy(s.taken, t)| == |base| + n && base == MovedBy(s.taken, t)[..|base|]
  }

  lemma AfterReadAccounts(s: System, p: Pipe, t: Task, size: nat)
    ensures ReadAccounted(AfterRead(s, p, t, size), t, MovedBy(s.taken, t), size)
  {
    ReadGives(p, t, size);
    LogExtended(s.taken, t, Read(p, t, size).moved, t);
  }

  /** A task inside a read was last seen going to sleep. */
  ghost predicate ReadersRecorded(s: System) {
    forall t :: t in s.calls && s.calls[t].Reading? ==> t in s.last && s.last[t].Blocked?
  }

  lemma NextKeepsReaders(s: System, step: Step)
    requires Enabled(s, step) && ReadersRecorded(s)
    ensures ReadersRecorded(Next(s, step))
  {}

  lemma NextKeepsReadAccount(s: System, step: Step, t: Task, base: seq<Byte>, size: nat)
    requires Enabled(s, step) && ReadAccounted(s, t, base, size) && ReadersRecorded(s)
    requires step.StartRead? || step.StartWrite? ==> step.task != t
    ensures ReadAccounted(Next(s, step), t, base, size)
  {
    if step.ResumeRead? && step.task == t {
      AfterReadAccounts(s, s.pipe.(readable := Dispatched(s.pipe.readable, t)), t, size);
    } else {
      var s' := Next(s, step);
      if s'.taken != s.taken {
        assert s'.taken[..|s'.taken| - 1] == s.taken;
      }
    }
  }

  lemma ReadStartAccounted(s: System, t: Task, size: nat)
    requires Enabled(s, StartRead(t, size)) && ReadersRecorded(s)
    ensures ReadAccounted(Next(s, StartRead(t, size)), t, MovedBy(s.taken, t), size)
    ensures ReadersRecorded(Next(s, StartRead(t, size)))
  {
    AfterReadAccounts(s, s.pipe, t, size);
  }

  /** A read that starts now and is followed through any run has been handed exactly the bytes
      it reports, however often it slept and whoever else read in between. */
  lemma {:induction false} ReadReturnsWhatItGot(s: System, run: seq<Step>, t: Task, base: seq<Byte>, size: nat)
    requires Feasible(s, run) && ReadAccounted(s, t, base, size) && ReadersRecorded(s)
    requires forall step :: step in run && (step.StartRead? || step.StartWrite?) ==> step.task != t
    ensures ReadAccounted(Exec(s, run), t, base, size)
    decreases |run|
  {
    if run != [] {
      NextKeepsReadAccount(s, run[0], t, base, size);
      NextKeepsReaders(s, run[0]);
      ReadReturnsWhatItGot(Next(s, run[0]), run[1..], t, base, size);
    }
  }

  // ---------------------------------------------------------------- open ends

  function Times(run: seq<Step>, step: Step): nat {
    if run == [] then 0 else (if run[0] == step then 1 else 0) + Times(run[1..], step)
  }

  /** The counts are those of the ends opened and not closed. */
  lemma {:induction false} EndsCounted(s: System, run: seq<Step>)
    requires Feasible(s, run) && Inv(s)
    ensures var p := Exec(s, run).pipe;
      && p.readers + Times(run, ReaderClosed) == s.pipe.readers + Times(run, ReaderOpened)
      && p.writers + Times(run, WriterClosed) == s.pipe.writers + Times(run, WriterOpened)
    decreases |run|
  {
    if run != [] {
      StepCounted(s, run[0]);
      NextKeepsInv(s, run[0]);
      EndsCounted(Next(s, run[0]), run[1..]);
    }
  }

  lemma StepCounted(s: System, step: Step)
    requires Enabled(s, step) && Inv(s)
    ensures var p := Next(s, step).pipe;
      && p.readers + Times([step], ReaderClosed) == s.pipe.readers + Times([step], ReaderOpened)
      && p.writers + Times([step], WriterClosed) == s.pipe.writers + Times([step], WriterOpened)
  {
    match step
    case StartWrite(t, bytes) => WriteAnswers(s.pipe, t, bytes, 0);
    case ResumeWrite(t) =>
      WriteAnswers(s.pipe.(writable := Dispatched(s.pipe.writable, t)), t, s.calls[t].bytes, s.calls[t].written);
    case _ =>
  }

  // ---------------------------------------------------------------- first come, first woken

  /** `u` sleeps before `v`. */
  predicate Precedes(q: seq<Task>, u: Task, v: Task) {
    u in q && v in q && Place(q, u) < Place(q, v)
  }

  /** The first `k` sleepers of `ev` were woken, in their order; whoever is in `more` went to sleep
      behind the others. */
  ghost predicate Served(ev: Event, ev': Event, k: nat, more: seq<Task>) {
    && k <= |ev.queue| && ev'.queue == ev.queue[k..] + more
    && ev'.transit == ev.transit + multiset(ev.queue[..k])
  }

  lemma SignalServes(ev: Event)
    ensures Served(ev, Signal(ev), if ev.queue == [] then 0 else 1, [])
  {
    if ev.queue != [] {
      assert ev.queue[..1] == [ev.queue[0]];
    }
  }

  lemma ServedOn(ev: Event, k: nat, ev1: Event, j: nat, ev2: Event, more: seq<Task>)
    requires Served(ev, ev1, k, []) && Served(ev1, ev2, j, more)
    ensures Served(ev, ev2, k + j, more)
  {
    assert ev.queue[..k + j] == ev.queue[..k] + ev1.queue[..j];
  }

  lemma ReadServes(p: Pipe, t: Task, size: nat) returns (k: nat, j: nat)
    ensures var r := Read(p, t, size);
      && Served(p.readable, r.pipe.readable, k, if r.outcome.Blocked? then [t] else [])
      && Served(p.writable, r.pipe.writable, j, [])
  {
    var r := Read(p, t, size);
    SignalServes(p.readable);
    SignalServes(p.writable);
    k := if r.outcome.Blocked? || (p.data != [] && r.pipe.data == []) || p.readable.queue == [] then 0 else 1;
    j := if p.data == [] || p.writable.queue == [] then 0 else 1;
  }

  lemma ChunkServes(p: Pipe, chunk: seq<Byte>) returns (k: nat, j: nat)
    ensures Served(p.readable, WriteChunk(p, chunk).readable, k, [])
    ensures Served(p.writable, WriteChunk(p, chunk).writable, j, [])
  {
    SignalServes(p.readable);
    SignalServes(p.writable);
    k := if p.readable.queue == [] then 0 else 1;
    j := if |p.data + chunk| >= PIPE_BUFLEN || p.writable.queue == [] then 0 else 1;
  }

  lemma {:induction false} WriteServes(p: Pipe, t: Task, bytes: seq<Byte>, written: nat) returns (k: nat, j: nat)
    requires written <= |bytes| && |p.data| <= PIPE_BUFLEN
    ensures var r := Write(p, t, bytes, written);
      && Served(p.readable, r.pipe.readable, k, [])
      && Served(p.writable, r.pipe.writable, j, if r.outcome.Blocked? then [t] else [])
    decreases |bytes| - written
  {
    if written < |bytes| && p.readers > 0 && |p.data| < PIPE_BUFLEN {
      var n := Min(|bytes| - written, PIPE_BUFLEN - |p.data|);
      var q := WriteChunk(p, bytes[written..written + n]);
      var k1, j1 := ChunkServes(p, bytes[written..written + n]);
      var k2, j2 := WriteServes(q, t, bytes, written + n);
      k, j := k1 + k2, j1 + j2;
      WriteUnfolded(p, t, bytes, written, n);
      var r := Write(q, t, bytes, written + n);
      ServedOn(p.readable, k1, q.readable, k2, r.pipe.readable, []);
      ServedOn(p.writable, j1, q.writable, j2, r.pipe.writable, if r.outcome.Blocked? then [t] else []);
    } else {
      k, j := WriteEndServes(p, t, bytes, written);
    }
  }

  lemma WriteUnfolded(p: Pipe, t: Task, bytes: seq<Byte>, written: nat, n: nat)
    requires written < |bytes| && |p.data| < PIPE_BUFLEN && p.readers > 0
    requires n == Min(|bytes| - written, PIPE_BUFLEN - |p.data|)
    ensures var r, r' := Write(p, t, bytes, written),
      Write(WriteChunk(p, bytes[written..written + n]), t, bytes, written + n);
      r.pipe == r'.pipe && r.outcome == r'.outcome
  {}

  lemma WriteEndServes(p: Pipe, t: Task, bytes: seq<Byte>, written: nat) returns (k: nat, j: nat)
    requires written <= |bytes| && |p.data| <= PIPE_BUFLEN
    requires written == |bytes| || p.readers == 0 || |p.data| == PIPE_BUFLEN
    ensures var r := Write(p, t, bytes, written);
      && Served(p.readable, r.pipe.readable, k, [])
      && Served(p.writable, r.pipe.writable, j, if r.outcome.Blocked? then [t] else [])
  {
    SignalServes(p.writable);
    k := 0;
    j := if written < |bytes| && p.readers == 0 && p.writable.queue != [] then 1 else 0;
  }

  lemma ServedInOrder(ev: Event, ev': Event, k: nat, more: seq<Task>, u: Task, v: Task)
    requires Served(ev, ev', k, more) && Precedes(ev.queue, u, v) && u in ev'.queue && u !in more && Distinct(ev.queue)
    ensures Precedes(ev'.queue, u, v)
  {
    PlaceAtLeast(ev.queue, k, u);
    PlaceFrom(ev.queue, k, more, u);
    PlaceFrom(ev.queue, k, more, v);
  }

  lemma WithoutInOrder(q: seq<Task>, w: Task, u: Task, v: Task)
    requires Precedes(q, u, v) && w != u && w != v
    ensures Precedes(Without(q, w), u, v)
  {
    PlaceWithout(q, w, u);
    PlaceWithout(q, w, v);
    if w in q {
      assert q[Place(q, w)] == w && q[Place(q, u)] == u;
    }
  }

  /** The event of the readers or that of the writers. */
  function Side(p: Pipe, reading: bool): Event {
    if reading then p.readable else p.writable
  }

  /** A step by a task or on an end, in terms of whom it wakes. */
  lemma StepServes(s: System, step: Step, reading: bool) returns (k: nat, more: seq<Task>, ev: Event)
    requires Inv(s) && Enabled(s, step) && !step.SleeperKilled?
    ensures ev.queue == Side(s.pipe, reading).queue && Served(ev, Side(Next(s, step).pipe, reading), k, more)
    ensures forall t :: t in more ==> t !in ev.queue
  {
    ev, k, more := Side(s.pipe, reading), 0, [];
    var p := s.pipe;
    match step
    case StartRead(t, size) =>
      var i, j := ReadServes(p, t, size);
      k, more := if reading then i else j, if reading && Read(p, t, size).outcome.Blocked? then [t] else [];
      assert !Member(p.readable, t);
    case ResumeRead(t) =>
      var q := p.(readable := Dispatched(p.readable, t));
      var i, j := ReadServes(q, t, s.calls[t].size);
      k, more := if reading then i else j, if reading && Read(q, t, s.calls[t].size).outcome.Blocked? then [t] else [];
      ev := Side(q, reading);
    case StartWrite(t, bytes) =>
      var i, j := WriteServes(p, t, bytes, 0);
      k, more := if reading then i else j, if !reading && Write(p, t, bytes, 0).outcome.Blocked? then [t] else [];
      assert !Member(p.writable, t);
    case ResumeWrite(t) =>
      var q := p.(writable := Dispatched(p.writable, t));
      var c := s.calls[t];
      var i, j := WriteServes(q, t, c.bytes, c.written);
      k := if reading then i else j;
      more := if !reading && Write(q, t, c.bytes, c.written).outcome.Blocked? then [t] else [];
      ev := Side(q, reading);
    case ReaderClosed =>
      SignalServes(p.writable);
      k := if reading || p.writable.queue == [] then 0 else 1;
    case WriterClosed =>
      SignalServes(p.readable);
      k := if !reading || p.readable.queue == [] then 0 else 1;
    case _ =>
  }

  /** While `u` sleeps, nobody who sleeps behind it is woken. */
  lemma NobodyOvertakes(s: System, step: Step, reading: bool, u: Task, v: Task)
    requires Inv(s) && Enabled(s, step) && step != SleeperKilled(v)
    requires Precedes(Side(s.pipe, reading).queue, u, v) && u in Side(Next(s, step).pipe, reading).queue
    ensures Precedes(Side(Next(s, step).pipe, reading).queue, u, v)
  {
    var ev', q := Side(Next(s, step).pipe, reading), Side(s.pipe, reading).queue;
    if step.SleeperKilled? {
      if step.task == u {
        WithoutRemoves(q, u);
        assert false;
      }
      WithoutInOrder(q, step.task, u, v);
    } else {
      var k, more, ev := StepServes(s, step, reading);
      ServedInOrder(ev, ev', k, more, u, v);
    }
  }

  /** `u` sleeps in every state of the run. */
  predicate AsleepAllAlong(s: System, run: seq<Step>, reading: bool, u: Task)
    requires Feasible(s, run)
    decreases |run|
  {
    u in Side(s.pipe, reading).queue && (run != [] ==> AsleepAllAlong(Next(s, run[0]), run[1..], reading, u))
  }

  /** First come, first woken, over every run. */
  lemma {:induction false} FirstComeFirstWoken(s: System, run: seq<Step>, reading: bool, u: Task, v: Task)
    requires Inv(s) && Feasible(s, run) && AsleepAllAlong(s, run, reading, u) && SleeperKilled(v) !in run
    requires Precedes(Side(s.pipe, reading).queue, u, v)
    ensures Precedes(Side(Exec(s, run).pipe, reading).queue, u, v)
    decreases |run|
  {
    if run != [] {
      NobodyOvertakes(s, run[0], reading, u, v);
      NextKeepsInv(s, run[0]);
      FirstComeFirstWoken(Next(s, run[0]), run[1..], reading, u, v);
    }
  }
}
