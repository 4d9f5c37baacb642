/** What holds in every run of readers and writers of a pipe. */
module PipeRuns {
  import opened Queues
  import opened PipeProtocol

  lemma SignalKeepsMembers(ev: Event)
    requires Once(ev)
    ensures SameMembers(ev, Signal(ev))
  {
    if ev.queue != [] {
      assert ev.queue == [ev.queue[0]] + ev.queue[1..];
    }
  }

  lemma SleepAddsMember(ev: Event, t: Task)
    requires Once(ev) && !Member(ev, t)
    ensures OneMoreMember(ev, Sleep(ev, t), t)
  {}

  lemma DispatchRemovesMember(ev: Event, t: Task)
    requires Once(ev) && t in ev.transit
    ensures OneMemberLess(ev, Dispatched(ev, t), t)
  {}

  // ---------------------------------------------------------------- single runs of a task

  /** A reader's run keeps the pipe in order.  `running` is 1 when the reader was woken
      from `readable`, whose cover then still counts it. */
  lemma ReadKeepsInv(p: Pipe, t: Task, size: nat)
    requires |p.data| <= PIPE_BUFLEN && EventOk(p.readable) && EventOk(p.writable)
    requires Covered(p.readable, p.data != [], p.writers == 0, 1) && WritersCovered(p)
    ensures PipeInv(Read(p, t, size).pipe)
  {}

  /** What a run of `Read` gives: the count it reports is that of the bytes it takes from the
      front, at most `size` and fewer only if there are no more; it is zero exactly at the end
      of the file, and the reader sleeps exactly while the pipe is empty with writers left. */
  lemma ReadGives(p: Pipe, t: Task, size: nat)
    ensures var r := Read(p, t, size);
      && r.moved + r.pipe.data == p.data && |r.moved| <= size && !r.outcome.IoError? && r.outcome.progress == |r.moved|
      && (r.outcome.Returned? && |r.moved| < size ==> r.pipe.data == [])
      && (r.outcome.Blocked? <==> p.data == [] && p.writers > 0)
      && (size > 0 ==> (r.outcome == Returned(0) <==> p.data == [] && p.writers == 0))
      && r.pipe.readers == p.readers && r.pipe.writers == p.writers
  {}

  lemma ReadKeepsMembers(p: Pipe, t: Task, size: nat)
    requires Once(p.readable) && Once(p.writable) && !Member(p.readable, t)
    ensures var r := Read(p, t, size);
      && SameMembers(p.writable, r.pipe.writable)
      && if r.outcome.Blocked? then OneMoreMember(p.readable, r.pipe.readable, t)
         else SameMembers(p.readable, r.pipe.readable)
  {
    SignalKeepsMembers(p.readable);
    SignalKeepsMembers(p.writable);
    SleepAddsMember(p.readable, t);
  }

  lemma WriteChunkKeepsInv(p: Pipe, chunk: seq<Byte>)
    requires chunk != [] && |p.data| + |chunk| <= PIPE_BUFLEN && p.readers > 0
    requires EventOk(p.readable) && EventOk(p.writable)
    requires ReadersCovered(p) && Covered(p.writable, true, false, 1)
    ensures PipeInv(WriteChunk(p, chunk))
  {}

  lemma {:induction false} WriteKeepsInv(p: Pipe, t: Task, bytes: seq<Byte>, written: nat)
    requires written <= |bytes| && |p.data| <= PIPE_BUFLEN
    requires EventOk(p.readable) && EventOk(p.writable) && ReadersCovered(p)
    requires Covered(p.writable, |p.data| < PIPE_BUFLEN, p.readers == 0, if written < |bytes| then 1 else 0)
    ensures PipeInv(Write(p, t, bytes, written).pipe)
    decreases |bytes| - written
  {
    if written < |bytes| && p.readers > 0 && |p.data| < PIPE_BUFLEN {
      var n := Min(|bytes| - written, PIPE_BUFLEN - |p.data|);
      var chunk := bytes[written..written + n];
      WriteChunkKeepsInv(p, chunk);
      WriteKeepsInv(WriteChunk(p, chunk), t, bytes, written + n);
    }
  }

  lemma WriteChunkKeepsMembers(p: Pipe, chunk: seq<Byte>)
    requires Once(p.readable) && Once(p.writable)
    ensures SameMembers(p.readable, WriteChunk(p, chunk).readable)
    ensures SameMembers(p.writable, WriteChunk(p, chunk).writable)
  {
    SignalKeepsMembers(p.readable);
    SignalKeepsMembers(p.writable);
  }

  lemma MembersCompose(before: Event, mid: Event, after: Event, t: Task)
    requires SameMembers(before, mid)
    ensures SameMembers(mid, after) ==> SameMembers(before, after)
    ensures OneMoreMember(mid, after, t) ==> OneMoreMember(before, after, t)
  {}

  lemma {:induction false} WriteKeepsMembers(p: Pipe, t: Task, bytes: seq<Byte>, written: nat)
    requires written <= |bytes| && |p.data| <= PIPE_BUFLEN
    requires Once(p.readable) && Once(p.writable) && !Member(p.writable, t)
    ensures var r := Write(p, t, bytes, written);
      && SameMembers(p.readable, r.pipe.readable)
      && if r.outcome.Blocked? then OneMoreMember(p.writable, r.pipe.writable, t)
         else SameMembers(p.writable, r.pipe.writable)
    decreases |bytes| - written
  {
    if written == |bytes| || p.readers == 0 {
      SignalKeepsMembers(p.writable);
    } else if |p.data| == PIPE_BUFLEN {
      SleepAddsMember(p.writable, t);
    } else {
      var n := Min(|bytes| - written, PIPE_BUFLEN - |p.data|);
      var chunk := bytes[written..written + n];
      var q := WriteChunk(p, chunk);
      WriteChunkKeepsMembers(p, chunk);
      WriteKeepsMembers(q, t, bytes, written + n);
      var r := Write(q, t, bytes, written + n).pipe;
      MembersCompose(p.readable, q.readable, r.readable, t);
      MembersCompose(p.writable, q.writable, r.writable, t);
    }
  }

  /** The bytes a run of `Write` accepts are the next ones of the caller's buffer, appended
      to the pipe; the reported progress counts them, and the run ends early only when the
      pipe is full or without readers. */
  lemma {:induction false} WriteAccepts(p: Pipe, t: Task, bytes: seq<Byte>, written: nat)
    requires written <= |bytes| && |p.data| <= PIPE_BUFLEN
    ensures var r := Write(p, t, bytes, written);
      && r.pipe.data == p.data + r.moved
      && (r.outcome.IoError? ==> written == 0 && r.moved == [])
      && (!r.outcome.IoError? ==>
          written <= r.outcome.progress <= |bytes| && r.moved == bytes[written..r.outcome.progress])
      && (r.outcome.Blocked? ==> r.outcome.progress < |bytes| && |r.pipe.data| == PIPE_BUFLEN && p.readers > 0)
      && (r.outcome.Returned? && p.readers > 0 ==> r.outcome.progress == |bytes|)
    decreases |bytes| - written
  {
    if written < |bytes| && p.readers > 0 && |p.data| < PIPE_BUFLEN {
      var n := Min(|bytes| - written, PIPE_BUFLEN - |p.data|);
      WriteAccepts(WriteChunk(p, bytes[written..written + n]), t, bytes, written + n);
    }
  }

  /** How a run of `Write` ends: at once, with an error only if nothing was written, without
      readers; otherwise with everything written if it fits, and asleep on a full pipe if not. */
  lemma {:induction false} WriteAnswers(p: Pipe, t: Task, bytes: seq<Byte>, written: nat)
    requires written <= |bytes| && |p.data| <= PIPE_BUFLEN
    ensures var r := Write(p, t, bytes, written);
      && r.pipe.readers == p.readers && r.pipe.writers == p.writers
      && (written < |bytes| && p.readers == 0 ==> r.outcome == if written > 0 then Returned(written) else IoError)
      && (written < |bytes| && p.readers > 0 ==>
          r.outcome == if |p.data| + |bytes| - written <= PIPE_BUFLEN then Returned(|bytes|)
                       else Blocked(written + PIPE_BUFLEN - |p.data|))
    decreases |bytes| - written
  {
    if written < |bytes| && p.readers > 0 && |p.data| < PIPE_BUFLEN {
      var n := Min(|bytes| - written, PIPE_BUFLEN - |p.data|);
      WriteAnswers(WriteChunk(p, bytes[written..written + n]), t, bytes, written + n);
    }
  }

  // ---------------------------------------------------------------- every run

  lemma AfterReadKeepsCalls(s: System, p: Pipe, t: Task, size: nat)
    requires RunningInv(s, p, t)
    ensures CallsOk(AfterRead(s, p, t, size))
  {
    ReadKeepsMembers(p, t, size);
    var s' := AfterRead(s, p, t, size);
    forall u
      ensures Member(s'.pipe.readable, u) <==> IsReading(s'.calls, u)
      ensures Member(s'.pipe.writable, u) <==> IsWriting(s'.calls, u)
    {
      assert Member(p.readable, u) <==> u != t && IsReading(s.calls, u);
      assert Member(p.writable, u) <==> u != t && IsWriting(s.calls, u);
    }
  }

  lemma AfterReadKeepsInv(s: System, p: Pipe, t: Task, size: nat)
    requires RunningInv(s, p, t)
    requires Covered(p.readable, p.data != [], p.writers == 0, 1) && WritersCovered(p)
    ensures Inv(AfterRead(s, p, t, size))
  {
    ReadKeepsInv(p, t, size);
    AfterReadKeepsCalls(s, p, t, size);
    AfterReadKeepsStream(s, p, t, size);
  }

  lemma AfterReadKeepsStream(s: System, p: Pipe, t: Task, size: nat)
    requires Bytes(s.log) == Bytes(s.taken) + p.data
    ensures StreamOk(AfterRead(s, p, t, size))
  {
    ReadGives(p, t, size);
    var r := Read(p, t, size);
    Handed(s.taken, t, r.moved, r.pipe.data, Bytes(s.log));
  }

  lemma Handed(log: seq<(Task, seq<Byte>)>, t: Task, chunk: seq<Byte>, rest: seq<Byte>, sent: seq<Byte>)
    requires sent == Bytes(log) + (chunk + rest)
    ensures sent == Bytes(log + [(t, chunk)]) + rest && (chunk == [] ==> sent == Bytes(log) + rest)
  {
    BytesMore(log, t, chunk);
    assert Bytes(log) + (chunk + rest) == Bytes(log) + chunk + rest;
    assert chunk == [] ==> chunk + rest == rest;
  }

  lemma BytesMore(log: seq<(Task, seq<Byte>)>, t: Task, chunk: seq<Byte>)
    ensures Bytes(log + [(t, chunk)]) == Bytes(log) + chunk
  {
    assert (log + [(t, chunk)])[..|log|] == log;
  }

  lemma AfterWriteKeepsCalls(s: System, p: Pipe, t: Task, bytes: seq<Byte>, written: nat)
    requires RunningInv(s, p, t) && written < |bytes|
    ensures CallsOk(AfterWrite(s, p, t, bytes, written))
  {
    WriteKeepsMembers(p, t, bytes, written);
    var progress := Write(p, t, bytes, written).outcome;
    assert progress.Blocked? ==> progress.progress < |bytes| by { WriteAccepts(p, t, bytes, written); }
    var s' := AfterWrite(s, p, t, bytes, written);
    forall u
      ensures Member(s'.pipe.readable, u) <==> IsReading(s'.calls, u)
      ensures Member(s'.pipe.writable, u) <==> IsWriting(s'.calls, u)
    {
      assert Member(p.readable, u) <==> u != t && IsReading(s.calls, u);
      assert Member(p.writable, u) <==> u != t && IsWriting(s.calls, u);
    }
  }

  lemma AfterWriteKeepsStream(s: System, p: Pipe, t: Task, bytes: seq<Byte>, written: nat)
    requires RunningInv(s, p, t) && written < |bytes|
    ensures StreamOk(AfterWrite(s, p, t, bytes, written))
  {
    WriteAccepts(p, t, bytes, written);
    SentMore(s.log, t, Write(p, t, bytes, written).moved, Bytes(s.taken), p.data);
  }

  lemma SentMore(log: seq<(Task, seq<Byte>)>, t: Task, chunk: seq<Byte>, received: seq<Byte>, data: seq<Byte>)
    requires Bytes(log) == received + data
    ensures Bytes(log + [(t, chunk)]) == received + (data + chunk)
  {
    BytesMore(log, t, chunk);
  }

  lemma AfterWriteKeepsInv(s: System, p: Pipe, t: Task, bytes: seq<Byte>, written: nat)
    requires RunningInv(s, p, t) && written < |bytes|
    requires Covered(p.writable, |p.data| < PIPE_BUFLEN, p.readers == 0, 1) && ReadersCovered(p)
    ensures Inv(AfterWrite(s, p, t, bytes, written))
  {
    WriteKeepsInv(p, t, bytes, written);
    AfterWriteKeepsCalls(s, p, t, bytes, written);
    AfterWriteKeepsStream(s, p, t, bytes, written);
  }

  lemma KillRemovesMember(ev: Event, t: Task)
    requires Once(ev) && t !in ev.transit
    ensures OneMemberLess(ev, ev.(queue := Without(ev.queue, t)), t)
  {
    WithoutRemoves(ev.queue, t);
  }

  lemma KillKeepsCalls(s: System, t: Task)
    requires CallsOk(s) && Enabled(s, SleeperKilled(t))
    ensures CallsOk(Next(s, SleeperKilled(t)))
  {
    var r, w := s.pipe.readable, s.pipe.writable;
    assert Member(r, t) <==> IsReading(s.calls, t);
    assert Member(w, t) <==> IsWriting(s.calls, t);
    assert t !in r.transit && t !in w.transit;
    KillRemovesMember(r, t);
    KillRemovesMember(w, t);
    var s' := Next(s, SleeperKilled(t));
    forall u
      ensures Member(s'.pipe.readable, u) <==> IsReading(s'.calls, u)
      ensures Member(s'.pipe.writable, u) <==> IsWriting(s'.calls, u)
    {
      assert Member(r, u) <==> IsReading(s.calls, u);
      assert Member(w, u) <==> IsWriting(s.calls, u);
    }
  }

  lemma KillKeepsInv(s: System, t: Task)
    requires Inv(s) && Enabled(s, SleeperKilled(t))
    ensures Inv(Next(s, SleeperKilled(t)))
  {
    KillKeepsCalls(s, t);
    WithoutRemoves(s.pipe.readable.queue, t);
    WithoutRemoves(s.pipe.writable.queue, t);
  }

  lemma ResumeReadKeepsInv(s: System, t: Task)
    requires Inv(s) && Enabled(s, ResumeRead(t))
    ensures Inv(Next(s, ResumeRead(t)))
  {
    assert Member(s.pipe.readable, t);
    DispatchRemovesMember(s.pipe.readable, t);
    AfterReadKeepsInv(s, s.pipe.(readable := Dispatched(s.pipe.readable, t)), t, s.calls[t].size);
  }

  lemma ResumeWriteKeepsInv(s: System, t: Task)
    requires Inv(s) && Enabled(s, ResumeWrite(t))
    ensures Inv(Next(s, ResumeWrite(t)))
  {
    assert Member(s.pipe.writable, t);
    DispatchRemovesMember(s.pipe.writable, t);
    AfterWriteKeepsInv(s, s.pipe.(writable := Dispatched(s.pipe.writable, t)), t, s.calls[t].bytes, s.calls[t].written);
  }

  lemma StartKeepsInv(s: System, step: Step)
    requires Inv(s) && Enabled(s, step) && (step.StartRead? || step.StartWrite?)
    ensures Inv(Next(s, step))
  {
    match step
    case StartRead(t, size) => AfterReadKeepsInv(s, s.pipe, t, size);
    case StartWrite(t, bytes) => AfterWriteKeepsInv(s, s.pipe, t, bytes, 0);
  }

  lemma OpenKeepsInv(s: System, step: Step)
    requires Inv(s) && Enabled(s, step) && (step.ReaderOpened? || step.WriterOpened?)
    ensures Inv(Next(s, step))
  {}

  lemma CloseReaderKeepsInv(s: System)
    requires Inv(s) && Enabled(s, ReaderClosed)
    ensures Inv(Next(s, ReaderClosed))
  {
    SignalKeepsMembers(s.pipe.writable);
  }

  lemma CloseWriterKeepsInv(s: System)
    requires Inv(s) && Enabled(s, WriterClosed)
    ensures Inv(Next(s, WriterClosed))
  {
    SignalKeepsMembers(s.pipe.readable);
  }

  lemma NextKeepsInv(s: System, step: Step)
    requires Inv(s) && Enabled(s, step)
    ensures Inv(Next(s, step))
  {
    match step
    case StartRead(_, _) => StartKeepsInv(s, step);
    case ResumeRead(t) => ResumeReadKeepsInv(s, t);
    case StartWrite(_, _) => StartKeepsInv(s, step);
    case ResumeWrite(t) => ResumeWriteKeepsInv(s, t);
    case ReaderOpened => OpenKeepsInv(s, step);
    case WriterOpened => OpenKeepsInv(s, step);
    case ReaderClosed => CloseReaderKeepsInv(s);
    case WriterClosed => CloseWriterKeepsInv(s);
    case SleeperKilled(t) => KillKeepsInv(s, t);
  }

  /** The invariant holds in every state that any run reaches. */
  lemma {:induction false} RunKeepsInv(s: System, run: seq<Step>)
    requires Inv(s) && Feasible(s, run)
    ensures Inv(Exec(s, run))
    decreases |run|
  {
    if run != [] {
      NextKeepsInv(s, run[0]);
      RunKeepsInv(Next(s, run[0]), run[1..]);
    }
  }

  /** In every state, tasks enough to serve the sleepers are under way; whenever nobody who
      was woken still has to run, every sleeper has a reason to sleep, and readers and
      writers never sleep on each other. */
  lemma NoStuckSleeper(run: seq<Step>)
    requires Feasible(Init, run)
    ensures var p := Exec(Init, run).pipe;
      && ReadersCovered(p) && WritersCovered(p)
      && (p.readable.queue != [] && p.readable.transit == multiset{} ==> p.data == [] && p.writers > 0)
      && (p.writable.queue != [] && p.writable.transit == multiset{} ==> |p.data| == PIPE_BUFLEN && p.readers > 0)
      && (p.readable.queue != [] && p.writable.queue != [] ==> |p.readable.transit| + |p.writable.transit| > 0)
  {
    RunKeepsInv(Init, run);
  }

  /** What readers got so far, followed by what is buffered, is what writers put in. */
  lemma StreamPreserved(run: seq<Step>)
    requires Feasible(Init, run)
    ensures var s := Exec(Init, run); Bytes(s.log) == Bytes(s.taken) + s.pipe.data && |s.pipe.data| <= PIPE_BUFLEN
  {
    RunKeepsInv(Init, run);
  }

  // ---------------------------------------------------------------- a single writer's view

  /** The bytes of a log that are from `t`, or for `t`, in order. */
  function MovedBy(log: seq<(Task, seq<Byte>)>, t: Task): seq<Byte> {
    if log == [] then []
    else
      var before := MovedBy(log[..|log| - 1], t);
      if log[|log| - 1].0 == t then before + log[|log| - 1].1 else before
  }

  /** Since `t` had written `base` and called write on `bytes`, the pipe has taken from it
      exactly the bytes that its progress or its return value counts. */
  ghost predicate CallAccounted(s: System, t: Task, base: seq<Byte>, bytes: seq<Byte>) {
    if t in s.calls then
      s.calls[t].Writing? && s.calls[t].bytes == bytes && s.calls[t].written <= |bytes|
      && MovedBy(s.log, t) == base + bytes[..s.calls[t].written]
    else
      t in s.last &&
      match s.last[t]
      case IoError => MovedBy(s.log, t) == base
      case Returned(n) => n <= |bytes| && MovedBy(s.log, t) == base + bytes[..n]
      case Blocked(n) => n <= |bytes| && MovedBy(s.log, t) == base + bytes[..n]  // killed while asleep
  }

  lemma LogExtended(log: seq<(Task, seq<Byte>)>, u: Task, chunk: seq<Byte>, t: Task)
    ensures MovedBy(log + [(u, chunk)], t) == MovedBy(log, t) + if u == t then chunk else []
  {
    assert (log + [(u, chunk)])[..|log|] == log;
  }

  lemma AfterWriteAccounts(s: System, p: Pipe, t: Task, base: seq<Byte>, bytes: seq<Byte>, written: nat)
    requires written <= |bytes| && |p.data| <= PIPE_BUFLEN
    requires MovedBy(s.log, t) == base + bytes[..written]
    ensures CallAccounted(AfterWrite(s, p, t, bytes, written), t, base, bytes)
  {
    WriteAccepts(p, t, bytes, written);
    var r, s' := Write(p, t, bytes, written), AfterWrite(s, p, t, bytes, written);
    LogExtended(s.log, t, r.moved, t);
    assert MovedBy(s'.log, t) == base + bytes[..written] + r.moved;
    if !r.outcome.IoError? {
      Joined(base, bytes, written, r.outcome.progress);
    }
  }

  lemma Joined(base: seq<Byte>, bytes: seq<Byte>, m: nat, n: nat)
    requires m <= n <= |bytes|
    ensures base + bytes[..m] + bytes[m..n] == base + bytes[..n]
  {}

  lemma OthersKeepAccount(s: System, step: Step, t: Task, base: seq<Byte>, bytes: seq<Byte>)
    requires Enabled(s, step) && CallAccounted(s, t, base, bytes)
    requires step.StartRead? || step.ResumeRead? || step.StartWrite? || step.ResumeWrite? ==> step.task != t
    requires t in s.calls ==> t in s.last && s.last[t] == Blocked(s.calls[t].written)
    ensures CallAccounted(Next(s, step), t, base, bytes)
  {
    var s' := Next(s, step);
    if s'.log != s.log {
      assert s'.log[..|s'.log| - 1] == s.log;
    }
  }

  ghost predicate SleepersRecorded(s: System) {
    forall t :: t in s.calls && s.calls[t].Writing? ==> t in s.last && s.last[t] == Blocked(s.calls[t].written)
  }

  lemma NextKeepsSleepersRecorded(s: System, step: Step)
    requires Enabled(s, step) && SleepersRecorded(s)
    ensures SleepersRecorded(Next(s, step))
  {}

  /** A write that starts now and is followed through any run is accounted for at its end,
      however its chunks interleave with those of other writers. */
  lemma {:induction false} WriteReturnsWhatItWrote(s: System, run: seq<Step>, t: Task, base: seq<Byte>,
                                                   bytes: seq<Byte>)
    requires Feasible(s, run) && CallAccounted(s, t, base, bytes) && SleepersRecorded(s)
    requires forall step :: step in run && (step.StartRead? || step.StartWrite?) ==> step.task != t
    ensures CallAccounted(Exec(s, run), t, base, bytes)
    decreases |run|
  {
    if run != [] {
      NextKeepsAccount(s, run[0], t, base, bytes);
      NextKeepsSleepersRecorded(s, run[0]);
      WriteReturnsWhatItWrote(Next(s, run[0]), run[1..], t, base, bytes);
    }
  }

  lemma NextKeepsAccount(s: System, step: Step, t: Task, base: seq<Byte>, bytes: seq<Byte>)
    requires Enabled(s, step) && CallAccounted(s, t, base, bytes) && SleepersRecorded(s)
    requires step.StartRead? || step.StartWrite? ==> step.task != t
    ensures CallAccounted(Next(s, step), t, base, bytes)
  {
    if step.ResumeWrite? && step.task == t {
      var p := s.pipe.(writable := Dispatched(s.pipe.writable, t));
      AfterWriteAccounts(s, p, t, base, bytes, s.calls[t].written);
    } else {
      OthersKeepAccount(s, step, t, base, bytes);
    }
  }

  lemma WriteStartAccounted(s: System, t: Task, bytes: seq<Byte>)
    requires Enabled(s, StartWrite(t, bytes)) && SleepersRecorded(s)
    ensures CallAccounted(Next(s, StartWrite(t, bytes)), t, MovedBy(s.log, t), bytes)
    ensures SleepersRecorded(Next(s, StartWrite(t, bytes)))
  {
    AfterWriteAccounts(s, s.pipe, t, MovedBy(s.log, t), bytes, 0);
  }

  // ---------------------------------------------------------------- end of file and broken pipe

  function Pending(ev: Event): nat {
    |ev.queue| + |ev.transit|
  }

  /** Once the last writer is gone, every schedule of the woken readers makes one reader
      return per step, and readers remain to be scheduled until none is left: nobody waits
      for a writer that cannot come. */
  lemma {:induction false} EveryReaderSeesEndOfFile(s: System, run: seq<Step>)
    requires Inv(s) && s.pipe.writers == 0 && Feasible(s, run)
    requires forall i :: 0 <= i < |run| ==> run[i].ResumeRead?
    ensures var s' := Exec(s, run);
      && Pending(s'.pipe.readable) == Pending(s.pipe.readable) - |run|
      && (Pending(s'.pipe.readable) > 0 ==> exists t :: Enabled(s', ResumeRead(t)))
      && (s.pipe.data == [] ==> s'.pipe.data == [])
    decreases |run|
  {
    if run == [] {
      WokenReaderRemains(s);
    } else {
      EndOfFileStep(s, run[0].task);
      EveryReaderSeesEndOfFile(Next(s, run[0]), run[1..]);
    }
  }

  lemma WokenReaderRemains(s: System)
    requires Inv(s) && s.pipe.writers == 0
    ensures Pending(s.pipe.readable) > 0 ==> exists t :: Enabled(s, ResumeRead(t))
  {
    if Pending(s.pipe.readable) > 0 {
      var t :| t in s.pipe.readable.transit;
      assert Member(s.pipe.readable, t) && Enabled(s, ResumeRead(t));
    }
  }

  /** `t` is outside of any call, and its read has returned; `eof` if with nothing. */
  predicate HasReturned(s: System, t: Task, eof: bool) {
    t !in s.calls && t in s.last && s.last[t].Returned? && (eof ==> s.last[t] == Returned(0))
  }

  lemma EndOfFileStep(s: System, t: Task)
    requires Inv(s) && s.pipe.writers == 0 && Enabled(s, ResumeRead(t))
    ensures var s' := Next(s, ResumeRead(t));
      && Inv(s') && s'.pipe.writers == 0 && t !in s'.calls
      && Pending(s'.pipe.readable) == Pending(s.pipe.readable) - 1
      && HasReturned(s', t, s.pipe.data == []) && (s.pipe.data == [] ==> s'.pipe.data == [])
  {
    NextKeepsInv(s, ResumeRead(t));
    ReadGives(s.pipe.(readable := Dispatched(s.pipe.readable, t)), t, s.calls[t].size);
  }

  /** ... and whoever has returned does not come back: with nothing buffered its answer was the
      end of the file. */
  lemma {:induction false} EveryReaderReturns(s: System, run: seq<Step>, t: Task, eof: bool)
    requires Draining(s, run, eof) && ResumeRead(t) in run
    ensures Feasible(s, run) && HasReturned(Exec(s, run), t, eof)
    decreases |run|
  {
    FirstReturns(s, run, eof);
    if run[0] == ResumeRead(t) {
      ReaderGoneStaysGone(Next(s, run[0]), run[1..], t, eof);
    } else {
      EveryReaderReturns(Next(s, run[0]), run[1..], t, eof);
    }
  }

  /** A run in which woken readers resume, without writers; `eof` if also without data. */
  ghost predicate Draining(s: System, run: seq<Step>, eof: bool) {
    Inv(s) && s.pipe.writers == 0 && (eof ==> s.pipe.data == []) && Feasible(s, run) && AllResume(run)
  }

  ghost predicate AllResume(run: seq<Step>) {
    forall i :: 0 <= i < |run| ==> run[i].ResumeRead?
  }

  lemma FirstReturns(s: System, run: seq<Step>, eof: bool)
    requires Draining(s, run, eof) && run != []
    ensures run == [run[0]] + run[1..] && Enabled(s, run[0]) && Draining(Next(s, run[0]), run[1..], eof)
    ensures run[0] == ResumeRead(run[0].task) && HasReturned(Next(s, run[0]), run[0].task, eof)
  {
    TailResumes(run);
    EndOfFileStep(s, run[0].task);
  }

  lemma TailResumes(run: seq<Step>)
    requires AllResume(run) && run != []
    ensures AllResume(run[1..]) && run == [run[0]] + run[1..] && run[0] == ResumeRead(run[0].task)
  {}

  lemma {:induction false} ReaderGoneStaysGone(s: System, run: seq<Step>, t: Task, eof: bool)
    requires Feasible(s, run) && HasReturned(s, t, eof) && AllResume(run)
    ensures HasReturned(Exec(s, run), t, eof)
    decreases |run|
  {
    if run != [] {
      TailResumes(run);
      ReaderGoneStaysGone(Next(s, run[0]), run[1..], t, eof);
    }
  }

  lemma WokenWriterRemains(s: System)
    requires Inv(s) && s.pipe.readers == 0
    ensures Pending(s.pipe.writable) > 0 ==> exists t :: Enabled(s, ResumeWrite(t))
  {
    if Pending(s.pipe.writable) > 0 {
      var t :| t in s.pipe.writable.transit;
      assert Member(s.pipe.writable, t) && IsWriting(s.calls, t);
      assert Enabled(s, ResumeWrite(t));
    }
  }

  lemma BrokenPipeStep(s: System, t: Task)
    requires Inv(s) && s.pipe.readers == 0 && Enabled(s, ResumeWrite(t))
    ensures var s' := Next(s, ResumeWrite(t));
      && Inv(s') && s'.pipe.readers == 0 && s'.pipe.data == s.pipe.data
      && Pending(s'.pipe.writable) == Pending(s.pipe.writable) - 1 && t !in s'.calls && t in s.calls
      && t in s'.last && s'.last[t] == (if s.calls[t].written > 0 then Returned(s.calls[t].written) else IoError)
  {
    NextKeepsInv(s, ResumeWrite(t));
    assert Member(s.pipe.writable, t) && IsWriting(s.calls, t);
  }

  /** The dual for writers when no reader is left. */
  lemma {:induction false} EveryWriterSeesBrokenPipe(s: System, run: seq<Step>)
    requires Inv(s) && s.pipe.readers == 0 && Feasible(s, run)
    requires forall i :: 0 <= i < |run| ==> run[i].ResumeWrite?
    ensures var s' := Exec(s, run);
      && Pending(s'.pipe.writable) == Pending(s.pipe.writable) - |run|
      && (Pending(s'.pipe.writable) > 0 ==> exists t :: Enabled(s', ResumeWrite(t)))
      && s'.pipe.data == s.pipe.data
    decreases |run|
  {
    if run == [] {
      WokenWriterRemains(s);
    } else {
      BrokenPipeStep(s, run[0].task);
      EveryWriterSeesBrokenPipe(Next(s, run[0]), run[1..]);
    }
  }

  // ---------------------------------------------------------------- where the guarantee stops

  /** `task_terminate` on a task that was woken and has not run yet: it leaves the ready
      queue, and the signal it carried is gone. */
  function WokenReaderKilled(s: System, t: Task): System {
    s.(pipe := s.pipe.(readable := Dispatched(s.pipe.readable, t)), calls := s.calls - {t})
  }

  function WokenWriterKilled(s: System, t: Task): System {
    s.(pipe := s.pipe.(writable := Dispatched(s.pipe.writable, t)), calls := s.calls - {t})
  }

  /** How many woken readers, or woken writers, the state of the pipe calls for. */
  function ReadReasons(p: Pipe): nat {
    (if p.data != [] then 1 else 0) + (if p.writers == 0 then 1 else 0)
  }

  function WriteReasons(p: Pipe): nat {
    (if |p.data| < PIPE_BUFLEN then 1 else 0) + (if p.readers == 0 then 1 else 0)
  }

  /** Killing a woken reader keeps the guarantee exactly when nobody sleeps behind it or
      more woken readers remain than there are reasons to wake. */
  lemma KillingWokenReader(s: System, t: Task)
    requires Inv(s) && t in s.pipe.readable.transit
    ensures PipeInv(WokenReaderKilled(s, t).pipe)
      <==> s.pipe.readable.queue == [] || |s.pipe.readable.transit| > ReadReasons(s.pipe)
  {}

  lemma KillingWokenWriter(s: System, t: Task)
    requires Inv(s) && t in s.pipe.writable.transit
    ensures PipeInv(WokenWriterKilled(s, t).pipe)
      <==> s.pipe.writable.queue == [] || |s.pipe.writable.transit| > WriteReasons(s.pipe)
  {}

  /** Opening an end keeps the guarantee exactly when the 16-bit counter does not wrap to
      zero over sleepers that nobody is about to serve. */
  lemma OpenWriterKeepsCover(p: Pipe)
    requires PipeInv(p)
    ensures PipeInv(OpenWriter(p))
      <==> (p.writers + 1) % COUNTER_MODULUS != 0
           || p.readable.queue == [] || |p.readable.transit| > if p.data != [] then 1 else 0
  {}

  lemma OpenReaderKeepsCover(p: Pipe)
    requires PipeInv(p)
    ensures PipeInv(OpenReader(p))
      <==> (p.readers + 1) % COUNTER_MODULUS != 0
           || p.writable.queue == [] || |p.writable.transit| > if |p.data| < PIPE_BUFLEN then 1 else 0
  {}

  lemma {:induction false} ExecAppended(s: System, run: seq<Step>, step: Step)
    requires Feasible(s, run) && Enabled(Exec(s, run), step)
    ensures Feasible(s, run + [step]) && Exec(s, run + [step]) == Next(Exec(s, run), step)
    decreases |run|
  {
    if run != [] {
      ExecAppended(Next(s, run[0]), run[1..], step);
      assert (run + [step])[1..] == run[1..] + [step];
    }
  }

  /** A run after which killing the woken reader leaves another one asleep next to data. */
  lemma KilledReaderStrandsSleeper() returns (run: seq<Step>)
    ensures Feasible(Init, run) && 1 in Exec(Init, run).pipe.readable.transit
    ensures var p := WokenReaderKilled(Exec(Init, run), 1).pipe;
      p.readable.queue == [2] && p.data == [65] && p.readable.transit == multiset{}
  {
    run := [];
    ExecAppended(Init, run, WriterOpened);
    run := run + [WriterOpened];
    ExecAppended(Init, run, ReaderOpened);
    run := run + [ReaderOpened];
    ExecAppended(Init, run, StartRead(1, 8));
    run := run + [StartRead(1, 8)];
    ExecAppended(Init, run, StartRead(2, 8));
    run := run + [StartRead(2, 8)];
    OneByteWakesFirst(Exec(Init, run));
    ExecAppended(Init, run, StartWrite(3, [65]));
    run := run + [StartWrite(3, [65])];
  }

  lemma OneByteWakesFirst(s: System)
    requires s.pipe == Pipe([], 1, 1, Event(false, [1, 2], multiset{}), Event(false, [], multiset{}))
    requires 3 !in s.calls
    ensures var p := Next(s, StartWrite(3, [65])).pipe;
      p.data == [65] && p.readable == Event(false, [2], multiset{1})
  {
    var one: seq<Byte> := [65];
    assert one[0..1] == one;
    assert Write(s.pipe, 3, one, 0).pipe == WriteChunk(s.pipe, one);
  }

  /** A whole buffer of bytes. */
  function FullBuffer(): (bytes: seq<Byte>)
    ensures |bytes| == PIPE_BUFLEN
  {
    seq(PIPE_BUFLEN, _ => 65)
  }

  lemma FirstWriteFills(s: System)
    requires s.pipe.data == [] && s.pipe.readers > 0 && s.pipe.readable == Event(false, [], multiset{})
    requires 1 !in s.calls
    ensures Next(s, StartWrite(1, FullBuffer())).pipe
      == s.pipe.(data := FullBuffer(), readable := Event(true, [], multiset{}))
    ensures Next(s, StartWrite(1, FullBuffer())).calls == s.calls
  {
    var bytes := FullBuffer();
    assert bytes[0..PIPE_BUFLEN] == bytes;
    assert Write(s.pipe, 1, bytes, 0).pipe == WriteChunk(s.pipe, bytes);
  }

  /** A run after which killing the woken writer leaves another one asleep next to room. */
  lemma KilledWriterStrandsSleeper() returns (run: seq<Step>)
    ensures Feasible(Init, run) && 2 in Exec(Init, run).pipe.writable.transit
    ensures var p := WokenWriterKilled(Exec(Init, run), 2).pipe;
      p.writable.queue == [3] && |p.data| == PIPE_BUFLEN - 8 && p.writable.transit == multiset{}
  {
    run := [];
    ExecAppended(Init, run, ReaderOpened);
    run := run + [ReaderOpened];
    FirstWriteFills(Exec(Init, run));
    ExecAppended(Init, run, StartWrite(1, FullBuffer()));
    run := run + [StartWrite(1, FullBuffer())];
    ExecAppended(Init, run, StartWrite(2, [66]));
    run := run + [StartWrite(2, [66])];
    ExecAppended(Init, run, StartWrite(3, [67]));
    run := run + [StartWrite(3, [67])];
    ExecAppended(Init, run, StartRead(4, 8));
    run := run + [StartRead(4, 8)];
  }

  function Repeated(step: Step, n: nat): seq<Step> {
    if n == 0 then [] else [step] + Repeated(step, n - 1)
  }

  lemma {:induction false} OpenWritersCount(s: System, n: nat)
    requires s.pipe.writers + n < COUNTER_MODULUS
    ensures Feasible(s, Repeated(WriterOpened, n))
    ensures Exec(s, Repeated(WriterOpened, n)) == s.(pipe := s.pipe.(writers := s.pipe.writers + n))
    decreases n
  {
    if n > 0 {
      OpenWritersCount(Next(s, WriterOpened), n - 1);
      assert Repeated(WriterOpened, n)[1..] == Repeated(WriterOpened, n - 1);
    }
  }

  lemma {:induction false} OpenReadersCount(s: System, n: nat)
    requires s.pipe.readers + n < COUNTER_MODULUS
    ensures Feasible(s, Repeated(ReaderOpened, n))
    ensures Exec(s, Repeated(ReaderOpened, n)) == s.(pipe := s.pipe.(readers := s.pipe.readers + n))
    decreases n
  {
    if n > 0 {
      OpenReadersCount(Next(s, ReaderOpened), n - 1);
      assert Repeated(ReaderOpened, n)[1..] == Repeated(ReaderOpened, n - 1);
    }
  }

  /** With 65535 writing ends open and a reader asleep, one more open makes the counter 0:
      the reader sleeps although no writer counts as left, and nobody is under way. */
  lemma OpenWrapStrandsReader() returns (run: seq<Step>)
    ensures Feasible(Init, run)
    ensures var p := OpenWriter(Exec(Init, run).pipe);
      p.writers == 0 && p.readable.queue == [1] && p.readable.transit == multiset{}
  {
    run := Repeated(WriterOpened, COUNTER_MODULUS - 1);
    OpenWritersCount(Init, COUNTER_MODULUS - 1);
    ExecAppended(Init, run, StartRead(1, 8));
    run := run + [StartRead(1, 8)];
  }

  /** With 65535 reading ends open and a writer asleep on a full buffer, one more open makes
      the counter 0: the writer sleeps although no reader counts as left. */
  lemma OpenWrapStrandsWriter() returns (run: seq<Step>)
    ensures Feasible(Init, run)
    ensures var p := OpenReader(Exec(Init, run).pipe);
      p.readers == 0 && p.writable.queue == [2] && p.writable.transit == multiset{}
  {
    run := Repeated(ReaderOpened, COUNTER_MODULUS - 1);
    OpenReadersCount(Init, COUNTER_MODULUS - 1);
    FirstWriteFills(Exec(Init, run));
    ExecAppended(Init, run, StartWrite(1, FullBuffer()));
    run := run + [StartWrite(1, FullBuffer())];
    ExecAppended(Init, run, StartWrite(2, [66]));
    run := run + [StartWrite(2, [66])];
  }
}
