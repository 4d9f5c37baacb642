/**
 The mutable pipe: a ring of `PIPE_BUFLEN` bytes with read and write positions, two event
 objects and the counts of open ends.  Each method is one critical section and is proved
 to do what `PipeProtocol` says.
 */
module PipeImplementation {
  import P = PipeProtocol
  type Byte = P.Byte
  type Task = P.Task

  /** `struct event` together with the tasks its signals have made ready. */
  class Event {
    var signaled: bool
    var queue: seq<Task>
    var ready: multiset<Task>
    const autoReset: bool

    function Value(): P.Event
      reads this
    {
      P.Event(signaled, queue, ready)
    }

    constructor (autoReset: bool)
      ensures Value() == P.Event(false, [], multiset{}) && this.autoReset == autoReset
    {
      this.autoReset := autoReset;
      signaled, queue, ready := false, [], multiset{};
    }

    /** `wait_list_wake_one`. */
    method WakeOne() returns (woken: bool)
      modifies this
      ensures signaled == old(signaled)
      ensures woken <==> old(queue) != []
      ensures woken ==> queue == old(queue)[1..] && ready == old(ready) + multiset{old(queue)[0]}
      ensures !woken ==> queue == old(queue) && ready == old(ready)
    {
      woken := queue != [];
      if woken {
        queue, ready := queue[1..], ready + multiset{queue[0]};
      }
    }

    /** `event_signal`: an auto-reset event passes the signal to one waiter or keeps it; a
        manual one stays signaled and wakes everybody. */
    method Signal()
      modifies this
      ensures autoReset ==> Value() == P.Signal(old(Value()))
      ensures !autoReset ==> Value() == P.Event(true, [], old(ready) + multiset(old(queue)))
    {
      if autoReset {
        var woken := WakeOne();
        signaled := !woken;
      } else {
        signaled := true;
        while queue != []
          invariant signaled
          invariant ready + multiset(queue) == old(ready) + multiset(old(queue))
          decreases |queue|
        {
          assert queue == [queue[0]] + queue[1..];
          var _ := WakeOne();
        }
      }
    }

    method TryAcquire() returns (acquired: bool)
      modifies this
      ensures acquired <==> old(signaled)
      ensures Value() == if autoReset then old(Value()).(signaled := false) else old(Value())
    {
      acquired := signaled;
      if acquired && autoReset {
        signaled := false;
      }
    }

    /** The rest of `event_wait`: the caller goes to sleep at the end of the queue. */
    method Enqueue(t: Task)
      modifies this
      ensures Value() == old(Value()).(queue := old(queue) + [t])
    {
      queue := queue + [t];
    }

    method Reset()
      modifies this
      ensures Value() == old(Value()).(signaled := false)
    {
      signaled := false;
    }
  }

  /** Position `i` of the ring that starts at `rpos`. */
  function At(rpos: nat, i: nat): nat
    requires rpos < P.PIPE_BUFLEN && i <= P.PIPE_BUFLEN
  {
    if rpos + i < P.PIPE_BUFLEN then rpos + i else rpos + i - P.PIPE_BUFLEN
  }

  /** The `count` bytes that the ring `b` holds from `rpos` on. */
  ghost function Unroll(b: seq<Byte>, rpos: nat, count: nat): (s: seq<Byte>)
    requires |b| == P.PIPE_BUFLEN && rpos < P.PIPE_BUFLEN && count <= P.PIPE_BUFLEN
    ensures |s| == count
  {
    if count == 0 then [] else Unroll(b, rpos, count - 1) + [b[At(rpos, count - 1)]]
  }

  lemma {:induction false} UnrollIndex(b: seq<Byte>, rpos: nat, count: nat)
    requires |b| == P.PIPE_BUFLEN && rpos < P.PIPE_BUFLEN && count <= P.PIPE_BUFLEN
    ensures forall i :: 0 <= i < count ==> Unroll(b, rpos, count)[i] == b[At(rpos, i)]
  {
    if count > 0 {
      UnrollIndex(b, rpos, count - 1);
    }
  }

  lemma UnrollDrop(b: seq<Byte>, rpos: nat, count: nat, n: nat)
    requires |b| == P.PIPE_BUFLEN && rpos < P.PIPE_BUFLEN && n <= count <= P.PIPE_BUFLEN
    ensures Unroll(b, At(rpos, n), count - n) == Unroll(b, rpos, count)[n..]
  {
    UnrollIndex(b, rpos, count);
    UnrollIndex(b, At(rpos, n), count - n);
  }

  /** Storing a byte behind the `count` ones extends the contents by it. */
  lemma UnrollStore(b: seq<Byte>, rpos: nat, count: nat, x: Byte)
    requires |b| == P.PIPE_BUFLEN && rpos < P.PIPE_BUFLEN && count < P.PIPE_BUFLEN
    ensures Unroll(b[At(rpos, count) := x], rpos, count + 1) == Unroll(b, rpos, count) + [x]
  {
    UnrollIndex(b, rpos, count);
    UnrollIndex(b[At(rpos, count) := x], rpos, count);
  }

  datatype OpenMode = OpenRead | OpenWrite | OpenOther
  datatype OpenResult = Opened | NotSupported | OutOfMemory

  datatype Room = HasRoom | NoReader | Sleeping

  class PipeFs {
    const buffer: array<Byte>
    var rpos: nat
    var wpos: nat
    var count: nat
    var readers: nat
    var writers: nat
    const readable: Event
    const writable: Event

    ghost predicate Valid()
      reads this, buffer
    {
      && buffer.Length == P.PIPE_BUFLEN
      && rpos < P.PIPE_BUFLEN && count <= P.PIPE_BUFLEN && wpos == At(rpos, count)
      && readable != writable && readable.autoReset && writable.autoReset
    }

    ghost function Contents(): seq<Byte>
      requires Valid()
      reads this, buffer
    {
      Unroll(buffer[..], rpos, count)
    }

    ghost function Value(): P.Pipe
      requires Valid()
      reads this, buffer, readable, writable
    {
      P.Pipe(Contents(), readers, writers, readable.Value(), writable.Value())
    }

    constructor ()
      ensures Valid() && fresh(buffer) && fresh(readable) && fresh(writable)
      ensures Value() == P.Init.pipe
    {
      buffer := new Byte[P.PIPE_BUFLEN];
      rpos, wpos, count, readers, writers := 0, 0, 0, 0, 0;
      readable := new Event(true);
      writable := new Event(true);
    }

    /** `pipe_inode_open`; `hasMemory` says whether the file object could be allocated. */
    method Open(mode: OpenMode, hasMemory: bool) returns (result: OpenResult)
      requires Valid()
      modifies this`readers, this`writers
      ensures Valid()
      ensures result == if mode.OpenOther? then NotSupported else if hasMemory then Opened else OutOfMemory
      ensures Value() ==
        if !result.Opened? then old(Value())
        else if mode.OpenRead? then P.OpenReader(old(Value())) else P.OpenWriter(old(Value()))
    {
      if mode.OpenOther? {
        return NotSupported;
      }
      if !hasMemory {
        return OutOfMemory;
      }
      if mode.OpenRead? {
        readers := (readers + 1) % P.COUNTER_MODULUS;
      } else {
        writers := (writers + 1) % P.COUNTER_MODULUS;
      }
      return Opened;
    }

    method CloseReader()
      requires Valid() && readers > 0
      modifies this`readers, writable
      ensures Valid() && Value() == P.CloseReader(old(Value()))
    {
      readers := readers - 1;
      writable.Signal();
    }

    method CloseWriter()
      requires Valid() && writers > 0
      modifies this`writers, readable
      ensures Valid() && Value() == P.CloseWriter(old(Value()))
    {
      writers := writers - 1;
      readable.Signal();
    }

    /** `pipe_read_some`: take up to `size` bytes from the front of the ring. */
    method ReadSome(size: nat) returns (out: seq<Byte>)
      requires Valid()
      modifies this`rpos, this`count
      ensures Valid() && |out| == P.Min(size, old(count))
      ensures out == old(Contents())[..|out|] && Contents() == old(Contents())[|out|..]
    {
      var n := P.Min(size, count);
      out := [];
      UnrollIndex(buffer[..], rpos, count);
      for i := 0 to n
        invariant rpos == At(old(rpos), i) && count == old(count)
        invariant out == old(Contents())[..i]
      {
        out := out + [buffer[rpos]];
        rpos := rpos + 1;
        if rpos >= P.PIPE_BUFLEN {
          rpos := 0;
        }
      }
      UnrollDrop(buffer[..], old(rpos), count, n);
      count := count - n;
    }

    /** The body of the loop of `pipe_write_some`, with `k` bytes in the ring. */
    method PutByte(x: Byte, ghost k: nat)
      requires buffer.Length == P.PIPE_BUFLEN && rpos < P.PIPE_BUFLEN && k < P.PIPE_BUFLEN && wpos == At(rpos, k)
      modifies this`wpos, buffer
      ensures wpos == At(rpos, k + 1)
      ensures Unroll(buffer[..], rpos, k + 1) == Unroll(old(buffer[..]), rpos, k) + [x]
    {
      UnrollStore(buffer[..], rpos, k, x);
      buffer[wpos] := x;
      assert buffer[..] == old(buffer[..])[old(wpos) := x];
      wpos := wpos + 1;
      if wpos >= P.PIPE_BUFLEN {
        wpos := 0;
      }
    }

    /** `pipe_write_some`: append as much of `bytes` as fits. */
    method WriteSome(bytes: seq<Byte>) returns (n: nat)
      requires Valid()
      modifies this`wpos, this`count, buffer
      ensures Valid() && n == P.Min(|bytes|, P.PIPE_BUFLEN - old(count))
      ensures Contents() == old(Contents()) + bytes[..n]
    {
      var space := P.PIPE_BUFLEN - count;
      n := P.Min(|bytes|, space);
      ghost var held := Contents();
      for i := 0 to n
        invariant count == old(count) && count + i <= P.PIPE_BUFLEN && wpos == At(rpos, count + i)
        invariant Unroll(buffer[..], rpos, count + i) == held + bytes[..i]
      {
        PutByte(bytes[i], count + i);
        assert held + bytes[..i + 1] == held + bytes[..i] + [bytes[i]];
      }
      count := count + n;
    }

    /** `pipe_file_read` from a (re)entry of its loop to its return or its next sleep. */
    method Read(t: Task, size: nat) returns (outcome: P.Outcome, out: seq<Byte>)
      requires Valid()
      modifies this`rpos, this`count, readable, writable
      ensures Valid()
      ensures size == 0 ==> Value() == old(Value()) && outcome == P.Returned(0) && out == []
      ensures size > 0 ==> P.Result(Value(), outcome, out) == P.Read(old(Value()), t, size)
      ensures size > 0 && old(count) == 0 ==>
        out == [] && outcome == if writers == 0 then P.Returned(0) else P.Blocked(0)
      ensures size > 0 && old(count) > 0 ==> outcome == P.Returned(|out|) && 0 < |out| <= size
      ensures |out| <= old(count) && out == old(Contents())[..|out|] && Contents() == old(Contents())[|out|..]
    {
      if size == 0 {
        return P.Returned(0), [];
      }
      while count == 0
        invariant Valid() && unchanged(this) && unchanged(writable)
        invariant count == 0 || unchanged(readable)
        invariant readable.Value() == old(readable.Value()) || readable.Value() ==
          old(readable.Value()).(signaled := false)
        decreases readable.signaled
      {
        if writers == 0 {
          assert Contents() == old(Contents()) == [];
          readable.Signal();
          return P.Returned(0), [];
        }
        var acquired := readable.TryAcquire();
        if !acquired {
          readable.Enqueue(t);
          return P.Blocked(0), [];
        }
      }
      out := ReadSome(size);
      writable.Signal();
      if count > 0 {
        readable.Signal();
      }
      outcome := P.Returned(|out|);
    }

    /** The inner loop of `pipe_file_write`. */
    method AwaitRoom(t: Task) returns (room: Room)
      requires Valid()
      modifies writable
      ensures Valid()
      ensures room == if readers == 0 then NoReader else if count < P.PIPE_BUFLEN then HasRoom else Sleeping
      ensures room.HasRoom? ==> Value() == old(Value())
      ensures room.NoReader? ==> Value() == old(Value()).(writable := P.Signal(old(writable.Value())))
      ensures room.Sleeping? ==> Value() == old(Value()).(writable := P.Sleep(old(writable.Value()), t))
    {
      while true
        invariant Valid() && unchanged(this) && unchanged(readable) && unchanged(buffer)
        invariant writable.Value() == old(writable.Value())
          || (readers > 0 && count == P.PIPE_BUFLEN && writable.Value() == old(writable.Value()).(signaled := false))
        decreases writable.signaled
      {
        if readers == 0 {
          writable.Signal();
          return NoReader;
        }
        if count < P.PIPE_BUFLEN {
          return HasRoom;
        }
        var acquired := writable.TryAcquire();
        if !acquired {
          writable.Enqueue(t);
          return Sleeping;
        }
      }
    }

    /** One pass of the outer loop of `pipe_file_write`, with room in the ring. */
    method PutChunk(bytes: seq<Byte>) returns (n: nat)
      requires Valid()
      modifies this`wpos, this`count, buffer, readable, writable
      ensures Valid() && n == P.Min(|bytes|, P.PIPE_BUFLEN - old(count))
      ensures Value() == P.WriteChunk(old(Value()), bytes[..n])
    {
      n := WriteSome(bytes);
      readable.Signal();
      if count < P.PIPE_BUFLEN {
        writable.Signal();
      }
    }

    /** One pass of the outer loop of `pipe_file_write`: it ends the run, or moves `n` bytes. */
    method WritePass(t: Task, bytes: seq<Byte>, written: nat)
      returns (ends: bool, outcome: P.Outcome, n: nat, ghost chunk: seq<Byte>)
      requires Valid() && written < |bytes|
      modifies this`wpos, this`count, buffer, readable, writable
      ensures Valid()
      ensures ends ==> P.Result(Value(), outcome, []) == P.Write(old(Value()), t, bytes, written)
      ensures !ends ==> 0 < n <= |bytes| - written
      ensures !ends ==>
        Continues(P.Write(old(Value()), t, bytes, written), chunk, P.Write(Value(), t, bytes, written + n))
    {
      ghost var before := Value();
      outcome, n, chunk := P.Returned(written), 0, [];
      var room := AwaitRoom(t);
      ends := !room.HasRoom?;
      if room.NoReader? {
        outcome := if written > 0 then P.Returned(written) else P.IoError;
      } else if room.Sleeping? {
        outcome := P.Blocked(written);
      } else {
        n := PutChunk(bytes[written..]);
        chunk := bytes[written..written + n];
        ChunkContinues(before, t, bytes, written, n);
      }
    }

    /** `pipe_file_write` from a (re)entry of its loop, with `start` bytes written, to its
        return or its next sleep.  `accepted` is what this run put into the pipe. */
    method Write(t: Task, bytes: seq<Byte>, start: nat) returns (outcome: P.Outcome, ghost accepted: seq<Byte>)
      requires Valid() && start <= |bytes|
      modifies this`wpos, this`count, buffer, readable, writable
      ensures Valid()
      ensures P.Result(Value(), outcome, accepted) == P.Write(old(Value()), t, bytes, start)
    {
      accepted := [];
      var written := start;
      ghost var whole := P.Write(Value(), t, bytes, start);
      while written < |bytes|
        invariant Valid() && start <= written <= |bytes|
        invariant Continues(whole, accepted, P.Write(Value(), t, bytes, written))
        decreases |bytes| - written
      {
        ghost var rest := P.Write(Value(), t, bytes, written);
        var ends, result, n, chunk := WritePass(t, bytes, written);
        if ends {
          return result, accepted;
        }
        Continued(whole, accepted, rest, chunk, P.Write(Value(), t, bytes, written + n));
        accepted := accepted + chunk;
        written := written + n;
      }
      outcome := P.Returned(written);
    }
  }

  /** Having accepted `sofar`, the run `rest` completes the run `whole`. */
  ghost predicate Continues(whole: P.Result, sofar: seq<Byte>, rest: P.Result) {
    whole == rest.(moved := sofar + rest.moved)
  }

  lemma ChunkContinues(p: P.Pipe, t: Task, bytes: seq<Byte>, written: nat, n: nat)
    requires written < |bytes| && |p.data| < P.PIPE_BUFLEN && p.readers > 0
    requires n == P.Min(|bytes| - written, P.PIPE_BUFLEN - |p.data|)
    ensures bytes[written..][..n] == bytes[written..written + n]
    ensures var chunk := bytes[written..written + n];
      Continues(P.Write(p, t, bytes, written), chunk, P.Write(P.WriteChunk(p, chunk), t, bytes, written + n))
  {}

  lemma Continued(whole: P.Result, sofar: seq<Byte>, rest: P.Result, more: seq<Byte>, rest': P.Result)
    requires Continues(whole, sofar, rest) && Continues(rest, more, rest')
    ensures Continues(whole, sofar + more, rest')
  {
    assert sofar + (more + rest'.moved) == sofar + more + rest'.moved;
  }
}
