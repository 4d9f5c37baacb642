/**
 The request ring of kernel/src/fs/disk.c.  Requests are numbered in the order they are
 submitted; number `a` uses slot `a % capacity`.
 */
module DiskRing {
  import opened Division

  datatype ReqState = Queued | Inflight | Done | Released

  datatype Request = Request(info: nat, state: ReqState, result: int)

  lemma SlotsDiffer(a: nat, b: nat, capacity: nat)
    requires capacity > 0 && a < b < a + capacity
    ensures a % capacity != b % capacity
  {
    var q, r := a / capacity, a % capacity;
    DivMod(a, capacity);
    if r + (b - a) < capacity {
      DivUnique(b, capacity, q, r + (b - a));
    } else {
      Regroup(1, q, 1, capacity);
      DivUnique(b, capacity, q + 1, r + (b - a) - capacity);
    }
  }

  lemma OwnSlot(a: nat, b: nat, capacity: nat)
    requires capacity > 0 && b < a + capacity
    ensures a <= b ==> (a % capacity == b % capacity <==> a == b)
  {
    if a < b {
      SlotsDiffer(a, b, capacity);
    }
  }

  lemma NextSlot(a: nat, capacity: nat)
    requires capacity > 0
    ensures (a % capacity + 1) % capacity == (a + 1) % capacity
  {
    var q, r := a / capacity, a % capacity;
    DivMod(a, capacity);
    if r + 1 < capacity {
      DivUnique(a + 1, capacity, q, r + 1);
      DivUnique(r + 1, capacity, 0, r + 1);
    } else {
      Regroup(1, q, 1, capacity);
      DivUnique(a + 1, capacity, q + 1, 0);
      DivUnique(r + 1, capacity, 1, 0);
    }
  }

  function At(slots: seq<Request>, a: nat): Request
    requires |slots| > 0
  {
    slots[a % |slots|]
  }

  /**
   Requests below `base` have left the ring, those below `completed` are done, those below
   `|infos|` are submitted; `released` are those whose owner has given them back.
   */
  ghost predicate RingLoose(slots: seq<Request>, base: nat, completed: nat, infos: seq<nat>, outcomes: seq<int>,
                            inflight: bool, released: set<nat>) {
    && 0 < |slots| && base <= completed <= |infos| <= base + |slots| && |outcomes| == completed
    && (inflight ==> completed < |infos|)
    && (forall a: nat :: base <= a < |infos| ==>
        At(slots, a).info == infos[a] && At(slots, a).state == StateOf(a, completed, inflight, released))
    && (forall a: nat :: base <= a < completed ==> At(slots, a).result == outcomes[a])
    && (forall a: nat :: a < base ==> a in released) && (forall a: nat :: a in released ==> a < completed)
  }

  /** Between operations the oldest request in the ring is not a released one. */
  ghost predicate RingOk(slots: seq<Request>, base: nat, completed: nat, infos: seq<nat>, outcomes: seq<int>,
                         inflight: bool, released: set<nat>) {
    RingLoose(slots, base, completed, infos, outcomes, inflight, released) && (base < completed ==> base !in released)
  }

  function StateOf(a: nat, completed: nat, inflight: bool, released: set<nat>): ReqState {
    if a < completed then (if a in released then Released else Done)
    else if a == completed && inflight then Inflight
    else Queued
  }

  /** Writing the slot of one request leaves the other requests of the window alone. */
  lemma OthersStay(slots: seq<Request>, base: nat, end: nat, a: nat, req: Request)
    requires |slots| > 0 && base <= a < end <= base + |slots|
    ensures var slots' := slots[a % |slots| := req];
      At(slots', a) == req && forall b: nat :: base <= b < end && b != a ==> At(slots', b) == At(slots, b)
  {
    var slots' := slots[a % |slots| := req];
    forall b: nat | base <= b < end && b != a
      ensures At(slots', b) == At(slots, b)
    {
      if a < b {
        SlotsDiffer(a, b, |slots|);
      } else {
        SlotsDiffer(b, a, |slots|);
      }
    }
  }

  lemma Submitted(slots: seq<Request>, base: nat, completed: nat, infos: seq<nat>, outcomes: seq<int>, inflight: bool,
                  released: set<nat>, info: nat, result: int)
    requires RingOk(slots, base, completed, infos, outcomes, inflight, released) && |infos| < base + |slots|
    ensures var a := |infos|;
      RingOk(slots[a % |slots| := Request(info, Queued, result)], base, completed, infos + [info], outcomes, inflight,
             released)
  {
    OthersStay(slots, base, |infos| + 1, |infos|, Request(info, Queued, result));
  }

  lemma Fetched(slots: seq<Request>, base: nat, completed: nat, infos: seq<nat>, outcomes: seq<int>, released: set<nat>)
    requires RingOk(slots, base, completed, infos, outcomes, false, released) && completed < |infos|
    ensures At(slots, completed).state == Queued
    ensures RingOk(slots[completed % |slots| := At(slots, completed).(state := Inflight)], base, completed, infos,
                   outcomes, true, released)
  {
    OthersStay(slots, base, |infos|, completed, At(slots, completed).(state := Inflight));
  }

  lemma Completed(slots: seq<Request>, base: nat, completed: nat, infos: seq<nat>, outcomes: seq<int>,
                  released: set<nat>, result: int)
    requires RingOk(slots, base, completed, infos, outcomes, true, released)
    ensures At(slots, completed).state == Inflight
    ensures RingOk(slots[completed % |slots| := At(slots, completed).(state := Done, result := result)],
                   base, completed + 1, infos, outcomes + [result], false, released)
  {
    OthersStay(slots, base, |infos|, completed, At(slots, completed).(state := Done, result := result));
  }

  lemma GivenBack(slots: seq<Request>, base: nat, completed: nat, infos: seq<nat>, outcomes: seq<int>, inflight: bool,
                  released: set<nat>, a: nat)
    requires RingOk(slots, base, completed, infos, outcomes, inflight, released) && a < completed && a !in released
    ensures base <= a && At(slots, a).state == Done && At(slots, a).result == outcomes[a]
    ensures RingLoose(slots[a % |slots| := At(slots, a).(state := Released)], base, completed, infos, outcomes,
                      inflight, released + {a})
  {
    OthersStay(slots, base, |infos|, a, At(slots, a).(state := Released));
  }
}

/** The operations on the ring. */
module DiskQueues {
  import opened Wrappers
  import opened Division
  import opened DiskRing

  class DiskQueue {
    var slots: seq<Request>
    var countDoing: nat
    var countDone: nat
    var wpos: nat
    var fpos: nat
    var rpos: nat
    ghost var base: nat           // requests that have left the ring
    ghost var completed: nat      // requests that are done
    ghost var infos: seq<nat>     // all requests, in the order they were submitted
    ghost var outcomes: seq<int>  // the results of those that are done
    ghost var inflight: bool      // the driver works on a request
    ghost var released: set<nat>  // requests given back by their owners

    ghost predicate Placed()
      reads this
    {
      && |slots| > 0 && base <= completed <= |infos|
      && rpos == base % |slots| && fpos == completed % |slots| && wpos == |infos| % |slots|
      && countDone == completed - base && countDoing == |infos| - completed
    }

    ghost predicate Valid()
      reads this
    {
      Placed() && RingOk(slots, base, completed, infos, outcomes, inflight, released)
    }

    constructor (buffer: seq<Request>)
      requires |buffer| > 0
      ensures Valid() && |slots| == |buffer| && infos == [] && released == {} && !inflight
    {
      slots, countDoing, countDone, wpos, fpos, rpos := buffer, 0, 0, 0, 0, 0;
      base, completed, infos, outcomes, inflight, released := 0, 0, [], [], false, {};
    }

    /** `submit_request`: the slot that the request gets belongs to no request still in use. */
    method Submit(info: nat) returns (slot: Option<nat>)
      requires Valid()
      modifies this`slots, this`wpos, this`countDoing, this`infos
      ensures Valid() && |slots| == |old(slots)|
      ensures slot.None? <==> |old(infos)| == base + |slots|
      ensures slot.None? ==> infos == old(infos)
      ensures slot.Some? ==> infos == old(infos) + [info] && slot.value == |old(infos)| % |slots|
      ensures slot.Some? ==> forall a: nat :: a < |old(infos)| && a !in released ==> a % |slots| != slot.value
    {
      if countDoing + countDone >= |slots| {
        return None;
      }
      Submitted(slots, base, completed, infos, outcomes, inflight, released, info, slots[wpos].result);
      NextSlot(|infos|, |slots|);
      slot := Some(wpos);
      slots := slots[wpos := Request(info, Queued, slots[wpos].result)];
      infos := infos + [info];
      wpos := (wpos + 1) % |slots|;
      countDoing := countDoing + 1;
      forall a: nat | a < |old(infos)| && a !in released
        ensures a % |slots| != slot.value
      {
        SlotsDiffer(a, |old(infos)|, |slots|);
      }
    }

    /** `disk_req_queue_fetch` by a driver that is idle: the oldest request that is not done. */
    method Fetch() returns (slot: Option<nat>)
      requires Valid() && !inflight
      modifies this`slots, this`inflight
      ensures Valid() && |slots| == |old(slots)|
      ensures slot.None? <==> completed == |infos|
      ensures inflight == slot.Some?
      ensures slot.Some? ==> slot.value == completed % |slots| && slots[slot.value].info == infos[completed]
    {
      if countDoing == 0 {
        return None;
      }
      Fetched(slots, base, completed, infos, outcomes, released);
      slots := slots[fpos := slots[fpos].(state := Inflight)];
      inflight := true;
      return Some(fpos);
    }

    /** `disk_req_queue_pop_fetched`: that request, and no other, is done. */
    method PopFetched(result: int)
      requires Valid() && inflight
      modifies this`slots, this`inflight, this`fpos, this`countDoing, this`countDone, this`completed, this`outcomes
      ensures Valid() && !inflight && |slots| == |old(slots)|
      ensures completed == old(completed) + 1 && outcomes == old(outcomes) + [result]
    {
      Completed(slots, base, completed, infos, outcomes, released, result);
      NextSlot(completed, |slots|);
      slots := slots[fpos := slots[fpos].(state := Done, result := result)];
      inflight, completed, outcomes := false, completed + 1, outcomes + [result];
      fpos := (fpos + 1) % |slots|;
      countDoing := countDoing - 1;
      countDone := countDone + 1;
    }

    /** The first loop of `disk_request_release`: released requests leave the ring. */
    method PopReleased(slot: nat, ghost a: nat) returns (found: bool)
      requires Placed() && RingLoose(slots, base, completed, infos, outcomes, inflight, released)
      requires base <= a < completed && slot == a % |slots|
      modifies this`rpos, this`countDone, this`base
      ensures Valid() && base >= old(base) && (found <==> a < base)
    {
      found := false;
      while countDone > 0 && slots[rpos].state == Released
        invariant Placed() && RingLoose(slots, base, completed, infos, outcomes, inflight, released)
        invariant old(base) <= base && (found <==> a < base)
        decreases countDone
      {
        assert At(slots, base).state == StateOf(base, completed, inflight, released);
        OwnSlot(base, a, |slots|);
        if rpos == slot {
          found := true;
        }
        NextSlot(base, |slots|);
        rpos := (rpos + 1) % |slots|;
        countDone := countDone - 1;
        base := base + 1;
      }
      assert base < completed ==> At(slots, base).state == StateOf(base, completed, inflight, released);
    }

    /** The second loop of `disk_request_release`: is the request among those left? */
    method StillThere(slot: nat, ghost a: nat) returns (found: bool)
      requires Valid() && base <= a < completed && slot == a % |slots|
      ensures found
    {
      var pos, remaining, size := rpos, countDone, |slots|;
      ghost var b, end := base, completed;
      found := false;
      while !found && remaining > 0
        invariant !found ==> b <= a && pos == b % size && remaining == end - b
        decreases remaining, !found
      {
        if pos == slot {
          found := true;
        } else {
          NextSlot(b, size);
          pos := (pos + 1) % size;
          remaining := remaining - 1;
          b := b + 1;
        }
      }
    }

    /** `disk_request_release` by the owner of the done request `a`, in any order: its result is
        the one the driver gave it, and the check for a stray request never fails. */
    method Release(slot: nat, ghost a: nat) returns (found: bool, result: int)
      requires Valid() && a < completed && a !in released && slot == a % |slots|
      modifies this`slots, this`rpos, this`countDone, this`base, this`released
      ensures Valid() && |slots| == |old(slots)|
      ensures found && result == outcomes[a] && released == old(released) + {a}
    {
      GivenBack(slots, base, completed, infos, outcomes, inflight, released, a);
      slots := slots[slot := slots[slot].(state := Released)];
      released := released + {a};
      result := slots[slot].result;
      found := PopReleased(slot, a);
      if !found {
        found := StillThere(slot, a);
      }
    }
  }
}
