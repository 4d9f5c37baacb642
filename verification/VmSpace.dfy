/** A plain map from addresses to entries, and what the operations of the tree mean for it. */
module AddressSpace {
  const TOP: nat := 0xFFFF_FFFF_FFFF_FFFF  // UINTPTR_MAX
  const HOLE: nat := 0

  type Word = x: nat | x <= TOP

  datatype Status = Ok | NoEnt | Exists | Inval | NoMem

  datatype Op =
    | Insert(start: Word, end: Word, entry: nat)
    | Set(start: Word, end: Word, entry: nat)
    | Remove(start: Word, end: Word)

  /** An entry for every address; `HOLE` where nothing is mapped. */
  type Space = imap<nat, nat>

  ghost function Put(m: Space, start: nat, end: nat, entry: nat): Space {
    imap a | a in m :: if start <= a < end then entry else m[a]
  }

  ghost predicate AnyHole(m: Space, start: nat, end: nat) {
    exists a :: start <= a < end && a in m && m[a] == HOLE
  }

  ghost predicate AnyMapped(m: Space, start: nat, end: nat) {
    exists a :: start <= a < end && a in m && m[a] != HOLE
  }

  /** What an operation answers when memory does not run out. */
  ghost function Verdict(m: Space, op: Op): Status {
    if op.start > op.end || (!op.Remove? && op.entry == HOLE) then Inval
    else if op.start == op.end then Ok
    else if op.Insert? && AnyMapped(m, op.start, op.end) then Exists
    else if op.Set? && AnyHole(m, op.start, op.end) then NoEnt
    else Ok
  }

  ghost function Effect(m: Space, op: Op): Space {
    Put(m, op.start, op.end, if op.Remove? then HOLE else op.entry)
  }

  /** The answer and the new map of an operation; `refused` says that memory ran out. */
  ghost predicate Outcome(m: Space, op: Op, refused: bool, status: Status, m': Space) {
    && status == (if refused then NoMem else Verdict(m, op))
    && (refused ==> Verdict(m, op).Ok? && op.start < op.end)
    && m' == if status.Ok? then Effect(m, op) else m
  }

  /** The map after a run of operations, of which those answered `Ok` took effect. */
  ghost function After(m: Space, ops: seq<Op>, answers: seq<Status>): Space
    requires |answers| == |ops|
  {
    if ops == [] then m
    else
      var n := |ops| - 1;
      var m' := After(m, ops[..n], answers[..n]);
      if answers[n].Ok? then Effect(m', ops[n]) else m'
  }

  /** Every answer is the one the plain map calls for, unless memory ran out. */
  ghost predicate Answered(m: Space, ops: seq<Op>, answers: seq<Status>) {
    |answers| == |ops| && forall i :: 0 <= i < |ops| ==>
      answers[i] == NoMem || answers[i] == Verdict(After(m, ops[..i], answers[..i]), ops[i])
  }

  lemma OneMore(m: Space, ops: seq<Op>, i: nat, answers: seq<Status>, answer: Status)
    requires i < |ops| && Answered(m, ops[..i], answers)
    requires answer == NoMem || answer == Verdict(After(m, ops[..i], answers), ops[i])
    ensures Answered(m, ops[..i + 1], answers + [answer])
    ensures After(m, ops[..i + 1], answers + [answer]) ==
      if answer.Ok? then Effect(After(m, ops[..i], answers), ops[i]) else After(m, ops[..i], answers)
  {
    var now, next, answers' := ops[..i], ops[..i + 1], answers + [answer];
    assert next[..i] == now && answers'[..i] == answers;
    forall j | 0 <= j < i
      ensures next[..j] == now[..j] && answers'[..j] == answers[..j]
    {}
  }

  ghost predicate Empty(m: Space) {
    forall a :: a in m ==> m[a] == HOLE
  }

  /** What was inserted can be removed, which gives the old map back, and set, but not inserted
      again; what was removed can be inserted but not set. */
  lemma InsertThenRemove(m: Space, start: Word, end: Word, entry: nat, other: nat)
    requires start < end && start in m && entry != HOLE && other != HOLE && Verdict(m, Insert(start, end, entry)).Ok?
    ensures var m' := Effect(m, Insert(start, end, entry));
      && Verdict(m', Remove(start, end)).Ok? && Effect(m', Remove(start, end)) == m
      && Verdict(m', Set(start, end, other)).Ok? && Verdict(m', Insert(start, end, other)).Exists?
      && Verdict(m, Set(start, end, other)).NoEnt?
  {
    var m' := Effect(m, Insert(start, end, entry));
    assert m'[start] == entry && m[start] == HOLE;
    assert Effect(m', Remove(start, end)) == m;
  }

  /** An operation is refused exactly for an empty name or a backward range, or for what is, or is
      not, mapped somewhere in the range. */
  lemma VerdictIff(m: Space, op: Op)
    ensures Verdict(m, op).Ok? <==>
      && op.start <= op.end && (op.Remove? || op.entry != HOLE)
      && (op.Insert? ==> forall a :: op.start <= a < op.end && a in m ==> m[a] == HOLE)
      && (op.Set? ==> forall a :: op.start <= a < op.end && a in m ==> m[a] != HOLE)
  {}

  lemma IsPut(m: Space, m': Space, start: nat, end: nat, entry: nat)
    requires forall a :: a in m <==> a in m'
    requires forall a :: a in m ==> m'[a] == if start <= a < end then entry else m[a]
    ensures m' == Put(m, start, end, entry) && (start >= end ==> m' == m)
  {}
}

/**
 The interval tree of kernel/src/utils/vmtree.c as a map from addresses to entries: its public
 operations against a plain map, and its iterator.
 */
module VmSpace {
  import opened MultisetSums
  import opened VmShape
  import opened VmNodes
  import opened AddressSpace

  ghost function SpaceOf(t: Tree): Space {
    imap a: nat | a < TOP :: At(t, a)
  }

  // ---------------------------------------------------------------- lookup

  datatype Interval = Interval(start: nat, end: nat, entry: nat)

  /** All of the interval maps to its entry. */
  ghost predicate Maps(t: Tree, r: Interval) {
    r.start < r.end <= TOP && forall a :: r.start <= a < r.end ==> At(t, a) == r.entry
  }

  /** The range `lo..hi` of `root` is the node `t`. */
  ghost predicate Inside(root: Tree, t: Tree, lo: nat, hi: nat) {
    && Wf(t, lo, hi) && Boundary(root, 0, TOP, lo) && Boundary(root, 0, TOP, hi)
    && (forall a :: lo <= a < hi ==> At(root, a) == At(t, a))
    && (forall x :: lo < x < hi ==> (Boundary(root, 0, TOP, x) <==> Boundary(t, lo, hi, x)))
  }

  lemma PivotBoundary(t: Tree, lo: nat, hi: nat, j: nat)
    requires Wf(t, lo, hi) && j < |t.pivots|
    ensures Boundary(t, lo, hi, t.pivots[j])
  {
    if t.Internal? {
      var x := t.pivots[j];
      SlotRange(t.pivots, lo, hi, x);
      assert Lo(t.pivots, j + 1, lo) == x < Hi(t.pivots, j + 1, hi);
    }
  }

  lemma SlotBoundaries(root: Tree, t: Tree, lo: nat, hi: nat, i: nat)
    requires Inside(root, t, lo, hi) && i <= |t.pivots|
    ensures Boundary(root, 0, TOP, Lo(t.pivots, i, lo)) && Boundary(root, 0, TOP, Hi(t.pivots, i, hi))
  {
    if i > 0 {
      PivotBoundary(t, lo, hi, i - 1);
    }
    if i < |t.pivots| {
      PivotBoundary(t, lo, hi, i);
    }
  }

  lemma Descend(root: Tree, t: Tree, lo: nat, hi: nat, i: nat)
    requires Inside(root, t, lo, hi) && t.Internal? && i <= |t.pivots|
    ensures Inside(root, t.kids[i], Lo(t.pivots, i, lo), Hi(t.pivots, i, hi))
  {
    var lo', hi' := Lo(t.pivots, i, lo), Hi(t.pivots, i, hi);
    SlotBoundaries(root, t, lo, hi, i);
    SlotContent(t, lo, hi, i);
    forall x | lo' < x < hi'
      ensures Boundary(root, 0, TOP, x) <==> Boundary(t.kids[i], lo', hi', x)
    {
      SlotRange(t.pivots, lo, hi, x);
    }
  }

  lemma LeafSlot(root: Tree, t: Tree, lo: nat, hi: nat, i: nat)
    requires Inside(root, t, lo, hi) && t.Leaf? && i <= |t.pivots| && hi <= TOP
    ensures Maps(root, Interval(Lo(t.pivots, i, lo), Hi(t.pivots, i, hi), t.slots[i]))
    ensures forall x :: Lo(t.pivots, i, lo) < x < Hi(t.pivots, i, hi) ==> !Boundary(root, 0, TOP, x)
  {
    SlotContent(t, lo, hi, i);
    forall x | Lo(t.pivots, i, lo) < x < Hi(t.pivots, i, hi)
      ensures x !in t.pivots
    {
      if x in t.pivots {
        NotInside(t.pivots, lo, hi, x, i);
      }
    }
  }

  /** `vmtree_get`: the part around `addr` that one slot of a leaf describes. */
  method Get(root: Tree, addr: Word) returns (r: Interval)
    requires Wf(root, 0, TOP)
    ensures addr == TOP ==> r == Interval(TOP, TOP, HOLE)
    ensures addr < TOP ==> r.start <= addr < r.end && Maps(root, r) && Boundary(root, 0, TOP, r.end)
    ensures addr < TOP && Boundary(root, 0, TOP, addr) ==> r.start == addr
  {
    if addr == TOP {
      return Interval(addr, addr, HOLE);
    }
    var t, lo: nat, hi := root, 0, TOP;
    var slot := SlotForAddr(t.pivots, addr);
    SlotRange(t.pivots, lo, hi, addr);
    while t.Internal?
      invariant lo <= addr < hi <= TOP && Inside(root, t, lo, hi) && slot == SlotFor(t.pivots, addr)
      decreases t
    {
      Descend(root, t, lo, hi, slot);
      SlotRange(t.pivots, lo, hi, addr);
      t, lo, hi := t.kids[slot], Lo(t.pivots, slot, lo), Hi(t.pivots, slot, hi);
      slot := SlotForAddr(t.pivots, addr);
    }
    LeafSlot(root, t, lo, hi, slot);
    SlotBoundaries(root, t, lo, hi, slot);
    SlotRange(t.pivots, lo, hi, addr);
    return Interval(Lo(t.pivots, slot, lo), Hi(t.pivots, slot, hi), t.slots[slot]);
  }

  // ---------------------------------------------------------------- writing a range

  lemma Paid(h: Heap, t: Tree, h': Heap, t': Tree, h'': Heap, t'': Tree)
    requires Owned(h, t) && Balance(h, t, h', t') && Balance(h', t', h'', t'')
    ensures Owned(h'', t'') && Balance(h, t, h'', t'')
  {
    BalanceChain(h.live, Below(t), h'.live, Below(t'), h''.live, Below(t''));
    BalanceKeepsPart(h.live, Below(t), h''.live, Below(t''));
  }

  lemma SpacePut(t: Tree, t': Tree, start: nat, end: nat, entry: nat)
    requires forall a :: 0 <= a < TOP ==> At(t', a) == if start <= a < end then entry else At(t, a)
    ensures SpaceOf(t') == Put(SpaceOf(t), start, end, entry)
    ensures start >= end ==> SpaceOf(t') == SpaceOf(t)
  {
    IsPut(SpaceOf(t), SpaceOf(t'), start, end, entry);
  }

  /** The steps that `vmtree_insert` and `write_range` share once the range is checked. */
  method WriteTree(root: Tree, start: Word, end: Word, entry: nat, h: Heap) returns (root': Tree, h': Heap, ok: bool)
    requires Wf(root, 0, TOP) && Owned(h, root) && start < end
    ensures Wf(root', 0, TOP) && Owned(h', root') && Balance(h, root, h', root') && root'.id == root.id
    ensures ok <==> h'.refusals == h.refusals
    ensures SpaceOf(root') == if ok then Put(SpaceOf(root), start, end, entry) else SpaceOf(root)
    ensures ok ==> Normal(root')
  {
    var t1, h1;
    t1, h1, ok := CutTree(root, start, end, h);
    SpacePut(root, t1, 0, 0, 0);
    if !ok {
      return t1, h1, false;
    }
    root', h' := FillTree(t1, start, end, entry, h1);
    Paid(h, root, h1, t1, h', root');
  }

  /** Make both ends of the range boundaries of slots. */
  method CutTree(root: Tree, start: Word, end: Word, h: Heap) returns (t: Tree, h': Heap, ok: bool)
    requires Wf(root, 0, TOP) && Owned(h, root)
    ensures Same(root, t, 0, TOP) && Owned(h', t) && Balance(h, root, h', t)
    ensures ok <==> h'.refusals == h.refusals
    ensures ok ==> Boundary(t, 0, TOP, start) && Boundary(t, 0, TOP, end)
  {
    t, h', ok := EnsureBoundary(root, 0, TOP, start, h);
    Paid(h, root, h, root, h', t);
    if ok {
      ghost var t1, h1 := t, h';
      t, h', ok := EnsureBoundary(t, 0, TOP, end, h');
      Paid(h, root, h1, t1, h', t);
    }
  }

  /** Write the range and merge what has become equal. */
  method FillTree(root: Tree, start: Word, end: Word, entry: nat, h: Heap) returns (t: Tree, h': Heap)
    requires Wf(root, 0, TOP) && Owned(h, root) && start < end
    requires Boundary(root, 0, TOP, start) && Boundary(root, 0, TOP, end)
    ensures Wf(t, 0, TOP) && t.id == root.id && Normal(t) && Owned(h', t) && Balance(h, root, h', t)
    ensures h'.refusals == h.refusals
    ensures SpaceOf(t) == Put(SpaceOf(root), start, end, entry)
  {
    var t1, h1 := WriteRangeRec(root, 0, TOP, start, end, entry, h);
    Paid(h, root, h, root, h1, t1);
    t, h' := Normalize(t1, 0, TOP, h1);
    Paid(h, root, h1, t1, h', t);
    SpacePut(root, t, start, end, entry);
  }

  // ---------------------------------------------------------------- the tree

  /** The kernel's allocator, shared by all trees. */
  class Memory {
    var heap: Heap

    constructor ()
      ensures heap == Heap(multiset{}, 0)
    {
      heap := Heap(multiset{}, 0);
    }
  }

  class VmTree {
    var root: Tree
    const memory: Memory

    ghost predicate Valid()
      reads this, memory
    {
      Wf(root, 0, TOP) && Owned(memory.heap, root)
    }

    ghost function Contents(): Space
      reads this
    {
      SpaceOf(root)
    }

    /** `vmtree_init`; the root node lies inside the tree and is not allocated. */
    constructor (memory: Memory, id: nat)
      requires HeapOk(memory.heap)
      ensures Valid() && this.memory == memory && root.id == id && Below(root) == multiset{}
      ensures Empty(Contents())
    {
      this.memory := memory;
      root := Leaf(id, [], [HOLE]);
    }

    method InsertEntry(start: Word, end: Word, entry: nat) returns (status: Status)
      requires Valid()
      modifies this`root, memory
      ensures Valid() && Balance(old(memory.heap), old(root), memory.heap, root)
      ensures Outcome(old(Contents()), Insert(start, end, entry), memory.heap.refusals != old(memory.heap.refusals),
                      status, Contents())
      ensures status.Ok? && start < end ==> Normal(root)
    {
      if entry == HOLE || start > end {
        return Inval;
      }
      if start == end {
        IsPut(Contents(), Contents(), start, end, entry);
        return Ok;
      }
      var found := AnyIn(root, start, end, false);
      if found {
        return Exists;
      }
      status := Write(start, end, entry);
    }

    method SetEntry(start: Word, end: Word, entry: nat) returns (status: Status)
      requires Valid()
      modifies this`root, memory
      ensures Valid() && Balance(old(memory.heap), old(root), memory.heap, root)
      ensures Outcome(old(Contents()), Set(start, end, entry), memory.heap.refusals != old(memory.heap.refusals),
                      status, Contents())
      ensures status.Ok? && start < end ==> Normal(root)
    {
      if entry == HOLE || start > end {
        return Inval;
      }
      if start == end {
        IsPut(Contents(), Contents(), start, end, entry);
        return Ok;
      }
      var found := AnyIn(root, start, end, true);
      if found {
        return NoEnt;
      }
      status := Write(start, end, entry);
    }

    method RemoveEntry(start: Word, end: Word) returns (status: Status)
      requires Valid()
      modifies this`root, memory
      ensures Valid() && Balance(old(memory.heap), old(root), memory.heap, root)
      ensures Outcome(old(Contents()), Remove(start, end), memory.heap.refusals != old(memory.heap.refusals), status,
                      Contents())
      ensures status.Ok? && start < end ==> Normal(root)
    {
      if start > end {
        return Inval;
      }
      if start == end {
        IsPut(Contents(), Contents(), start, end, HOLE);
        return Ok;
      }
      status := Write(start, end, HOLE);
    }

    method Write(start: Word, end: Word, entry: nat) returns (status: Status)
      requires Valid() && start < end
      modifies this`root, memory
      ensures Valid() && Balance(old(memory.heap), old(root), memory.heap, root)
      ensures status == if memory.heap.refusals == old(memory.heap.refusals) then Ok else NoMem
      ensures status.Ok? ==> Contents() == Put(old(Contents()), start, end, entry) && Normal(root)
      ensures status.NoMem? ==> Contents() == old(Contents())
    {
      var t, h, ok := WriteTree(root, start, end, entry, memory.heap);
      root, memory.heap := t, h;
      return if ok then Ok else NoMem;
    }

    /** `vmtree_destroy`: all memory below the root is given back. */
    method Destroy()
      requires Valid()
      modifies this`root, memory
      ensures Valid() && Below(root) == multiset{} && Balance(old(memory.heap), old(root), memory.heap, root)
      ensures Empty(Contents())
    {
      var h := FreeSubtree(root, false, memory.heap);
      memory.heap := h;
      root := Leaf(root.id, [], [HOLE]);
    }

    /** `vmtree_move`: nothing is freed, so what was below this root is lost unless there was
        nothing. */
    method MoveFrom(src: VmTree)
      requires src != this && src.memory == memory && Valid() && src.Valid()
      modifies this`root, src`root
      ensures Valid() && src.Valid() && Contents() == old(src.Contents())
      ensures Empty(src.Contents())
      ensures Below(root) == old(Below(src.root)) && Below(src.root) == multiset{}
    {
      root := Renamed(src.root, root.id);
      src.root := Leaf(src.root.id, [], [HOLE]);
    }
  }

  method Perform(tree: VmTree, op: Op) returns (status: Status)
    requires tree.Valid()
    modifies tree`root, tree.memory
    ensures tree.Valid() && Balance(old(tree.memory.heap), old(tree.root), tree.memory.heap, tree.root)
    ensures Outcome(old(tree.Contents()), op, tree.memory.heap.refusals != old(tree.memory.heap.refusals), status,
                    tree.Contents())
  {
    match op
    case Insert(start, end, entry) => status := tree.InsertEntry(start, end, entry);
    case Set(start, end, entry) => status := tree.SetEntry(start, end, entry);
    case Remove(start, end) => status := tree.RemoveEntry(start, end);
  }

  /** Any run of operations, memory running out anywhere, keeps the tree equal to the plain map
      and its memory equal to its nodes. */
  method Run(tree: VmTree, ops: seq<Op>) returns (answers: seq<Status>)
    requires tree.Valid()
    modifies tree`root, tree.memory
    ensures tree.Valid() && Balance(old(tree.memory.heap), old(tree.root), tree.memory.heap, tree.root)
    ensures Answered(old(tree.Contents()), ops, answers)
    ensures tree.Contents() == After(old(tree.Contents()), ops, answers)
  {
    answers := [];
    ghost var m0, t0, h0 := tree.Contents(), tree.root, tree.memory.heap;
    for i := 0 to |ops|
      invariant tree.Valid() && Balance(h0, t0, tree.memory.heap, tree.root)
      invariant Answered(m0, ops[..i], answers) && tree.Contents() == After(m0, ops[..i], answers)
    {
      ghost var t, h := tree.root, tree.memory.heap;
      var status := Perform(tree, ops[i]);
      Paid(h0, t0, h, t, tree.memory.heap, tree.root);
      OneMore(m0, ops, i, answers, status);
      answers := answers + [status];
    }
    assert ops[..|ops|] == ops;
  }

  /** A tree that is created, used in any way and destroyed leaves no memory behind. */
  method Lifetime(ops: seq<Op>) returns (answers: seq<Status>, left: multiset<nat>)
    ensures left == multiset{} && |answers| == |ops|
  {
    var memory := new Memory();
    var tree := new VmTree(memory, 0);
    ghost var t0, h0 := tree.root, memory.heap;
    answers := Run(tree, ops);
    ghost var t1, h1 := tree.root, memory.heap;
    tree.Destroy();
    NothingLeft(h0, t0, h1, t1, memory.heap, tree.root);
    left := memory.heap.live;
  }

  lemma NothingLeft(h: Heap, t: Tree, h': Heap, t': Tree, h'': Heap, t'': Tree)
    requires Owned(h, t) && h.live == Below(t) == Below(t'') == multiset{}
    requires Balance(h, t, h', t') && Balance(h', t', h'', t'')
    ensures h''.live == multiset{}
  {
    Paid(h, t, h', t', h'', t'');
    assert h''.live == h''.live + multiset{};
  }

  /** The content of a node copied into another node. */
  function Renamed(t: Tree, id: nat): (r: Tree)
    ensures r.id == id && SpaceOf(r) == SpaceOf(t) && Below(r) == Below(t)
    ensures Wf(t, 0, TOP) ==> Wf(r, 0, TOP)
  {
    match t
    case Leaf(_, p, s) => Leaf(id, p, s)
    case Internal(_, p, k) => Internal(id, p, k)
  }

  /** `insert_validate` and the test for `VMTREE_WRITE_SET` in `validate_range`. */
  method AnyIn(t: Tree, start: Word, end: Word, hole: bool) returns (found: bool)
    requires Wf(t, 0, TOP) && start < end
    ensures found <==> if hole then AnyHole(SpaceOf(t), start, end) else AnyMapped(SpaceOf(t), start, end)
  {
    found := AnySlot(t, 0, TOP, start, end, hole);
    if hole {
      HitsHole(t, start, end);
    } else {
      HitsMapped(t, start, end);
    }
  }

  lemma HitsHole(t: Tree, start: nat, end: nat)
    requires end <= TOP
    ensures Hits(t, 0, TOP, start, end, true) <==> AnyHole(SpaceOf(t), start, end)
  {
    var m := SpaceOf(t);
    assert forall a: nat :: a < TOP ==> a in m && m[a] == At(t, a);
  }

  lemma HitsMapped(t: Tree, start: nat, end: nat)
    requires end <= TOP
    ensures Hits(t, 0, TOP, start, end, false) <==> AnyMapped(SpaceOf(t), start, end)
  {
    var m := SpaceOf(t);
    assert forall a: nat :: a < TOP ==> a in m && m[a] == At(t, a);
  }

  // ---------------------------------------------------------------- iteration

  class Iterator {
    const root: Tree  // the tree does not change while it is iterated over
    var nextAddr: Word
    var finished: bool

    /** `vmtree_before_begin`. */
    constructor (root: Tree)
      requires Wf(root, 0, TOP)
      ensures Valid() && this.root == root && Position() == 0
    {
      this.root, nextAddr, finished := root, 0, false;
    }

    ghost predicate Valid()
      reads this
    {
      Wf(root, 0, TOP) && Boundary(root, 0, TOP, nextAddr) && nextAddr < TOP
    }

    /** Everything below this address has been passed. */
    ghost function Position(): nat
      reads this
    {
      if finished then TOP else nextAddr
    }

    /** `vmtree_iter_next`: passes over holes to the next mapped part. */
    method Next() returns (found: bool, out: Interval)
      requires Valid()
      modifies this
      ensures Valid()
      ensures found ==> old(Position()) <= out.start && Maps(root, out) && out.entry != HOLE && Position() == out.end
      ensures !found ==> Position() == TOP
      ensures Holes(root, old(Position()), if found then out.start else TOP)
    {
      out := Interval(0, 0, HOLE);
      if finished {
        return false, out;
      }
      out := FirstMapped(root, nextAddr);
      found := out.entry != HOLE;
      if out.end == TOP {
        finished := true;
      } else {
        nextAddr := out.end;
      }
    }
  }

  ghost predicate Holes(t: Tree, lo: nat, hi: nat) {
    forall a :: lo <= a < hi ==> At(t, a) == HOLE
  }

  /** The loop of `vmtree_iter_next`: the next part that is mapped, or the last hole. */
  method FirstMapped(root: Tree, addr: Word) returns (r: Interval)
    requires Wf(root, 0, TOP) && Boundary(root, 0, TOP, addr) && addr < TOP
    ensures Maps(root, r) && addr <= r.start && Holes(root, addr, r.start)
    ensures Boundary(root, 0, TOP, r.end) && (r.entry == HOLE ==> r.end == TOP)
  {
    r := Get(root, addr);
    while r.entry == HOLE && r.end < TOP
      invariant Maps(root, r) && addr <= r.start && Holes(root, addr, r.start) && Boundary(root, 0, TOP, r.end)
      decreases TOP - r.end
    {
      r := Get(root, r.end);
    }
  }

  /** Ascending, disjoint, and exactly the mapped addresses below `limit`. */
  ghost predicate Lists(t: Tree, s: seq<Interval>, limit: nat) {
    && (forall i :: 0 <= i < |s| ==> Maps(t, s[i]) && s[i].entry != HOLE && s[i].end <= limit)
    && (forall i, j :: 0 <= i < j < |s| ==> s[i].end <= s[j].start)
    && (forall a :: 0 <= a < limit && At(t, a) != HOLE ==> Listed(s, a))
  }

  ghost predicate Listed(s: seq<Interval>, a: nat) {
    exists i :: 0 <= i < |s| && s[i].start <= a < s[i].end
  }

  lemma ListsMore(t: Tree, s: seq<Interval>, limit: nat, r: Interval)
    requires Lists(t, s, limit) && Maps(t, r) && r.entry != HOLE && limit <= r.start && Holes(t, limit, r.start)
    ensures Lists(t, s + [r], r.end)
  {
    var u := s + [r];
    forall a | 0 <= a < r.end && At(t, a) != HOLE
      ensures Listed(u, a)
    {
      if a < limit {
        var i :| 0 <= i < |s| && s[i].start <= a < s[i].end;
        assert u[i] == s[i];
      } else {
        assert u[|s|] == r;
      }
    }
  }

  /** Iterating from `vmtree_before_begin` to the end. */
  method Iterate(root: Tree) returns (s: seq<Interval>)
    requires Wf(root, 0, TOP)
    ensures Lists(root, s, TOP)
  {
    var it := new Iterator(root);
    s := [];
    var more := true;
    while more
      invariant it.Valid() && it.root == root && fresh(it)
      invariant Lists(root, s, it.Position()) && (!more ==> it.Position() == TOP)
      decreases more, TOP - it.Position()
    {
      ghost var limit := it.Position();
      var out;
      more, out := it.Next();
      if more {
        ListsMore(root, s, limit, out);
        s := s + [out];
      }
    }
  }
}
