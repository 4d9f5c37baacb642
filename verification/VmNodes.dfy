/**
 The operations of kernel/src/utils/vmtree.c on the nodes of the tree.  A method that the
 source calls with a reference to a tagged node takes the node and returns what the node has
 become; the allocator is passed along.
 */
module VmNodes {
  import opened Sequences
  import opened Wrappers
  import opened MultisetSums
  import opened VmShape
  import opened AddressSpace

  // ---------------------------------------------------------------- the allocator

  /** The nodes handed out and not given back, and how often memory was refused. */
  datatype Heap = Heap(live: multiset<nat>, refusals: nat)

  ghost predicate HeapOk(h: Heap) {
    forall id :: h.live[id] <= 1
  }

  /** The nodes below the root are live memory, and no other place uses them. */
  ghost predicate Owned(h: Heap, t: Tree) {
    Below(t) <= h.live && HeapOk(h)
  }

  /** Memory changes exactly as the nodes below `t` do. */
  ghost predicate Balance(h: Heap, t: Tree, h': Heap, t': Tree) {
    h'.live + Below(t) == h.live + Below(t') && (HeapOk(h) ==> HeapOk(h'))
  }

  lemma FreshId(s: multiset<nat>)
    ensures exists id: nat :: id !in s
  {
    var ids := set id | id in s;
    if forall id: nat :: id in s {
      FullSet(ids, |ids| + 1);
    }
  }

  lemma {:induction false} FullSet(ids: set<nat>, n: nat)
    requires forall id: nat :: id < n ==> id in ids
    ensures n <= |ids|
  {
    if n > 0 {
      var rest := ids - {n - 1};
      FullSet(rest, n - 1);
    }
  }

  /** `kzalloc` of a node: memory may run out at any time. */
  method Kzalloc(h: Heap) returns (node: Option<nat>, h': Heap)
    ensures node.None? ==> h' == h.(refusals := h.refusals + 1)
    ensures node.Some? ==> node.value !in h.live && h' == h.(live := h.live + multiset{node.value})
    ensures HeapOk(h) ==> HeapOk(h')
  {
    if * {
      return None, h.(refusals := h.refusals + 1);
    }
    FreshId(h.live);
    var id: nat :| id !in h.live;
    return Some(id), h.(live := h.live + multiset{id});
  }

  method FreeSubtree(t: Tree, freeSelf: bool, h: Heap) returns (h': Heap)
    requires (if freeSelf then Nodes(t) else Below(t)) <= h.live
    ensures h' == h.(live := h.live - if freeSelf then Nodes(t) else Below(t))
    decreases t, 1
  {
    h' := h;
    if t.Internal? {
      h' := FreeKids(t.kids, h');
    }
    if freeSelf {
      h' := h'.(live := h'.live - multiset{t.id});
      assert h.live - Below(t) - multiset{t.id} == h.live - Nodes(t);
    }
  }

  /** The loop of `free_subtree`. */
  method FreeKids(kids: seq<Tree>, h: Heap) returns (h': Heap)
    requires NodesOf(kids) <= h.live
    ensures h' == h.(live := h.live - NodesOf(kids))
    decreases kids, 0
  {
    h' := h;
    for i := 0 to |kids|
      invariant h'.refusals == h.refusals
      invariant NodesOf(kids[i..]) <= h'.live
      invariant h'.live + NodesOf(kids) == h.live + NodesOf(kids[i..])
    {
      NodesFirst(kids[i..]);
      assert kids[i..][1..] == kids[i + 1..];
      TakeOne(h.live, NodesOf(kids), h'.live, NodesOf(kids[i..]), Nodes(kids[i]), NodesOf(kids[i + 1..]));
      h' := FreeSubtree(kids[i], true, h');
    }
    assert kids[|kids|..] == [];
    AllTaken(h.live, NodesOf(kids), h'.live);
  }

  // ---------------------------------------------------------------- leaves

  method SlotForAddr(p: seq<nat>, addr: nat) returns (i: nat)
    ensures i == SlotFor(p, addr)
  {
    i := 0;
    while i < |p| && addr >= p[i]
      invariant i <= |p| && SlotFor(p, addr) == i + SlotFor(p[i..], addr)
    {
      assert p[i..][1..] == p[i + 1..];
      i := i + 1;
    }
  }

  method MergeLeafNeighbors(t: Tree, ghost lo: nat, ghost hi: nat) returns (t': Tree)
    requires t.Leaf? && Wf(t, lo, hi)
    ensures t'.Leaf? && Same(t, t', lo, hi) && Normal(t')
  {
    t' := t;
    var i := 0;
    while i < |t'.pivots|
      invariant t'.Leaf? && Same(t, t', lo, hi) && i <= |t'.pivots|
      invariant forall j :: 0 <= j < i ==> t'.slots[j] != t'.slots[j + 1]
      decreases |t'.pivots| - i
    {
      if t'.slots[i] == t'.slots[i + 1] {
        LeafWithout(t', i, lo, hi);
        t' := Leaf(t'.id, RemoveAt(t'.pivots, i), RemoveAt(t'.slots, i + 1));
      } else {
        i := i + 1;
      }
    }
  }

  lemma LeafWithout(t: Tree, i: nat, lo: nat, hi: nat)
    requires t.Leaf? && Wf(t, lo, hi) && i < |t.pivots| && t.slots[i] == t.slots[i + 1]
    ensures Same(t, Leaf(t.id, RemoveAt(t.pivots, i), RemoveAt(t.slots, i + 1)), lo, hi)
  {
    var t' := Leaf(t.id, RemoveAt(t.pivots, i), RemoveAt(t.slots, i + 1));
    RemovedPivot(t.pivots, t.slots, i, lo, hi, lo);
    forall a | lo <= a < hi
      ensures At(t', a) == At(t, a)
    {
      RemovedPivot(t.pivots, t.slots, i, lo, hi, a);
    }
  }

  method InsertLeafBoundary(t: Tree, lo: nat, hi: nat, x: nat) returns (t': Tree, ok: bool)
    requires t.Leaf? && Wf(t, lo, hi) && lo < x < hi
    ensures t'.Leaf? && Same(t, t', lo, hi) && BoundariesKept(t, t', lo, hi)
    ensures ok ==> Boundary(t', lo, hi, x)
    ensures !ok ==> t' == t && |t.pivots| == NODE_SLOTS - 1
  {
    var slot := SlotForAddr(t.pivots, x);
    var left, right := Lo(t.pivots, slot, lo), Hi(t.pivots, slot, hi);
    if x == left || x == right {
      return t, true;
    }
    if |t.pivots| == NODE_SLOTS - 1 {
      return t, false;
    }
    LeafWith(t, slot, x, lo, hi);
    return Leaf(t.id, With(t.pivots, slot, x), With(t.slots, slot, t.slots[slot])), true;
  }

  lemma LeafWith(t: Tree, i: nat, x: nat, lo: nat, hi: nat)
    requires t.Leaf? && Wf(t, lo, hi) && i <= |t.pivots| && |t.pivots| + 1 < NODE_SLOTS
    requires Lo(t.pivots, i, lo) < x < Hi(t.pivots, i, hi)
    ensures var t' := Leaf(t.id, With(t.pivots, i, x), With(t.slots, i, t.slots[i]));
      Same(t, t', lo, hi) && BoundariesKept(t, t', lo, hi) && Boundary(t', lo, hi, x)
  {
    var t' := Leaf(t.id, With(t.pivots, i, x), With(t.slots, i, t.slots[i]));
    InsertedPivotOk(t.pivots, i, x, lo, hi);
    assert x in t'.pivots;
    forall a | lo <= a < hi
      ensures At(t', a) == At(t, a)
    {
      InsertedPivot(t.pivots, t.slots, i, x, lo, hi, a);
    }
  }

  // ---------------------------------------------------------------- boundaries

  /** A full leaf becomes an internal node with one uniform leaf per slot; if memory runs out
      on the way, the leaves made so far are given back. */
  method PromoteLeafToInternal(t: Tree, h: Heap, ghost lo: nat, ghost hi: nat) returns (t': Tree, h': Heap, ok: bool)
    requires t.Leaf? && Wf(t, lo, hi)
    ensures ok ==> t'.Internal? && t'.pivots == t.pivots && Same(t, t', lo, hi) && BoundariesKept(t, t', lo, hi)
    ensures ok ==> forall i :: 0 <= i < |t'.kids| ==> Uniform(t'.kids[i])
    ensures ok ==> h'.refusals == h.refusals
    ensures !ok ==> t' == t && h' == h.(refusals := h.refusals + 1)
    ensures Balance(h, t, h', t')
  {
    var kids;
    kids, h', ok := MakeLeaves(t.slots, h);
    if !ok {
      return t, h', false;
    }
    t' := Internal(t.id, t.pivots, kids);
    PromotedSame(t, kids, lo, hi);
  }

  /** The allocating loop of `promote_leaf_to_internal`. */
  method MakeLeaves(slots: seq<nat>, h: Heap) returns (kids: seq<Tree>, h': Heap, ok: bool)
    ensures ok ==> |kids| == |slots| && UniformKids(kids, slots)
    ensures ok ==> h' == h.(live := h.live + NodesOf(kids)) && (HeapOk(h) ==> HeapOk(h'))
    ensures !ok ==> h' == h.(refusals := h.refusals + 1)
  {
    kids, h' := [], h;
    while |kids| < |slots|
      invariant UniformKids(kids, slots)
      invariant h' == h.(live := h.live + NodesOf(kids)) && (HeapOk(h) ==> HeapOk(h'))
      decreases |slots| - |kids|
    {
      var node;
      node, h' := Kzalloc(h');
      if node.None? {
        h' := GiveBack(kids, h');
        AddThenSubtract(h.live, NodesOf(kids));
        return kids, h', false;
      }
      var kid := Leaf(node.value, [], [slots[|kids|]]);
      NodesLast(kids, kid);
      AddAssoc(h.live, NodesOf(kids), Nodes(kid));
      kids := kids + [kid];
    }
    ok := true;
  }

  ghost predicate UniformKids(k: seq<Tree>, s: seq<nat>) {
    |k| <= |s| && forall i :: 0 <= i < |k| ==> k[i] == Leaf(k[i].id, [], [s[i]])
  }

  lemma PromotedSame(t: Tree, k: seq<Tree>, lo: nat, hi: nat)
    requires t.Leaf? && Wf(t, lo, hi) && UniformKids(k, t.slots) && |k| == |t.slots|
    ensures Same(t, Internal(t.id, t.pivots, k), lo, hi) && BoundariesKept(t, Internal(t.id, t.pivots, k), lo, hi)
  {
    var t' := Internal(t.id, t.pivots, k);
    forall i | 0 <= i < |k|
      ensures Wf(k[i], Lo(t.pivots, i, lo), Hi(t.pivots, i, hi))
    {
      SlotRangeOk(t.pivots, lo, hi, i);
    }
    forall x | Boundary(t, lo, hi, x)
      ensures Boundary(t', lo, hi, x)
    {
      PromotedBoundary(t, k, lo, hi, x);
    }
  }

  lemma PromotedBoundary(t: Tree, k: seq<Tree>, lo: nat, hi: nat, x: nat)
    requires t.Leaf? && Wf(t, lo, hi) && |k| == |t.slots| && Boundary(t, lo, hi, x)
    ensures Boundary(Internal(t.id, t.pivots, k), lo, hi, x)
  {
    if lo < x < hi {
      SlotRange(t.pivots, lo, hi, x);
      var j :| 0 <= j < |t.pivots| && t.pivots[j] == x;
      assert Lo(t.pivots, j + 1, lo) == x < Hi(t.pivots, j + 1, hi);
    }
  }

  /** The roll-back loop of `promote_leaf_to_internal`. */
  method GiveBack(kids: seq<Tree>, h: Heap) returns (h': Heap)
    requires NodesOf(kids) <= h.live && forall i :: 0 <= i < |kids| ==> kids[i].Leaf?
    ensures h' == h.(live := h.live - NodesOf(kids))
  {
    h' := h;
    for j := 0 to |kids|
      invariant h'.refusals == h.refusals && NodesOf(kids[j..]) <= h'.live
      invariant h'.live + NodesOf(kids) == h.live + NodesOf(kids[j..])
    {
      NodesFirst(kids[j..]);
      assert kids[j..][1..] == kids[j + 1..];
      TakeOne(h.live, NodesOf(kids), h'.live, NodesOf(kids[j..]), Nodes(kids[j]), NodesOf(kids[j + 1..]));
      h' := h'.(live := h'.live - multiset{kids[j].id});
    }
    assert kids[|kids|..] == [];
    AllTaken(h.live, NodesOf(kids), h'.live);
  }

  lemma KidBalance(h: Heap, t: Tree, i: nat, kid: Tree, h': Heap)
    requires t.Internal? && i < |t.kids| && kid.id == t.kids[i].id && Balance(h, t.kids[i], h', kid)
    ensures Balance(h, t, h', t.(kids := t.kids[i := kid]))
  {
    NodesReplaced(t.kids, i, kid);
    BalanceWhole(h.live, Below(t.kids[i]), h'.live, Below(kid), multiset{kid.id}, NodesOf(t.kids),
                 NodesOf(t.kids[i := kid]));
  }

  lemma KidBound(t: Tree, i: nat, kid: Tree, lo: nat, hi: nat, x: nat)
    requires t.Internal? && Wf(t, lo, hi) && lo < x < hi && i == SlotFor(t.pivots, x)
    requires Same(t.kids[i], kid, Lo(t.pivots, i, lo), Hi(t.pivots, i, hi))
    requires Boundary(kid, Lo(t.pivots, i, lo), Hi(t.pivots, i, hi), x)
    requires BoundariesKept(t.kids[i], kid, Lo(t.pivots, i, lo), Hi(t.pivots, i, hi))
    ensures var t' := t.(kids := t.kids[i := kid]);
      Same(t, t', lo, hi) && Boundary(t', lo, hi, x) && BoundariesKept(t, t', lo, hi)
  {
    KidSame(t, i, kid, lo, hi);
    KidBoundaries(t, i, kid, lo, hi);
  }

  lemma KidSame(t: Tree, i: nat, kid: Tree, lo: nat, hi: nat)
    requires t.Internal? && Wf(t, lo, hi) && i < |t.kids|
    requires Same(t.kids[i], kid, Lo(t.pivots, i, lo), Hi(t.pivots, i, hi))
    ensures Same(t, t.(kids := t.kids[i := kid]), lo, hi)
  {
    KidsSame(t, t.kids[i := kid], lo, hi);
  }

  lemma SameTrans(t: Tree, t': Tree, t'': Tree, lo: nat, hi: nat)
    requires Same(t, t', lo, hi) && Same(t', t'', lo, hi)
    requires BoundariesKept(t, t', lo, hi) && BoundariesKept(t', t'', lo, hi)
    ensures Same(t, t'', lo, hi) && BoundariesKept(t, t'', lo, hi)
  {}

  method EnsureBoundary(t: Tree, lo: nat, hi: nat, x: nat, h: Heap) returns (t': Tree, h': Heap, ok: bool)
    requires Wf(t, lo, hi)
    ensures ok <==> h'.refusals == h.refusals
    ensures ok ==> Same(t, t', lo, hi) && Boundary(t', lo, hi, x) && BoundariesKept(t, t', lo, hi)
    ensures !ok ==> t' == t && h' == h.(refusals := h.refusals + 1)
    ensures Uniform(t) ==> ok
    ensures Balance(h, t, h', t')
    decreases hi - lo, t
  {
    if x <= lo || x >= hi {
      return t, h, true;
    }
    var node := t;
    h' := h;
    if t.Leaf? {
      t', ok := InsertLeafBoundary(t, lo, hi, x);
      if ok {
        return;
      }
      node, h', ok := PromoteLeafToInternal(t, h, lo, hi);
      if !ok {
        return node, h', ok;
      }
    }
    var slot := SlotForAddr(node.pivots, x);
    var kid;
    SlotRangeOk(node.pivots, lo, hi, slot);
    ghost var h1 := h';
    kid, h', ok := EnsureBoundary(node.kids[slot], Lo(node.pivots, slot, lo), Hi(node.pivots, slot, hi), x, h');
    t' := node.(kids := node.kids[slot := kid]);
    KidBalance(h1, node, slot, kid, h');
    BalanceChain(h.live, Below(t), h1.live, Below(node), h'.live, Below(t'));
    if ok {
      KidBound(node, slot, kid, lo, hi, x);
      SameTrans(t, node, t', lo, hi);
    } else {
      assert t' == t;
    }
  }

  // ---------------------------------------------------------------- searching a range

  /** Some address of `start..end` inside `lo..hi` is a hole (or, if `hole` is false, is not). */
  ghost predicate Hits(t: Tree, lo: nat, hi: nat, start: nat, end: nat, hole: bool) {
    exists a :: lo <= a < hi && start <= a < end && (At(t, a) == HOLE) == hole
  }

  lemma HitsInSlot(t: Tree, lo: nat, hi: nat, start: nat, end: nat, hole: bool)
    requires Wf(t, lo, hi)
    ensures Hits(t, lo, hi, start, end, hole) <==>
      exists i :: 0 <= i <= |t.pivots| && Hits(t, Lo(t.pivots, i, lo), Hi(t.pivots, i, hi), start, end, hole)
  {
    if a :| lo <= a < hi && start <= a < end && (At(t, a) == HOLE) == hole {
      SlotRange(t.pivots, lo, hi, a);
      var i := SlotFor(t.pivots, a);
      assert Hits(t, Lo(t.pivots, i, lo), Hi(t.pivots, i, hi), start, end, hole);
    }
    if i :| 0 <= i <= |t.pivots| && Hits(t, Lo(t.pivots, i, lo), Hi(t.pivots, i, hi), start, end, hole) {
      SlotRangeOk(t.pivots, lo, hi, i);
    }
  }

  /** Inside the range of slot `i` the node has the entries of that slot. */
  lemma SlotContent(t: Tree, lo: nat, hi: nat, i: nat)
    requires Wf(t, lo, hi) && i <= |t.pivots|
    ensures lo <= Lo(t.pivots, i, lo) < Hi(t.pivots, i, hi) <= hi
    ensures forall a :: Lo(t.pivots, i, lo) <= a < Hi(t.pivots, i, hi) ==>
      At(t, a) == if t.Leaf? then t.slots[i] else At(t.kids[i], a)
  {
    SlotRangeOk(t.pivots, lo, hi, i);
    forall a | Lo(t.pivots, i, lo) <= a < Hi(t.pivots, i, hi)
      ensures SlotFor(t.pivots, a) == i
    {
      SlotRange(t.pivots, lo, hi, a);
    }
  }

  /** `any_hole_rec` (`hole`) and `any_nonhole_rec` (not `hole`). */
  method AnySlot(t: Tree, lo: nat, hi: nat, start: nat, end: nat, hole: bool) returns (found: bool)
    requires Wf(t, lo, hi) && start < end
    ensures found <==> Hits(t, lo, hi, start, end, hole)
    decreases t, 1
  {
    HitsInSlot(t, lo, hi, start, end, hole);
    if end <= lo || hi <= start {
      return false;
    }
    for i := 0 to |t.pivots| + 1
      invariant forall j :: 0 <= j < i ==> !Hits(t, Lo(t.pivots, j, lo), Hi(t.pivots, j, hi), start, end, hole)
    {
      var here := SlotHits(t, i, lo, hi, start, end, hole);
      if here {
        return true;
      }
    }
    return false;
  }

  /** The body of the loops of `any_hole_rec` and `any_nonhole_rec`. */
  method SlotHits(t: Tree, i: nat, lo: nat, hi: nat, start: nat, end: nat, hole: bool) returns (here: bool)
    requires Wf(t, lo, hi) && start < end && i <= |t.pivots|
    ensures here <==> Hits(t, Lo(t.pivots, i, lo), Hi(t.pivots, i, hi), start, end, hole)
    decreases t, 0
  {
    var rLo, rHi := Lo(t.pivots, i, lo), Hi(t.pivots, i, hi);
    if end <= rLo || rHi <= start {
      return false;
    }
    SlotContent(t, lo, hi, i);
    if t.Leaf? {
      here := (t.slots[i] == HOLE) == hole;
      ghost var a := if rLo < start then start else rLo;
      assert here ==> (At(t, a) == HOLE) == hole;
    } else {
      here := AnySlot(t.kids[i], rLo, rHi, start, end, hole);
    }
  }

  // ---------------------------------------------------------------- writing

  method SetSubtreeUniform(t: Tree, entry: nat, h: Heap) returns (t': Tree, h': Heap)
    requires Below(t) <= h.live
    ensures t' == Leaf(t.id, [], [entry]) && Balance(h, t, h', t') && h'.refusals == h.refusals
  {
    h' := h;
    if t.Internal? {
      h' := FreeKids(t.kids, h');
    }
    t' := Leaf(t.id, [], [entry]);
  }

  method WriteLeaf(t: Tree, lo: nat, hi: nat, start: nat, end: nat, entry: nat) returns (t': Tree)
    requires t.Leaf? && Wf(t, lo, hi) && start < end
    requires Boundary(t, lo, hi, start) && Boundary(t, lo, hi, end)
    ensures t'.Leaf? && Wrote(t, t', lo, hi, start, end, entry)
  {
    var slots := t.slots;
    for i := 0 to |t.pivots| + 1
      invariant |slots| == |t.slots|
      invariant forall j :: i <= j < |slots| ==> slots[j] == t.slots[j]
      invariant forall j :: 0 <= j < i ==>
        slots[j] == if Outside(t.pivots, lo, hi, start, end, j) then t.slots[j] else entry
    {
      if end <= Lo(t.pivots, i, lo) || Hi(t.pivots, i, hi) <= start {
        continue;
      }
      slots := slots[i := entry];
    }
    t' := t.(slots := slots);
    forall a | lo <= a < hi
      ensures At(t', a) == if start <= a < end then entry else At(t, a)
    {
      WholeSlot(t, lo, hi, start, end, a);
    }
  }

  predicate Outside(p: seq<nat>, lo: nat, hi: nat, start: nat, end: nat, i: nat)
    requires i <= |p|
  {
    end <= Lo(p, i, lo) || Hi(p, i, hi) <= start
  }

  /** Slots of a leaf cut at `start` and `end` are written as a whole or not at all. */
  lemma WholeSlot(t: Tree, lo: nat, hi: nat, start: nat, end: nat, a: nat)
    requires t.Leaf? && Wf(t, lo, hi) && start < end && lo <= a < hi
    requires Boundary(t, lo, hi, start) && Boundary(t, lo, hi, end)
    ensures Outside(t.pivots, lo, hi, start, end, SlotFor(t.pivots, a)) <==> !(start <= a < end)
  {
    var i := SlotFor(t.pivots, a);
    SlotRange(t.pivots, lo, hi, a);
    NotInside(t.pivots, lo, hi, start, i);
    NotInside(t.pivots, lo, hi, end, i);
  }

  lemma NotInside(p: seq<nat>, lo: nat, hi: nat, x: nat, i: nat)
    requires PivotsOk(p, lo, hi) && i <= |p| && (x <= lo || x >= hi || x in p)
    ensures x <= Lo(p, i, lo) || Hi(p, i, hi) <= x
  {}

  lemma KidCut(t: Tree, lo: nat, hi: nat, x: nat, i: nat)
    requires t.Internal? && Wf(t, lo, hi) && i < |t.kids| && Boundary(t, lo, hi, x)
    ensures Boundary(t.kids[i], Lo(t.pivots, i, lo), Hi(t.pivots, i, hi), x)
  {
    SlotRangeOk(t.pivots, lo, hi, i);
    if lo < x < hi {
      SlotRange(t.pivots, lo, hi, x);
    }
  }

  method WriteRangeRec(t: Tree, lo: nat, hi: nat, start: nat, end: nat, entry: nat, h: Heap)
    returns (t': Tree, h': Heap)
    requires Wf(t, lo, hi) && Below(t) <= h.live && start < end
    requires Boundary(t, lo, hi, start) && Boundary(t, lo, hi, end)
    ensures Wrote(t, t', lo, hi, start, end, entry) && Balance(h, t, h', t') && h'.refusals == h.refusals
    decreases t, 1
  {
    if end <= lo || hi <= start {
      return t, h;
    }
    if start <= lo && hi <= end {
      t', h' := SetSubtreeUniform(t, entry, h);
      return;
    }
    if t.Leaf? {
      t' := WriteLeaf(t, lo, hi, start, end, entry);
      t' := MergeLeafNeighbors(t', lo, hi);
      return t', h;
    }
    var kids;
    kids, h' := WriteKids(t, lo, hi, start, end, entry, h);
    t' := t.(kids := kids);
  }

  /** The last loop of `write_range_rec`. */
  method WriteKids(t: Tree, lo: nat, hi: nat, start: nat, end: nat, entry: nat, h: Heap)
    returns (now: seq<Tree>, h': Heap)
    requires t.Internal? && Wf(t, lo, hi) && Below(t) <= h.live && start < end
    requires Boundary(t, lo, hi, start) && Boundary(t, lo, hi, end)
    ensures Wrote(t, t.(kids := now), lo, hi, start, end, entry) && Balance(h, t, h', t.(kids := now))
    ensures h'.refusals == h.refusals
    decreases t, 0
  {
    now, h' := t.kids, h;
    for i := 0 to |t.kids|
      invariant |now| == |t.kids| && forall j :: i <= j < |now| ==> now[j] == t.kids[j]
      invariant forall j :: 0 <= j < i ==>
        Wrote(t.kids[j], now[j], Lo(t.pivots, j, lo), Hi(t.pivots, j, hi), start, end, entry)
      invariant Balance(h, t, h', t.(kids := now)) && h'.refusals == h.refusals
    {
      var rLo, rHi := Lo(t.pivots, i, lo), Hi(t.pivots, i, hi);
      if end <= rLo || rHi <= start {
        continue;
      }
      KidCut(t, lo, hi, start, i);
      KidCut(t, lo, hi, end, i);
      KidOwned(h, t, h', now, i);
      ghost var h1, kids1 := h', now;
      var kid;
      kid, h' := WriteRangeRec(t.kids[i], rLo, rHi, start, end, entry, h');
      now := now[i := kid];
      KidReplaced(h, t, h1, kids1, i, kid, h');
    }
    KidsWrote(t, now, lo, hi, start, end, entry);
  }

  lemma KidOwned(h: Heap, t: Tree, h': Heap, kids: seq<Tree>, i: nat)
    requires t.Internal? && Below(t) <= h.live && i < |kids| && Balance(h, t, h', t.(kids := kids))
    ensures Below(kids[i]) <= h'.live && NodesOf(kids) <= h'.live && Nodes(kids[i]) <= h'.live
  {
    BalanceKeepsPart(h.live, Below(t), h'.live, NodesOf(kids));
    NodesWithout(kids, i);
  }

  lemma KidReplaced(h: Heap, t: Tree, h': Heap, kids: seq<Tree>, i: nat, kid: Tree, h'': Heap)
    requires t.Internal? && i < |kids| && Balance(h, t, h', t.(kids := kids))
    requires Balance(h', kids[i], h'', kid) && kid.id == kids[i].id
    ensures Balance(h, t, h'', t.(kids := kids[i := kid]))
  {
    var t' := t.(kids := kids);
    KidBalance(h', t', i, kid, h'');
    BalanceChain(h.live, Below(t), h'.live, NodesOf(kids), h''.live, NodesOf(kids[i := kid]));
  }

  // ---------------------------------------------------------------- normalizing

  method Normalize(t: Tree, ghost lo: nat, ghost hi: nat, h: Heap) returns (t': Tree, h': Heap)
    requires Wf(t, lo, hi) && Below(t) <= h.live
    ensures Same(t, t', lo, hi) && Normal(t') && Balance(h, t, h', t') && h'.refusals == h.refusals
    decreases t, 1
  {
    if t.Leaf? {
      t' := MergeLeafNeighbors(t, lo, hi);
      return t', h;
    }
    var kids, h1 := NormalizeKids(t, lo, hi, h);
    var t1 := t.(kids := kids);
    BalanceKeepsPart(h.live, Below(t), h1.live, Below(t1));
    var t2, h2 := MergeKids(t1, lo, hi, h1);
    BalanceKeepsPart(h1.live, Below(t1), h2.live, Below(t2));
    BalanceChain(h.live, Below(t), h1.live, Below(t1), h2.live, Below(t2));
    t', h' := CollapseToLeaf(t2, lo, hi, h2);
    BalanceChain(h.live, Below(t), h2.live, Below(t2), h'.live, Below(t'));
  }

  /** The end of `normalize_rec`: an only child that is uniform takes the place of the node. */
  method CollapseToLeaf(t: Tree, ghost lo: nat, ghost hi: nat, h: Heap) returns (t': Tree, h': Heap)
    requires t.Internal? && Wf(t, lo, hi) && Below(t) <= h.live
    requires NoEqualUniform(t.kids, |t.kids|) && forall i :: 0 <= i < |t.kids| ==> Normal(t.kids[i])
    ensures Same(t, t', lo, hi) && Normal(t') && Balance(h, t, h', t') && h'.refusals == h.refusals
  {
    if |t.pivots| > 0 || !Uniform(t.kids[0]) {
      return t, h;
    }
    assert Wf(t.kids[0], lo, hi);
    NodesFirst(t.kids);
    assert t.kids[1..] == [];
    h' := FreeSubtree(t.kids[0], true, h);
    t' := Leaf(t.id, [], [t.kids[0].slots[0]]);
  }

  /** The first loop of `normalize_rec`. */
  method NormalizeKids(t: Tree, ghost lo: nat, ghost hi: nat, h: Heap) returns (now: seq<Tree>, h': Heap)
    requires t.Internal? && Wf(t, lo, hi) && Below(t) <= h.live
    ensures Same(t, t.(kids := now), lo, hi) && Balance(h, t, h', t.(kids := now)) && h'.refusals == h.refusals
    ensures forall i :: 0 <= i < |now| ==> Normal(now[i])
    decreases t, 0
  {
    now, h' := t.kids, h;
    for i := 0 to |t.kids|
      invariant |now| == |t.kids| && forall j :: i <= j < |now| ==> now[j] == t.kids[j]
      invariant forall j :: 0 <= j < i ==>
        Same(t.kids[j], now[j], Lo(t.pivots, j, lo), Hi(t.pivots, j, hi)) && Normal(now[j])
      invariant Balance(h, t, h', t.(kids := now)) && h'.refusals == h.refusals
    {
      KidOwned(h, t, h', now, i);
      ghost var h1, kids1 := h', now;
      var kid;
      kid, h' := Normalize(t.kids[i], Lo(t.pivots, i, lo), Hi(t.pivots, i, hi), h');
      now := now[i := kid];
      KidReplaced(h, t, h1, kids1, i, kid, h');
    }
    KidsSame(t, now, lo, hi);
  }

  ghost predicate KidsNormal(t: Tree) {
    t.Internal? && forall i :: 0 <= i < |t.kids| ==> Normal(t.kids[i])
  }

  /** The second loop of `normalize_rec`. */
  method MergeKids(t: Tree, ghost lo: nat, ghost hi: nat, h: Heap) returns (t': Tree, h': Heap)
    requires KidsNormal(t) && Wf(t, lo, hi) && Below(t) <= h.live
    ensures KidsNormal(t') && NoEqualUniform(t'.kids, |t'.kids|)
    ensures Same(t, t', lo, hi) && Balance(h, t, h', t') && h'.refusals == h.refusals
  {
    t', h' := t, h;
    var i := 0;
    while i < |t'.pivots|
      invariant KidsNormal(t') && Same(t, t', lo, hi) && i <= |t'.pivots| && NoEqualUniform(t'.kids, i + 1)
      invariant Balance(h, t, h', t') && h'.refusals == h.refusals
      decreases |t'.pivots| - i
    {
      if Mergeable(t'.kids[i], t'.kids[i + 1]) {
        ghost var h1, t1 := h', t';
        BalanceKeepsPart(h.live, Below(t), h'.live, Below(t'));
        t', h' := MergeTwo(t', i, lo, hi, h');
        BalanceChain(h.live, Below(t), h1.live, Below(t1), h'.live, Below(t'));
      } else {
        i := i + 1;
      }
    }
  }

  /** Child `i + 1` equals child `i`: it is freed and its range given to child `i`. */
  method MergeTwo(t: Tree, i: nat, ghost lo: nat, ghost hi: nat, h: Heap) returns (t': Tree, h': Heap)
    requires KidsNormal(t) && Wf(t, lo, hi) && Below(t) <= h.live && i < |t.pivots|
    requires Mergeable(t.kids[i], t.kids[i + 1]) && NoEqualUniform(t.kids, i + 1)
    ensures KidsNormal(t') && Same(t, t', lo, hi) && |t'.pivots| == |t.pivots| - 1 && NoEqualUniform(t'.kids, i + 1)
    ensures Balance(h, t, h', t') && h'.refusals == h.refusals
  {
    KidsWithout(t, i, lo, hi);
    KidOwned(h, t, h, t.kids, i + 1);
    h' := FreeSubtree(t.kids[i + 1], true, h);
    KidDropped(h, t, h, t.kids, i + 1, h');
    t' := Internal(t.id, RemoveAt(t.pivots, i), RemoveAt(t.kids, i + 1));
  }

  lemma KidDropped(h: Heap, t: Tree, h': Heap, kids: seq<Tree>, i: nat, h'': Heap)
    requires t.Internal? && i < |kids| && Balance(h, t, h', t.(kids := kids)) && Nodes(kids[i]) <= h'.live
    requires h''.live == h'.live - Nodes(kids[i])
    ensures Balance(h, t, h'', t.(kids := RemoveAt(kids, i)))
  {
    NodesWithout(kids, i);
    var k' := RemoveAt(kids, i);
    forall id
      ensures (h''.live + NodesOf(kids))[id] == (h'.live + NodesOf(k'))[id]
    {
      assert (NodesOf(k') + Nodes(kids[i]))[id] == NodesOf(kids)[id];
    }
    BalanceChain(h.live, Below(t), h'.live, NodesOf(kids), h''.live, NodesOf(k'));
  }

  lemma KidsWithout(t: Tree, i: nat, lo: nat, hi: nat)
    requires t.Internal? && Wf(t, lo, hi) && i < |t.pivots| && Mergeable(t.kids[i], t.kids[i + 1])
    ensures Same(t, Internal(t.id, RemoveAt(t.pivots, i), RemoveAt(t.kids, i + 1)), lo, hi)
  {
    var t' := Internal(t.id, RemoveAt(t.pivots, i), RemoveAt(t.kids, i + 1));
    RemovedPivot(t.pivots, t.kids, i, lo, hi, lo);
    forall j | 0 <= j < |t'.kids|
      ensures Wf(t'.kids[j], Lo(t'.pivots, j, lo), Hi(t'.pivots, j, hi))
    {
      KidsWithoutWf(t, i, lo, hi, j);
    }
    forall a | lo <= a < hi
      ensures At(t', a) == At(t, a)
    {
      KidsWithoutAt(t, i, lo, hi, a);
    }
  }

  lemma KidsWithoutWf(t: Tree, i: nat, lo: nat, hi: nat, j: nat)
    requires t.Internal? && Wf(t, lo, hi) && i < |t.pivots| && Mergeable(t.kids[i], t.kids[i + 1]) && j < |t.pivots|
    requires PivotsOk(RemoveAt(t.pivots, i), lo, hi)
    ensures Wf(RemoveAt(t.kids, i + 1)[j], Lo(RemoveAt(t.pivots, i), j, lo), Hi(RemoveAt(t.pivots, i), j, hi))
  {
    SlotRangeOk(RemoveAt(t.pivots, i), lo, hi, j);
    var was := if j <= i then j else j + 1;
    assert Wf(t.kids[was], Lo(t.pivots, was, lo), Hi(t.pivots, was, hi));
    assert RemoveAt(t.kids, i + 1)[j] == t.kids[was];
  }

  lemma KidsWithoutAt(t: Tree, i: nat, lo: nat, hi: nat, a: nat)
    requires t.Internal? && Wf(t, lo, hi) && i < |t.pivots| && Mergeable(t.kids[i], t.kids[i + 1]) && lo <= a < hi
    ensures At(Internal(t.id, RemoveAt(t.pivots, i), RemoveAt(t.kids, i + 1)), a) == At(t, a)
  {
    RemovedPivot(t.pivots, t.kids, i, lo, hi, a);
    assert At(t.kids[i], a) == t.kids[i].slots[0] == At(t.kids[i + 1], a);
  }
}
