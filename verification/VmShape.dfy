/**
 Shape and meaning of the interval tree of kernel/src/utils/vmtree.c.  A node divides its
 address range at strictly increasing pivots; a leaf holds one entry per part, an internal
 node one child per part.  `pivots` are the pivots in use (the source pads with UINTPTR_MAX).
 */
module VmShape {
  import opened Sequences
  import opened MultisetSums
  import opened AddressSpace

  const NODE_SLOTS: nat := 16

  /** `id` is the identity of the node in memory. */
  datatype Tree =
    | Leaf(id: nat, pivots: seq<nat>, slots: seq<nat>)
    | Internal(id: nat, pivots: seq<nat>, kids: seq<Tree>)

  // ---------------------------------------------------------------- pivots

  /** The number of leading pivots that are not above `a`. */
  function SlotFor(p: seq<nat>, a: nat): (r: nat)
    ensures r <= |p| && (forall i :: 0 <= i < r ==> p[i] <= a) && (r < |p| ==> a < p[r])
  {
    if p == [] || a < p[0] then 0 else 1 + SlotFor(p[1..], a)
  }

  /** `slot_lo` and `slot_hi`: the range of a slot of a node with the range `lo..hi`. */
  function Lo(p: seq<nat>, i: nat, lo: nat): nat
    requires i <= |p|
  {
    if i == 0 then lo else p[i - 1]
  }

  function Hi(p: seq<nat>, i: nat, hi: nat): nat
    requires i <= |p|
  {
    if i == |p| then hi else p[i]
  }

  ghost predicate PivotsOk(p: seq<nat>, lo: nat, hi: nat) {
    && |p| < NODE_SLOTS && lo < hi
    && (forall i :: 0 <= i < |p| ==> lo < p[i] < hi)
    && (forall i, j :: 0 <= i < j < |p| ==> p[i] < p[j])
  }

  /** An address is in the slot whose range holds it. */
  lemma SlotRange(p: seq<nat>, lo: nat, hi: nat, a: nat)
    requires PivotsOk(p, lo, hi) && lo <= a < hi
    ensures forall i :: 0 <= i <= |p| ==> (Lo(p, i, lo) <= a < Hi(p, i, hi) <==> i == SlotFor(p, a))
  {
    var r := SlotFor(p, a);
    forall i | 0 <= i <= |p|
      ensures Lo(p, i, lo) <= a < Hi(p, i, hi) <==> i == r
    {
      if i < r {
        assert p[i] <= a;
      } else if i > r {
        assert a < p[r] <= p[i - 1];
      }
    }
  }

  lemma SlotRangeOk(p: seq<nat>, lo: nat, hi: nat, i: nat)
    requires PivotsOk(p, lo, hi) && i <= |p|
    ensures lo <= Lo(p, i, lo) < Hi(p, i, hi) <= hi
  {}

  function With<T>(s: seq<T>, i: nat, x: T): seq<T>
    requires i <= |s|
  {
    s[..i] + [x] + s[i..]
  }

  /** Without pivot `i`, slot `i` extends over the former slot `i + 1`. */
  lemma RemovedPivot<T>(p: seq<nat>, s: seq<T>, i: nat, lo: nat, hi: nat, a: nat)
    requires PivotsOk(p, lo, hi) && i < |p| && |s| == |p| + 1 && lo <= a < hi
    ensures PivotsOk(RemoveAt(p, i), lo, hi) && |RemoveAt(s, i + 1)| == |RemoveAt(p, i)| + 1
    ensures var r := SlotFor(p, a);
      RemoveAt(s, i + 1)[SlotFor(RemoveAt(p, i), a)] == s[if r == i + 1 then i else r]
  {
    RemovedPivotOk(p, i, lo, hi);
    RemovedSlot(p, RemoveAt(p, i), i, lo, hi, a);
  }

  lemma RemovedPivotOk(p: seq<nat>, i: nat, lo: nat, hi: nat)
    requires PivotsOk(p, lo, hi) && i < |p|
    ensures PivotsOk(RemoveAt(p, i), lo, hi)
  {}

  lemma RemovedSlot(p: seq<nat>, q: seq<nat>, i: nat, lo: nat, hi: nat, a: nat)
    requires PivotsOk(p, lo, hi) && i < |p| && q == RemoveAt(p, i) && PivotsOk(q, lo, hi)
    ensures SlotFor(q, a) == if SlotFor(p, a) <= i then SlotFor(p, a) else SlotFor(p, a) - 1
  {
    var r := SlotFor(p, a);
    assert r < |p| ==> a < p[r];
    if r <= i {
      assert r < |q| ==> q[r] == if r < i then p[r] else p[r + 1];
      SlotIs(q, lo, hi, a, r);
    } else {
      assert r > i + 1 ==> q[r - 2] == p[r - 1];
      SlotIs(q, lo, hi, a, r - 1);
    }
  }

  lemma SlotIs(p: seq<nat>, lo: nat, hi: nat, a: nat, r: nat)
    requires PivotsOk(p, lo, hi) && r <= |p| && (r > 0 ==> p[r - 1] <= a) && (r < |p| ==> a < p[r])
    ensures SlotFor(p, a) == r
  {
    var k := SlotFor(p, a);
    if k < r {
      assert false;
    }
  }

  lemma InsertedPivotOk(p: seq<nat>, i: nat, x: nat, lo: nat, hi: nat)
    requires PivotsOk(p, lo, hi) && i <= |p| && |p| + 1 < NODE_SLOTS
    requires Lo(p, i, lo) < x < Hi(p, i, hi)
    ensures PivotsOk(With(p, i, x), lo, hi) && With(p, i, x)[i] == x
  {
    var q := With(p, i, x);
    assert forall j :: 0 <= j < i ==> q[j] == p[j];
    assert forall j :: i < j < |q| ==> q[j] == p[j - 1];
    assert forall j :: 0 <= j < i ==> p[j] <= p[i - 1];
    assert forall j :: i <= j < |p| ==> p[i] <= p[j];
  }

  lemma InsertedSlot(p: seq<nat>, i: nat, x: nat, lo: nat, hi: nat, a: nat)
    requires PivotsOk(p, lo, hi) && i <= |p| && |p| + 1 < NODE_SLOTS
    requires Lo(p, i, lo) < x < Hi(p, i, hi) && lo <= a < hi
    ensures var r := SlotFor(p, a);
      SlotFor(With(p, i, x), a) == if r < i || (r == i && a < x) then r else r + 1
  {
    var q := With(p, i, x);
    InsertedPivotOk(p, i, x, lo, hi);
    var r := SlotFor(p, a);
    SlotRange(p, lo, hi, a);
    SlotRange(q, lo, hi, a);
    var r' := if r < i || (r == i && a < x) then r else r + 1;
    assert Lo(q, r', lo) <= a < Hi(q, r', hi);
  }

  /** A new pivot inside slot `i` leaves both halves of the slot with its content. */
  lemma InsertedPivot<T>(p: seq<nat>, s: seq<T>, i: nat, x: nat, lo: nat, hi: nat, a: nat)
    requires PivotsOk(p, lo, hi) && i <= |p| && |s| == |p| + 1 && |p| + 1 < NODE_SLOTS
    requires Lo(p, i, lo) < x < Hi(p, i, hi) && lo <= a < hi
    ensures SlotFor(With(p, i, x), a) <= |p| + 1 && With(s, i, s[i])[SlotFor(With(p, i, x), a)] == s[SlotFor(p, a)]
  {
    InsertedSlot(p, i, x, lo, hi, a);
  }

  // ---------------------------------------------------------------- trees

  /** Pivots increase inside the range of their node, at every level. */
  ghost predicate Wf(t: Tree, lo: nat, hi: nat)
    decreases t
  {
    && PivotsOk(t.pivots, lo, hi)
    && match t
       case Leaf(_, p, s) => |s| == |p| + 1
       case Internal(_, p, k) => |k| == |p| + 1 && forall i :: 0 <= i < |k| ==> Wf(k[i], Lo(p, i, lo), Hi(p, i, hi))
  }

  /** The entry at address `a`. */
  function At(t: Tree, a: nat): nat {
    var i := SlotFor(t.pivots, a);
    match t
    case Leaf(_, _, s) => if i < |s| then s[i] else HOLE
    case Internal(_, _, k) => if i < |k| then At(k[i], a) else HOLE
  }

  /** `t'` is the same node as `t` with `entry` written to the addresses `start..end`. */
  ghost predicate Wrote(t: Tree, t': Tree, lo: nat, hi: nat, start: nat, end: nat, entry: nat) {
    && t'.id == t.id && Wf(t', lo, hi)
    && forall a :: lo <= a < hi ==> At(t', a) == if start <= a < end then entry else At(t, a)
  }

  /** Same node, same entries. */
  ghost predicate Same(t: Tree, t': Tree, lo: nat, hi: nat) {
    t'.id == t.id && Wf(t', lo, hi) && forall a :: lo <= a < hi ==> At(t', a) == At(t, a)
  }

  /** Writing in every child is writing in the node. */
  lemma KidsWrote(t: Tree, k: seq<Tree>, lo: nat, hi: nat, start: nat, end: nat, entry: nat)
    requires t.Internal? && Wf(t, lo, hi) && |k| == |t.kids|
    requires forall i :: 0 <= i < |k| ==>
      Wrote(t.kids[i], k[i], Lo(t.pivots, i, lo), Hi(t.pivots, i, hi), start, end, entry)
    ensures Wrote(t, t.(kids := k), lo, hi, start, end, entry)
  {
    var t' := t.(kids := k);
    assert Wf(t', lo, hi);
    forall a | lo <= a < hi
      ensures At(t', a) == if start <= a < end then entry else At(t, a)
    {
      SlotRange(t.pivots, lo, hi, a);
      var i := SlotFor(t.pivots, a);
      assert Wrote(t.kids[i], k[i], Lo(t.pivots, i, lo), Hi(t.pivots, i, hi), start, end, entry);
    }
  }

  lemma KidsSame(t: Tree, k: seq<Tree>, lo: nat, hi: nat)
    requires t.Internal? && Wf(t, lo, hi) && |k| == |t.kids|
    requires forall i :: 0 <= i < |k| ==> Same(t.kids[i], k[i], Lo(t.pivots, i, lo), Hi(t.pivots, i, hi))
    ensures Same(t, t.(kids := k), lo, hi)
  {
    forall i | 0 <= i < |k|
      ensures Wrote(t.kids[i], k[i], Lo(t.pivots, i, lo), Hi(t.pivots, i, hi), 0, 0, 0)
    {
      assert Same(t.kids[i], k[i], Lo(t.pivots, i, lo), Hi(t.pivots, i, hi));
    }
    KidsWrote(t, k, lo, hi, 0, 0, 0);
  }

  /** `x` is not strictly inside a slot of a leaf. */
  ghost predicate Boundary(t: Tree, lo: nat, hi: nat, x: nat)
    decreases t
  {
    x <= lo || x >= hi ||
    match t
    case Leaf(_, p, _) => x in p
    case Internal(_, p, k) =>
      var i := SlotFor(p, x);
      i < |k| && Boundary(k[i], Lo(p, i, lo), Hi(p, i, hi), x)
  }

  ghost predicate BoundariesKept(t: Tree, t': Tree, lo: nat, hi: nat) {
    forall x :: Boundary(t, lo, hi, x) ==> Boundary(t', lo, hi, x)
  }

  lemma KidBoundaries(t: Tree, i: nat, kid: Tree, lo: nat, hi: nat)
    requires t.Internal? && Wf(t, lo, hi) && i < |t.kids|
    requires BoundariesKept(t.kids[i], kid, Lo(t.pivots, i, lo), Hi(t.pivots, i, hi))
    ensures BoundariesKept(t, t.(kids := t.kids[i := kid]), lo, hi)
  {
    forall x | Boundary(t, lo, hi, x)
      ensures Boundary(t.(kids := t.kids[i := kid]), lo, hi, x)
    {
      KidBoundary(t, i, kid, lo, hi, x);
    }
  }

  lemma KidBoundary(t: Tree, i: nat, kid: Tree, lo: nat, hi: nat, x: nat)
    requires t.Internal? && |t.kids| == |t.pivots| + 1 && i < |t.kids| && Boundary(t, lo, hi, x)
    requires BoundariesKept(t.kids[i], kid, Lo(t.pivots, i, lo), Hi(t.pivots, i, hi))
    ensures Boundary(t.(kids := t.kids[i := kid]), lo, hi, x)
  {
    if lo < x < hi {
      var j := SlotFor(t.pivots, x);
      assert Boundary(t.kids[j], Lo(t.pivots, j, lo), Hi(t.pivots, j, hi), x);
    }
  }

  predicate Uniform(t: Tree) {
    t.Leaf? && |t.pivots| == 0
  }

  /** Nothing is left to merge. */
  ghost predicate Normal(t: Tree)
    decreases t
  {
    match t
    case Leaf(_, p, s) => Differing(s)
    case Internal(_, p, k) =>
      && (forall i :: 0 <= i < |k| ==> Normal(k[i]))
      && NoEqualUniform(k, |k|) && !(|k| == 1 && Uniform(k[0]))
  }

  ghost predicate Differing(s: seq<nat>) {
    forall i :: 0 <= i < |s| - 1 ==> s[i] != s[i + 1]
  }

  predicate Mergeable(t: Tree, u: Tree) {
    Uniform(t) && Uniform(u) && |t.slots| == 1 && |u.slots| == 1 && t.slots[0] == u.slots[0]
  }

  /** Among the first `n` children no two neighbours are equal uniform leaves. */
  ghost predicate NoEqualUniform(k: seq<Tree>, n: nat) {
    n <= |k| && forall i :: 0 <= i < n - 1 ==> !Mergeable(k[i], k[i + 1])
  }

  // ---------------------------------------------------------------- nodes in memory

  /** The node and the nodes below it, each as often as it is reached. */
  ghost function Nodes(t: Tree): multiset<nat>
    decreases t, 1
  {
    multiset{t.id} + Below(t)
  }

  ghost function Below(t: Tree): multiset<nat>
    decreases t, 0
  {
    match t
    case Leaf(_, _, _) => multiset{}
    case Internal(_, _, k) => NodesOf(k)
  }

  ghost function NodesOf(k: seq<Tree>): multiset<nat>
    decreases k, 2
  {
    Sum(NodesEach(k))
  }

  ghost function NodesEach(k: seq<Tree>): (r: seq<multiset<nat>>)
    ensures |r| == |k| && forall i :: 0 <= i < |k| ==> r[i] == Nodes(k[i])
    decreases k, 1
  {
    seq(|k|, i requires 0 <= i < |k| => Nodes(k[i]))
  }

  lemma NodesFirst(k: seq<Tree>)
    requires k != []
    ensures NodesOf(k) == Nodes(k[0]) + NodesOf(k[1..])
  {
    assert NodesEach(k)[1..] == NodesEach(k[1..]);
  }

  lemma NodesLast(k: seq<Tree>, t: Tree)
    ensures NodesOf(k + [t]) == NodesOf(k) + Nodes(t)
  {
    NodesWithout(k + [t], |k|);
    assert RemoveAt(k + [t], |k|) == k;
  }

  lemma NodesReplaced(k: seq<Tree>, i: nat, t: Tree)
    requires i < |k|
    ensures NodesOf(k[i := t]) + Nodes(k[i]) == NodesOf(k) + Nodes(t)
  {
    assert NodesEach(k[i := t]) == NodesEach(k)[i := Nodes(t)];
    SumReplaced(NodesEach(k), i, Nodes(t));
  }

  lemma {:induction false} NodesWithout(k: seq<Tree>, i: nat)
    requires i < |k|
    ensures NodesOf(RemoveAt(k, i)) + Nodes(k[i]) == NodesOf(k)
    decreases i
  {
    NodesFirst(k);
    if i == 0 {
      assert RemoveAt(k, 0) == k[1..];
    } else {
      var r := RemoveAt(k, i);
      RemoveFirst(k, i);
      NodesFirst(r);
      NodesWithout(k[1..], i - 1);
      AddAssoc(Nodes(k[0]), NodesOf(r[1..]), Nodes(k[i]));
    }
  }

  lemma RemoveFirst<T>(k: seq<T>, i: nat)
    requires 0 < i < |k|
    ensures RemoveAt(k, i)[0] == k[0] && RemoveAt(k, i)[1..] == RemoveAt(k[1..], i - 1)
  {}
}
