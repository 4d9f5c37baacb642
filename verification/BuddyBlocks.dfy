/**
 Aligned power-of-two blocks of pages, as the buddy allocator (kernel/src/mm/buddy.c) cuts
 and merges them.  A set of blocks is a map from the first page of each block to its order.
 */
module BuddyBlocks {
  import opened Powers

  type Blocks = map<nat, nat>

  /** The low `k` bits of `p` are zero: `(p & (Pow2(k) - 1)) == 0`. */
  predicate Aligned(p: nat, k: nat) {
    k == 0 || (p % 2 == 0 && Aligned(p / 2, k - 1))
  }

  /** Bit `k` of `p`. */
  predicate Bit(p: nat, k: nat) {
    if k == 0 then p % 2 == 1 else Bit(p / 2, k - 1)
  }

  /** `p ^ Pow2(k)`: the first page of the buddy of an aligned block. */
  function Flip(p: nat, k: nat): nat {
    if k == 0 then (if p % 2 == 0 then p + 1 else p - 1)
    else 2 * Flip(p / 2, k - 1) + p % 2
  }

  // ---------------------------------------------------------------- alignment

  lemma {:induction false} AlignedSmaller(p: nat, k: nat, j: nat)
    requires Aligned(p, k) && j <= k
    ensures Aligned(p, j)
    decreases k
  {
    if j > 0 {
      AlignedSmaller(p / 2, k - 1, j - 1);
    }
  }

  /** Multiples of `Pow2(k)` keep that distance. */
  lemma {:induction false} AlignedGap(p: nat, q: nat, k: nat)
    requires Aligned(p, k) && Aligned(q, k) && p < q
    ensures p + Pow2(k) <= q
    decreases k
  {
    if k > 0 {
      AlignedGap(p / 2, q / 2, k - 1);
    }
  }

  lemma {:induction false} AlignedNext(p: nat, k: nat)
    requires Aligned(p, k)
    ensures Aligned(p + Pow2(k), k)
    ensures p >= Pow2(k) ==> Aligned(p - Pow2(k), k)
  {
    if k > 0 {
      AlignedNext(p / 2, k - 1);
      assert (p + Pow2(k)) / 2 == p / 2 + Pow2(k - 1);
    }
  }

  lemma {:induction false} AlignedBit(p: nat, k: nat)
    requires Aligned(p, k)
    ensures Aligned(p, k + 1) <==> !Bit(p, k)
  {
    if k > 0 {
      AlignedBit(p / 2, k - 1);
    }
  }

  /** The buddy of a block is the other half of the block of the next order. */
  lemma {:induction false} FlipAligned(p: nat, k: nat)
    requires Aligned(p, k)
    ensures Aligned(Flip(p, k), k) && Flip(Flip(p, k), k) == p
    ensures Aligned(p, k + 1) ==> Flip(p, k) == p + Pow2(k)
    ensures !Aligned(p, k + 1) ==> p >= Pow2(k) && Flip(p, k) == p - Pow2(k) && Aligned(Flip(p, k), k + 1)
  {
    if k > 0 {
      FlipAligned(p / 2, k - 1);
      assert p == 2 * (p / 2) && Pow2(k) == 2 * Pow2(k - 1);
      assert Flip(p, k) == 2 * Flip(p / 2, k - 1) && Flip(p, k) / 2 == Flip(p / 2, k - 1);
      assert Aligned(p, k + 1) <==> Aligned(p / 2, k);
    } else {
      assert Pow2(0) == 1 && Aligned(p / 2, 0) && Aligned((p - p % 2) / 2, 0);
      assert Aligned(p, 1) <==> p % 2 == 0;
    }
  }

  // ---------------------------------------------------------------- blocks

  /** Page `x` lies in the block of order `k` at `p`. */
  predicate In(x: nat, p: nat, k: nat) {
    p <= x < p + Pow2(k)
  }

  /** The blocks are aligned, inside the first `end` pages and pairwise disjoint. */
  ghost predicate Tiles(b: Blocks, maxOrder: nat, end: nat) {
    && (forall p :: p in b ==> b[p] <= maxOrder && Aligned(p, b[p]) && p + Pow2(b[p]) <= end)
    && (forall p, q :: p in b && q in b && p < q ==> p + Pow2(b[p]) <= q)
  }

  ghost predicate Covered(b: Blocks, x: nat) {
    exists p :: p in b && In(x, p, b[p])
  }

  /** No two buddies that could be merged are both there. */
  ghost predicate Canonical(b: Blocks, maxOrder: nat) {
    forall p {:trigger Flip(p, b[p])} :: p in b && b[p] < maxOrder ==> !(Flip(p, b[p]) in b && b[Flip(p, b[p])] == b[p])
  }

  /** An aligned block that meets a block of at least its order lies inside it. */
  lemma Nested(p: nat, k: nat, q: nat, j: nat)
    requires k <= j && Aligned(p, k) && Aligned(q, j) && q < p + Pow2(k) && p < q + Pow2(j)
    ensures q <= p && p + Pow2(k) <= q + Pow2(j)
  {
    AlignedSmaller(q, j, k);
    AlignedNext(q, j);
    AlignedSmaller(q + Pow2(j), j, k);
    if p < q {
      AlignedGap(p, q, k);
    } else {
      AlignedGap(p, q + Pow2(j), k);
    }
  }

  ghost predicate AllCovered(b: Blocks, p: nat, k: nat) {
    forall x :: In(x, p, k) ==> Covered(b, x)
  }

  /** In a canonical decomposition every aligned run of covered pages lies in one block. */
  lemma {:induction false} RunInBlock(b: Blocks, maxOrder: nat, end: nat, p: nat, k: nat) returns (q: nat)
    requires Tiles(b, maxOrder, end) && Canonical(b, maxOrder)
    requires k <= maxOrder && Aligned(p, k) && AllCovered(b, p, k)
    ensures q in b && k <= b[q] && q <= p && p + Pow2(k) <= q + Pow2(b[q])
    decreases k
  {
    if k == 0 {
      assert In(p, p, 0);
      q :| q in b && In(p, q, b[q]);
    } else {
      var h := p + Pow2(k - 1);
      AlignedSmaller(p, k, k - 1);
      AlignedNext(p, k - 1);
      assert forall x :: In(x, p, k - 1) || In(x, h, k - 1) ==> In(x, p, k);
      var q1 := RunInBlock(b, maxOrder, end, p, k - 1);
      var q2 := RunInBlock(b, maxOrder, end, h, k - 1);
      q := LargerHalf(b, maxOrder, end, p, k, q1, q2);
    }
  }

  /** The blocks around two halves cannot both be of the halves' own order. */
  lemma LargerHalf(b: Blocks, maxOrder: nat, end: nat, p: nat, k: nat, q1: nat, q2: nat) returns (q: nat)
    requires Tiles(b, maxOrder, end) && Canonical(b, maxOrder) && 0 < k <= maxOrder && Aligned(p, k)
    requires q1 in b && k - 1 <= b[q1] && q1 <= p && p + Pow2(k - 1) <= q1 + Pow2(b[q1])
    requires q2 in b && k - 1 <= b[q2] && q2 <= p + Pow2(k - 1) && p + Pow2(k) <= q2 + Pow2(b[q2])
    ensures q in b && k <= b[q] && q <= p && p + Pow2(k) <= q + Pow2(b[q])
  {
    AlignedSmaller(p, k, k - 1);
    FlipAligned(p, k - 1);
    q := if b[q1] >= k then q1 else q2;
    assert b[q1] < k ==> q1 == p;
    assert b[q] >= k;
    Nested(p, k, q, b[q]);
  }

  /** The blocks of a canonical decomposition are exactly the maximal aligned free runs. */
  lemma BlocksAreMaximalRuns(b: Blocks, maxOrder: nat, end: nat, p: nat, k: nat)
    requires Tiles(b, maxOrder, end) && Canonical(b, maxOrder) && k <= maxOrder && Aligned(p, k)
    ensures p in b && b[p] == k <==>
      AllCovered(b, p, k) && (k == maxOrder || !AllCovered(b, if p <= Flip(p, k) then p else Flip(p, k), k + 1))
  {
    var parent := if p <= Flip(p, k) then p else Flip(p, k);
    FlipAligned(p, k);
    if p in b && b[p] == k {
      if k < maxOrder && AllCovered(b, parent, k + 1) {
        var q := RunInBlock(b, maxOrder, end, parent, k + 1);
        assert false;
      }
    } else if AllCovered(b, p, k) {
      var q := RunInBlock(b, maxOrder, end, p, k);
      assert b[q] > k;
      AlignedSmaller(q, b[q], k + 1);
      Nested(parent, k + 1, q, b[q]);
      assert AllCovered(b, parent, k + 1);
    }
  }

  /** Two canonical decompositions of the same pages are equal. */
  lemma CanonicalUnique(b: Blocks, c: Blocks, maxOrder: nat, end: nat)
    requires Tiles(b, maxOrder, end) && Canonical(b, maxOrder)
    requires Tiles(c, maxOrder, end) && Canonical(c, maxOrder)
    requires forall x :: Covered(b, x) <==> Covered(c, x)
    ensures b == c
  {
    forall p | p in b
      ensures p in c && c[p] == b[p]
    {
      BlockOfOther(b, c, maxOrder, end, p);
    }
    forall p | p in c
      ensures p in b && b[p] == c[p]
    {
      BlockOfOther(c, b, maxOrder, end, p);
    }
  }

  lemma BlockOfOther(b: Blocks, c: Blocks, maxOrder: nat, end: nat, p: nat)
    requires Tiles(b, maxOrder, end) && Canonical(b, maxOrder)
    requires Tiles(c, maxOrder, end) && Canonical(c, maxOrder)
    requires forall x :: Covered(b, x) <==> Covered(c, x)
    requires p in b
    ensures p in c && c[p] == b[p]
  {
    assert AllCovered(b, p, b[p]);
    var q := RunInBlock(c, maxOrder, end, p, b[p]);
    assert AllCovered(c, q, c[q]);
    var r := RunInBlock(b, maxOrder, end, q, c[q]);
    assert r == p;
    Pow2Monotone(b[p], c[q]);
  }

  // ---------------------------------------------------------------- adding and taking blocks

  /** A block of order `k` at `p` fits beside the blocks of `b`. */
  ghost predicate Fits(b: Blocks, maxOrder: nat, end: nat, p: nat, k: nat) {
    && k <= maxOrder && Aligned(p, k) && p + Pow2(k) <= end
    && (forall q :: q in b ==> q + Pow2(b[q]) <= p || p + Pow2(k) <= q)
  }

  lemma AddBlock(b: Blocks, maxOrder: nat, end: nat, p: nat, k: nat)
    requires Tiles(b, maxOrder, end) && Fits(b, maxOrder, end, p, k)
    ensures p !in b && Tiles(b[p := k], maxOrder, end)
    ensures forall x :: Covered(b[p := k], x) <==> Covered(b, x) || In(x, p, k)
    ensures forall x :: In(x, p, k) ==> !Covered(b, x)
  {
    var c := b[p := k];
    assert forall q :: q in b ==> q in c && c[q] == b[q];
    forall x
      ensures Covered(c, x) <==> Covered(b, x) || In(x, p, k)
    {
      if Covered(b, x) {
        var q :| q in b && In(x, q, b[q]);
        assert q in c && In(x, q, c[q]);
      } else if In(x, p, k) {
        assert p in c && In(x, p, c[p]);
      }
    }
  }

  lemma TakeBlock(b: Blocks, maxOrder: nat, end: nat, p: nat)
    requires Tiles(b, maxOrder, end) && p in b
    ensures Tiles(b - {p}, maxOrder, end) && Fits(b - {p}, maxOrder, end, p, b[p])
    ensures forall x :: Covered(b - {p}, x) <==> Covered(b, x) && !In(x, p, b[p])
  {
    var c := b - {p};
    forall x
      ensures Covered(c, x) <==> Covered(b, x) && !In(x, p, b[p])
    {
      if Covered(b, x) && !In(x, p, b[p]) {
        var q :| q in b && In(x, q, b[q]);
        assert q in c && In(x, q, c[q]);
      }
    }
  }

  lemma AddKeepsCanonical(b: Blocks, maxOrder: nat, end: nat, p: nat, k: nat)
    requires Tiles(b, maxOrder, end) && Fits(b, maxOrder, end, p, k) && Canonical(b, maxOrder)
    requires k < maxOrder ==> !(Flip(p, k) in b && b[Flip(p, k)] == k)
    ensures Canonical(b[p := k], maxOrder)
  {
    var c := b[p := k];
    FlipAligned(p, k);
    forall q | q in c && c[q] < maxOrder
      ensures !(Flip(q, c[q]) in c && c[Flip(q, c[q])] == c[q])
    {
      FlipAligned(q, c[q]);
    }
  }

  lemma TakeKeepsCanonical(b: Blocks, maxOrder: nat, p: nat)
    requires Canonical(b, maxOrder)
    ensures Canonical(b - {p}, maxOrder)
  {}

  /** The number of pages in the blocks that start below `n`. */
  function PagesBelow(b: Blocks, n: nat): nat {
    if n == 0 then 0 else PagesBelow(b, n - 1) + if n - 1 in b then Pow2(b[n - 1]) else 0
  }

  lemma {:induction false} PagesAdded(b: Blocks, p: nat, k: nat, n: nat)
    requires p !in b
    ensures PagesBelow(b[p := k], n) == PagesBelow(b, n) + if p < n then Pow2(k) else 0
    decreases n
  {
    if n > 0 {
      PagesAdded(b, p, k, n - 1);
    }
  }

  lemma PagesTaken(b: Blocks, p: nat, n: nat)
    requires p in b && p < n
    ensures PagesBelow(b - {p}, n) == PagesBelow(b, n) - Pow2(b[p])
  {
    PagesAdded(b - {p}, p, b[p], n);
    assert (b - {p})[p := b[p]] == b;
  }

  /** A block whose pages are all uncovered fits. */
  lemma UncoveredFits(b: Blocks, maxOrder: nat, end: nat, p: nat, k: nat)
    requires Tiles(b, maxOrder, end) && k <= maxOrder && Aligned(p, k) && p + Pow2(k) <= end
    requires forall x :: In(x, p, k) ==> !Covered(b, x)
    ensures Fits(b, maxOrder, end, p, k)
  {
    forall q | q in b
      ensures q + Pow2(b[q]) <= p || p + Pow2(k) <= q
    {
      var x := if q < p then p else q;
      assert In(x, q, b[q]) ==> Covered(b, x);
      assert !(In(x, p, k) && In(x, q, b[q]));
    }
  }
}
