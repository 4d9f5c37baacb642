/**
 What the operations of the buddy allocator do to the set of free blocks: cutting a block,
 merging buddies, filling a range.
 */
module BuddyOperations {
  import opened Powers
  import opened BuddyBlocks

  /** `buddy_alloc`: the block of order `c` at `p` is cut down to order `k`; the upper halves
      that are cut off are free blocks. */
  function Cut(b: Blocks, p: nat, c: nat, k: nat): Blocks
    requires k <= c
    decreases c
  {
    if c == k then b else Cut(b[p + Pow2(c - 1) := c - 1], p, c - 1, k)
  }

  lemma {:induction false} CutTiles(b: Blocks, maxOrder: nat, end: nat, p: nat, c: nat, k: nat)
    requires Tiles(b, maxOrder, end) && k <= c && Fits(b, maxOrder, end, p, c)
    ensures Tiles(Cut(b, p, c, k), maxOrder, end) && Fits(Cut(b, p, c, k), maxOrder, end, p, k)
    decreases c
  {
    if c > k {
      CutHalf(b, maxOrder, end, p, c);
      CutTiles(b[p + Pow2(c - 1) := c - 1], maxOrder, end, p, c - 1, k);
    }
  }

  lemma {:induction false} CutCanonical(b: Blocks, maxOrder: nat, end: nat, p: nat, c: nat, k: nat)
    requires Tiles(b, maxOrder, end) && k <= c && Fits(b, maxOrder, end, p, c) && Canonical(b, maxOrder)
    ensures Canonical(Cut(b, p, c, k), maxOrder)
    decreases c
  {
    if c > k {
      CutHalf(b, maxOrder, end, p, c);
      CutHalfCanonical(b, maxOrder, end, p, c);
      var half := b[p + Pow2(c - 1) := c - 1];
      CutCanonical(half, maxOrder, end, p, c - 1, k);
    }
  }

  lemma {:induction false} CutCovers(b: Blocks, maxOrder: nat, end: nat, p: nat, c: nat, k: nat, x: nat)
    requires Tiles(b, maxOrder, end) && k <= c && Fits(b, maxOrder, end, p, c)
    ensures Covered(Cut(b, p, c, k), x) <==> Covered(b, x) || (In(x, p, c) && !In(x, p, k))
    decreases c
  {
    if c > k {
      CutHalf(b, maxOrder, end, p, c);
      CutCovers(b[p + Pow2(c - 1) := c - 1], maxOrder, end, p, c - 1, k, x);
      CutHalfCovers(b, maxOrder, end, p, c, x);
      InLarger(x, p, k, c - 1);
    }
  }

  lemma InLarger(x: nat, p: nat, k: nat, c: nat)
    requires k <= c
    ensures In(x, p, k) ==> In(x, p, c)
  {
    Pow2Monotone(k, c);
  }

  lemma CutKeeps(b: Blocks, maxOrder: nat, end: nat, p: nat, c: nat, k: nat)
    requires Tiles(b, maxOrder, end) && k <= c && Fits(b, maxOrder, end, p, c)
    ensures Tiles(Cut(b, p, c, k), maxOrder, end) && Fits(Cut(b, p, c, k), maxOrder, end, p, k)
    ensures forall x :: Covered(Cut(b, p, c, k), x) <==> Covered(b, x) || (In(x, p, c) && !In(x, p, k))
  {
    CutTiles(b, maxOrder, end, p, c, k);
    forall x
      ensures Covered(Cut(b, p, c, k), x) <==> Covered(b, x) || (In(x, p, c) && !In(x, p, k))
    {
      CutCovers(b, maxOrder, end, p, c, k, x);
    }
  }

  lemma {:induction false} CutPages(b: Blocks, maxOrder: nat, end: nat, p: nat, c: nat, k: nat)
    requires Tiles(b, maxOrder, end) && k <= c && Fits(b, maxOrder, end, p, c)
    ensures PagesBelow(Cut(b, p, c, k), end) == PagesBelow(b, end) + Pow2(c) - Pow2(k)
    decreases c
  {
    if c > k {
      CutHalf(b, maxOrder, end, p, c);
      CutPages(b[p + Pow2(c - 1) := c - 1], maxOrder, end, p, c - 1, k);
      PagesAdded(b, p + Pow2(c - 1), c - 1, end);
    }
  }

  lemma HalvesFit(b: Blocks, maxOrder: nat, end: nat, p: nat, c: nat)
    requires c > 0 && Fits(b, maxOrder, end, p, c)
    ensures Fits(b, maxOrder, end, p, c - 1) && Fits(b, maxOrder, end, p + Pow2(c - 1), c - 1)
    ensures p !in b && Flip(p + Pow2(c - 1), c - 1) == p
  {
    AlignedSmaller(p, c, c - 1);
    AlignedNext(p, c - 1);
    FlipAligned(p, c - 1);
  }

  lemma CutHalf(b: Blocks, maxOrder: nat, end: nat, p: nat, c: nat)
    requires Tiles(b, maxOrder, end) && c > 0 && Fits(b, maxOrder, end, p, c)
    ensures var q := p + Pow2(c - 1);
      && Fits(b, maxOrder, end, q, c - 1) && q !in b
      && Tiles(b[q := c - 1], maxOrder, end) && Fits(b[q := c - 1], maxOrder, end, p, c - 1)
  {
    HalvesFit(b, maxOrder, end, p, c);
    AddBlock(b, maxOrder, end, p + Pow2(c - 1), c - 1);
  }

  lemma CutHalfCanonical(b: Blocks, maxOrder: nat, end: nat, p: nat, c: nat)
    requires Tiles(b, maxOrder, end) && c > 0 && Fits(b, maxOrder, end, p, c) && Canonical(b, maxOrder)
    ensures Canonical(b[p + Pow2(c - 1) := c - 1], maxOrder)
  {
    HalvesFit(b, maxOrder, end, p, c);
    AddKeepsCanonical(b, maxOrder, end, p + Pow2(c - 1), c - 1);
  }

  lemma CutHalfCovers(b: Blocks, maxOrder: nat, end: nat, p: nat, c: nat, x: nat)
    requires Tiles(b, maxOrder, end) && c > 0 && Fits(b, maxOrder, end, p, c)
    ensures var q := p + Pow2(c - 1);
      && (Covered(b[q := c - 1], x) <==> Covered(b, x) || In(x, q, c - 1))
      && (In(x, p, c) <==> In(x, p, c - 1) || In(x, q, c - 1)) && !(In(x, p, c - 1) && In(x, q, c - 1))
  {
    HalvesFit(b, maxOrder, end, p, c);
    AddBlock(b, maxOrder, end, p + Pow2(c - 1), c - 1);
  }

  /** `buddy_free`: the block merges with its buddy as long as that is free. */
  function Merge(b: Blocks, maxOrder: nat, p: nat, k: nat): Blocks
    decreases maxOrder - k
  {
    var q := Flip(p, k);
    if k < maxOrder && q in b && b[q] == k then Merge(b - {q}, maxOrder, if q < p then q else p, k + 1)
    else b[p := k]
  }

  /** The merging loop, at the block of order `k` at `p`, ends with the blocks `goal`. */
  ghost predicate MergesTo(b: Blocks, maxOrder: nat, p: nat, k: nat, stop: bool, goal: Blocks) {
    goal == if stop then b[p := k] else Merge(b, maxOrder, p, k)
  }

  lemma MergeBuddyFits(b: Blocks, maxOrder: nat, end: nat, p: nat, k: nat, q: nat)
    requires Tiles(b, maxOrder, end) && Fits(b, maxOrder, end, p, k)
    requires k < maxOrder && q == Flip(p, k) && q in b && b[q] == k
    ensures Tiles(b - {q}, maxOrder, end) && Fits(b - {q}, maxOrder, end, if q < p then q else p, k + 1)
  {
    MergeBuddy(b, maxOrder, end, p, k);
  }

  lemma MergeBuddy(b: Blocks, maxOrder: nat, end: nat, p: nat, k: nat)
    requires Tiles(b, maxOrder, end) && Fits(b, maxOrder, end, p, k)
    requires k < maxOrder && Flip(p, k) in b && b[Flip(p, k)] == k
    ensures var q, lo := Flip(p, k), if Flip(p, k) < p then Flip(p, k) else p;
      && Tiles(b - {q}, maxOrder, end) && Fits(b - {q}, maxOrder, end, lo, k + 1)
      && (forall x :: Covered(b - {q}, x) || In(x, lo, k + 1) <==> Covered(b, x) || In(x, p, k))
  {
    var q := Flip(p, k);
    FlipAligned(p, k);
    TakeBlock(b, maxOrder, end, q);
    MergedFits(b - {q}, maxOrder, end, p, k);
    assert forall x :: In(x, q, k) ==> Covered(b, x);
  }

  lemma MergedFits(b: Blocks, maxOrder: nat, end: nat, p: nat, k: nat)
    requires Fits(b, maxOrder, end, p, k) && Fits(b, maxOrder, end, Flip(p, k), k) && k < maxOrder
    ensures var q, lo := Flip(p, k), if Flip(p, k) < p then Flip(p, k) else p;
      Fits(b, maxOrder, end, lo, k + 1) && forall x :: In(x, lo, k + 1) <==> In(x, p, k) || In(x, q, k)
  {
    FlipAligned(p, k);
    assert Pow2(k + 1) == 2 * Pow2(k);
    var lo := if Flip(p, k) < p then Flip(p, k) else p;
    forall r | r in b
      ensures r + Pow2(b[r]) <= lo || lo + Pow2(k + 1) <= r
    {
      Pow2Monotone(0, b[r]);
    }
  }

  lemma MergeKeeps(b: Blocks, maxOrder: nat, end: nat, p: nat, k: nat)
    requires Tiles(b, maxOrder, end) && Fits(b, maxOrder, end, p, k)
    ensures Tiles(Merge(b, maxOrder, p, k), maxOrder, end)
    ensures forall x :: Covered(Merge(b, maxOrder, p, k), x) <==> Covered(b, x) || In(x, p, k)
  {
    MergeTiles(b, maxOrder, end, p, k);
    forall x: nat
      ensures Covered(Merge(b, maxOrder, p, k), x) <==> Covered(b, x) || In(x, p, k)
    {
      MergeCovers(b, maxOrder, end, p, k, x);
    }
  }

  lemma {:induction false} MergeTiles(b: Blocks, maxOrder: nat, end: nat, p: nat, k: nat)
    requires Tiles(b, maxOrder, end) && Fits(b, maxOrder, end, p, k)
    ensures Tiles(Merge(b, maxOrder, p, k), maxOrder, end)
    decreases maxOrder - k
  {
    var q := Flip(p, k);
    if k < maxOrder && q in b && b[q] == k {
      MergeBuddyFits(b, maxOrder, end, p, k, q);
      MergeTiles(b - {q}, maxOrder, end, if q < p then q else p, k + 1);
      assert Merge(b, maxOrder, p, k) == Merge(b - {q}, maxOrder, if q < p then q else p, k + 1);
    } else {
      AddBlock(b, maxOrder, end, p, k);
    }
  }

  lemma {:induction false} MergeCovers(b: Blocks, maxOrder: nat, end: nat, p: nat, k: nat, x: nat)
    requires Tiles(b, maxOrder, end) && Fits(b, maxOrder, end, p, k)
    ensures Covered(Merge(b, maxOrder, p, k), x) <==> Covered(b, x) || In(x, p, k)
    decreases maxOrder - k
  {
    var q := Flip(p, k);
    if k < maxOrder && q in b && b[q] == k {
      MergeBuddy(b, maxOrder, end, p, k);
      MergeCovers(b - {q}, maxOrder, end, if q < p then q else p, k + 1, x);
    } else {
      AddBlock(b, maxOrder, end, p, k);
    }
  }

  lemma {:induction false} MergeCanonical(b: Blocks, maxOrder: nat, end: nat, p: nat, k: nat)
    requires Tiles(b, maxOrder, end) && Fits(b, maxOrder, end, p, k) && Canonical(b, maxOrder)
    ensures Canonical(Merge(b, maxOrder, p, k), maxOrder)
    decreases maxOrder - k
  {
    var q := Flip(p, k);
    if k < maxOrder && q in b && b[q] == k {
      MergeBuddy(b, maxOrder, end, p, k);
      TakeKeepsCanonical(b, maxOrder, q);
      MergeCanonical(b - {q}, maxOrder, end, if q < p then q else p, k + 1);
    } else {
      AddKeepsCanonical(b, maxOrder, end, p, k);
    }
  }

  lemma {:induction false} MergePages(b: Blocks, maxOrder: nat, end: nat, p: nat, k: nat)
    requires Tiles(b, maxOrder, end) && Fits(b, maxOrder, end, p, k)
    ensures PagesBelow(Merge(b, maxOrder, p, k), end) == PagesBelow(b, end) + Pow2(k)
    decreases maxOrder - k
  {
    var q := Flip(p, k);
    if k < maxOrder && q in b && b[q] == k {
      MergeBuddy(b, maxOrder, end, p, k);
      Pow2Monotone(0, k);
      PagesTaken(b, q, end);
      MergePages(b - {q}, maxOrder, end, if q < p then q else p, k + 1);
    } else {
      AddBlock(b, maxOrder, end, p, k);
      PagesAdded(b, p, k, end);
    }
  }

  /** Freeing what was just allocated restores the very same free blocks. */
  lemma FreeUndoesAlloc(b: Blocks, maxOrder: nat, end: nat, p: nat, k: nat)
    requires Tiles(b, maxOrder, end) && Canonical(b, maxOrder) && p in b && k <= b[p]
    ensures Merge(Cut(b - {p}, p, b[p], k), maxOrder, p, k) == b
  {
    var c := Cut(b - {p}, p, b[p], k);
    TakeBlock(b, maxOrder, end, p);
    TakeKeepsCanonical(b, maxOrder, p);
    CutKeeps(b - {p}, maxOrder, end, p, b[p], k);
    CutCanonical(b - {p}, maxOrder, end, p, b[p], k);
    MergeKeeps(c, maxOrder, end, p, k);
    MergeCanonical(c, maxOrder, end, p, k);
    Pow2Monotone(k, b[p]);
    CanonicalUnique(Merge(c, maxOrder, p, k), b, maxOrder, end);
  }

  /** There is a block to cut an order-`k` block from exactly when there is an aligned run of
      free pages of that size. */
  lemma BlockExistsIffRun(b: Blocks, maxOrder: nat, end: nat, k: nat)
    requires Tiles(b, maxOrder, end) && Canonical(b, maxOrder) && k <= maxOrder
    ensures (exists p :: p in b && k <= b[p]) <==> (exists p :: Aligned(p, k) && AllCovered(b, p, k))
  {
    if p :| p in b && k <= b[p] {
      AlignedSmaller(p, b[p], k);
      Pow2Monotone(k, b[p]);
      assert AllCovered(b, p, k);
    }
    if p :| Aligned(p, k) && AllCovered(b, p, k) {
      var q := RunInBlock(b, maxOrder, end, p, k);
    }
  }

  // ---------------------------------------------------------------- filling a range

  /** `k` is the order that the inner loop of `add_range` settles on. */
  predicate Greedy(p: nat, e: nat, maxOrder: nat, k: nat)
    requires p <= e
  {
    && k <= maxOrder && Aligned(p, k) && Pow2(k) <= e - p
    && (k == maxOrder || !Aligned(p, k + 1) || Pow2(k + 1) > e - p)
  }

  ghost predicate Uncovered(b: Blocks, lo: nat, hi: nat) {
    forall x :: lo <= x < hi ==> !Covered(b, x)
  }

  /** Pushing the next block of a range that starts at `p`. */
  lemma GreedyPush(b: Blocks, maxOrder: nat, end: nat, p: nat, e: nat, k: nat)
    requires Tiles(b, maxOrder, end) && p < e <= end && Uncovered(b, p, e) && Greedy(p, e, maxOrder, k)
    ensures Fits(b, maxOrder, end, p, k) && p !in b && Tiles(b[p := k], maxOrder, end)
    ensures forall x :: Covered(b[p := k], x) <==> Covered(b, x) || In(x, p, k)
    ensures Uncovered(b[p := k], p + Pow2(k), e)
  {
    UncoveredFits(b, maxOrder, end, p, k);
    AddBlock(b, maxOrder, end, p, k);
    var c := b[p := k];
    forall x | p + Pow2(k) <= x < e
      ensures !Covered(c, x)
    {
      assert !In(x, p, k);
    }
  }
}
