/**
 Free lists and page flags of the buddy allocator as values: what it means that they describe
 a set of free blocks, and that pushing and unlinking a block keeps it so.
 */
module BuddyState {
  import opened Powers
  import opened Queues
  import opened BuddyBlocks
  import opened BuddyOperations

  const MAX_ORDERS: nat := 52  // PFN_VALID_BIT_WIDTH

  /** `k` is the largest order, of those there are, of a block below `end`. */
  predicate Largest(k: nat, end: nat) {
    k < MAX_ORDERS && (k > 0 ==> Pow2(k) <= end) && (k + 1 == MAX_ORDERS || Pow2(k + 1) > end)
  }

  /** The list of each order holds the free blocks of that order, each once. */
  ghost predicate ListsOk(lists: seq<seq<nat>>, b: Blocks) {
    forall k :: 0 <= k < |lists| ==> ListOk(lists[k], b, k)
  }

  ghost predicate ListOk(l: seq<nat>, b: Blocks, k: nat) {
    Distinct(l) && forall p :: p in l <==> p in b && b[p] == k
  }

  /** A page is marked free when a free block covers it, and marked as head, with the order
      of its block, when a free block starts there. */
  ghost predicate FlagsOk(free: seq<bool>, head: seq<bool>, order: seq<nat>, b: Blocks) {
    |free| == |head| == |order| && FreeOk(free, b) && HeadsOk(head, order, b)
  }

  ghost predicate FreeOk(free: seq<bool>, b: Blocks) {
    forall x :: 0 <= x < |free| ==> (free[x] <==> Covered(b, x))
  }

  ghost predicate HeadsOk(head: seq<bool>, order: seq<nat>, b: Blocks)
    requires |head| == |order|
  {
    forall x :: 0 <= x < |head| ==> (head[x] <==> x in b) && (head[x] ==> order[x] == b[x])
  }

  lemma PushedLists(lists: seq<seq<nat>>, b: Blocks, p: nat, k: nat)
    requires ListsOk(lists, b) && k < |lists| && p !in b
    ensures ListsOk(lists[k := [p] + lists[k]], b[p := k])
  {
    var l := [p] + lists[k];
    assert ListOk(lists[k], b, k);
    assert ListOk(l, b[p := k], k);
    forall j | 0 <= j < |lists| && j != k
      ensures ListOk(lists[j], b[p := k], j)
    {
      assert ListOk(lists[j], b, j);
    }
  }

  lemma DroppedLists(lists: seq<seq<nat>>, b: Blocks, p: nat)
    requires ListsOk(lists, b) && p in b && b[p] < |lists|
    ensures ListsOk(lists[b[p] := Without(lists[b[p]], p)], b - {p})
  {
    var k := b[p];
    assert ListOk(lists[k], b, k);
    WithoutRemoves(lists[k], p);
    assert ListOk(Without(lists[k], p), b - {p}, k);
    forall j | 0 <= j < |lists| && j != k
      ensures ListOk(lists[j], b - {p}, j)
    {
      assert ListOk(lists[j], b, j);
    }
  }

  /** The arrays after marking the block of order `k` at `p`. */
  ghost predicate Marked(free: seq<bool>, head: seq<bool>, free': seq<bool>, head': seq<bool>, p: nat, k: nat,
                         isFree: bool) {
    && |free'| == |free| && |head'| == |head| && |free| == |head| && p + Pow2(k) <= |free|
    && (forall x :: 0 <= x < |free| ==> free'[x] == if In(x, p, k) then isFree else free[x])
    && (forall x :: 0 <= x < |head| ==> head'[x] == if In(x, p, k) then false else head[x])
  }

  lemma PushedFlags(free: seq<bool>, head: seq<bool>, order: seq<nat>, b: Blocks,
                    free': seq<bool>, head': seq<bool>, maxOrder: nat, p: nat, k: nat)
    requires FlagsOk(free, head, order, b) && Tiles(b, maxOrder, |free|) && Fits(b, maxOrder, |free|, p, k)
    requires Marked(free, head, free', head', p, k, true)
    ensures FlagsOk(free', head'[p := true], order[p := k], b[p := k])
  {
    PushedFree(free, head, b, free', head', maxOrder, p, k);
    PushedHeads(free, head, order, b, free', head', maxOrder, p, k);
  }

  lemma PushedFree(free: seq<bool>, head: seq<bool>, b: Blocks, free': seq<bool>, head': seq<bool>, maxOrder: nat,
                   p: nat, k: nat)
    requires FreeOk(free, b) && Tiles(b, maxOrder, |free|) && Fits(b, maxOrder, |free|, p, k)
    requires Marked(free, head, free', head', p, k, true)
    ensures FreeOk(free', b[p := k])
  {
    AddBlock(b, maxOrder, |free|, p, k);
  }

  lemma PushedHeads(free: seq<bool>, head: seq<bool>, order: seq<nat>, b: Blocks,
                    free': seq<bool>, head': seq<bool>, maxOrder: nat, p: nat, k: nat)
    requires |head| == |order| && HeadsOk(head, order, b) && Fits(b, maxOrder, |free|, p, k)
    requires Marked(free, head, free', head', p, k, true)
    ensures p < |head| && HeadsOk(head'[p := true], order[p := k], b[p := k])
  {
    assert In(p, p, k);
    assert forall x :: x in b ==> !In(x, p, k);
  }

  lemma TakenFlags(free: seq<bool>, head: seq<bool>, order: seq<nat>, b: Blocks,
                   free': seq<bool>, head': seq<bool>, maxOrder: nat, p: nat)
    requires FlagsOk(free, head, order, b) && Tiles(b, maxOrder, |free|) && p in b
    requires Marked(free, head, free', head', p, b[p], false)
    ensures FlagsOk(free', head', order[p := 0], b - {p})
  {
    TakenFree(free, head, b, free', head', maxOrder, p);
    TakenHeads(free, head, order, b, free', head', maxOrder, p);
  }

  lemma TakenFree(free: seq<bool>, head: seq<bool>, b: Blocks, free': seq<bool>, head': seq<bool>, maxOrder: nat,
                  p: nat)
    requires FreeOk(free, b) && Tiles(b, maxOrder, |free|) && p in b
    requires Marked(free, head, free', head', p, b[p], false)
    ensures FreeOk(free', b - {p})
  {
    TakeBlock(b, maxOrder, |free|, p);
  }

  lemma TakenHeads(free: seq<bool>, head: seq<bool>, order: seq<nat>, b: Blocks,
                   free': seq<bool>, head': seq<bool>, maxOrder: nat, p: nat)
    requires |head| == |order| && HeadsOk(head, order, b) && Tiles(b, maxOrder, |free|) && p in b
    requires Marked(free, head, free', head', p, b[p], false)
    ensures p < |order| && HeadsOk(head', order[p := 0], b - {p})
  {
    assert In(p, p, b[p]);
    assert forall x :: x in b && x != p ==> !In(x, p, b[p]);
  }

  ghost predicate Partition(b: Blocks, t: Blocks, managed: set<nat>) {
    && (forall x :: !(Covered(b, x) && Covered(t, x)))
    && (forall x :: Covered(b, x) || Covered(t, x) <==> x in managed)
  }

  /** Flags, orders and lists describe the free blocks `b`. */
  ghost predicate Describes(free: seq<bool>, head: seq<bool>, order: seq<nat>, lists: seq<seq<nat>>,
                            b: Blocks, maxOrder: nat, end: nat) {
    && |free| == |head| == |order| == end && |lists| == MAX_ORDERS && maxOrder < MAX_ORDERS
    && Tiles(b, maxOrder, end) && FlagsOk(free, head, order, b) && ListsOk(lists, b)
  }

  /** Free and handed out blocks share no page and together make up the managed pages. */
  ghost predicate Accounted(b: Blocks, t: Blocks, managed: set<nat>, freePages: nat, maxOrder: nat, end: nat) {
    Tiles(t, maxOrder, end) && Partition(b, t, managed) && freePages == PagesBelow(b, end)
  }

  lemma BlocksValid(b: Blocks, t: Blocks, managed: set<nat>)
    requires Partition(b, t, managed)
    ensures b.Keys <= managed
  {
    forall p | p in b
      ensures p in managed
    {
      assert In(p, p, b[p]) && Covered(b, p);
    }
  }

  lemma FreeKeeps(b: Blocks, t: Blocks, managed: set<nat>, maxOrder: nat, end: nat, p: nat)
    requires Tiles(b, maxOrder, end) && Tiles(t, maxOrder, end) && Partition(b, t, managed) && p in t
    ensures Fits(b, maxOrder, end, p, t[p]) && Tiles(t - {p}, maxOrder, end)
    ensures Partition(Merge(b, maxOrder, p, t[p]), t - {p}, managed)
  {
    TakeBlock(t, maxOrder, end, p);
    assert forall x :: In(x, p, t[p]) ==> Covered(t, x);
    UncoveredFits(b, maxOrder, end, p, t[p]);
    MergeKeeps(b, maxOrder, end, p, t[p]);
  }

  lemma AllocPages(b: Blocks, maxOrder: nat, end: nat, p: nat, k: nat)
    requires Tiles(b, maxOrder, end) && p in b && k <= b[p]
    ensures PagesBelow(b, end) >= Pow2(k)
    ensures PagesBelow(Cut(b - {p}, p, b[p], k), end) == PagesBelow(b, end) - Pow2(k)
  {
    TakeBlock(b, maxOrder, end, p);
    Pow2Monotone(k, b[p]);
    PagesTaken(b, p, end);
    CutPages(b - {p}, maxOrder, end, p, b[p], k);
  }

  lemma AllocCovers(b: Blocks, maxOrder: nat, end: nat, p: nat, k: nat)
    requires Tiles(b, maxOrder, end) && p in b && k <= b[p]
    ensures forall x :: Covered(Cut(b - {p}, p, b[p], k), x) <==> Covered(b, x) && !In(x, p, k)
    ensures forall x :: In(x, p, k) ==> Covered(b, x)
  {
    TakeBlock(b, maxOrder, end, p);
    CutKeeps(b - {p}, maxOrder, end, p, b[p], k);
    Pow2Monotone(k, b[p]);
    assert forall x :: In(x, p, b[p]) ==> Covered(b, x);
  }

  lemma AllocKeeps(b: Blocks, t: Blocks, managed: set<nat>, maxOrder: nat, end: nat, p: nat, k: nat)
    requires Tiles(b, maxOrder, end) && Tiles(t, maxOrder, end) && Partition(b, t, managed) && p in b && k <= b[p]
    ensures p !in t && Tiles(t[p := k], maxOrder, end)
    ensures Partition(Cut(b - {p}, p, b[p], k), t[p := k], managed)
  {
    AllocCovers(b, maxOrder, end, p, k);
    Pow2Monotone(k, b[p]);
    AlignedSmaller(p, b[p], k);
    UncoveredFits(t, maxOrder, end, p, k);
    AddBlock(t, maxOrder, end, p, k);
  }

  /** `buddy_free` in terms of blocks. */
  lemma FreeAccounted(b: Blocks, t: Blocks, managed: set<nat>, freePages: nat, maxOrder: nat, end: nat, p: nat)
    requires Tiles(b, maxOrder, end) && Accounted(b, t, managed, freePages, maxOrder, end) && p in t
    ensures Fits(b, maxOrder, end, p, t[p]) && b.Keys <= managed
    ensures Accounted(Merge(b, maxOrder, p, t[p]), t - {p}, managed, freePages + Pow2(t[p]), maxOrder, end)
  {
    FreeKeeps(b, t, managed, maxOrder, end, p);
    MergePages(b, maxOrder, end, p, t[p]);
    BlocksValid(b, t, managed);
  }

  /** `buddy_alloc` in terms of blocks. */
  lemma AllocAccounted(b: Blocks, t: Blocks, managed: set<nat>, freePages: nat, maxOrder: nat, end: nat, p: nat, k: nat)
    requires Tiles(b, maxOrder, end) && Accounted(b, t, managed, freePages, maxOrder, end) && p in b && k <= b[p]
    ensures p !in t && freePages >= Pow2(k)
    ensures Accounted(Cut(b - {p}, p, b[p], k), t[p := k], managed, freePages - Pow2(k), maxOrder, end)
  {
    AllocKeeps(b, t, managed, maxOrder, end, p, k);
    AllocPages(b, maxOrder, end, p, k);
  }
}
