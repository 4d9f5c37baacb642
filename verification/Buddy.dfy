/**
 The buddy allocator of kernel/src/mm/buddy.c: page flags and orders, one free list per
 order, and counters, changed in place.  The ghost fields say which blocks are free and
 which are handed out; `BuddyBlocks` says what that implies.
 */
module BuddyAllocator {
  import opened Powers
  import opened Queues
  import opened BuddyBlocks
  import opened BuddyOperations
  import opened BuddyState
  import opened BuddyRanges

  datatype Pfn = Page(pfn: nat) | Invalid

  // ---------------------------------------------------------------- the allocator

  /** The loop of `buddy_create`: the largest order that fits below `end`. */
  method LargestOrder(end: nat) returns (k: nat)
    ensures Largest(k, end)
  {
    k := 0;
    while k + 1 < MAX_ORDERS && Pow2(k + 1) <= end
      invariant k < MAX_ORDERS && (k > 0 ==> Pow2(k) <= end)
      decreases MAX_ORDERS - k
    {
      k := k + 1;
    }
  }

  class Buddy {
    const end: nat              // pfn_get_end()
    const valid: set<nat>       // pages of some section: pfn_is_valid
    const metadata: set<nat>    // pages with PAGE_FLAG_METADATA
    const free: array<bool>     // PAGE_FLAG_BUDDY_FREE
    const head: array<bool>     // PAGE_FLAG_BUDDY_HEAD
    const order: array<nat>     // buddy_order
    var lists: seq<seq<nat>>
    var maxOrder: nat
    var freePages: nat
    var reservedPages: nat
    var totalPages: nat
    ghost var blocks: Blocks     // the free blocks
    ghost var taken: Blocks      // the blocks handed out and not given back
    ghost var managed: set<nat>  // the pages given to the allocator when it was created

    /** `buddy_create` over pages whose flags are clear. */
    constructor (end: nat, valid: set<nat>, metadata: set<nat>, entries: seq<MapEntry>)
      requires RangesOk(entries, end)
      requires UsableOk(entries, valid, metadata)
      ensures Valid() && taken == map[] && this.end == end
      ensures fresh(free) && fresh(head) && fresh(order)
      ensures managed == set x: nat | x < end && InUsable(entries, x)
      ensures Canonical(blocks, maxOrder) <==> !SomeSplitBlock(entries, maxOrder)
      ensures reservedPages == ReservedIn(entries) && totalPages == freePages + reservedPages
    {
      this.end, this.valid, this.metadata := end, valid, metadata;
      free := new bool[end](_ => false);
      head := new bool[end](_ => false);
      order := new nat[end](_ => 0);
      lists := seq(MAX_ORDERS, _ => []);
      freePages, reservedPages, totalPages := 0, 0, 0;
      var largest := LargestOrder(end);
      maxOrder := largest;
      blocks, taken := map[], map[];
      managed := set x: nat | x < end && InUsable(entries, x);
      new;
      NothingFree(free[..], head[..], order[..], lists);
      Create(entries);
    }

    /** The rest of `buddy_create`. */
    method Create(entries: seq<MapEntry>)
      requires Consistent() && blocks == map[] && freePages == 0 && reservedPages == 0 && RangesOk(entries, end)
      requires UsableOk(entries, valid, metadata)
      requires taken == map[] && managed == (set x: nat | x < end && InUsable(entries, x)) && Largest(maxOrder, end)
      modifies this`lists, this`blocks, this`freePages, this`reservedPages, this`totalPages, free, head, order
      ensures Valid() && FilledFrom(blocks, maxOrder, entries)
      ensures Canonical(blocks, maxOrder) <==> !SomeSplitBlock(entries, maxOrder)
      ensures reservedPages == ReservedIn(entries) && totalPages == freePages + reservedPages
    {
      PrepareFromMap(entries);
      CanonicalIffNotSplit(blocks, maxOrder, end, entries);
      NothingTaken(blocks, entries, end, managed, freePages, maxOrder);
      totalPages := freePages + reservedPages;
    }

    /** Flags, orders and lists describe the free blocks. */
    ghost predicate Consistent()
      reads this, free, head, order
    {
      free != head && Describes(free[..], head[..], order[..], lists, blocks, maxOrder, end)
    }

    /** A free block of order `k` could be put at `pfn`. */
    ghost predicate Room(pfn: nat, k: nat)
      reads this
    {
      Fits(blocks, maxOrder, end, pfn, k)
    }

    method SetBlockFreeState(pfn: nat, k: nat, isFree: bool)
      requires free.Length == end && head.Length == end && free != head && pfn + Pow2(k) <= end
      modifies free, head
      ensures Marked(old(free[..]), old(head[..]), free[..], head[..], pfn, k, isFree)
    {
      var pages := Pow2(k);
      for i := 0 to pages
        invariant forall x :: 0 <= x < end ==> free[x] == if pfn <= x < pfn + i then isFree else old(free[x])
        invariant forall x :: 0 <= x < end ==> head[x] == if pfn <= x < pfn + i then false else old(head[x])
      {
        free[pfn + i] := isFree;
        head[pfn + i] := false;
      }
    }

    /** Set the flags and the order of a new free block. */
    method MarkFree(pfn: nat, k: nat)
      requires free != head && free.Length == end && Tiles(blocks, maxOrder, end) && Room(pfn, k)
      requires FlagsOk(free[..], head[..], order[..], blocks)
      modifies free, head, order
      ensures FlagsOk(free[..], head[..], order[..], blocks[pfn := k])
    {
      ghost var free0, head0, order0 := free[..], head[..], order[..];
      SetBlockFreeState(pfn, k, true);
      ghost var free1, head1 := free[..], head[..];
      PushedFlags(free0, head0, order0, blocks, free1, head1, maxOrder, pfn, k);
      free[pfn], head[pfn] := true, true;
      order[pfn] := k;
      assert free[..] == free1 && head[..] == head1[pfn := true] && order[..] == order0[pfn := k];
    }

    /** Clear the flags and the order of the free block at `pfn`. */
    method MarkTaken(pfn: nat, k: nat)
      requires free != head && free.Length == end && Tiles(blocks, maxOrder, end) && pfn in blocks && blocks[pfn] == k
      requires FlagsOk(free[..], head[..], order[..], blocks)
      modifies free, head, order
      ensures FlagsOk(free[..], head[..], order[..], blocks - {pfn})
    {
      ghost var free0, head0, order0 := free[..], head[..], order[..];
      SetBlockFreeState(pfn, k, false);
      ghost var free1, head1 := free[..], head[..];
      TakenFlags(free0, head0, order0, blocks, free1, head1, maxOrder, pfn);
      head[pfn] := false;
      order[pfn] := 0;
      assert free[..] == free1 && head[..] == head1 && order[..] == order0[pfn := 0];
    }

    method ListPush(k: nat, pfn: nat)
      requires Consistent() && Room(pfn, k)
      modifies this`lists, this`blocks, free, head, order
      ensures Consistent() && blocks == old(blocks)[pfn := k] && pfn !in old(blocks)
    {
      AddBlock(blocks, maxOrder, end, pfn, k);
      MarkFree(pfn, k);
      PushedLists(lists, blocks, pfn, k);
      lists := lists[k := [pfn] + lists[k]];
      blocks := blocks[pfn := k];
    }

    /** Unlink the free block at `pfn` and clear its flags. */
    method ListRemove(k: nat, pfn: nat)
      requires Consistent() && pfn in blocks && blocks[pfn] == k
      modifies this`lists, this`blocks, free, head, order
      ensures Consistent() && blocks == old(blocks) - {pfn}
    {
      TakeBlock(blocks, maxOrder, end, pfn);
      DroppedLists(lists, blocks, pfn);
      lists := lists[k := Without(lists[k], pfn)];
      MarkTaken(pfn, k);
      blocks := blocks - {pfn};
    }

    /** Free and handed out blocks share no page and together make up the managed pages. */
    ghost predicate Valid()
      reads this, free, head, order
    {
      Consistent() && Books() && managed <= valid && managed !! metadata && Largest(maxOrder, end)
    }

    ghost predicate Books()
      reads this
    {
      Accounted(blocks, taken, managed, freePages, maxOrder, end)
    }

    predicate IsFreeHeadOfOrder(pfn: nat, k: nat)
      requires head.Length == end && order.Length == end && free.Length == end
      reads this, free, head, order
    {
      pfn in valid && pfn < end && free[pfn] && head[pfn] && order[pfn] == k
    }

    lemma HeadMeansBlock(pfn: nat, k: nat)
      requires Consistent() && pfn < end && (pfn in blocks ==> pfn in valid)
      ensures IsFreeHeadOfOrder(pfn, k) <==> pfn in blocks && blocks[pfn] == k
    {
      if pfn in blocks {
        Pow2Monotone(0, blocks[pfn]);
        assert In(pfn, pfn, blocks[pfn]) && Covered(blocks, pfn);
      }
    }

    /** The splitting loop of `buddy_alloc`. */
    method Split(pfn: nat, c: nat, k: nat)
      requires Consistent() && k <= c && Room(pfn, c)
      modifies this`lists, this`blocks, free, head, order
      ensures Consistent() && blocks == Cut(old(blocks), pfn, c, k)
    {
      ghost var goal := Cut(blocks, pfn, c, k);
      var cur := c;
      while cur > k
        invariant k <= cur <= c && Consistent() && Room(pfn, cur)
        invariant Cut(blocks, pfn, cur, k) == goal
      {
        PushUpperHalf(pfn, cur, k);
        cur := cur - 1;
      }
    }

    /** Put the upper half of the block of order `cur` at `pfn` on its list. */
    method PushUpperHalf(pfn: nat, cur: nat, ghost k: nat)
      requires Consistent() && k < cur && Room(pfn, cur)
      modifies this`lists, this`blocks, free, head, order
      ensures Consistent() && Cut(blocks, pfn, cur - 1, k) == Cut(old(blocks), pfn, cur, k)
      ensures Room(pfn, cur - 1)
    {
      CutHalf(blocks, maxOrder, end, pfn, cur);
      ListPush(cur - 1, pfn + Pow2(cur - 1));
    }

    /** The search of `buddy_alloc`: the smallest order, from `k` on, with a free block. */
    method FindOrder(k: nat) returns (cur: nat)
      requires Consistent() && k <= maxOrder
      ensures k <= cur <= maxOrder + 1
      ensures cur <= maxOrder ==> lists[cur] != []
      ensures forall p :: p in blocks && k <= blocks[p] ==> cur <= blocks[p]
    {
      cur := k;
      while cur <= maxOrder && lists[cur] == []
        invariant k <= cur <= maxOrder + 1
        invariant forall p :: p in blocks && k <= blocks[p] ==> cur <= blocks[p]
      {
        assert ListOk(lists[cur], blocks, cur);
        cur := cur + 1;
      }
    }

    /** `list_pop` from the list of order `cur`, and the splitting loop. */
    method PopAndSplit(cur: nat, k: nat) returns (pfn: nat)
      requires Consistent() && k <= cur <= maxOrder && lists[cur] != []
      modifies this`lists, this`blocks, free, head, order
      ensures Consistent() && pfn in old(blocks) && old(blocks)[pfn] == cur
      ensures blocks == Cut(old(blocks) - {pfn}, pfn, cur, k)
    {
      pfn := lists[cur][0];
      assert ListOk(lists[cur], blocks, cur) && pfn in lists[cur];
      TakeBlock(blocks, maxOrder, end, pfn);
      ListRemove(cur, pfn);
      Split(pfn, cur, k);
    }

    /** The rest of `buddy_alloc`, with a block of order `cur` to cut from. */
    method HandOut(cur: nat, k: nat) returns (pfn: nat)
      requires Valid() && k <= cur <= maxOrder && lists[cur] != []
      modifies this`lists, this`blocks, this`taken, this`freePages, free, head, order
      ensures Valid()
      ensures pfn in old(blocks) && old(blocks)[pfn] == cur && blocks == Cut(old(blocks) - {pfn}, pfn, cur, k)
      ensures pfn !in old(taken) && taken == old(taken)[pfn := k] && freePages == old(freePages) - Pow2(k)
    {
      pfn := PopAndSplit(cur, k);
      AllocAccounted(old(blocks), taken, managed, freePages, maxOrder, end, pfn, k);
      freePages := freePages - Pow2(k);
      taken := taken[pfn := k];
    }

    /** `buddy_alloc`. */
    method Alloc(k: nat) returns (result: Pfn)
      requires Valid()
      modifies this`lists, this`blocks, this`taken, this`freePages, free, head, order
      ensures Valid()
      ensures result.Invalid? <==> k > maxOrder || forall p :: p in old(blocks) ==> old(blocks)[p] < k
      ensures result.Invalid? ==> blocks == old(blocks) && taken == old(taken) && freePages == old(freePages)
      ensures result.Page? ==> result.pfn in old(blocks) && k <= old(blocks)[result.pfn]
      ensures result.Page? ==>
        forall q :: q in old(blocks) && k <= old(blocks)[q] ==> old(blocks)[result.pfn] <= old(blocks)[q]
      ensures result.Page? ==> blocks == Cut(old(blocks) - {result.pfn}, result.pfn, old(blocks)[result.pfn], k)
      ensures result.Page? ==> result.pfn !in old(taken) && taken == old(taken)[result.pfn := k]
      ensures result.Page? ==> freePages == old(freePages) - Pow2(k)
    {
      if k > maxOrder {
        return Invalid;
      }
      var cur := FindOrder(k);
      if cur > maxOrder {
        return Invalid;
      }
      var pfn := HandOut(cur, k);
      return Page(pfn);
    }

    /** The test of the merging loop of `buddy_free`. */
    method BuddyIsFree(pfn: nat, k: nat) returns (yes: bool, buddyPfn: nat)
      requires Consistent() && blocks.Keys <= valid
      ensures buddyPfn == Flip(pfn, k) && (yes <==> buddyPfn in blocks && blocks[buddyPfn] == k)
    {
      buddyPfn := Flip(pfn, k);
      yes := buddyPfn < end && IsFreeHeadOfOrder(buddyPfn, k);
      if buddyPfn < end {
        HeadMeansBlock(buddyPfn, k);
      }
    }

    /** Merging the block of order `k` at `pfn` into the blocks leads to `goal`; once `stop` is
        set, it is only left to be put on its list. */
    ghost predicate Toward(goal: Blocks, pfn: nat, k: nat, stop: bool)
      reads this
    {
      Room(pfn, k) && MergesTo(blocks, maxOrder, pfn, k, stop, goal) && blocks.Keys <= valid
    }

    /** The merging loop of `buddy_free`. */
    method MergeFree(ghost goal: Blocks, pfn: nat, k: nat) returns (pfn': nat, k': nat)
      requires Consistent() && Toward(goal, pfn, k, false)
      modifies this`lists, this`blocks, free, head, order
      ensures Consistent() && Toward(goal, pfn', k', true)
    {
      pfn', k' := pfn, k;
      var stop := false;
      while !stop
        invariant Consistent() && Toward(goal, pfn', k', stop)
        decreases maxOrder - k', !stop
      {
        pfn', k', stop := TryMerge(goal, pfn', k');
      }
    }

    /** The test and the body of the merging loop of `buddy_free`. */
    method TryMerge(ghost goal: Blocks, pfn: nat, k: nat) returns (pfn': nat, k': nat, stop: bool)
      requires Consistent() && Toward(goal, pfn, k, false)
      modifies this`lists, this`blocks, free, head, order
      ensures Consistent() && Toward(goal, pfn', k', stop) && k <= k' <= maxOrder && (!stop ==> k < k')
    {
      if k == maxOrder {
        return pfn, k, true;
      }
      var isFree, buddyPfn := BuddyIsFree(pfn, k);
      if !isFree {
        return pfn, k, true;
      }
      TakeBuddy(pfn, buddyPfn, k);
      return if buddyPfn < pfn then buddyPfn else pfn, k + 1, false;
    }

    method TakeBuddy(pfn: nat, buddyPfn: nat, k: nat)
      requires Consistent() && Room(pfn, k) && k < maxOrder
      requires buddyPfn == Flip(pfn, k) && buddyPfn in blocks && blocks[buddyPfn] == k
      modifies this`lists, this`blocks, free, head, order
      ensures Consistent() && blocks == old(blocks) - {buddyPfn}
      ensures Room(if buddyPfn < pfn then buddyPfn else pfn, k + 1)
    {
      MergeBuddy(blocks, maxOrder, end, pfn, k);
      ListRemove(k, buddyPfn);
    }

    method MergeAndPush(pfn: nat, k: nat)
      requires Consistent() && Room(pfn, k) && blocks.Keys <= valid
      modifies this`lists, this`blocks, free, head, order
      ensures Consistent() && blocks == Merge(old(blocks), maxOrder, pfn, k)
    {
      var pfn', k' := MergeFree(Merge(blocks, maxOrder, pfn, k), pfn, k);
      ListPush(k', pfn');
    }

    /** `buddy_free` of a block that was handed out. */
    method Free(pfn: nat, k: nat)
      requires Valid() && pfn in taken && taken[pfn] == k
      modifies this`lists, this`blocks, this`taken, this`freePages, free, head, order
      ensures Valid()
      ensures blocks == Merge(old(blocks), maxOrder, pfn, k) && taken == old(taken) - {pfn}
      ensures freePages == old(freePages) + Pow2(k)
    {
      FreeAccounted(blocks, taken, managed, freePages, maxOrder, end, pfn);
      MergeAndPush(pfn, k);
      freePages := freePages + Pow2(k);
      taken := taken - {pfn};
    }

    /** The inner loop of `add_range`. */
    method GreedyOrder(pfn: nat, e: nat) returns (k: nat)
      requires pfn < e
      ensures Greedy(pfn, e, maxOrder, k)
    {
      k := 0;
      while k + 1 <= maxOrder
        invariant k <= maxOrder && Aligned(pfn, k) && Pow2(k) <= e - pfn
        decreases maxOrder - k
      {
        if !Aligned(pfn, k + 1) || Pow2(k + 1) > e - pfn {
          break;
        }
        k := k + 1;
      }
    }

    /** `add_range`: every page of the range becomes free, in blocks that are each as large as
        the alignment and the rest of the range allow; the other blocks stay as they are. */
    method AddRange(start: nat, e: nat)
      requires Consistent() && start <= e <= end && Uncovered(blocks, start, e)
      requires freePages == PagesBelow(blocks, end)
      modifies this`lists, this`blocks, this`freePages, free, head, order
      ensures Consistent() && freePages == PagesBelow(blocks, end)
      ensures CoveredSince(old(blocks), blocks, start, e)
      ensures GreedySince(old(blocks), blocks, maxOrder, start, e, e)
    {
      var pfn := start;
      ghost var b := blocks;
      while pfn < e
        invariant Consistent() && FilledTo(b, start, pfn, e)
        decreases e - pfn
      {
        pfn := AddOne(b, start, pfn, e);
      }
    }

    ghost predicate FilledTo(b: Blocks, start: nat, pfn: nat, e: nat)
      reads this
    {
      Filled(b, blocks, freePages, maxOrder, end, start, pfn, e)
    }

    /** One pass of the outer loop of `add_range`. */
    method AddOne(ghost b: Blocks, ghost start: nat, pfn: nat, e: nat) returns (pfn': nat)
      requires Consistent() && pfn < e && FilledTo(b, start, pfn, e)
      modifies this`lists, this`blocks, this`freePages, free, head, order
      ensures Consistent() && pfn < pfn' && FilledTo(b, start, pfn', e)
    {
      var k := GreedyOrder(pfn, e);
      FilledStep(b, blocks, freePages, maxOrder, end, start, pfn, e, k);
      pfn' := pfn + Pow2(k);
      PushFilled(b, start, k, pfn, pfn', e);
    }

    method PushFilled(ghost b: Blocks, ghost start: nat, k: nat, pfn: nat, ghost pfn': nat, ghost e: nat)
      requires Consistent() && Room(pfn, k)
      requires Filled(b, blocks[pfn := k], freePages + Pow2(k), maxOrder, end, start, pfn', e)
      modifies this`lists, this`blocks, this`freePages, free, head, order
      ensures Consistent() && FilledTo(b, start, pfn', e)
    {
      PushCounted(k, pfn);
    }

    method PushCounted(k: nat, pfn: nat)
      requires Consistent() && Room(pfn, k)
      modifies this`lists, this`blocks, this`freePages, free, head, order
      ensures Consistent() && blocks == old(blocks)[pfn := k] && freePages == old(freePages) + Pow2(k)
    {
      ListPush(k, pfn);
      freePages := freePages + Pow2(k);
    }

    /** `prepare_from_mmap`. */
    method PrepareFromMap(entries: seq<MapEntry>)
      requires Consistent() && blocks == map[] && freePages == 0 && reservedPages == 0 && RangesOk(entries, end)
      modifies this`lists, this`blocks, this`freePages, this`reservedPages, free, head, order
      ensures Consistent() && freePages == PagesBelow(blocks, end)
      ensures FilledFrom(blocks, maxOrder, entries)
      ensures reservedPages == ReservedIn(entries)
    {
      NoPages(end);
      for i := 0 to |entries|
        invariant Consistent() && freePages == PagesBelow(blocks, end)
        invariant FilledFrom(blocks, maxOrder, entries[..i])
        invariant reservedPages == ReservedIn(entries[..i])
      {
        PrepareEntry(entries, i);
      }
      assert entries[..|entries|] == entries;
    }

    /** The body of the loop of `prepare_from_mmap`. */
    method PrepareEntry(entries: seq<MapEntry>, i: nat)
      requires i < |entries| && RangesOk(entries, end)
      requires Consistent() && freePages == PagesBelow(blocks, end)
      requires FilledFrom(blocks, maxOrder, entries[..i]) && reservedPages == ReservedIn(entries[..i])
      modifies this`lists, this`blocks, this`freePages, this`reservedPages, free, head, order
      ensures Consistent() && freePages == PagesBelow(blocks, end)
      ensures FilledFrom(blocks, maxOrder, entries[..i + 1]) && reservedPages == ReservedIn(entries[..i + 1])
    {
      var entry := entries[i];
      var start := entry.addr / PAGE_SIZE;
      var e := start + entry.len / PAGE_SIZE;
      NextReserved(entries, i);
      if entry.kind == Usable {
        BesideEarlier(blocks, maxOrder, entries, i, end);
        AddRange(start, e);
        FilledEntry(old(blocks), blocks, maxOrder, entries, i);
      } else {
        NotFilledEntry(blocks, maxOrder, entries, i);
        if entry.kind == Reserved {
          reservedPages := reservedPages + (e - start);
        }
      }
    }
  }

  lemma NothingFree(free: seq<bool>, head: seq<bool>, order: seq<nat>, lists: seq<seq<nat>>)
    requires |free| == |head| == |order|
    requires forall i :: 0 <= i < |free| ==> !free[i] && !head[i]
    requires forall i :: 0 <= i < |lists| ==> lists[i] == []
    ensures FlagsOk(free, head, order, map[]) && ListsOk(lists, map[])
  {}

  lemma NothingTaken(b: Blocks, entries: seq<MapEntry>, end: nat, managed: set<nat>, freePages: nat, maxOrder: nat)
    requires RangesOk(entries, end) && FilledFrom(b, maxOrder, entries)
    requires managed == (set x: nat | x < end && InUsable(entries, x)) && freePages == PagesBelow(b, end)
    ensures Accounted(b, map[], managed, freePages, maxOrder, end)
    ensures forall x :: x in managed ==> InUsable(entries, x)
  {
    var none: Blocks := map[];
    assert forall x: nat :: !Covered(none, x);
  }

  lemma {:induction false} NoPages(n: nat)
    ensures PagesBelow(map[], n) == 0
  {
    if n > 0 {
      NoPages(n - 1);
    }
  }
}
