/**
 The memory map that `buddy_create` starts from, and which free blocks its usable ranges
 give: each range is filled on its own, greedily from its first page.
 */
module BuddyRanges {
  import opened Powers
  import opened BuddyBlocks
  import opened BuddyOperations

  const PAGE_SIZE: nat := 4096

  datatype EntryType = Metadata | Reserved | Usable
  datatype MapEntry = MapEntry(addr: nat, len: nat, kind: EntryType)

  function Start(e: MapEntry): nat {
    e.addr / PAGE_SIZE
  }

  function Stop(e: MapEntry): nat {
    Start(e) + e.len / PAGE_SIZE
  }

  /** Page `x` lies in the usable entry `i`. */
  predicate InEntry(entries: seq<MapEntry>, i: nat, x: nat) {
    i < |entries| && entries[i].kind.Usable? && Start(entries[i]) <= x < Stop(entries[i])
  }

  ghost predicate InUsable(entries: seq<MapEntry>, x: nat) {
    exists i: nat :: InEntry(entries, i, x)
  }

  /** Usable pages have page structures that are not themselves metadata. */
  ghost predicate UsableOk(entries: seq<MapEntry>, valid: set<nat>, metadata: set<nat>) {
    forall x: nat :: InUsable(entries, x) ==> x in valid && x !in metadata
  }

  /** The usable entries lie below `end` and share no page. */
  ghost predicate RangesOk(entries: seq<MapEntry>, end: nat) {
    && (forall i :: 0 <= i < |entries| && entries[i].kind.Usable? ==> Stop(entries[i]) <= end)
    && (forall i, j :: 0 <= i < j < |entries| && entries[i].kind.Usable? && entries[j].kind.Usable? ==>
          Stop(entries[i]) <= Start(entries[j]) || Stop(entries[j]) <= Start(entries[i]))
  }

  /** Entry `i` ends where entry `j` starts, at the middle of a block of order `k + 1` that the
      two entries hold one half of each. */
  predicate SplitBlock(entries: seq<MapEntry>, i: nat, j: nat, k: nat, maxOrder: nat) {
    && i < |entries| && j < |entries| && entries[i].kind.Usable? && entries[j].kind.Usable?
    && var x := Stop(entries[i]);
      && x == Start(entries[j]) && k < maxOrder && Aligned(x, k) && !Aligned(x, k + 1)
      && Start(entries[i]) + Pow2(k) <= x && x + Pow2(k) <= Stop(entries[j])
  }

  ghost predicate SomeSplitBlock(entries: seq<MapEntry>, maxOrder: nat) {
    exists i: nat, j: nat, k: nat :: SplitBlock(entries, i, j, k, maxOrder)
  }

  /** Block `q` is what `add_range` puts at `q` into one of the entries. */
  ghost predicate GreedyAt(b: Blocks, maxOrder: nat, entries: seq<MapEntry>, i: nat, q: nat) {
    q in b && InEntry(entries, i, q) && Greedy(q, Stop(entries[i]), maxOrder, b[q])
  }

  ghost predicate GreedySomewhere(b: Blocks, maxOrder: nat, entries: seq<MapEntry>, q: nat) {
    exists i: nat :: GreedyAt(b, maxOrder, entries, i, q)
  }

  ghost predicate GreedyIn(b: Blocks, maxOrder: nat, entries: seq<MapEntry>) {
    forall q :: q in b ==> GreedySomewhere(b, maxOrder, entries, q)
  }

  /** `buddy_create` has filled the usable entries. */
  ghost predicate FilledFrom(b: Blocks, maxOrder: nat, entries: seq<MapEntry>) {
    GreedyIn(b, maxOrder, entries) && forall x: nat :: Covered(b, x) <==> InUsable(entries, x)
  }

  // ---------------------------------------------------------------- when buddies stay apart

  lemma OnlyEntry(entries: seq<MapEntry>, end: nat, i: nat, j: nat, x: nat)
    requires RangesOk(entries, end) && InEntry(entries, i, x) && InEntry(entries, j, x)
    ensures i == j
  {}

  /** The block around page `x` comes from the entry of `x`. */
  lemma BlockAround(b: Blocks, maxOrder: nat, end: nat, entries: seq<MapEntry>, i: nat, x: nat) returns (q: nat)
    requires FilledFrom(b, maxOrder, entries) && RangesOk(entries, end) && InEntry(entries, i, x)
    ensures GreedyAt(b, maxOrder, entries, i, q) && In(x, q, b[q])
  {
    assert Covered(b, x);
    q :| q in b && In(x, q, b[q]);
    assert GreedySomewhere(b, maxOrder, entries, q);
    var j: nat :| GreedyAt(b, maxOrder, entries, j, q);
    assert InEntry(entries, j, x);
    OnlyEntry(entries, end, i, j, x);
  }

  /** The greedy order is the only one of its kind. */
  lemma GreedyOrderIs(p: nat, e: nat, maxOrder: nat, m: nat, k: nat)
    requires p <= e && Greedy(p, e, maxOrder, m) && k <= maxOrder && Aligned(p, k) && p + Pow2(k) <= e
    ensures k <= m
  {
    if m < k {
      AlignedSmaller(p, k, m + 1);
      Pow2Monotone(m + 1, k);
    }
  }

  lemma UpperHalfThere(b: Blocks, maxOrder: nat, end: nat, entries: seq<MapEntry>, i: nat, j: nat, k: nat)
    requires FilledFrom(b, maxOrder, entries) && RangesOk(entries, end) && SplitBlock(entries, i, j, k, maxOrder)
    ensures var x := Stop(entries[i]); x in b && b[x] == k
  {
    var x := Start(entries[j]);
    assert InEntry(entries, j, x);
    var q := BlockAround(b, maxOrder, end, entries, j, x);
    assert q == x;
    GreedyOrderIs(x, Stop(entries[j]), maxOrder, b[x], k);
    if b[x] > k {
      AlignedSmaller(x, b[x], k + 1);
    }
  }

  /** An aligned page inside a block of at most that order is its first page. */
  lemma AlignedIsFirst(x: nat, q: nat, m: nat, k: nat)
    requires m <= k && Aligned(x, k) && Aligned(q, m) && In(x, q, m)
    ensures x == q
  {
    AlignedSmaller(x, k, m);
    if q < x {
      AlignedGap(q, x, m);
    }
  }

  lemma LowerHalfThere(b: Blocks, maxOrder: nat, end: nat, entries: seq<MapEntry>, i: nat, j: nat, k: nat)
    requires FilledFrom(b, maxOrder, entries) && RangesOk(entries, end) && SplitBlock(entries, i, j, k, maxOrder)
    ensures var y := Flip(Stop(entries[i]), k); y in b && b[y] == k
  {
    var x := Stop(entries[i]);
    FlipAligned(x, k);
    var y := x - Pow2(k);
    assert InEntry(entries, i, y);
    var q := BlockAround(b, maxOrder, end, entries, i, y);
    var m := b[q];
    if m > k {
      Nested(y, k + 1, q, m);
      assert false;
    }
    AlignedIsFirst(y, q, m, k);
    AlignedSmaller(y, k + 1, k);
    GreedyOrderIs(y, x, maxOrder, m, k);
  }

  /** Two buddies that were left unmerged are the halves of a block split by two entries. */
  lemma BuddiesAreSplit(b: Blocks, maxOrder: nat, end: nat, entries: seq<MapEntry>, p: nat)
    requires FilledFrom(b, maxOrder, entries) && RangesOk(entries, end)
    requires p in b && b[p] < maxOrder && Aligned(p, b[p] + 1)
    requires Flip(p, b[p]) in b && b[Flip(p, b[p])] == b[p]
    ensures SomeSplitBlock(entries, maxOrder)
  {
    var k, q := b[p], Flip(p, b[p]);
    assert GreedySomewhere(b, maxOrder, entries, p) && GreedySomewhere(b, maxOrder, entries, q);
    var i: nat :| GreedyAt(b, maxOrder, entries, i, p);
    var j: nat :| GreedyAt(b, maxOrder, entries, j, q);
    AlignedSmaller(p, k + 1, k);
    FlipAligned(p, k);
    StopsThere(b, maxOrder, end, entries, p, i, j);
    StartsThere(entries, end, i, j, q);
    NotTwice(p, k);
    assert SplitBlock(entries, i, j, k, maxOrder);
  }

  lemma StopsThere(b: Blocks, maxOrder: nat, end: nat, entries: seq<MapEntry>, p: nat, i: nat, j: nat)
    requires RangesOk(entries, end) && GreedyAt(b, maxOrder, entries, i, p) && b[p] < maxOrder && Aligned(p, b[p] + 1)
    requires GreedyAt(b, maxOrder, entries, j, p + Pow2(b[p])) && b[p + Pow2(b[p])] == b[p]
    ensures Stop(entries[i]) == p + Pow2(b[p])
  {
    var q := p + Pow2(b[p]);
    assert Pow2(b[p] + 1) == 2 * Pow2(b[p]);
    if InEntry(entries, i, q) {
      OnlyEntry(entries, end, i, j, q);
      assert false;
    }
  }

  lemma StartsThere(entries: seq<MapEntry>, end: nat, i: nat, j: nat, x: nat)
    requires RangesOk(entries, end) && InEntry(entries, j, x)
    requires i < |entries| && entries[i].kind.Usable? && Start(entries[i]) < Stop(entries[i]) == x
    ensures Start(entries[j]) == x
  {}

  lemma NotTwice(p: nat, k: nat)
    requires Aligned(p, k + 1)
    ensures !Aligned(p + Pow2(k), k + 1)
  {
    if Aligned(p + Pow2(k), k + 1) {
      AlignedGap(p, p + Pow2(k), k + 1);
      assert false;
    }
  }

  /** `buddy_create` leaves no two mergeable buddies free exactly when no two usable entries of
      the memory map meet in the middle of a block that they fill together. */
  lemma CanonicalIffNotSplit(b: Blocks, maxOrder: nat, end: nat, entries: seq<MapEntry>)
    requires Tiles(b, maxOrder, end) && FilledFrom(b, maxOrder, entries) && RangesOk(entries, end)
    ensures Canonical(b, maxOrder) <==> !SomeSplitBlock(entries, maxOrder)
  {
    if i, j, k :| SplitBlock(entries, i, j, k, maxOrder) {
      UpperHalfThere(b, maxOrder, end, entries, i, j, k);
      LowerHalfThere(b, maxOrder, end, entries, i, j, k);
    }
    if !Canonical(b, maxOrder) {
      var p: nat :| p in b && b[p] < maxOrder && Flip(p, b[p]) in b && b[Flip(p, b[p])] == b[p];
      FlipAligned(p, b[p]);
      BuddiesAreSplit(b, maxOrder, end, entries, if Aligned(p, b[p] + 1) then p else Flip(p, b[p]));
    }
  }

  // ---------------------------------------------------------------- filling a range

  /** The blocks `b` are those of `b0` and, in `start..p`, what `add_range` put there. */
  ghost predicate GreedySince(b0: Blocks, b: Blocks, maxOrder: nat, start: nat, p: nat, e: nat)
    requires p <= e
  {
    forall q :: q in b ==> (q in b0 && b[q] == b0[q]) || (start <= q < p && Greedy(q, e, maxOrder, b[q]))
  }

  /** `add_range` has put `start..p` of the range `start..e` on the lists, from blocks `b0`. */
  ghost predicate Filled(b0: Blocks, b: Blocks, freePages: nat, maxOrder: nat, end: nat, start: nat, p: nat, e: nat) {
    && start <= p <= e <= end && freePages == PagesBelow(b, end) && Uncovered(b, p, e)
    && CoveredSince(b0, b, start, p) && GreedySince(b0, b, maxOrder, start, p, e)
  }

  ghost predicate CoveredSince(b0: Blocks, b: Blocks, start: nat, p: nat) {
    forall x: nat :: Covered(b, x) <==> Covered(b0, x) || start <= x < p
  }

  lemma CoverStep(b0: Blocks, b: Blocks, maxOrder: nat, end: nat, start: nat, p: nat, k: nat)
    requires CoveredSince(b0, b, start, p) && start <= p && Tiles(b, maxOrder, end) && Fits(b, maxOrder, end, p, k)
    ensures CoveredSince(b0, b[p := k], start, p + Pow2(k))
  {
    AddBlock(b, maxOrder, end, p, k);
    var c, p' := b[p := k], p + Pow2(k);
    forall x: nat
      ensures Covered(c, x) <==> Covered(b0, x) || start <= x < p'
    {
      assert Covered(c, x) <==> Covered(b, x) || In(x, p, k);
    }
  }

  lemma GreedyStep(b0: Blocks, b: Blocks, maxOrder: nat, start: nat, p: nat, e: nat, k: nat)
    requires start <= p < e && GreedySince(b0, b, maxOrder, start, p, e) && Greedy(p, e, maxOrder, k)
    ensures p + Pow2(k) <= e && GreedySince(b0, b[p := k], maxOrder, start, p + Pow2(k), e)
  {}

  lemma FilledStep(b0: Blocks, b: Blocks, freePages: nat, maxOrder: nat, end: nat, start: nat, p: nat, e: nat, k: nat)
    requires Filled(b0, b, freePages, maxOrder, end, start, p, e) && Tiles(b, maxOrder, end) && p < e
    requires Greedy(p, e, maxOrder, k)
    ensures Fits(b, maxOrder, end, p, k)
    ensures Filled(b0, b[p := k], freePages + Pow2(k), maxOrder, end, start, p + Pow2(k), e)
  {
    GreedyPush(b, maxOrder, end, p, e, k);
    PagesAdded(b, p, k, end);
    CoverStep(b0, b, maxOrder, end, start, p, k);
    GreedyStep(b0, b, maxOrder, start, p, e, k);
  }

  // ---------------------------------------------------------------- filling the entries

  function ReservedIn(entries: seq<MapEntry>): nat {
    if entries == [] then 0
    else
      var e := entries[|entries| - 1];
      ReservedIn(entries[..|entries| - 1]) + if e.kind.Reserved? then Stop(e) - Start(e) else 0
  }

  lemma NextReserved(entries: seq<MapEntry>, i: nat)
    requires i < |entries|
    ensures ReservedIn(entries[..i + 1]) == ReservedIn(entries[..i])
      + if entries[i].kind.Reserved? then Stop(entries[i]) - Start(entries[i]) else 0
  {
    assert entries[..i + 1][..i] == entries[..i];
  }

  lemma NextUsable(entries: seq<MapEntry>, i: nat, x: nat)
    requires i < |entries|
    ensures InUsable(entries[..i + 1], x) <==> InUsable(entries[..i], x) || InEntry(entries, i, x)
  {
    var now, next := entries[..i], entries[..i + 1];
    if j: nat :| InEntry(now, j, x) {
      assert InEntry(next, j, x);
    }
    if InEntry(entries, i, x) {
      assert InEntry(next, i, x);
    }
    if j: nat :| InEntry(next, j, x) {
      assert j < i ==> InEntry(now, j, x);
    }
  }

  /** The earlier entries leave the range of entry `i` alone. */
  lemma BesideEarlier(b: Blocks, maxOrder: nat, entries: seq<MapEntry>, i: nat, end: nat)
    requires i < |entries| && RangesOk(entries, end) && entries[i].kind.Usable? && FilledFrom(b, maxOrder, entries[..i])
    ensures Start(entries[i]) <= Stop(entries[i]) <= end && Uncovered(b, Start(entries[i]), Stop(entries[i]))
  {
    forall x: nat | Start(entries[i]) <= x < Stop(entries[i])
      ensures !Covered(b, x)
    {
      if j: nat :| InEntry(entries[..i], j, x) {
        OnlyEntry(entries, end, i, j, x);
        assert false;
      }
    }
  }

  lemma EarlierBlocks(b: Blocks, maxOrder: nat, entries: seq<MapEntry>, i: nat, q: nat)
    requires i < |entries| && GreedySomewhere(b, maxOrder, entries[..i], q)
    ensures GreedySomewhere(b, maxOrder, entries[..i + 1], q)
  {
    var j: nat :| GreedyAt(b, maxOrder, entries[..i], j, q);
    assert GreedyAt(b, maxOrder, entries[..i + 1], j, q);
  }

  lemma FilledEntry(b0: Blocks, b: Blocks, maxOrder: nat, entries: seq<MapEntry>, i: nat)
    requires i < |entries| && entries[i].kind.Usable? && FilledFrom(b0, maxOrder, entries[..i])
    requires CoveredSince(b0, b, Start(entries[i]), Stop(entries[i]))
    requires GreedySince(b0, b, maxOrder, Start(entries[i]), Stop(entries[i]), Stop(entries[i]))
    ensures FilledFrom(b, maxOrder, entries[..i + 1])
  {
    forall x: nat
      ensures Covered(b, x) <==> InUsable(entries[..i + 1], x)
    {
      NextUsable(entries, i, x);
    }
    forall q | q in b
      ensures GreedySomewhere(b, maxOrder, entries[..i + 1], q)
    {
      if q in b0 && b[q] == b0[q] {
        assert GreedySomewhere(b0, maxOrder, entries[..i], q);
        var j: nat :| GreedyAt(b0, maxOrder, entries[..i], j, q);
        assert GreedyAt(b, maxOrder, entries[..i + 1], j, q);
      } else {
        assert GreedyAt(b, maxOrder, entries[..i + 1], i, q);
      }
    }
  }

  lemma NotFilledEntry(b: Blocks, maxOrder: nat, entries: seq<MapEntry>, i: nat)
    requires i < |entries| && !entries[i].kind.Usable? && FilledFrom(b, maxOrder, entries[..i])
    ensures FilledFrom(b, maxOrder, entries[..i + 1])
  {
    forall x: nat
      ensures Covered(b, x) <==> InUsable(entries[..i + 1], x)
    {
      NextUsable(entries, i, x);
    }
    forall q | q in b
      ensures GreedySomewhere(b, maxOrder, entries[..i + 1], q)
    {
      EarlierBlocks(b, maxOrder, entries, i, q);
    }
  }
}
