/**
 Every run of `buddy_alloc` and `buddy_free`, as steps on the free and the handed out blocks.
 */
module BuddyRuns {
  import opened Powers
  import opened BuddyBlocks
  import opened BuddyOperations
  import opened BuddyState
  import opened BuddyRanges
  import opened BuddyAllocator

  datatype State = State(free: Blocks, taken: Blocks)

  datatype Step = AllocStep(pfn: nat, order: nat) | FreeStep(pfn: nat)

  /** `buddy_alloc` takes a block of the smallest sufficient order; `buddy_free` gives back a
      block that was handed out. */
  ghost predicate Enabled(s: State, step: Step) {
    match step
    case AllocStep(p, k) =>
      p in s.free && k <= s.free[p] && forall q :: q in s.free && k <= s.free[q] ==> s.free[p] <= s.free[q]
    case FreeStep(p) => p in s.taken
  }

  ghost function Next(s: State, step: Step, maxOrder: nat): State
    requires Enabled(s, step)
  {
    match step
    case AllocStep(p, k) => State(Cut(s.free - {p}, p, s.free[p], k), s.taken[p := k])
    case FreeStep(p) => State(Merge(s.free, maxOrder, p, s.taken[p]), s.taken - {p})
  }

  ghost predicate Feasible(s: State, run: seq<Step>, maxOrder: nat)
    decreases |run|
  {
    run == [] || (Enabled(s, run[0]) && Feasible(Next(s, run[0], maxOrder), run[1..], maxOrder))
  }

  ghost function Exec(s: State, run: seq<Step>, maxOrder: nat): State
    requires Feasible(s, run, maxOrder)
    decreases |run|
  {
    if run == [] then s else Exec(Next(s, run[0], maxOrder), run[1..], maxOrder)
  }

  /** Free and handed out blocks are aligned and disjoint, make up the managed pages, and no
      two free buddies are left unmerged. */
  ghost predicate Inv(s: State, managed: set<nat>, maxOrder: nat, end: nat) {
    && Tiles(s.free, maxOrder, end) && Tiles(s.taken, maxOrder, end)
    && Partition(s.free, s.taken, managed) && Canonical(s.free, maxOrder)
  }

  lemma AllocStepKeeps(s: State, p: nat, k: nat, managed: set<nat>, maxOrder: nat, end: nat)
    requires Inv(s, managed, maxOrder, end) && Enabled(s, AllocStep(p, k))
    ensures Inv(Next(s, AllocStep(p, k), maxOrder), managed, maxOrder, end)
  {
    AllocKeeps(s.free, s.taken, managed, maxOrder, end, p, k);
    TakeBlock(s.free, maxOrder, end, p);
    TakeKeepsCanonical(s.free, maxOrder, p);
    CutTiles(s.free - {p}, maxOrder, end, p, s.free[p], k);
    CutCanonical(s.free - {p}, maxOrder, end, p, s.free[p], k);
  }

  lemma FreeStepKeeps(s: State, p: nat, managed: set<nat>, maxOrder: nat, end: nat)
    requires Inv(s, managed, maxOrder, end) && Enabled(s, FreeStep(p))
    ensures Inv(Next(s, FreeStep(p), maxOrder), managed, maxOrder, end)
  {
    FreeKeeps(s.free, s.taken, managed, maxOrder, end, p);
    MergeKeeps(s.free, maxOrder, end, p, s.taken[p]);
    MergeCanonical(s.free, maxOrder, end, p, s.taken[p]);
  }

  /** The invariant holds throughout every run. */
  lemma {:induction false} RunKeepsInv(s: State, run: seq<Step>, managed: set<nat>, maxOrder: nat, end: nat)
    requires Inv(s, managed, maxOrder, end) && Feasible(s, run, maxOrder)
    ensures Inv(Exec(s, run, maxOrder), managed, maxOrder, end)
    decreases |run|
  {
    if run != [] {
      match run[0] {
        case AllocStep(p, k) => AllocStepKeeps(s, p, k, managed, maxOrder, end);
        case FreeStep(p) => FreeStepKeeps(s, p, managed, maxOrder, end);
      }
      RunKeepsInv(Next(s, run[0], maxOrder), run[1..], managed, maxOrder, end);
    }
  }

  /** After any run, an allocation of order `k` is possible exactly when an aligned run of
      that many free pages exists. */
  lemma AllocFailsOnlyWithoutRun(s: State, run: seq<Step>, managed: set<nat>, maxOrder: nat, end: nat, k: nat)
    requires Inv(s, managed, maxOrder, end) && Feasible(s, run, maxOrder) && k <= maxOrder
    ensures var b := Exec(s, run, maxOrder).free;
      (exists p :: p in b && k <= b[p]) <==> (exists p :: Aligned(p, k) && AllCovered(b, p, k))
  {
    RunKeepsInv(s, run, managed, maxOrder, end);
    BlockExistsIffRun(Exec(s, run, maxOrder).free, maxOrder, end, k);
  }

  /** Which blocks are free depends only on which pages are: two runs that leave the same
      pages handed out leave the very same free blocks.  In particular, when everything is
      given back, the free blocks are the initial ones. */
  lemma FreeBlocksDependOnPagesOnly(s: State, run: seq<Step>, run': seq<Step>, managed: set<nat>, maxOrder: nat,
                                    end: nat)
    requires Inv(s, managed, maxOrder, end) && Feasible(s, run, maxOrder) && Feasible(s, run', maxOrder)
    requires forall x: nat :: Covered(Exec(s, run, maxOrder).taken, x) <==> Covered(Exec(s, run', maxOrder).taken, x)
    ensures Exec(s, run, maxOrder).free == Exec(s, run', maxOrder).free
  {
    RunKeepsInv(s, run, managed, maxOrder, end);
    RunKeepsInv(s, run', managed, maxOrder, end);
    var b, c := Exec(s, run, maxOrder), Exec(s, run', maxOrder);
    forall x: nat
      ensures Covered(b.free, x) <==> Covered(c.free, x)
    {
      assert Covered(b.free, x) || Covered(b.taken, x) <==> x in managed;
      assert Covered(c.free, x) || Covered(c.taken, x) <==> x in managed;
    }
    CanonicalUnique(b.free, c.free, maxOrder, end);
  }

  /** The pages of a block just allocated were free, and belong to no other block. */
  lemma AllocatedIsDisjoint(s: State, p: nat, k: nat, managed: set<nat>, maxOrder: nat, end: nat, x: nat)
    requires Inv(s, managed, maxOrder, end) && Enabled(s, AllocStep(p, k)) && In(x, p, k)
    ensures x in managed && Covered(s.free, x) && !Covered(s.taken, x)
    ensures !Covered(Next(s, AllocStep(p, k), maxOrder).free, x)
    ensures Aligned(p, k)
  {
    AllocCovers(s.free, maxOrder, end, p, k);
    AlignedSmaller(p, s.free[p], k);
  }

  // ---------------------------------------------------------------- runs of the allocator

  /** The allocator's free and handed out blocks. */
  ghost function StateOf(buddy: Buddy): State
    reads buddy
  {
    State(buddy.blocks, buddy.taken)
  }

  /** A valid allocator without mergeable free buddies meets the invariant of the runs. */
  lemma ValidIsInv(buddy: Buddy)
    requires buddy.Valid()
    ensures Inv(StateOf(buddy), buddy.managed, buddy.maxOrder, buddy.end) <==> Canonical(buddy.blocks, buddy.maxOrder)
  {}

  ghost predicate RunExists(b: Blocks, k: nat) {
    exists p: nat :: Aligned(p, k) && AllCovered(b, p, k)
  }

  /** No block, hence no run, is larger than the largest order. */
  lemma NoLargerRun(b: Blocks, maxOrder: nat, end: nat, k: nat)
    requires Tiles(b, maxOrder, end) && Largest(maxOrder, end) && maxOrder < k < MAX_ORDERS
    ensures !RunExists(b, k)
  {
    if p: nat :| Aligned(p, k) && AllCovered(b, p, k) {
      var last: nat := p + Pow2(k) - 1;
      assert In(last, p, k);
      CoveredBelow(b, maxOrder, end, last);
      Pow2Monotone(maxOrder + 1, k);
      assert false;
    }
  }

  lemma CoveredBelow(b: Blocks, maxOrder: nat, end: nat, x: nat)
    requires Tiles(b, maxOrder, end) && Covered(b, x)
    ensures x < end
  {
    var q :| q in b && In(x, q, b[q]);
  }

  /** When `buddy_alloc` finds no block, there is no aligned run of free pages of that size. */
  lemma NoBlockIffNoRun(b: Blocks, maxOrder: nat, end: nat, k: nat)
    requires Tiles(b, maxOrder, end) && Canonical(b, maxOrder) && Largest(maxOrder, end)
    ensures k > maxOrder || (forall p :: p in b ==> b[p] < k) <==> k >= MAX_ORDERS || !RunExists(b, k)
  {
    if k <= maxOrder {
      BlockExistsIffRun(b, maxOrder, end, k);
    } else if k < MAX_ORDERS {
      NoLargerRun(b, maxOrder, end, k);
    }
  }

  /** What callers ask for; a block given back is named by its first page. */
  datatype Call = AllocCall(order: nat) | FreeCall(pfn: nat)

  /** Answer and effect of one call.  An allocation succeeds exactly when an aligned run of
      enough free pages exists, and then takes one of the smallest blocks that will do. */
  ghost predicate Answers(s: State, call: Call, answer: Pfn, s': State, maxOrder: nat) {
    match call
    case AllocCall(k) =>
      if k < MAX_ORDERS && RunExists(s.free, k) then
        answer.Page? && Enabled(s, AllocStep(answer.pfn, k)) && s' == Next(s, AllocStep(answer.pfn, k), maxOrder)
      else
        answer.Invalid? && s' == s
    case FreeCall(p) =>
      if p in s.taken then s' == Next(s, FreeStep(p), maxOrder) else s' == s
  }

  /** One call; a block that is not handed out is not given back. */
  method Serve(buddy: Buddy, call: Call, held: map<nat, nat>) returns (answer: Pfn, held': map<nat, nat>)
    requires buddy.Valid() && Canonical(buddy.blocks, buddy.maxOrder) && held == buddy.taken
    modifies buddy`lists, buddy`blocks, buddy`taken, buddy`freePages, buddy.free, buddy.head, buddy.order
    ensures buddy.Valid() && Canonical(buddy.blocks, buddy.maxOrder) && held' == buddy.taken
    ensures Answers(old(StateOf(buddy)), call, answer, StateOf(buddy), buddy.maxOrder)
  {
    ghost var s := StateOf(buddy);
    ValidIsInv(buddy);
    answer, held' := Invalid, held;
    match call
    case AllocCall(k) =>
      NoBlockIffNoRun(buddy.blocks, buddy.maxOrder, buddy.end, k);
      answer := buddy.Alloc(k);
      if answer.Page? {
        AllocStepKeeps(s, answer.pfn, k, buddy.managed, buddy.maxOrder, buddy.end);
        held' := held[answer.pfn := k];
      }
    case FreeCall(p) =>
      if p in held {
        FreeStepKeeps(s, p, buddy.managed, buddy.maxOrder, buddy.end);
        buddy.Free(p, held[p]);
        held' := held - {p};
      }
  }

  /** `states` are the states before, between and after the calls. */
  ghost predicate Traced(states: seq<State>, calls: seq<Call>, answers: seq<Pfn>, maxOrder: nat) {
    && |answers| <= |calls| && |states| == |answers| + 1
    && forall i :: 0 <= i < |answers| ==> Answers(states[i], calls[i], answers[i], states[i + 1], maxOrder)
  }

  ghost predicate AllInv(states: seq<State>, managed: set<nat>, maxOrder: nat, end: nat) {
    forall i :: 0 <= i < |states| ==> Inv(states[i], managed, maxOrder, end)
  }

  lemma TraceGrows(states: seq<State>, calls: seq<Call>, answers: seq<Pfn>, maxOrder: nat, answer: Pfn, s: State)
    requires Traced(states, calls, answers, maxOrder) && |answers| < |calls|
    requires Answers(states[|answers|], calls[|answers|], answer, s, maxOrder)
    ensures Traced(states + [s], calls, answers + [answer], maxOrder)
  {
    var states', answers' := states + [s], answers + [answer];
    forall i | 0 <= i < |answers'|
      ensures Answers(states'[i], calls[i], answers'[i], states'[i + 1], maxOrder)
    {
      if i < |answers| {
        assert Answers(states[i], calls[i], answers[i], states[i + 1], maxOrder);
      }
    }
  }

  /** The same blocks handed out, the same blocks free. */
  lemma SameTakenSameFree(s: State, s': State, managed: set<nat>, maxOrder: nat, end: nat)
    requires Inv(s, managed, maxOrder, end) && Inv(s', managed, maxOrder, end) && s.taken == s'.taken
    ensures s.free == s'.free
  {
    forall x: nat
      ensures Covered(s.free, x) <==> Covered(s'.free, x)
    {
      assert Covered(s.free, x) || Covered(s.taken, x) <==> x in managed;
      assert Covered(s'.free, x) || Covered(s'.taken, x) <==> x in managed;
    }
    CanonicalUnique(s.free, s'.free, maxOrder, end);
  }

  /** Any calls on an allocator without mergeable free buddies. */
  method Run(buddy: Buddy, calls: seq<Call>, held: map<nat, nat>) returns (answers: seq<Pfn>, ghost states: seq<State>)
    requires buddy.Valid() && Canonical(buddy.blocks, buddy.maxOrder) && held == buddy.taken
    modifies buddy`lists, buddy`blocks, buddy`taken, buddy`freePages, buddy.free, buddy.head, buddy.order
    ensures buddy.Valid() && Canonical(buddy.blocks, buddy.maxOrder)
    ensures |answers| == |calls| && Traced(states, calls, answers, buddy.maxOrder)
    ensures states[0] == old(StateOf(buddy)) && states[|calls|] == StateOf(buddy)
    ensures AllInv(states, buddy.managed, buddy.maxOrder, buddy.end)
    ensures buddy.taken == old(buddy.taken) ==> buddy.blocks == old(buddy.blocks)
  {
    ghost var managed := buddy.managed;
    var out := held;
    ValidIsInv(buddy);
    answers, states := [], [StateOf(buddy)];
    for i := 0 to |calls|
      invariant buddy.Valid() && Canonical(buddy.blocks, buddy.maxOrder) && out == buddy.taken
      invariant |answers| == i && Traced(states, calls, answers, buddy.maxOrder)
      invariant states[0] == old(StateOf(buddy)) && states[i] == StateOf(buddy)
      invariant AllInv(states, buddy.managed, buddy.maxOrder, buddy.end)
    {
      var answer;
      answer, out := Serve(buddy, calls[i], out);
      ValidIsInv(buddy);
      TraceGrows(states, calls, answers, buddy.maxOrder, answer, StateOf(buddy));
      answers, states := answers + [answer], states + [StateOf(buddy)];
    }
    if buddy.taken == old(buddy.taken) {
      SameTakenSameFree(states[0], states[|calls|], managed, buddy.maxOrder, buddy.end);
    }
  }

  /** A new allocator over a memory map that splits no block, and any calls on it. */
  method CreateAndRun(end: nat, valid: set<nat>, metadata: set<nat>, entries: seq<MapEntry>, calls: seq<Call>)
      returns (buddy: Buddy, answers: seq<Pfn>, ghost states: seq<State>)
    requires RangesOk(entries, end) && UsableOk(entries, valid, metadata)
    requires forall k: nat :: Largest(k, end) ==> !SomeSplitBlock(entries, k)
    ensures buddy.Valid() && |answers| == |calls| && Traced(states, calls, answers, buddy.maxOrder)
    ensures AllInv(states, buddy.managed, buddy.maxOrder, buddy.end) && states[|calls|] == StateOf(buddy)
    ensures states[0].taken == map[] && forall x: nat :: Covered(states[0].free, x) <==> x < end && InUsable(entries, x)
    ensures buddy.taken == map[] ==> buddy.blocks == states[0].free
  {
    buddy := new Buddy(end, valid, metadata, entries);
    AllFree(buddy);
    answers, states := Run(buddy, calls, map[]);
  }

  lemma AllFree(buddy: Buddy)
    requires buddy.Valid() && buddy.taken == map[]
    ensures forall x: nat :: Covered(buddy.blocks, x) <==> x in buddy.managed
  {
    var none: Blocks := map[];
    assert forall x: nat :: !Covered(none, x);
  }

  // ---------------------------------------------------------------- touching ranges

  function TwoPages(): seq<MapEntry> {
    [MapEntry(0, PAGE_SIZE, Usable), MapEntry(PAGE_SIZE, PAGE_SIZE, Usable)]
  }

  lemma TwoPagesAreSplit()
    ensures RangesOk(TwoPages(), 2) && UsableOk(TwoPages(), {0, 1}, {})
    ensures SplitBlock(TwoPages(), 0, 1, 0, 1) && Largest(1, 2)
    ensures forall k :: Largest(k, 2) ==> k == 1
  {
    assert Pow2(0) == 1 && Pow2(1) == 2 && Pow2(2) == 4;
    assert !Aligned(1, 1);
    forall k: nat | Largest(k, 2)
      ensures k == 1
    {
      Pow2Monotone(2, k);
    }
  }

  lemma BothFree(buddy: Buddy)
    requires buddy.Valid() && buddy.taken == map[] && buddy.end == 2 && buddy.maxOrder == 1
    requires buddy.managed == set x: nat | x < 2 && InUsable(TwoPages(), x)
    requires !Canonical(buddy.blocks, 1)
    ensures RunExists(buddy.blocks, 1) && buddy.blocks == map[0 := 0, 1 := 0]
  {
    AllFree(buddy);
    assert InEntry(TwoPages(), 0, 0) && InEntry(TwoPages(), 1, 1);
    assert Pow2(0) == 1 && Pow2(1) == 2;
    assert Aligned(0, 1) && AllCovered(buddy.blocks, 0, 1);
  }

  lemma HalvesMerge(p: nat)
    requires p <= 1
    ensures Merge(map[0 := 0, 1 := 0] - {p}, 1, p, 0) == map[0 := 1]
  {
    assert Flip(0, 0) == 1 && Flip(1, 0) == 0;
    var b: Blocks := map[1 - p := 0];
    assert map[0 := 0, 1 := 0] - {p} == b && b - {1 - p} == map[];
  }

  /** Two pages in two entries are the halves of a block, which `buddy_create` does not join:
      both are free, but a run of two pages cannot be allocated until one of them has been
      allocated and given back. */
  method TouchingRangesStayApart() returns (ghost created: Blocks, answer: Pfn, later: Pfn)
    ensures RunExists(created, 1) && !Canonical(created, 1)
    ensures answer.Invalid? && later.Page?
  {
    TwoPagesAreSplit();
    var buddy := new Buddy(2, {0, 1}, {}, TwoPages());
    created := buddy.blocks;
    BothFree(buddy);
    answer := buddy.Alloc(1);
    var page := buddy.Alloc(0);
    HalvesMerge(page.pfn);
    buddy.Free(page.pfn, 0);
    assert buddy.blocks[0] == 1;
    later := buddy.Alloc(1);
  }
}
