/** Where a slab puts its objects in a page: kernel/src/mm/slab.c. */
module SlabLayout {
  import opened Division

  const PAGE_SIZE: nat := 4096
  const PAGE_HEADER: nat := 32    // sizeof(struct slab_page)
  const OBJ_HEADER: nat := 2      // sizeof(struct slab_obj_hdr)
  const REDZONE: nat := 2         // SLAB_REDZONE_SIZE

  predicate PowerOf2(a: nat) {
    a == 1 || (a > 1 && a % 2 == 0 && PowerOf2(a / 2))
  }

  /** `align_ceil_sz_p2` */
  function Ceil(x: nat, a: nat): (r: nat)
    requires a > 0
    ensures x <= r < x + a && r % a == 0
  {
    var q := (x + a - 1) / a;
    DivMod(x + a - 1, a);
    DivUnique(q * a, a, q, 0);
    q * a
  }

  datatype Layout = Layout(objectSize: nat, align: nat, payloadOffset: nat, stride: nat, slotOffset: nat, capacity: nat)

  /** How many slots of `stride` bytes there are in `room` bytes. */
  function CapacityFor(room: nat, stride: nat): nat
    requires stride > 0
  {
    room / stride
  }

  /** `slab_create` */
  function MakeLayout(objectSize: nat, align: nat): Layout
    requires align > 0
  {
    var prefixEnd := Ceil(OBJ_HEADER + REDZONE, align);
    var stride := Ceil(prefixEnd + objectSize + REDZONE, align);
    var slotOffset := Ceil(PAGE_HEADER, align);
    Layout(objectSize, align, prefixEnd, stride, slotOffset,
           if slotOffset < PAGE_SIZE then CapacityFor(PAGE_SIZE - slotOffset, stride) else 0)
  }

  /** What `slab_create` insists on. */
  predicate Fits(l: Layout) {
    0 < l.objectSize && PowerOf2(l.align) && l.slotOffset < PAGE_SIZE && l.capacity > 0
  }

  function Slot(l: Layout, i: nat): (r: nat)
    ensures r >= l.slotOffset
  {
    l.slotOffset + i * l.stride
  }

  lemma {:induction false} DividesPage(a: nat, b: nat)
    requires PowerOf2(a) && PowerOf2(b) && a <= b
    ensures b % a == 0
    decreases b
  {
    if a > 1 {
      DividesPage(a / 2, b / 2);
      var q := b / 2 / (a / 2);
      DivMod(b / 2, a / 2);
      Regroup(1, 2 * q, 0, a / 2);
      assert b == 2 * (b / 2) && a == 2 * (a / 2);
      DivUnique(b, a, q, 0);
    }
  }

  /** Headers, red zones, payload and padding have their places ... */
  predicate Sized(l: Layout) {
    && l.capacity > 0 && l.stride > 0 && PAGE_HEADER <= l.slotOffset
      && l.slotOffset + l.capacity * l.stride <= PAGE_SIZE
    && OBJ_HEADER + REDZONE <= l.payloadOffset && l.payloadOffset + l.objectSize + REDZONE <= l.stride
  }

  /** ... and are aligned. */
  predicate AlignedOk(l: Layout) {
    && PowerOf2(l.align) && 0 < l.align <= PAGE_SIZE
    && l.slotOffset % l.align == 0 && l.stride % l.align == 0 && l.payloadOffset % l.align == 0
  }

  lemma CapacityFits(room: nat, stride: nat)
    requires stride > 0
    ensures CapacityFor(room, stride) * stride <= room
  {
    DivMod(room, stride);
  }

  /** `slab_create` lays out its slots soundly whenever it accepts its arguments. */
  lemma MadeOk(objectSize: nat, align: nat)
    requires align > 0 && Fits(MakeLayout(objectSize, align))
    ensures Sized(MakeLayout(objectSize, align)) && AlignedOk(MakeLayout(objectSize, align))
  {
    var l := MakeLayout(objectSize, align);
    CapacityFits(PAGE_SIZE - l.slotOffset, l.stride);
    CeilAtLeast(PAGE_HEADER, align);
  }

  lemma CeilAtLeast(x: nat, a: nat)
    requires a > 0 && x > 0
    ensures Ceil(x, a) >= a
  {
    var r := Ceil(x, a);
    if r < a {
      DivUnique(r, a, 0, r);
    }
  }

  /** Every slot lies behind the page header and inside the page. */
  lemma SlotInPage(l: Layout, i: nat)
    requires Sized(l) && i < l.capacity
    ensures PAGE_HEADER <= Slot(l, i) && Slot(l, i) + l.stride <= PAGE_SIZE
  {
    Within(l.capacity, i, l.stride);
  }

  lemma Within(n: nat, i: nat, stride: nat)
    requires i < n
    ensures i * stride + stride <= n * stride
  {
    TimesAtLeast(n - i, stride);
    assert (n - i) * stride == n * stride - i * stride;
  }

  /** Slots do not overlap. */
  lemma SlotsApart(l: Layout, i: nat, j: nat)
    requires i < j
    ensures Slot(l, i) + l.stride <= Slot(l, j)
  {
    TimesAtLeast(j - i, l.stride);
    assert (j - i) * l.stride == j * l.stride - i * l.stride;
  }

  /** The payload of every slot has the alignment that was asked for. */
  lemma PayloadAligned(l: Layout, page: nat, i: nat)
    requires AlignedOk(l) && page % PAGE_SIZE == 0
    ensures (page + Slot(l, i) + l.payloadOffset) % l.align == 0
  {
    PageIsPower();
    DividesPage(l.align, PAGE_SIZE);
    DivMod(page, PAGE_SIZE);
    AddUp(page, l.slotOffset, l.stride, l.payloadOffset, l.align, page / PAGE_SIZE, i);
  }

  lemma PageIsPower()
    ensures PowerOf2(PAGE_SIZE)
  {
    assert PowerOf2(16);
    assert PowerOf2(256);
  }

  lemma AddUp(page: nat, a: nat, stride: nat, b: nat, align: nat, p: nat, i: nat)
    requires align > 0 && page == p * PAGE_SIZE && PAGE_SIZE % align == 0 && a % align == 0 && stride % align == 0
    requires b % align == 0
    ensures (page + (a + i * stride) + b) % align == 0
  {
    var qp, qa, qs, qb := PAGE_SIZE / align, a / align, stride / align, b / align;
    DivMod(PAGE_SIZE, align);
    DivMod(a, align);
    DivMod(stride, align);
    DivMod(b, align);
    Regroup(p, qp, 0, align);
    Regroup(i, qs, 0, align);
    var q := p * qp + qa + i * qs + qb;
    assert page + (a + i * stride) + b == q * align;
    DivUnique(q * align, align, q, 0);
  }
}

/** Free chains inside the pages of a slab, as values. */
module SlabPages {
  import opened Queues
  import opened Division
  import opened SlabLayout

  /** A page: head of the chain of free slots (an offset, 0 for none), per slot the link to the
      next free one and the free mark, and the number of slots in use. */
  datatype Page = Page(freeHead: nat, next: seq<nat>, isFree: seq<bool>, inuse: nat)

  /** The offset that stands for the first slot of a chain. */
  function Head(l: Layout, chain: seq<nat>): nat {
    if chain == [] then 0 else Slot(l, chain[0])
  }

  /** The chain from the head visits every free slot exactly once. */
  ghost predicate PageOk(l: Layout, p: Page, chain: seq<nat>) {
    && |p.next| == |p.isFree| == l.capacity && Distinct(chain) && p.freeHead == Head(l, chain)
    && (forall i :: 0 <= i < |chain| ==> chain[i] < l.capacity)
    && (forall i :: 0 <= i < l.capacity ==> (p.isFree[i] <==> i in chain))
    && (forall k :: 0 <= k < |chain| ==> p.next[chain[k]] == Head(l, chain[k + 1..]))
    && p.inuse + |chain| == l.capacity
  }

  /** Taking the first free slot. */
  lemma Taken(l: Layout, p: Page, chain: seq<nat>)
    requires PageOk(l, p, chain) && chain != []
    ensures var i := chain[0];
      PageOk(l, Page(p.next[i], p.next[i := 0], p.isFree[i := false], p.inuse + 1), chain[1..])
  {
    var i, rest := chain[0], chain[1..];
    assert chain == [i] + rest;
    assert i !in rest;
    forall k | 0 <= k < |rest|
      ensures p.next[i := 0][rest[k]] == Head(l, rest[k + 1..])
    {
      assert rest[k] == chain[k + 1] && rest[k + 1..] == chain[k + 2..];
    }
    assert chain[0 + 1..] == rest;
  }

  /** Giving a slot back. */
  lemma Returned(l: Layout, p: Page, chain: seq<nat>, i: nat)
    requires PageOk(l, p, chain) && i < l.capacity && !p.isFree[i] && p.inuse > 0
    ensures PageOk(l, Page(Slot(l, i), p.next[i := p.freeHead], p.isFree[i := true], p.inuse - 1), [i] + chain)
  {
    var more := [i] + chain;
    assert i !in chain;
    forall k | 0 <= k < |more|
      ensures p.next[i := p.freeHead][more[k]] == Head(l, more[k + 1..])
    {
      if k == 0 {
        assert more[1..] == chain;
      } else {
        assert more[k] == chain[k - 1] && more[k + 1..] == chain[k..];
        assert p.next[chain[k - 1]] == Head(l, chain[k - 1 + 1..]);
      }
    }
  }

  /** Not all slots are free while one is in use. */
  lemma {:induction false} Pigeonhole(chain: seq<nat>, n: nat)
    requires Distinct(chain) && forall i :: 0 <= i < |chain| ==> chain[i] < n
    ensures |chain| <= n
    decreases n
  {
    if n > 0 {
      WithoutRemoves(chain, n - 1);
      var rest := Without(chain, n - 1);
      assert forall i :: 0 <= i < |rest| ==> rest[i] in rest;
      assert forall y :: y in chain ==> y < n;
      Pigeonhole(rest, n - 1);
    }
  }

  /** A slot that is not in the chain leaves room for it. */
  lemma RoomFor(chain: seq<nat>, n: nat, i: nat)
    requires Distinct(chain) && (forall k :: 0 <= k < |chain| ==> chain[k] < n) && i < n && i !in chain
    ensures |chain| < n
  {
    var more := [i] + chain;
    assert forall k :: 0 <= k < |chain| ==> chain[k] in chain;
    Pigeonhole(more, n);
  }

  /** A chain as long as there are slots visits them all. */
  lemma FullChain(chain: seq<nat>, n: nat)
    requires Distinct(chain) && (forall k :: 0 <= k < |chain| ==> chain[k] < n) && |chain| == n
    ensures forall i :: 0 <= i < n ==> i in chain
  {
    forall i | 0 <= i < n
      ensures i in chain
    {
      if i !in chain {
        RoomFor(chain, n, i);
      }
    }
  }

  /** A slot in use: its page and its index. */
  type Object = (nat, nat)

  /** Address of the payload of a slot. */
  function Payload(l: Layout, o: Object): nat {
    o.0 + Slot(l, o.1) + l.payloadOffset
  }

  /** Pages, their free chains, the list of pages with free slots and the slots in use agree. */
  ghost predicate SlabOk(l: Layout, pages: map<nat, Page>, chains: map<nat, seq<nat>>, partial: seq<nat>,
                         objects: set<Object>) {
    PagesOk(l, pages, chains) && PartialOk(chains, partial) && ObjectsOk(l, chains, objects)
  }

  ghost predicate PagesOk(l: Layout, pages: map<nat, Page>, chains: map<nat, seq<nat>>) {
    chains.Keys == pages.Keys && forall a :: a in pages ==> a % PAGE_SIZE == 0 && PageOk(l, pages[a], chains[a])
  }

  /** The total counts the slots of all pages, and every page has a slot in use. */
  ghost predicate Books(capacity: nat, pages: map<nat, Page>, total: nat) {
    total == capacity * |pages| && forall a :: a in pages ==> pages[a].inuse > 0
  }

  /** A page is in the list exactly when it has a free slot. */
  ghost predicate PartialOk(chains: map<nat, seq<nat>>, partial: seq<nat>) {
    Distinct(partial) && forall a :: a in partial <==> a in chains && chains[a] != []
  }

  ghost predicate ObjectsOk(l: Layout, chains: map<nat, seq<nat>>, objects: set<Object>) {
    forall a: nat, i: nat :: (a, i) in objects <==> a in chains && i < l.capacity && i !in chains[a]
  }

  type Pages = map<nat, Page>
  type Chains = map<nat, seq<nat>>
}

/** What taking and returning a slot means for the whole slab. */
module SlabMoves {
  import opened Queues
  import opened Division
  import opened SlabLayout
  import opened SlabPages

  /** Objects are aligned, lie inside their page, and do not overlap, red zones included. */
  lemma ObjectsApart(l: Layout, pages: map<nat, Page>, chains: map<nat, seq<nat>>, partial: seq<nat>,
                     objects: set<Object>, o: Object, u: Object)
    requires Sized(l) && AlignedOk(l) && SlabOk(l, pages, chains, partial, objects) && o in objects && u in objects
    requires o != u
    ensures Payload(l, o) % l.align == 0
    ensures o.0 + PAGE_HEADER + OBJ_HEADER + REDZONE <= Payload(l, o)
    ensures Payload(l, o) + l.objectSize + REDZONE <= o.0 + PAGE_SIZE
    ensures Payload(l, o) + l.objectSize + 2 * REDZONE + OBJ_HEADER <= Payload(l, u)
      || Payload(l, u) + l.objectSize + 2 * REDZONE + OBJ_HEADER <= Payload(l, o)
  {
    PayloadAligned(l, o.0, o.1);
    SlotInPage(l, o.1);
    SlotInPage(l, u.1);
    if o.0 == u.0 {
      if o.1 < u.1 {
        SlotsApart(l, o.1, u.1);
      } else {
        SlotsApart(l, u.1, o.1);
      }
    } else {
      PagesApart(o.0, u.0);
    }
  }

  lemma PagesApart(a: nat, b: nat)
    requires a % PAGE_SIZE == 0 && b % PAGE_SIZE == 0 && a != b
    ensures a + PAGE_SIZE <= b || b + PAGE_SIZE <= a
  {}

  /** A new page, all of whose slots are free, at the front of the list. */
  lemma PageAdded(l: Layout, pages: Pages, chains: Chains, partial: seq<nat>, objects: set<Object>, a: nat, p: Page,
                  chain: seq<nat>)
    requires SlabOk(l, pages, chains, partial, objects) && a !in pages && a % PAGE_SIZE == 0 && PageOk(l, p, chain)
    requires chain != []
    requires forall i :: 0 <= i < l.capacity ==> i in chain
    ensures SlabOk(l, pages[a := p], chains[a := chain], [a] + partial, objects)
  {
    assert a !in partial;
    var chains' := chains[a := chain];
    forall b: nat, j: nat
      ensures (b, j) in objects <==> b in chains' && j < l.capacity && j !in chains'[b]
    {
      assert (b, j) in objects <==> b in chains && j < l.capacity && j !in chains[b];
    }
  }

  /** A page whose slots are all free leaves the slab. */
  lemma PageDropped(l: Layout, pages: Pages, chains: Chains, partial: seq<nat>, objects: set<Object>, a: nat)
    requires SlabOk(l, pages, chains, partial, objects) && a in pages
    requires forall i :: 0 <= i < l.capacity ==> i in chains[a]
    ensures SlabOk(l, pages - {a}, chains - {a}, Without(partial, a), objects)
  {
    WithoutRemoves(partial, a);
  }

  /** The page without its first free slot. */
  function Popped(p: Page, i: nat): Page
    requires i < |p.next| && i < |p.isFree|
  {
    Page(p.next[i], p.next[i := 0], p.isFree[i := false], p.inuse + 1)
  }

  /** What `slab_alloc` finds in a page of the list. */
  lemma FreeSlot(l: Layout, pages: Pages, chains: Chains, partial: seq<nat>, objects: set<Object>, a: nat)
    requires SlabOk(l, pages, chains, partial, objects) && a in partial
    ensures a in pages && a in chains && chains[a] != [] && pages[a].freeHead == Slot(l, chains[a][0])
    ensures chains[a][0] < l.capacity == |pages[a].next| == |pages[a].isFree| && pages[a].isFree[chains[a][0]]
  {
    assert PageOk(l, pages[a], chains[a]);
    assert chains[a][0] in chains[a];
  }

  /** The first free slot of a page is taken; a page that becomes full leaves the list. */
  lemma SlotTaken(l: Layout, pages: Pages, chains: Chains, partial: seq<nat>, objects: set<Object>, a: nat, i: nat)
    requires Sized(l) && SlabOk(l, pages, chains, partial, objects) && a in pages && chains[a] != []
    requires i == chains[a][0]
    requires i < |pages[a].next| && i < |pages[a].isFree|
    ensures (a, i) !in objects
    ensures var p := Popped(pages[a], i);
      SlabOk(l, pages[a := p], chains[a := chains[a][1..]],
             if p.freeHead == 0 then Without(partial, a) else partial, objects + {(a, i)})
  {
    assert PageOk(l, pages[a], chains[a]);
    Taken(l, pages[a], chains[a]);
    PageChanged(l, pages, chains, a, Popped(pages[a], i), chains[a][1..]);
    ObjectTaken(l, chains, objects, a);
    ListTaken(chains, partial, a);
  }

  lemma PageChanged(l: Layout, pages: Pages, chains: Chains, a: nat, p: Page, chain: seq<nat>)
    requires PagesOk(l, pages, chains) && a in pages && PageOk(l, p, chain)
    ensures PagesOk(l, pages[a := p], chains[a := chain])
  {}

  lemma ListTaken(chains: Chains, partial: seq<nat>, a: nat)
    requires PartialOk(chains, partial) && a in chains && chains[a] != []
    ensures PartialOk(chains[a := chains[a][1..]], if |chains[a]| == 1 then Without(partial, a) else partial)
  {
    WithoutRemoves(partial, a);
  }

  lemma ObjectTaken(l: Layout, chains: Chains, objects: set<Object>, a: nat)
    requires ObjectsOk(l, chains, objects) && a in chains && chains[a] != [] && Distinct(chains[a])
    requires chains[a][0] < l.capacity
    ensures (a, chains[a][0]) !in objects && ObjectsOk(l, chains[a := chains[a][1..]], objects + {(a, chains[a][0])})
  {
    var i, rest := chains[a][0], chains[a][1..];
    assert chains[a] == [i] + rest;
    assert i !in rest;
    var objects', chains' := objects + {(a, i)}, chains[a := rest];
    forall b: nat, j: nat
      ensures (b, j) in objects' <==> b in chains' && j < l.capacity && j !in chains'[b]
    {
      assert (b, j) in objects <==> b in chains && j < l.capacity && j !in chains[b];
    }
  }

  /** A slot in use is given back; a page that was full enters the list. */
  lemma SlotReturned(l: Layout, pages: Pages, chains: Chains, partial: seq<nat>, objects: set<Object>, a: nat, i: nat)
    requires Sized(l) && SlabOk(l, pages, chains, partial, objects) && (a, i) in objects && a in pages && a in chains
    requires i < |pages[a].next| && i < |pages[a].isFree| && pages[a].inuse > 0 && !pages[a].isFree[i] && i < l.capacity
    ensures var p := Pushed(pages[a], i, Slot(l, i));
      SlabOk(l, pages[a := p], chains[a := [i] + chains[a]],
             if pages[a].freeHead == 0 then [a] + partial else partial, objects - {(a, i)})
  {
    assert PageOk(l, pages[a], chains[a]);
    Returned(l, pages[a], chains[a], i);
    PageChanged(l, pages, chains, a, Pushed(pages[a], i, Slot(l, i)), [i] + chains[a]);
    ObjectReturned(l, chains, objects, a, i);
    ListReturned(chains, partial, a, i);
  }

  lemma ListReturned(chains: Chains, partial: seq<nat>, a: nat, i: nat)
    requires PartialOk(chains, partial) && a in chains
    ensures PartialOk(chains[a := [i] + chains[a]], if chains[a] == [] then [a] + partial else partial)
  {
    assert chains[a] == [] ==> a !in partial;
  }

  lemma ObjectReturned(l: Layout, chains: Chains, objects: set<Object>, a: nat, i: nat)
    requires ObjectsOk(l, chains, objects) && (a, i) in objects
    ensures a in chains && ObjectsOk(l, chains[a := [i] + chains[a]], objects - {(a, i)})
  {
    var objects', chains' := objects - {(a, i)}, chains[a := [i] + chains[a]];
    forall b: nat, j: nat
      ensures (b, j) in objects' <==> b in chains' && j < l.capacity && j !in chains'[b]
    {
      assert (b, j) in objects <==> b in chains && j < l.capacity && j !in chains[b];
    }
  }

  /** The page with slot `i` at the head of its chain. */
  function Pushed(p: Page, i: nat, offset: nat): Page
    requires i < |p.next| && i < |p.isFree| && p.inuse > 0
  {
    Page(offset, p.next[i := p.freeHead], p.isFree[i := true], p.inuse - 1)
  }

  /** What `slab_free` finds: the checks for a stray pointer, a double free and a corrupt page
      do not fail. */
  lemma UsedSlot(l: Layout, pages: Pages, chains: Chains, partial: seq<nat>, objects: set<Object>, a: nat, i: nat)
    requires SlabOk(l, pages, chains, partial, objects) && (a, i) in objects
    ensures a in pages && a in chains && a % PAGE_SIZE == 0 && i < l.capacity == |pages[a].next| == |pages[a].isFree|
    ensures !pages[a].isFree[i] && pages[a].inuse > 0
  {
    assert a in chains && i !in chains[a];
    assert PageOk(l, pages[a], chains[a]);
    RoomFor(chains[a], l.capacity, i);
  }

  /** A page without slots in use can go. */
  lemma EmptyPage(l: Layout, pages: Pages, chains: Chains, partial: seq<nat>, objects: set<Object>, a: nat)
    requires SlabOk(l, pages, chains, partial, objects) && a in pages && pages[a].inuse == 0
    ensures SlabOk(l, pages - {a}, chains - {a}, Without(partial, a), objects)
  {
    assert PageOk(l, pages[a], chains[a]);
    FullChain(chains[a], l.capacity);
    PageDropped(l, pages, chains, partial, objects, a);
  }

  // ---------------------------------------------------------------- whole operations

  /** All of a slab: the objects handed out and not given back, and the two counters. */
  datatype SlabState = SlabState(pages: Pages, chains: Chains, partial: seq<nat>, objects: set<Object>, inuse: nat,
                                 total: nat)

  ghost predicate Linked(l: Layout, s: SlabState) {
    SlabOk(l, s.pages, s.chains, s.partial, s.objects) && s.inuse == |s.objects|
  }

  /** Between operations every page has a slot in use, too. */
  ghost predicate Good(l: Layout, s: SlabState) {
    Linked(l, s) && Books(l.capacity, s.pages, s.total)
  }

  /** The slots from `i` to `n`. */
  ghost function From(i: nat, n: nat): (r: seq<nat>)
    requires i <= n
    ensures |r| == n - i && forall k :: 0 <= k < n - i ==> r[k] == i + k
  {
    seq(n - i, k => i + k)
  }

  lemma FromRest(n: nat)
    ensures forall k :: 0 <= k < n ==> From(0, n)[k + 1..] == From(From(0, n)[k] + 1, n)
    ensures forall k :: 0 <= k < n ==> k in From(0, n)
  {
    forall k | 0 <= k < n
      ensures k in From(0, n)
    {
      assert From(0, n)[k] == k;
    }
  }

  /** With a new page at `a`. */
  ghost function Grown(l: Layout, s: SlabState, a: nat, p: Page): SlabState {
    s.(pages := s.pages[a := p], chains := s.chains[a := From(0, l.capacity)], partial := [a] + s.partial,
       total := s.total + l.capacity)
  }

  /** `a` is the page that `pick_alloc_page` finds or makes. */
  ghost predicate Picked(l: Layout, s: SlabState, s': SlabState, a: nat) {
    || (s' == s && a in s.partial)
    || (s.partial == [] && a !in s.pages && a % PAGE_SIZE == 0 && a in s'.pages && s' == Grown(l, s, a, s'.pages[a])
        && PageOk(l, s'.pages[a], From(0, l.capacity)) && s'.pages[a].inuse == 0)
  }

  ghost predicate HasSlot(l: Layout, s: SlabState, a: nat) {
    && a in s.pages && a in s.chains && s.chains[a] != [] && s.pages[a].freeHead == Slot(l, s.chains[a][0])
    && s.chains[a][0] < l.capacity == |s.pages[a].next| == |s.pages[a].isFree| && s.pages[a].isFree[s.chains[a][0]]
  }

  /** Without the first free slot of page `a`. */
  ghost function TakenFrom(l: Layout, s: SlabState, a: nat): SlabState {
    if !HasSlot(l, s, a) then s else
    var i := s.chains[a][0];
    var p := Popped(s.pages[a], i);
    s.(pages := s.pages[a := p], chains := s.chains[a := s.chains[a][1..]],
       partial := if p.freeHead == 0 then Without(s.partial, a) else s.partial,
       objects := s.objects + {(a, i)}, inuse := s.inuse + 1)
  }

  lemma PickedLinked(l: Layout, s: SlabState, s1: SlabState, a: nat)
    requires Sized(l) && Good(l, s) && Picked(l, s, s1, a)
    ensures Linked(l, s1) && a in s1.partial && HasSlot(l, s1, a) && a in s1.pages
    ensures Grew(l.capacity, s.pages, s1.pages, a, s.total, s1.total) && s1.objects == s.objects
  {
    if s1 != s {
      FromRest(l.capacity);
      PageAdded(l, s.pages, s.chains, s.partial, s.objects, a, s1.pages[a], From(0, l.capacity));
    }
    FreeSlot(l, s1.pages, s1.chains, s1.partial, s1.objects, a);
  }

  lemma TakenLinked(l: Layout, s: SlabState, a: nat)
    requires Sized(l) && Linked(l, s) && HasSlot(l, s, a)
    ensures Linked(l, TakenFrom(l, s, a)) && (a, s.chains[a][0]) !in s.objects
  {
    SlotTaken(l, s.pages, s.chains, s.partial, s.objects, a, s.chains[a][0]);
  }

  lemma AllocGood(l: Layout, s: SlabState, s1: SlabState, a: nat)
    requires Sized(l) && Good(l, s) && Picked(l, s, s1, a)
    ensures HasSlot(l, s1, a) && Good(l, TakenFrom(l, s1, a))
    ensures var o := (a, s1.chains[a][0]); o !in s.objects && TakenFrom(l, s1, a).objects == s.objects + {o}
  {
    PickedLinked(l, s, s1, a);
    TakenLinked(l, s1, a);
    TakenCounted(l, s, s1, a);
  }

  lemma TakenCounted(l: Layout, s: SlabState, s1: SlabState, a: nat)
    requires Books(l.capacity, s.pages, s.total) && HasSlot(l, s1, a)
    requires Grew(l.capacity, s.pages, s1.pages, a, s.total, s1.total)
    ensures Books(l.capacity, TakenFrom(l, s1, a).pages, s1.total)
  {
    Counted(l.capacity, s.pages, s1.pages, TakenFrom(l, s1, a).pages, a, s.total, s1.total);
  }

  ghost predicate HoldsObject(l: Layout, s: SlabState, a: nat, i: nat) {
    && (a, i) in s.objects && a in s.pages && a in s.chains
      && i < l.capacity == |s.pages[a].next| == |s.pages[a].isFree|
    && !s.pages[a].isFree[i] && s.pages[a].inuse > 0 && s.inuse > 0
  }

  /** With slot `i` of page `a` free again. */
  ghost function PutBackIn(l: Layout, s: SlabState, a: nat, i: nat): SlabState {
    if !HoldsObject(l, s, a, i) then s else
    s.(pages := s.pages[a := Pushed(s.pages[a], i, Slot(l, i))], chains := s.chains[a := [i] + s.chains[a]],
       partial := if s.pages[a].freeHead == 0 then [a] + s.partial else s.partial,
       objects := s.objects - {(a, i)}, inuse := s.inuse - 1)
  }

  ghost function DroppedFrom(l: Layout, s: SlabState, a: nat): SlabState {
    if s.total < l.capacity then s else
    s.(pages := s.pages - {a}, chains := s.chains - {a}, partial := Without(s.partial, a),
       total := s.total - l.capacity)
  }

  lemma ObjectHeld(l: Layout, s: SlabState, a: nat, i: nat)
    requires Linked(l, s) && (a, i) in s.objects
    ensures HoldsObject(l, s, a, i)
  {
    UsedSlot(l, s.pages, s.chains, s.partial, s.objects, a, i);
  }

  lemma PutBackLinked(l: Layout, s: SlabState, a: nat, i: nat)
    requires Sized(l) && Linked(l, s) && (a, i) in s.objects
    ensures Linked(l, PutBackIn(l, s, a, i))
  {
    ObjectHeld(l, s, a, i);
    SlotReturned(l, s.pages, s.chains, s.partial, s.objects, a, i);
  }

  lemma DroppedLinked(l: Layout, s: SlabState, a: nat)
    requires Linked(l, s) && a in s.pages && s.pages[a].inuse == 0
    ensures Linked(l, DroppedFrom(l, s, a))
  {
    EmptyPage(l, s.pages, s.chains, s.partial, s.objects, a);
  }

  lemma PutBackCounted(l: Layout, s: SlabState, a: nat, i: nat)
    requires Books(l.capacity, s.pages, s.total) && HoldsObject(l, s, a, i)
    ensures var s1 := PutBackIn(l, s, a, i);
      a in s1.pages && s1.total == s.total && if s1.pages[a].inuse > 0 then Books(l.capacity, s1.pages, s1.total)
        else s1.total >= l.capacity && Books(l.capacity, DroppedFrom(l, s1, a).pages, s1.total - l.capacity)
  {
    var s1 := PutBackIn(l, s, a, i);
    if s1.pages[a].inuse == 0 {
      assert s1.pages - {a} == s.pages - {a};
      Uncounted(l.capacity, s.pages, s.pages - {a}, a, s.total);
    } else {
      Recounted(l.capacity, s.pages, s1.pages, a, s1.pages[a], s.total);
    }
  }

  /** `slab_free` in terms of states: the slot goes back, and its page with it if it was the last. */
  ghost function FreedFrom(l: Layout, s: SlabState, a: nat, i: nat): SlabState {
    var s1 := PutBackIn(l, s, a, i);
    if a in s1.pages && s1.pages[a].inuse == 0 then DroppedFrom(l, s1, a) else s1
  }

  lemma FreeLinked(l: Layout, s: SlabState, a: nat, i: nat)
    requires Sized(l) && Linked(l, s) && (a, i) in s.objects
    ensures Linked(l, FreedFrom(l, s, a, i))
  {
    PutBackLinked(l, s, a, i);
    var s1 := PutBackIn(l, s, a, i);
    if a in s1.pages && s1.pages[a].inuse == 0 {
      DroppedLinked(l, s1, a);
    }
  }

  lemma FreeCounted(l: Layout, s: SlabState, a: nat, i: nat)
    requires Books(l.capacity, s.pages, s.total) && HoldsObject(l, s, a, i)
    ensures Books(l.capacity, FreedFrom(l, s, a, i).pages, FreedFrom(l, s, a, i).total)
  {
    PutBackCounted(l, s, a, i);
  }

  /** The same pages, or one page more and its slots counted. */
  ghost predicate Grew(capacity: nat, pages: map<nat, Page>, pages': map<nat, Page>, a: nat, total: nat, total': nat) {
    (pages' == pages && total' == total)
      || (a !in pages && a in pages' && pages' == pages[a := pages'[a]] && total' == total + capacity)
  }

  lemma Recounted(capacity: nat, pages0: map<nat, Page>, pages: map<nat, Page>, a: nat, p: Page, total: nat)
    requires Books(capacity, pages0, total) && a in pages0 && pages == pages0[a := p] && p.inuse > 0
    ensures Books(capacity, pages, total)
  {
    SameSize(pages0, pages);
  }

  lemma TimesNext(capacity: nat, n: nat)
    ensures capacity * (n + 1) == capacity * n + capacity
  {}

  lemma SameSize(pages: Pages, pages': Pages)
    requires pages'.Keys == pages.Keys
    ensures |pages'| == |pages|
  {
    assert |pages| == |pages.Keys| && |pages'| == |pages'.Keys|;
  }

  lemma OnePageMore(pages: Pages, pages': Pages, a: nat)
    requires a !in pages && pages'.Keys == pages.Keys + {a}
    ensures |pages'| == |pages| + 1
  {
    assert |pages| == |pages.Keys| && |pages'| == |pages'.Keys|;
  }

  lemma Uncounted(capacity: nat, pages0: map<nat, Page>, pages: map<nat, Page>, a: nat, total: nat)
    requires Books(capacity, pages0, total) && a in pages0 && pages == pages0 - {a}
    ensures total >= capacity && Books(capacity, pages, total - capacity)
  {
    OnePageMore(pages, pages0, a);
    TimesNext(capacity, |pages|);
  }

  lemma Counted(capacity: nat, pages0: map<nat, Page>, pages1: map<nat, Page>, pages: map<nat, Page>, a: nat,
                total: nat, total': nat)
    requires Books(capacity, pages0, total) && a in pages1 && a in pages && pages == pages1[a := pages[a]]
    requires pages[a].inuse > 0
    requires Grew(capacity, pages0, pages1, a, total, total')
    ensures Books(capacity, pages, total')
  {
    assert pages1 != pages0 ==> forall b :: b in pages && b != a ==> b in pages0 && pages[b] == pages0[b];
    GrewSize(capacity, pages0, pages1, pages, a, total, total');
    TimesGrown(capacity, |pages0|, |pages|, total, total');
  }

  lemma GrewSize(capacity: nat, pages0: Pages, pages1: Pages, pages: Pages, a: nat, total: nat, total': nat)
    requires pages.Keys == pages1.Keys && Grew(capacity, pages0, pages1, a, total, total')
    ensures (|pages| == |pages0| && total' == total) || (|pages| == |pages0| + 1 && total' == total + capacity)
  {
    SameSize(pages1, pages);
    if pages1 != pages0 {
      OnePageMore(pages0, pages1, a);
    }
  }

  lemma TimesGrown(capacity: nat, n: nat, n': nat, total: nat, total': nat)
    requires total == capacity * n && ((n' == n && total' == total) || (n' == n + 1 && total' == total + capacity))
    ensures total' == capacity * n'
  {
    TimesNext(capacity, n);
  }
}

/** Allocating and freeing objects. */
module Slabs {
  import opened Queues
  import opened Wrappers
  import opened Division
  import opened SlabLayout
  import opened SlabPages
  import opened SlabMoves

  class Slab {
    const layout: Layout
    var pages: map<nat, Page>        // by address
    var partial: seq<nat>            // pages with free slots
    var inuseObjects: nat
    var totalObjects: nat
    ghost var chains: map<nat, seq<nat>>
    ghost var objects: set<Object>   // handed out and not given back

    ghost function Now(): SlabState
      reads this
    {
      SlabState(pages, chains, partial, objects, inuseObjects, totalObjects)
    }

    ghost predicate Valid()
      reads this
    {
      Sized(layout) && AlignedOk(layout) && Good(layout, Now())
    }

    /** `slab_create`. */
    constructor (objectSize: nat, align: nat)
      requires align > 0 && Fits(MakeLayout(objectSize, align))
      ensures Valid() && layout == MakeLayout(objectSize, align) && objects == {} && pages == map[]
    {
      layout := MakeLayout(objectSize, align);
      MadeOk(objectSize, align);
      pages, partial, inuseObjects, totalObjects, chains, objects := map[], [], 0, 0, map[], {};
    }

    /** `create_slab_page`: the chain of a new page visits all slots in order. */
    method CreatePage() returns (p: Page)
      requires Sized(layout)
      ensures PageOk(layout, p, From(0, layout.capacity)) && p.inuse == 0
    {
      var n := layout.capacity;
      var head, next, isFree := 0, seq(n, _ => 0), seq(n, _ => false);
      var i := n;
      while i > 0
        invariant i <= n && |next| == n && |isFree| == n && head == Head(layout, From(i, n))
        invariant forall k :: i <= k < n ==> next[k] == Head(layout, From(k + 1, n)) && isFree[k]
      {
        i := i - 1;
        next := next[i := head];
        isFree := isFree[i := true];
        head := Slot(layout, i);
      }
      p := Page(head, next, isFree, 0);
      FromRest(n);
    }

    /** `pick_alloc_page`; `spare` is the page that memory has to offer, if any. */
    method PickPage(spare: Option<nat>) returns (page: Option<nat>)
      requires Sized(layout) && (spare.Some? ==> spare.value !in pages && spare.value % PAGE_SIZE == 0)
      modifies this`pages, this`chains, this`partial, this`totalObjects
      ensures page.None? <==> old(partial) == [] && spare.None?
      ensures page.None? ==> Now() == old(Now())
      ensures page.Some? ==> Picked(layout, old(Now()), Now(), page.value)
    {
      if partial == [] {
        if spare.None? {
          return None;
        }
        var p := CreatePage();
        pages := pages[spare.value := p];
        chains := chains[spare.value := From(0, layout.capacity)];
        partial := [spare.value] + partial;
        totalObjects := totalObjects + layout.capacity;
      }
      return Some(partial[0]);
    }

    /** `slab_alloc`: the slot `o`, which nobody uses. */
    method Alloc(spare: Option<nat>) returns (ptr: Option<nat>, ghost o: Object)
      requires Valid() && (spare.Some? ==> spare.value !in pages && spare.value % PAGE_SIZE == 0)
      modifies this
      ensures Valid()
      ensures ptr.None? <==> old(partial) == [] && spare.None?
      ensures ptr.None? ==> Now() == old(Now())
      ensures ptr.Some? ==> o !in old(objects) && objects == old(objects) + {o} && ptr.value == Payload(layout, o)
    {
      o := (0, 0);
      ghost var before := Now();
      var page := PickPage(spare);
      if page.None? {
        return None, o;
      }
      AllocGood(layout, before, Now(), page.value);
      var at;
      at, o := TakeSlot(page.value);
      ptr := Some(at);
    }

    /** The rest of `slab_alloc`, in a page with a free slot. */
    method TakeSlot(a: nat) returns (ptr: nat, ghost o: Object)
      requires Sized(layout) && HasSlot(layout, Now(), a)
      modifies this`pages, this`chains, this`partial, this`objects, this`inuseObjects
      ensures Now() == TakenFrom(layout, old(Now()), a)
      ensures o == (a, old(chains)[a][0]) && ptr == Payload(layout, o)
    {
      var hdr := pages[a].freeHead;
      var i := IndexOf(hdr, chains[a]);
      var p := Popped(pages[a], i);
      o := (a, i);
      pages, chains := pages[a := p], chains[a := chains[a][1..]];
      objects, inuseObjects := objects + {o}, inuseObjects + 1;
      partial := if p.freeHead == 0 then Without(partial, a) else partial;
      ptr := a + hdr + layout.payloadOffset;
    }

    /** `slab_free` of slot `i` of the page at `a`, given the address of its payload. */
    method Free(ptr: nat, ghost a: nat, ghost i: nat)
      requires Valid() && (a, i) in objects && ptr == Payload(layout, (a, i))
      modifies this
      ensures Valid() && objects == old(objects) - {(a, i)}
    {
      var page, idx := Locate(ptr, a, i);
      ObjectHeld(layout, Now(), a, i);
      FreeLinked(layout, Now(), a, i);
      FreeCounted(layout, Now(), a, i);
      PutBackCounted(layout, Now(), a, i);
      PutBack(page, idx);
      if pages[page].inuse == 0 {
        DropPage(page);
      }
    }

    /** The slot becomes the first free one of its page; a page that was full enters the list. */
    method PutBack(a: nat, i: nat)
      requires HoldsObject(layout, Now(), a, i)
      modifies this`pages, this`chains, this`partial, this`objects, this`inuseObjects
      ensures Now() == PutBackIn(layout, old(Now()), a, i)
    {
      var p, wasFull := Pushed(pages[a], i, Slot(layout, i)), pages[a].freeHead == 0;
      pages, chains := pages[a := p], chains[a := [i] + chains[a]];
      objects, inuseObjects := objects - {(a, i)}, inuseObjects - 1;
      partial := if wasFull then [a] + partial else partial;
    }

    /** `destroy_slab_page` */
    method DropPage(a: nat)
      requires totalObjects >= layout.capacity
      modifies this`pages, this`chains, this`partial, this`totalObjects
      ensures Now() == DroppedFrom(layout, old(Now()), a)
    {
      partial := Without(partial, a);
      pages, chains := pages - {a}, chains - {a};
      totalObjects := totalObjects - layout.capacity;
    }

    /** Page and slot from the address of the payload, with the checks of `slab_free`. */
    method Locate(ptr: nat, ghost a: nat, ghost i: nat) returns (page: nat, idx: nat)
      requires Sized(layout) && Linked(layout, Now()) && (a, i) in objects && ptr == Payload(layout, (a, i))
      ensures page == a && idx == i
    {
      UsedSlot(layout, pages, chains, partial, objects, a, i);
      SlotInPage(layout, i);
      var hdr := ptr - layout.payloadOffset;
      page := hdr / PAGE_SIZE * PAGE_SIZE;
      DivMod(a, PAGE_SIZE);
      DivUnique(hdr, PAGE_SIZE, a / PAGE_SIZE, Slot(layout, i));
      var delta := hdr - page - layout.slotOffset;
      DivUnique(delta, layout.stride, i, 0);
      idx := delta / layout.stride;
    }

    /** The slot at an offset of the page. */
    method IndexOf(hdr: nat, ghost chain: seq<nat>) returns (i: nat)
      requires Sized(layout) && chain != [] && hdr == Slot(layout, chain[0])
      ensures i == chain[0]
    {
      i := (hdr - layout.slotOffset) / layout.stride;
      DivUnique(chain[0] * layout.stride, layout.stride, chain[0], 0);
    }
  }
}
