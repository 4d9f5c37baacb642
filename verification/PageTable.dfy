/** Translations as a map from virtual addresses to physical addresses and flags. */
module PageSpace {
  import opened Division

  const PAGE_SIZE: nat := 4096
  const HUGE_PAGE_SIZE: nat := 0x20_0000
  const SPACE: nat := 0x1_0000_0000_0000        // 2^48: translation looks at the low 48 bits
  const PHYSICAL: nat := 0x10_0000_0000_0000    // 2^52: the address bits of an entry

  type Space = imap<nat, (nat, nat)>

  /** How far `x` lies behind `va`, going round the address space. */
  function Behind(x: nat, va: nat): nat {
    (x - va) % SPACE
  }

  /** The first `len` bytes from `va` on are mapped to `pa`. */
  ghost function Fill(m: Space, va: nat, pa: nat, flags: nat, len: nat): Space {
    imap x: nat | x in m || (x < SPACE && Behind(x, va) < len) ::
      if x < SPACE && Behind(x, va) < len then ((pa + Behind(x, va)) % PHYSICAL, flags) else m[x]
  }

  /** One page at `o`. */
  ghost function PutPage(m: Space, o: nat, size: nat, pa: nat, flags: nat): Space {
    imap x: nat | x in m || o <= x < o + size :: if o <= x < o + size then (pa + (x - o), flags) else m[x]
  }

  /** An aligned page does not go round the end of the (virtual or physical) space. */
  lemma AlignedInSpace(y: nat, size: nat, space: nat, d: nat)
    requires (size == PAGE_SIZE || size == HUGE_PAGE_SIZE) && (space == SPACE || space == PHYSICAL)
    requires y % size == 0 && d < size
    ensures (y % space) % size == 0 && y % space + size <= space
    ensures (y + d) % space == y % space + d
  {
    AlignedMod(y, size, space, if space == SPACE then (if size == PAGE_SIZE then 0x10_0000_0000 else 0x800_0000)
                              else (if size == PAGE_SIZE then 0x100_0000_0000 else 0x8000_0000), d);
  }

  /** Distances round the address space, near `va + done`. */
  lemma BehindNear(va: nat, done: nat, size: nat, x: nat)
    requires done + size <= SPACE && x < SPACE && (va + done) % SPACE + size <= SPACE
    ensures var o := (va + done) % SPACE;
      && (o <= x < o + size <==> done <= Behind(x, va) < done + size)
      && (o <= x < o + size ==> x - o == Behind(x, va) - done)
  {
    var k, m := (x - va) / SPACE, (va + done) / SPACE;
    var b, o := Behind(x, va), (va + done) % SPACE;
    assert x - va == k * SPACE + b && va + done == m * SPACE + o;
    assert x - o == b - done + (k + m) * SPACE;
  }

  lemma RoundToStart(va: nat, done: nat, size: nat)
    requires (size == PAGE_SIZE || size == HUGE_PAGE_SIZE) && (va + done) % size == 0 && done <= SPACE < done + size
    ensures var o := (va + done) % SPACE;
      o % size == 0 && o <= va % SPACE < o + size && Behind(va % SPACE, va) == 0
  {
    AlignedInSpace(va + done, size, SPACE, SPACE - done);
    DivMod(va, SPACE);
    DivUnique(va + SPACE, SPACE, va / SPACE + 1, va % SPACE);
  }

  lemma OneMoreByte(va: nat, pa: nat, done: nat, size: nat, x: nat)
    requires (size == PAGE_SIZE || size == HUGE_PAGE_SIZE) && (va + done) % size == 0 && (pa + done) % size == 0
    requires done + size <= SPACE && x < SPACE
    ensures var o, b := (va + done) % SPACE, Behind(x, va);
      && (o <= x < o + size <==> done <= b < done + size)
      && (o <= x < o + size ==> (pa + done) % PHYSICAL + (x - o) == (pa + b) % PHYSICAL)
  {
    AlignedInSpace(va + done, size, SPACE, 0);
    BehindNear(va, done, size, x);
    var o := (va + done) % SPACE;
    if o <= x < o + size {
      AlignedInSpace(pa + done, size, PHYSICAL, x - o);
    }
  }

  /** Mapping the next page is mapping so much more. */
  lemma FillMore(m: Space, va: nat, pa: nat, flags: nat, done: nat, size: nat)
    requires (size == PAGE_SIZE || size == HUGE_PAGE_SIZE) && (va + done) % size == 0 && (pa + done) % size == 0
    requires done + size <= SPACE
    ensures PutPage(Fill(m, va, pa, flags, done), (va + done) % SPACE, size, (pa + done) % PHYSICAL, flags) ==
      Fill(m, va, pa, flags, done + size)
  {
    var l := PutPage(Fill(m, va, pa, flags, done), (va + done) % SPACE, size, (pa + done) % PHYSICAL, flags);
    var r := Fill(m, va, pa, flags, done + size);
    forall x: nat
      ensures (x in l <==> x in r) && (x in l ==> l[x] == r[x])
    {
      FillMoreAt(m, va, pa, flags, done, size, x);
    }
  }

  lemma FillMoreAt(m: Space, va: nat, pa: nat, flags: nat, done: nat, size: nat, x: nat)
    requires (size == PAGE_SIZE || size == HUGE_PAGE_SIZE) && (va + done) % size == 0 && (pa + done) % size == 0
    requires done + size <= SPACE
    ensures var l, r := PutPage(Fill(m, va, pa, flags, done), (va + done) % SPACE, size, (pa + done) % PHYSICAL, flags),
      Fill(m, va, pa, flags, done + size);
      (x in l <==> x in r) && (x in l ==> l[x] == r[x])
  {
    AlignedInSpace(va + done, size, SPACE, 0);
    if x < SPACE {
      OneMoreByte(va, pa, done, size, x);
    }
    FillStep(m, va, pa, flags, done, size, (va + done) % SPACE, (pa + done) % PHYSICAL, x);
  }

  lemma FillStep(m: Space, va: nat, pa: nat, flags: nat, done: nat, size: nat, o: nat, p: nat, x: nat)
    requires o + size <= SPACE
    requires x < SPACE ==> (o <= x < o + size <==> done <= Behind(x, va) < done + size)
    requires o <= x < o + size ==> p + (x - o) == (pa + Behind(x, va)) % PHYSICAL
    ensures var l, r := PutPage(Fill(m, va, pa, flags, done), o, size, p, flags), Fill(m, va, pa, flags, done + size);
      (x in l <==> x in r) && (x in l ==> l[x] == r[x])
  {
    FillAt(m, va, pa, flags, done, x);
    FillAt(m, va, pa, flags, done + size, x);
    PutAt(Fill(m, va, pa, flags, done), o, size, p, flags, x);
  }

  lemma PutAt(m: Space, o: nat, size: nat, pa: nat, flags: nat, x: nat)
    ensures var m' := PutPage(m, o, size, pa, flags);
      && (x in m' <==> x in m || o <= x < o + size)
      && (o <= x < o + size ==> m'[x] == (pa + (x - o), flags)) && (x in m && !(o <= x < o + size) ==> m'[x] == m[x])
  {}

  lemma FillAt(m: Space, va: nat, pa: nat, flags: nat, len: nat, x: nat)
    ensures var m' := Fill(m, va, pa, flags, len);
      && (x in m' <==> x in m || (x < SPACE && Behind(x, va) < len))
      && (x < SPACE && Behind(x, va) < len ==> m'[x] == ((pa + Behind(x, va)) % PHYSICAL, flags))
      && (x in m && !(x < SPACE && Behind(x, va) < len) ==> m'[x] == m[x])
  {}

  lemma FillNothing(m: Space, va: nat, pa: nat, flags: nat)
    ensures Fill(m, va, pa, flags, 0) == m
  {}
}

/**
 The page tables of kernel/platform/pc-x64/src/mm/pagetable.c: four levels of 512 entries
 (section 4.5 of Intel SDM Volume 3A), with pages of 4 KiB and 2 MiB.  A table is the value
 of its entries; `level` says how much an entry covers.
 */
module PageTable {
  import opened Wrappers
  import opened Division
  import opened PageSpace

  /** The level of the root, which covers the whole space. */
  const ROOT: nat := 5

  datatype Node = Absent | Page(pa: nat, flags: nat) | Table(entries: seq<Node>, flags: nat)

  /** What one entry of a level covers: a page of 4 KiB at level 1; level 5 is the root. */
  function Size(level: nat): (r: nat)
    requires 1 <= level <= 5
  {
    match level
    case 1 => PAGE_SIZE
    case 2 => HUGE_PAGE_SIZE
    case 3 => 0x4000_0000
    case 4 => 0x80_0000_0000
    case _ => SPACE
  }

  /** Tables have 512 entries; pages are aligned and no larger than 2 MiB. */
  ghost predicate Wf(n: Node, level: nat)
    requires 1 <= level <= 5
    decreases level, n
  {
    match n
    case Absent => true
    case Page(pa, _) => level <= 2 && pa % Size(level) == 0 && pa + Size(level) <= PHYSICAL
    case Table(es, _) => level >= 2 && |es| == 512 && forall i :: 0 <= i < 512 ==> Wf(es[i], level - 1)
  }

  /** The physical address and flags at offset `x` of what the entry `n` covers. */
  function Translate(n: Node, level: nat, x: nat): Option<(nat, nat)>
    requires 1 <= level <= 5 && x < Size(level) && Wf(n, level)
    decreases level, n
  {
    match n
    case Absent => None
    case Page(pa, flags) => Some((pa + x, flags))
    case Table(es, _) => Translate(es[x / Size(level - 1)], level - 1, x % Size(level - 1))
  }

  ghost predicate SameTranslation(n: Node, n': Node, level: nat)
    requires 1 <= level <= 5 && Wf(n, level) && Wf(n', level)
  {
    forall x :: 0 <= x < Size(level) ==> Translate(n', level, x) == Translate(n, level, x)
  }

  // ---------------------------------------------------------------- expanding a huge page

  /** `expand_hugepage`; `memory` says whether a page for the table is to be had. */
  method ExpandHugepage(n: Node, memory: bool) returns (n': Node, ok: bool)
    requires n.Page? && Wf(n, 2)
    ensures ok == memory && (!ok ==> n' == n)
    ensures Wf(n', 2) && SameTranslation(n, n', 2)
    ensures ok ==>
      n'.Table? && n'.flags == n.flags
        && forall i :: 0 <= i < 512 ==> n'.entries[i].Page? && n'.entries[i].flags == n.flags
  {
    if !memory {
      return n, false;
    }
    var pa, entries := n.pa, [];
    for i := 0 to 512
      invariant |entries| == i && pa == n.pa + i * PAGE_SIZE
      invariant forall j :: 0 <= j < i ==> entries[j] == Page(n.pa + j * PAGE_SIZE, n.flags)
    {
      entries := entries + [Page(pa, n.flags)];
      pa := pa + PAGE_SIZE;
    }
    n', ok := Table(entries, n.flags), true;
    ExpandedTranslates(n, entries);
  }

  lemma ExpandedTranslates(n: Node, entries: seq<Node>)
    requires n.Page? && Wf(n, 2) && |entries| == 512
    requires forall j :: 0 <= j < 512 ==> entries[j] == Page(n.pa + j * PAGE_SIZE, n.flags)
    ensures Wf(Table(entries, n.flags), 2) && SameTranslation(n, Table(entries, n.flags), 2)
  {
    var n' := Table(entries, n.flags);
    forall j | 0 <= j < 512
      ensures Wf(entries[j], 1)
    {
      SmallPage(n.pa, j);
    }
    forall x | 0 <= x < Size(2)
      ensures Translate(n', 2, x) == Translate(n, 2, x)
    {
      DivMod(x, PAGE_SIZE);
      DivBelow(x, 512, PAGE_SIZE);
      assert entries[x / PAGE_SIZE] == Page(n.pa + x / PAGE_SIZE * PAGE_SIZE, n.flags);
    }
  }

  lemma SmallPage(pa: nat, j: nat)
    requires pa % HUGE_PAGE_SIZE == 0 && pa + HUGE_PAGE_SIZE <= PHYSICAL && j < 512
    ensures (pa + j * PAGE_SIZE) % PAGE_SIZE == 0 && pa + j * PAGE_SIZE + PAGE_SIZE <= PHYSICAL
  {
    DivSplit(pa, HUGE_PAGE_SIZE, PAGE_SIZE, 512);
    AddMultiple(pa, PAGE_SIZE, j);
  }

  /** The flags of the entry of a new table: present, writable, and those of the page. */
  function TableFlags(flags: nat): nat {
    flags + (if flags % 2 == 0 then 1 else 0) + (if flags / 2 % 2 == 0 then 2 else 0)
  }

  function NewTable(flags: nat): Node {
    Table(seq(512, _ => Absent), TableFlags(flags))
  }

  /** `get_or_alloc_table`: the entry becomes a table. `free` counts the pages left. */
  method GetOrAllocTable(n: Node, level: nat, flags: nat, free: nat) returns (n': Node, ok: bool, free': nat)
    requires 2 <= level <= 4 && Wf(n, level)
    ensures Wf(n', level) && SameTranslation(n, n', level) && (ok ==> n'.Table?)
    ensures ok <==> n.Table? || free > 0
    ensures free' == if n.Table? || free == 0 then free else free - 1
    ensures n.Absent? && ok ==> n' == NewTable(flags)
    ensures n.Absent? && ok ==> n'.flags % 2 == 1 && n'.flags / 2 % 2 == 1 && n'.flags / 4 == flags / 4
    ensures n.Table? ==> n' == n
    ensures n.Page? && ok ==>
      n'.flags == n.flags && forall i :: 0 <= i < 512 ==> n'.entries[i].Page? && n'.entries[i].flags == n.flags
    ensures !ok ==> n' == n
    ensures TablesIn(n') + free' == TablesIn(n) + free
  {
    free' := if n.Table? || free == 0 then free else free - 1;
    match n
    case Table(_, _) => return n, true, free';
    case Page(_, _) =>
      n', ok := ExpandHugepage(n, free > 0);
      if ok {
        NoTables(n'.entries);
      }
    case Absent =>
      TableFlagsAbove(flags);
      if free == 0 {
        return n, false, free';
      }
      NoTables(NewTable(flags).entries);
      return NewTable(flags), true, free';
  }

  // ---------------------------------------------------------------- mapping one page

  /** A page of level `leaf` lies in one entry on the way to it. */
  lemma PageInEntry(level: nat, leaf: nat, o: nat, x: nat)
    requires 1 <= leaf <= 2 && leaf < level <= 5 && x < Size(level) && o < Size(level) && o % Size(leaf) == 0
    ensures var s, t := Size(level - 1), Size(leaf);
      && x / s < 512 && o / s < 512 && (o % s) % t == 0
      && (o <= x < o + t <==> x / s == o / s && o % s <= x % s < o % s + t)
      && (o <= x < o + t ==> x % s - o % s == x - o)
  {
    var s := Size(level - 1);
    BlockInside(s, Size(leaf), Ratio(level - 1, leaf), o, x);
    DivBelow(x, 512, s);
    DivBelow(o, 512, s);
  }

  /** How many pages of level `leaf` an entry of a level covers. */
  function Ratio(level: nat, leaf: nat): (k: nat)
    requires 1 <= leaf <= 2 && leaf <= level <= 4
    ensures k > 0 && k * Size(leaf) == Size(level)
  {
    match level - leaf
    case 0 => 1
    case 1 => 512
    case 2 => 0x4_0000
    case _ => 0x800_0000
  }

  /** The entry of level `leaf` for offset `o` is in use. */
  ghost predicate Occupied(n: Node, level: nat, o: nat, leaf: nat)
    requires 1 <= leaf <= level <= 5 && o < Size(level) && Wf(n, level)
    decreases level, n
  {
    if level == leaf then !n.Absent?
    else
      match n
      case Absent => false
      case Page(_, _) => true
      case Table(es, _) => Occupied(es[o / Size(level - 1)], level - 1, o % Size(level - 1), leaf)
  }

  /** How many tables have to be made on the way to the page at `o`; a page of 2 MiB on the way
      has to be expanded into one. */
  function Missing(n: Node, level: nat, o: nat, leaf: nat): nat
    requires 1 <= leaf <= level <= 5 && o < Size(level) && Wf(n, level)
    decreases level, n
  {
    if level == leaf then 0
    else
      match n
      case Absent => level - leaf
      case Page(_, _) => 1
      case Table(es, _) => Missing(es[o / Size(level - 1)], level - 1, o % Size(level - 1), leaf)
  }

  /** The entry with `page` at `o`, which is not in use, and the tables on the way to it. */
  function Inserted(n: Node, level: nat, o: nat, leaf: nat, page: Node, flags: nat): Node
    requires 1 <= leaf <= level <= 5 && o < Size(level) && Wf(n, level)
    decreases level, n
  {
    if level == leaf then page
    else
      var i, q := o / Size(level - 1), o % Size(level - 1);
      match n
      case Page(_, _) => n
      case Absent =>
        Table(seq(512, j => if j == i then Inserted(Absent, level - 1, q, leaf, page, flags) else Absent),
              TableFlags(flags))
      case Table(es, f) => Table(es[i := Inserted(es[i], level - 1, q, leaf, page, flags)], f)
  }

  /** The number of tables. */
  function TablesIn(n: Node): nat {
    match n
    case Table(es, _) => 1 + TablesOf(es)
    case _ => 0
  }

  function TablesOf(es: seq<Node>): nat {
    if es == [] then 0 else TablesIn(es[0]) + TablesOf(es[1..])
  }

  lemma {:induction false} TablesChanged(es: seq<Node>, i: nat, e: Node)
    requires i < |es|
    ensures TablesOf(es[i := e]) + TablesIn(es[i]) == TablesOf(es) + TablesIn(e)
  {
    if i == 0 {
      assert es[0 := e][1..] == es[1..];
    } else {
      TablesChanged(es[1..], i - 1, e);
      assert es[i := e][1..] == es[1..][i - 1 := e];
    }
  }

  lemma {:induction false} NoTables(es: seq<Node>)
    requires forall i :: 0 <= i < |es| ==> !es[i].Table?
    ensures TablesOf(es) == 0
  {
    if es != [] {
      NoTables(es[1..]);
    }
  }

  // ---------------------------------------------------------------- access rights

  datatype Right = Write | User | Execute

  /** The flags of one entry grant a right. */
  predicate Grants(flags: nat, right: Right) {
    match right
    case Write => flags / 2 % 2 == 1
    case User => flags / 4 % 2 == 1
    case Execute => flags / 0x8000_0000_0000_0000 % 2 == 0
  }

  /** The root has no entry of its own. */
  predicate Through(n: Node, level: nat, right: Right) {
    level == ROOT || (n.Table? && Grants(n.flags, right))
  }

  /** All entries on the way to offset `x` grant the right. */
  predicate Allows(n: Node, level: nat, x: nat, right: Right)
    requires 1 <= level <= 5 && x < Size(level) && Wf(n, level)
    decreases level, n
  {
    match n
    case Absent => false
    case Page(_, flags) => Grants(flags, right)
    case Table(es, _) =>
      Through(n, level, right) && Allows(es[x / Size(level - 1)], level - 1, x % Size(level - 1), right)
  }

  /** The tables that are there on the way to the page at `o` grant the right. */
  predicate WayGrants(n: Node, level: nat, o: nat, leaf: nat, right: Right)
    requires 1 <= leaf <= level <= 5 && o < Size(level) && Wf(n, level)
    decreases level, n
  {
    level == leaf || !n.Table? ||
    (Through(n, level, right) && WayGrants(n.entries[o / Size(level - 1)], level - 1, o % Size(level - 1), leaf, right))
  }

  predicate PageGrants(page: Node, right: Right) {
    page.Page? && Grants(page.flags, right)
  }

  /** The new page has a right if its flags and the tables that were there grant it; nothing
      else has changed. */
  ghost predicate RightsMapped(n: Node, n': Node, level: nat, o: nat, leaf: nat, page: Node, right: Right)
    requires 1 <= leaf <= level <= 5 && o < Size(level) && Wf(n, level) && Wf(n', level)
  {
    forall x :: 0 <= x < Size(level) ==>
      Allows(n', level, x, right) ==
        if o <= x < o + Size(leaf) then WayGrants(n, level, o, leaf, right) && PageGrants(page, right)
        else Allows(n, level, x, right)
  }

  ghost predicate SameRights(n: Node, n': Node, level: nat, right: Right)
    requires 1 <= level <= 5 && Wf(n, level) && Wf(n', level)
  {
    forall x :: 0 <= x < Size(level) ==> Allows(n', level, x, right) == Allows(n, level, x, right)
  }

  lemma TableGrants(flags: nat, right: Right)
    ensures Grants(flags, right) ==> Grants(TableFlags(flags), right)
  {
    TableFlagsAbove(flags);
    match right
    case Write =>
    case User =>
    case Execute => HighBit(flags / 4, flags);
      HighBit(flags / 4, TableFlags(flags));
  }

  lemma TableFlagsAbove(flags: nat)
    ensures TableFlags(flags) / 4 == flags / 4 && TableFlags(flags) / 2 % 2 == 1 && TableFlags(flags) % 2 == 1
  {}

  lemma HighBit(q: nat, flags: nat)
    requires q == flags / 4
    ensures flags / 0x8000_0000_0000_0000 == q / 0x2000_0000_0000_0000
  {}

  lemma AllowsTable(n: Node, level: nat, x: nat, right: Right)
    requires 2 <= level <= 5 && x < Size(level) && Wf(n, level) && n.Table?
    ensures x / Size(level - 1) < 512
    ensures Allows(n, level, x, right) ==
      (Through(n, level, right) && Allows(n.entries[x / Size(level - 1)], level - 1, x % Size(level - 1), right))
  {
    DivBelow(x, 512, Size(level - 1));
  }

  /** Making the entry a table changes no right, ... */
  lemma ExpandedRights(n: Node, n1: Node, level: nat, right: Right)
    requires 2 <= level <= 4 && Wf(n, level) && Wf(n1, level) && n1.Table?
    requires n.Table? ==> n1 == n
    requires n.Absent? ==> forall i :: 0 <= i < 512 ==> n1.entries[i] == Absent
    requires n.Page? ==>
      n1.flags == n.flags && forall i :: 0 <= i < 512 ==> n1.entries[i].Page? && n1.entries[i].flags == n.flags
    ensures SameRights(n, n1, level, right)
  {
    forall x | 0 <= x < Size(level)
      ensures Allows(n1, level, x, right) == Allows(n, level, x, right)
    {
      AllowsTable(n1, level, x, right);
    }
  }

  /** ... nor whether a page whose flags grant it can have it. */
  lemma ExpandedWay(n: Node, n1: Node, level: nat, o: nat, leaf: nat, page: Node, flags: nat, right: Right)
    requires 1 <= leaf <= 2 && leaf < level <= 4 && o < Size(level) && Wf(n, level) && Wf(n1, level) && n1.Table?
    requires n.Table? ==> n1 == n
    requires n.Absent? ==> n1.flags == TableFlags(flags) && forall i :: 0 <= i < 512 ==> n1.entries[i] == Absent
    requires !n.Page? && (page.Page? ==> page.flags == flags)
    ensures WayGrants(n1, level, o, leaf, right) && PageGrants(page, right) <==>
      WayGrants(n, level, o, leaf, right) && PageGrants(page, right)
  {
    DivBelow(o, 512, Size(level - 1));
    TableGrants(flags, right);
  }

  lemma RightsComposed(n: Node, n1: Node, n': Node, level: nat, o: nat, leaf: nat, page: Node, right: Right)
    requires 1 <= leaf <= level <= 5 && o < Size(level) && Wf(n, level) && Wf(n1, level) && Wf(n', level)
    requires SameRights(n, n1, level, right)
    ensures SameRights(n1, n', level, right) ==> SameRights(n, n', level, right)
    ensures RightsMapped(n1, n', level, o, leaf, page, right)
      && (WayGrants(n1, level, o, leaf, right) && PageGrants(page, right) <==>
          WayGrants(n, level, o, leaf, right) && PageGrants(page, right))
      ==> RightsMapped(n, n', level, o, leaf, page, right)
  {}

  lemma RightsInEntry(n: Node, n': Node, level: nat, o: nat, leaf: nat, page: Node, right: Right, i: nat, q: nat)
    requires 1 <= leaf <= 2 && leaf < level <= 5 && o < Size(level) && o % Size(leaf) == 0 && Wf(n, level) && n.Table?
    requires Wf(n', level) && n'.Table? && n'.flags == n.flags && i == o / Size(level - 1) && i < 512
    requires q == o % Size(level - 1)
    requires forall j :: 0 <= j < 512 && j != i ==> n'.entries[j] == n.entries[j]
    requires RightsMapped(n.entries[i], n'.entries[i], level - 1, q, leaf, page, right)
    ensures RightsMapped(n, n', level, o, leaf, page, right)
  {
    forall x | 0 <= x < Size(level)
      ensures Allows(n', level, x, right) ==
        if o <= x < o + Size(leaf) then WayGrants(n, level, o, leaf, right) && PageGrants(page, right)
        else Allows(n, level, x, right)
    {
      RightsAt(n, n', level, o, leaf, page, right, x, i, q);
    }
  }

  lemma RightsAt(n: Node, n': Node, level: nat, o: nat, leaf: nat, page: Node, right: Right, x: nat, i: nat, q: nat)
    requires 1 <= leaf <= 2 && leaf < level <= 5 && o < Size(level) && o % Size(leaf) == 0 && Wf(n, level) && n.Table?
    requires x < Size(level)
    requires Wf(n', level) && n'.Table? && n'.flags == n.flags && i == o / Size(level - 1) && i < 512
    requires q == o % Size(level - 1)
    requires forall j :: 0 <= j < 512 && j != i ==> n'.entries[j] == n.entries[j]
    requires RightsMapped(n.entries[i], n'.entries[i], level - 1, q, leaf, page, right)
    ensures Allows(n', level, x, right) ==
      if o <= x < o + Size(leaf) then WayGrants(n, level, o, leaf, right) && PageGrants(page, right)
      else Allows(n, level, x, right)
  {
    PageInEntry(level, leaf, o, x);
    WayTable(n, level, o, leaf, right);
    AllowsTable(n', level, x, right);
    AllowsTable(n, level, x, right);
    RightsAtOffset(n, n', level, o, leaf, page, right, x, i, q, x / Size(level - 1), x % Size(level - 1));
  }

  lemma WayTable(n: Node, level: nat, o: nat, leaf: nat, right: Right)
    requires 1 <= leaf < level <= 5 && o < Size(level) && Wf(n, level) && n.Table?
    ensures o / Size(level - 1) < 512
    ensures WayGrants(n, level, o, leaf, right) ==
      (Through(n, level, right)
        && WayGrants(n.entries[o / Size(level - 1)], level - 1, o % Size(level - 1), leaf, right))
  {
    DivBelow(o, 512, Size(level - 1));
  }

  lemma RightsAtOffset(n: Node, n': Node, level: nat, o: nat, leaf: nat, page: Node, right: Right, x: nat, i: nat,
                       q: nat, j: nat, r: nat)
    requires 1 <= leaf <= 2 && leaf < level <= 5 && o < Size(level) && Wf(n, level) && n.Table? && x < Size(level)
    requires Wf(n', level) && n'.Table? && n'.flags == n.flags && i < 512 && j < 512 && q < Size(level - 1)
    requires r < Size(level - 1)
    requires j != i ==> n'.entries[j] == n.entries[j]
    requires RightsMapped(n.entries[i], n'.entries[i], level - 1, q, leaf, page, right)
    requires o <= x < o + Size(leaf) <==> j == i && q <= r < q + Size(leaf)
    requires WayGrants(n, level, o, leaf, right) ==
      (Through(n, level, right) && WayGrants(n.entries[i], level - 1, q, leaf, right))
    requires Allows(n', level, x, right) == (Through(n', level, right) && Allows(n'.entries[j], level - 1, r, right))
    requires Allows(n, level, x, right) == (Through(n, level, right) && Allows(n.entries[j], level - 1, r, right))
    ensures Allows(n', level, x, right) ==
      if o <= x < o + Size(leaf) then WayGrants(n, level, o, leaf, right) && PageGrants(page, right)
      else Allows(n, level, x, right)
  {
    RightsBelow(n.entries[j], n'.entries[j], j == i, level - 1, q, r, o, x, leaf, page, right);
  }

  lemma RightsBelow(a: Node, a': Node, here: bool, level: nat, q: nat, r: nat, o: nat, x: nat, leaf: nat, page: Node,
                    right: Right)
    requires 1 <= leaf <= 2 && leaf <= level <= 4 && Wf(a, level) && Wf(a', level) && q < Size(level) && r < Size(level)
    requires if here then RightsMapped(a, a', level, q, leaf, page, right) else a' == a
    requires o <= x < o + Size(leaf) <==> here && q <= r < q + Size(leaf)
    ensures Allows(a', level, r, right) ==
      if o <= x < o + Size(leaf) then WayGrants(a, level, q, leaf, right) && PageGrants(page, right)
      else Allows(a, level, r, right)
  {}

  lemma SameRightsInEntry(n: Node, n': Node, level: nat, i: nat, right: Right)
    requires 2 <= level <= 5 && Wf(n, level) && n.Table? && Wf(n', level) && n'.Table? && n'.flags == n.flags && i < 512
    requires forall j :: 0 <= j < 512 && j != i ==> n'.entries[j] == n.entries[j]
    requires SameRights(n.entries[i], n'.entries[i], level - 1, right)
    ensures SameRights(n, n', level, right)
  {
    forall x | 0 <= x < Size(level)
      ensures Allows(n', level, x, right) == Allows(n, level, x, right)
    {
      AllowsTable(n', level, x, right);
      AllowsTable(n, level, x, right);
    }
  }

  lemma RightsAtLeaf(leaf: nat, o: nat, page: Node, right: Right)
    requires 1 <= leaf <= 2 && o < Size(leaf) && o % Size(leaf) == 0 && !page.Table? && Wf(page, leaf)
    ensures RightsMapped(Absent, page, leaf, o, leaf, page, right)
  {
    DivUnique(o, Size(leaf), 0, o);
  }

  // ---------------------------------------------------------------- mapping one page, from some level down

  /** `map_4k` (`leaf` 1) and `map_2m` (`leaf` 2), from an entry of some level down. */
  method MapPage(n: Node, level: nat, o: nat, leaf: nat, page: Node, flags: nat, free: nat)
    returns (n': Node, ok: bool, free': nat)
    requires 1 <= leaf <= 2 && leaf <= level <= 4 && o < Size(level) && o % Size(leaf) == 0 && Wf(n, level)
    requires !page.Table? && Wf(page, leaf) && (page.Page? ==> page.flags == flags)
    ensures Wf(n', level)
    ensures ok <==> !Occupied(n, level, o, leaf) && Missing(n, level, o, leaf) <= free
    ensures free' == (if Missing(n, level, o, leaf) <= free then free - Missing(n, level, o, leaf) else 0)
    ensures TablesIn(n') + free' == TablesIn(n) + free
    ensures !ok ==> SameTranslation(n, n', level)
    ensures ok ==> n' == Inserted(n, level, o, leaf, page, flags) && Mapped(n, n', level, o, leaf, page)
    ensures forall right :: if ok then RightsMapped(n, n', level, o, leaf, page, right)
                            else SameRights(n, n', level, right)
    decreases level, 0
  {
    if level == leaf {
      if !n.Absent? {
        return n, false, free;
      }
      MappedAtLeaf(leaf, o, page);
      forall right
        ensures RightsMapped(n, page, level, o, leaf, page, right)
      {
        RightsAtLeaf(leaf, o, page, right);
      }
      return page, true, free;
    }
    var n1;
    n1, ok, free' := GetOrAllocTable(n, level, flags, free);
    if !ok {
      return n1, ok, free';
    }
    StillOccupied(n, n1, level, o, leaf);
    OpenedWay(n, n1, level, o, leaf, page, flags);
    n', ok, free' := MapInTable(n1, level, o, leaf, page, flags, free');
    Unchanged(n, n1, n', level, o, leaf, page);
    forall right
      ensures if ok then RightsMapped(n, n', level, o, leaf, page, right) else SameRights(n, n', level, right)
    {
      RightsThroughTable(n, n1, n', level, o, leaf, page, flags, ok, right);
    }
  }

  /** One table less is missing, and the result is the same. */
  lemma OpenedWay(n: Node, n1: Node, level: nat, o: nat, leaf: nat, page: Node, flags: nat)
    requires 1 <= leaf <= 2 && leaf < level <= 4 && o < Size(level) && Wf(n, level) && Wf(n1, level) && n1.Table?
    requires n.Table? ==> n1 == n
    requires n.Absent? ==> n1 == NewTable(flags)
    requires n.Page? ==> forall i :: 0 <= i < 512 ==> n1.entries[i].Page?
    ensures Missing(n, level, o, leaf) == Missing(n1, level, o, leaf) + if n.Table? then 0 else 1
    ensures !n.Page? ==> Inserted(n1, level, o, leaf, page, flags) == Inserted(n, level, o, leaf, page, flags)
  {
    DivBelow(o, 512, Size(level - 1));
    var i := o / Size(level - 1);
    if n.Absent? {
      assert n1.entries[i] == Absent;
      assert Inserted(n1, level, o, leaf, page, flags).entries == Inserted(n, level, o, leaf, page, flags).entries;
    } else if n.Page? {
      assert n1.entries[i].Page?;
    }
  }

  lemma RightsThroughTable(n: Node, n1: Node, n': Node, level: nat, o: nat, leaf: nat, page: Node, flags: nat, ok: bool,
                           right: Right)
    requires 1 <= leaf <= 2 && leaf < level <= 4 && o < Size(level) && Wf(n, level) && Wf(n1, level) && Wf(n', level)
    requires n1.Table?
    requires n.Table? ==> n1 == n
    requires n.Absent? ==> n1.flags == TableFlags(flags) && forall i :: 0 <= i < 512 ==> n1.entries[i] == Absent
    requires n.Page? ==>
      n1.flags == n.flags && forall i :: 0 <= i < 512 ==> n1.entries[i].Page? && n1.entries[i].flags == n.flags
    requires (page.Page? ==> page.flags == flags) && (ok ==> !n.Page?)
    requires if ok then RightsMapped(n1, n', level, o, leaf, page, right) else SameRights(n1, n', level, right)
    ensures if ok then RightsMapped(n, n', level, o, leaf, page, right) else SameRights(n, n', level, right)
  {
    ExpandedRights(n, n1, level, right);
    if ok {
      ExpandedWay(n, n1, level, o, leaf, page, flags, right);
    }
    RightsComposed(n, n1, n', level, o, leaf, page, right);
  }

  lemma MappedAtLeaf(leaf: nat, o: nat, page: Node)
    requires 1 <= leaf <= 2 && o < Size(leaf) && o % Size(leaf) == 0 && !page.Table? && Wf(page, leaf)
    ensures Mapped(Absent, page, leaf, o, leaf, page)
  {
    DivUnique(o, Size(leaf), 0, o);
  }

  /** Making the entry a table does not change whether the page is in use. */
  lemma StillOccupied(n: Node, n1: Node, level: nat, o: nat, leaf: nat)
    requires 1 <= leaf <= 2 && leaf < level <= 4 && o < Size(level) && o % Size(leaf) == 0 && Wf(n, level)
    requires Wf(n1, level) && n1.Table?
    requires n.Table? ==> n1 == n
    requires n.Absent? ==> n1.Table? && forall i :: 0 <= i < 512 ==> n1.entries[i] == Absent
    requires n.Page? ==> forall i :: 0 <= i < 512 ==> n1.entries[i].Page?
    ensures Occupied(n1, level, o, leaf) == Occupied(n, level, o, leaf)
  {
    var i := o / Size(level - 1);
    DivBelow(o, 512, Size(level - 1));
    if n.Absent? {
      assert n1.entries[i] == Absent;
    } else if n.Page? {
      assert n1.entries[i].Page?;
    }
  }

  lemma Unchanged(n: Node, n1: Node, n': Node, level: nat, o: nat, leaf: nat, page: Node)
    requires 1 <= leaf <= level <= 5 && o < Size(level) && Wf(n, level) && Wf(n1, level) && Wf(n', level)
    requires Wf(page, leaf)
    requires SameTranslation(n, n1, level)
    ensures SameTranslation(n1, n', level) ==> SameTranslation(n, n', level)
    ensures Mapped(n1, n', level, o, leaf, page) ==> Mapped(n, n', level, o, leaf, page)
  {}

  /** The same below a table. */
  method MapInTable(n: Node, level: nat, o: nat, leaf: nat, page: Node, flags: nat, free: nat)
    returns (n': Node, ok: bool, free': nat)
    requires 1 <= leaf <= 2 && leaf < level <= 5 && o < Size(level) && o % Size(leaf) == 0 && Wf(n, level) && n.Table?
    requires !page.Table? && Wf(page, leaf) && (page.Page? ==> page.flags == flags)
    ensures Wf(n', level) && n'.Table?
    ensures ok <==> !Occupied(n, level, o, leaf) && Missing(n, level, o, leaf) <= free
    ensures free' == (if Missing(n, level, o, leaf) <= free then free - Missing(n, level, o, leaf) else 0)
    ensures TablesIn(n') + free' == TablesIn(n) + free
    ensures !ok ==> SameTranslation(n, n', level)
    ensures ok ==> n' == Inserted(n, level, o, leaf, page, flags) && Mapped(n, n', level, o, leaf, page)
    ensures forall right :: if ok then RightsMapped(n, n', level, o, leaf, page, right)
                            else SameRights(n, n', level, right)
    decreases level - 1, 1
  {
    var i := o / Size(level - 1);
    PageInEntry(level, leaf, o, o);
    var entry;
    entry, ok, free' := MapPage(n.entries[i], level - 1, o % Size(level - 1), leaf, page, flags, free);
    n' := Table(n.entries[i := entry], n.flags);
    TablesChanged(n.entries, i, entry);
    EntryChanged(n, n', level, level - 1, o, leaf, page, ok, i, o % Size(level - 1), entry);
  }

  /** What holds of the entry holds of the table with the new entry. */
  lemma EntryChanged(n: Node, n': Node, level: nat, below: nat, o: nat, leaf: nat, page: Node, ok: bool, i: nat, q: nat,
                     entry: Node)
    requires 1 <= leaf <= 2 && leaf < level <= 5 && o < Size(level) && o % Size(leaf) == 0 && Wf(n, level) && n.Table?
    requires below == level - 1 && i == o / Size(below) < 512 && q == o % Size(below) && Wf(entry, below)
    requires Wf(page, leaf) && n' == Table(n.entries[i := entry], n.flags)
    requires if ok then Mapped(n.entries[i], entry, below, q, leaf, page)
             else SameTranslation(n.entries[i], entry, below)
    requires forall right :: if ok then RightsMapped(n.entries[i], entry, below, q, leaf, page, right)
                             else SameRights(n.entries[i], entry, below, right)
    ensures Wf(n', level)
    ensures if ok then Mapped(n, n', level, o, leaf, page) else SameTranslation(n, n', level)
    ensures forall right :: if ok then RightsMapped(n, n', level, o, leaf, page, right)
                            else SameRights(n, n', level, right)
  {
    if ok {
      MappedInEntry(n, level, o, leaf, page, entry);
    } else {
      SameInEntry(n, level, i, entry);
    }
    EntryRights(n, n', level, below, o, leaf, page, ok, i, q, entry);
  }

  lemma EntryRights(n: Node, n': Node, level: nat, below: nat, o: nat, leaf: nat, page: Node, ok: bool, i: nat, q: nat,
                    entry: Node)
    requires below == level - 1
    requires 1 <= leaf <= 2 && leaf < level <= 5 && o < Size(level) && o % Size(leaf) == 0 && Wf(n, level) && n.Table?
    requires i == o / Size(below) < 512 && q == o % Size(below) && Wf(entry, below) && Wf(n', level)
    requires n' == Table(n.entries[i := entry], n.flags)
    requires forall right :: if ok then RightsMapped(n.entries[i], entry, below, q, leaf, page, right)
                             else SameRights(n.entries[i], entry, below, right)
    ensures forall right :: if ok then RightsMapped(n, n', level, o, leaf, page, right)
                            else SameRights(n, n', level, right)
  {
    forall right
      ensures if ok then RightsMapped(n, n', level, o, leaf, page, right) else SameRights(n, n', level, right)
    {
      EntryRight(n, n', level, o, leaf, page, ok, i, q, entry, right);
    }
  }

  lemma EntryRight(n: Node, n': Node, level: nat, o: nat, leaf: nat, page: Node, ok: bool, i: nat, q: nat, entry: Node,
                   right: Right)
    requires 1 <= leaf <= 2 && leaf < level <= 5 && o < Size(level) && o % Size(leaf) == 0 && Wf(n, level) && n.Table?
    requires i == o / Size(level - 1) < 512 && q == o % Size(level - 1) && Wf(entry, level - 1) && Wf(n', level)
    requires n' == Table(n.entries[i := entry], n.flags)
    requires if ok then RightsMapped(n.entries[i], entry, level - 1, q, leaf, page, right)
             else SameRights(n.entries[i], entry, level - 1, right)
    ensures if ok then RightsMapped(n, n', level, o, leaf, page, right) else SameRights(n, n', level, right)
  {
    assert n'.entries[i] == entry;
    if ok {
      RightsInEntry(n, n', level, o, leaf, page, right, i, q);
    } else {
      SameRightsInEntry(n, n', level, i, right);
    }
  }

  lemma MappedInEntry(n: Node, level: nat, o: nat, leaf: nat, page: Node, entry: Node)
    requires 1 <= leaf <= 2 && leaf < level <= 5 && o < Size(level) && o % Size(leaf) == 0 && Wf(n, level) && n.Table?
    requires Wf(page, leaf)
    requires o / Size(level - 1) < 512 && Wf(entry, level - 1)
    requires Mapped(n.entries[o / Size(level - 1)], entry, level - 1, o % Size(level - 1), leaf, page)
    ensures var n' := Table(n.entries[o / Size(level - 1) := entry], n.flags);
      Wf(n', level) && Mapped(n, n', level, o, leaf, page)
  {
    var n' := Table(n.entries[o / Size(level - 1) := entry], n.flags);
    forall x | 0 <= x < Size(level)
      ensures Translate(n', level, x) == if o <= x < o + Size(leaf) then Translate(page, leaf, x - o)
                                         else Translate(n, level, x)
    {
      MappedAtOffset(n, n', level, o, leaf, page, x);
    }
  }

  lemma MappedAtOffset(n: Node, n': Node, level: nat, o: nat, leaf: nat, page: Node, x: nat)
    requires 1 <= leaf <= 2 && leaf < level <= 5 && o < Size(level) && o % Size(leaf) == 0 && Wf(n, level) && n.Table?
    requires Wf(page, leaf)
    requires Wf(n', level) && n'.Table? && x < Size(level) && o / Size(level - 1) < 512
    requires forall j :: 0 <= j < 512 && j != o / Size(level - 1) ==> n'.entries[j] == n.entries[j]
    requires Mapped(n.entries[o / Size(level - 1)], n'.entries[o / Size(level - 1)], level - 1, o % Size(level - 1),
                    leaf, page)
    ensures Translate(n', level, x) == if o <= x < o + Size(leaf) then Translate(page, leaf, x - o)
                                       else Translate(n, level, x)
  {
    var i, j, q, r := o / Size(level - 1), x / Size(level - 1), o % Size(level - 1), x % Size(level - 1);
    TranslateTable(n', level, x);
    TranslateTable(n, level, x);
    PageInEntry(level, leaf, o, x);
    MappedBelow(n.entries[j], n'.entries[j], j == i, level - 1, q, r, o, x, leaf, page);
  }

  /** The same for the entry that `x` lies in, which is that of the page or another one. */
  lemma MappedBelow(a: Node, a': Node, here: bool, level: nat, q: nat, r: nat, o: nat, x: nat, leaf: nat, page: Node)
    requires 1 <= leaf <= 2 && leaf <= level <= 4 && Wf(a, level) && Wf(a', level) && Wf(page, leaf) && q < Size(level)
    requires r < Size(level)
    requires if here then Mapped(a, a', level, q, leaf, page) else a' == a
    requires o <= x < o + Size(leaf) <==> here && q <= r < q + Size(leaf)
    requires o <= x < o + Size(leaf) ==> r - q == x - o
    ensures Translate(a', level, r) == if o <= x < o + Size(leaf) then Translate(page, leaf, x - o)
                                       else Translate(a, level, r)
  {
    if here {
      MappedHere(a, a', level, q, leaf, page, r);
    }
  }

  lemma TranslateTable(n: Node, level: nat, x: nat)
    requires 2 <= level <= 5 && x < Size(level) && Wf(n, level) && n.Table?
    ensures x / Size(level - 1) < 512
    ensures Translate(n, level, x) == Translate(n.entries[x / Size(level - 1)], level - 1, x % Size(level - 1))
  {
    DivBelow(x, 512, Size(level - 1));
  }

  lemma MappedHere(n: Node, n': Node, level: nat, o: nat, leaf: nat, page: Node, x: nat)
    requires 1 <= leaf <= level <= 5 && o < Size(level) && Wf(n, level) && Wf(n', level) && Wf(page, leaf)
    requires x < Size(level)
    requires Mapped(n, n', level, o, leaf, page)
    ensures Translate(n', level, x) == if o <= x < o + Size(leaf) then Translate(page, leaf, x - o)
                                       else Translate(n, level, x)
  {}

  lemma SameInEntry(n: Node, level: nat, i: nat, entry: Node)
    requires 2 <= level <= 5 && Wf(n, level) && n.Table? && i < 512 && Wf(entry, level - 1)
    requires SameTranslation(n.entries[i], entry, level - 1)
    ensures Wf(Table(n.entries[i := entry], n.flags), level)
    ensures SameTranslation(n, Table(n.entries[i := entry], n.flags), level)
  {
    var n' := Table(n.entries[i := entry], n.flags);
    forall x | 0 <= x < Size(level)
      ensures Translate(n', level, x) == Translate(n, level, x)
    {
      DivBelow(x, 512, Size(level - 1));
    }
  }

  /** The page at `o` is `page` now; nothing else has changed. */
  ghost predicate Mapped(n: Node, n': Node, level: nat, o: nat, leaf: nat, page: Node)
    requires 1 <= leaf <= level <= 5 && o < Size(level) && Wf(n, level) && Wf(n', level) && Wf(page, leaf)
  {
    forall x :: 0 <= x < Size(level) ==>
      Translate(n', level, x) == if o <= x < o + Size(leaf) then Translate(page, leaf, x - o)
                                 else Translate(n, level, x)
  }

  // ---------------------------------------------------------------- mapping a range

  /** `PTE_FLAG_PRESENT` */
  predicate Present(flags: nat) {
    flags % 2 == 1
  }

  /** What the entry of a page becomes. */
  function EntryOf(pa: nat, flags: nat): Node {
    if Present(flags) then Page(pa, flags) else Absent
  }

  /** No address bits and not `PTE_FLAG_HUGE`, which the code would copy into tables too. */
  predicate FlagsOk(flags: nat) {
    flags / 0x80 % 2 == 0 && flags / 0x1000 % 0x100_0000_0000 == 0
  }

  /** The tree translates as the map `m` says. */
  ghost predicate Gives(root: Node, m: Space) {
    && Wf(root, ROOT) && root.Table?
    && forall x :: 0 <= x < SPACE ==> Translate(root, ROOT, x) == if x in m then Some(m[x]) else None
  }

  ghost function SpaceOf(root: Node): (m: Space)
    requires Wf(root, ROOT) && root.Table?
    ensures Gives(root, m)
  {
    imap x: nat | x < SPACE && Translate(root, ROOT, x).Some? :: Translate(root, ROOT, x).value
  }

  /** Pages with a mapped address are in use. */
  lemma {:induction false} TranslatedIsOccupied(n: Node, level: nat, leaf: nat, x: nat, o: nat)
    requires 1 <= leaf <= 2 && leaf <= level <= 5 && Wf(n, level) && x < Size(level) && o < Size(level)
    requires o % Size(leaf) == 0
    requires o <= x < o + Size(leaf) && Translate(n, level, x).Some?
    ensures Occupied(n, level, o, leaf)
    decreases level
  {
    if level > leaf && n.Table? {
      PageInEntry(level, leaf, o, x);
      TranslatedIsOccupied(n.entries[x / Size(level - 1)], level - 1, leaf, x % Size(level - 1), o % Size(level - 1));
    }
  }

  lemma GivesPage(n: Node, n': Node, m: Space, o: nat, leaf: nat, pa: nat, flags: nat)
    requires 1 <= leaf <= 2 && o + Size(leaf) <= SPACE && Gives(n, m) && Wf(n', ROOT) && n'.Table?
    requires Wf(Page(pa, flags), leaf)
    requires Mapped(n, n', ROOT, o, leaf, Page(pa, flags))
    ensures Gives(n', PutPage(m, o, Size(leaf), pa, flags))
  {
    forall x | 0 <= x < SPACE
      ensures var m' := PutPage(m, o, Size(leaf), pa, flags); Translate(n', ROOT, x) == if x in m' then Some(m'[x])
        else None
    {
      PageAt(n, n', o, leaf, pa, flags, x);
      PutOption(m, Translate(n, ROOT, x), Translate(n', ROOT, x), o, Size(leaf), pa, flags, x);
    }
  }

  lemma PutOption(m: Space, was: Option<(nat, nat)>, now: Option<(nat, nat)>, o: nat, size: nat, pa: nat, flags: nat,
                  x: nat)
    requires was == if x in m then Some(m[x]) else None
    requires o <= x < o + size ==> now == Some((pa + (x - o), flags))
    requires !(o <= x < o + size) ==> now == was
    ensures var m' := PutPage(m, o, size, pa, flags); now == if x in m' then Some(m'[x]) else None
  {}

  lemma PageAt(n: Node, n': Node, o: nat, leaf: nat, pa: nat, flags: nat, x: nat)
    requires 1 <= leaf <= 2 && o < SPACE && Wf(n, ROOT) && Wf(n', ROOT) && Wf(Page(pa, flags), leaf) && x < SPACE
    requires Mapped(n, n', ROOT, o, leaf, Page(pa, flags))
    ensures o <= x < o + Size(leaf) ==> Translate(n', ROOT, x) == Some((pa + (x - o), flags))
    ensures !(o <= x < o + Size(leaf)) ==> Translate(n', ROOT, x) == Translate(n, ROOT, x)
  {
    MappedAt(n, n', ROOT, o, leaf, Page(pa, flags), x);
  }

  lemma MappedAt(n: Node, n': Node, level: nat, o: nat, leaf: nat, page: Node, x: nat)
    requires 1 <= leaf <= level <= 5 && o < Size(level) && Wf(n, level) && Wf(n', level) && Wf(page, leaf)
    requires x < Size(level)
    requires Mapped(n, n', level, o, leaf, page)
    ensures Translate(n', level, x) == if o <= x < o + Size(leaf) then Translate(page, leaf, x - o)
                                       else Translate(n, level, x)
  {}

  lemma GivesNothing(n: Node, n': Node, m: Space, o: nat, leaf: nat)
    requires 1 <= leaf <= 2 && o < SPACE && o % Size(leaf) == 0 && Gives(n, m) && Wf(n', ROOT) && n'.Table?
    requires Mapped(n, n', ROOT, o, leaf, Absent) && !Occupied(n, ROOT, o, leaf)
    ensures Gives(n', m)
  {
    forall x | 0 <= x < SPACE
      ensures Translate(n', ROOT, x) == Translate(n, ROOT, x)
    {
      if Translate(n, ROOT, x).Some? && o <= x < o + Size(leaf) {
        TranslatedIsOccupied(n, ROOT, leaf, x, o);
      }
    }
  }

  /** `map_4k` or `map_2m` at the root. */
  method MapAt(n: Node, ghost m: Space, o: nat, leaf: nat, pa: nat, flags: nat, free: nat)
    returns (n': Node, ok: bool, free': nat)
    requires 1 <= leaf <= 2 && Gives(n, m) && o % Size(leaf) == 0 && o + Size(leaf) <= SPACE
    requires FlagsOk(flags) && (Present(flags) ==> Wf(Page(pa, flags), leaf))
    ensures Gives(n', if ok && Present(flags) then PutPage(m, o, Size(leaf), pa, flags) else m)
    ensures ok <==> !Occupied(n, ROOT, o, leaf) && Missing(n, ROOT, o, leaf) <= free
    ensures free' == (if Missing(n, ROOT, o, leaf) <= free then free - Missing(n, ROOT, o, leaf) else 0)
    ensures TablesIn(n') + free' == TablesIn(n) + free
    ensures ok ==> n' == Inserted(n, ROOT, o, leaf, EntryOf(pa, flags), flags)
    ensures !ok ==> forall right :: SameRights(n, n', ROOT, right)
    ensures ok ==> forall right :: RightsMapped(n, n', ROOT, o, leaf, EntryOf(pa, flags), right)
  {
    n', ok, free' := MapInTable(n, ROOT, o, leaf, EntryOf(pa, flags), flags, free);
    if ok && Present(flags) {
      GivesPage(n, n', m, o, leaf, pa, flags);
    } else if ok {
      GivesNothing(n, n', m, o, leaf);
    }
  }

  // ---------------------------------------------------------------- one page beside others

  lemma {:induction false} InsertedWf(n: Node, level: nat, o: nat, leaf: nat, page: Node, flags: nat)
    requires 1 <= leaf <= level <= 5 && o < Size(level) && Wf(n, level) && !page.Table? && Wf(page, leaf)
    ensures Wf(Inserted(n, level, o, leaf, page, flags), level)
    ensures level > leaf && n.Table? ==> Inserted(n, level, o, leaf, page, flags).Table?
    decreases level
  {
    if level > leaf && !n.Page? {
      DivBelow(o, 512, Size(level - 1));
      var child := if n.Absent? then Absent else n.entries[o / Size(level - 1)];
      InsertedWf(child, level - 1, o % Size(level - 1), leaf, page, flags);
    }
  }

  /** Entry `i` of a table, or of the table that is made in place of nothing. */
  function Child(n: Node, i: nat): Node
    requires n.Table? ==> i < |n.entries|
  {
    if n.Table? then n.entries[i] else Absent
  }

  lemma InsertedEntries(n: Node, level: nat, o: nat, leaf: nat, page: Node, flags: nat, i: nat, q: nat)
    requires 1 <= leaf < level <= 5 && o < Size(level) && Wf(n, level) && !n.Page?
    requires i == o / Size(level - 1) < 512 && q == o % Size(level - 1)
    ensures Wf(Child(n, i), level - 1)
    ensures var n' := Inserted(n, level, o, leaf, page, flags);
      && n'.Table? && |n'.entries| == 512 && n'.entries[i] == Inserted(Child(n, i), level - 1, q, leaf, page, flags)
      && forall j :: 0 <= j < 512 && j != i ==> n'.entries[j] == Child(n, j)
  {}

  lemma OccupiedBelow(n: Node, level: nat, o: nat, leaf: nat, i: nat, q: nat)
    requires 1 <= leaf < level <= 5 && o < Size(level) && Wf(n, level) && !n.Page?
    requires i == o / Size(level - 1) < 512 && q == o % Size(level - 1)
    ensures Wf(Child(n, i), level - 1) && Occupied(n, level, o, leaf) == Occupied(Child(n, i), level - 1, q, leaf)
    ensures Missing(n, level, o, leaf) == Missing(Child(n, i), level - 1, q, leaf) + if n.Table? then 0 else 1
  {}

  /** A page that is mapped adds the tables that were missing. */
  lemma {:induction false} InsertedTables(n: Node, level: nat, o: nat, leaf: nat, page: Node, flags: nat)
    requires 1 <= leaf <= level <= 5 && o < Size(level) && Wf(n, level) && !page.Table? && !Occupied(n, level, o, leaf)
    ensures TablesIn(Inserted(n, level, o, leaf, page, flags)) == TablesIn(n) + Missing(n, level, o, leaf)
    decreases level
  {
    if level > leaf {
      var i, q := o / Size(level - 1), o % Size(level - 1);
      DivBelow(o, 512, Size(level - 1));
      OccupiedBelow(n, level, o, leaf, i, q);
      InsertedEntries(n, level, o, leaf, page, flags, i, q);
      InsertedTables(Child(n, i), level - 1, q, leaf, page, flags);
      TablesAround(n, Inserted(n, level, o, leaf, page, flags), i);
    }
  }

  lemma TablesAround(n: Node, n': Node, i: nat)
    requires !n.Page? && n'.Table? && |n'.entries| == 512 && i < 512 && (n.Table? ==> |n.entries| == 512)
    requires forall j :: 0 <= j < 512 && j != i ==> n'.entries[j] == Child(n, j)
    ensures TablesIn(n') + TablesIn(Child(n, i)) == TablesIn(n) + TablesIn(n'.entries[i]) + if n.Table? then 0 else 1
  {
    var es: seq<Node> := if n.Table? then n.entries else seq(512, _ => Absent);
    if !n.Table? {
      NoTables(es);
    }
    TablesChanged(es, i, n'.entries[i]);
    assert n'.entries == es[i := n'.entries[i]];
  }

  /** Mapping one page does not put another one, apart from it, in use. */
  lemma {:induction false} InsertedElsewhere(n: Node, level: nat, o: nat, leaf: nat, page: Node, flags: nat, o': nat,
                                             leaf': nat)
    requires 1 <= leaf <= 2 && 1 <= leaf' <= 2 && leaf <= level <= 5 && leaf' <= level && o < Size(level)
    requires o' < Size(level)
    requires Wf(n, level) && !page.Table? && Wf(page, leaf) && !Occupied(n, level, o, leaf)
    requires o % Size(leaf) == 0 && o' % Size(leaf') == 0 && (o + Size(leaf) <= o' || o' + Size(leaf') <= o)
    ensures Wf(Inserted(n, level, o, leaf, page, flags), level)
    ensures Occupied(Inserted(n, level, o, leaf, page, flags), level, o', leaf') == Occupied(n, level, o', leaf')
    decreases level
  {
    InsertedWf(n, level, o, leaf, page, flags);
    NotWhole(level, o, leaf, o', leaf');
    var i, q, j, r := ApartBelow(level, o, leaf, o', leaf');
    ElsewhereBelow(n, Inserted(n, level, o, leaf, page, flags), level, o, leaf, page, flags, o', leaf', i, q, j, r);
    OccupiedBelow(n, level, o, leaf, i, q);
    if i == j {
      InsertedElsewhere(Child(n, i), level - 1, q, leaf, page, flags, r, leaf');
    }
  }

  lemma ApartBelow(level: nat, o: nat, leaf: nat, o': nat, leaf': nat) returns (i: nat, q: nat, j: nat, r: nat)
    requires 1 <= leaf <= 2 && 1 <= leaf' <= 2 && leaf < level <= 5 && leaf' < level && o < Size(level)
    requires o' < Size(level)
    requires o % Size(leaf) == 0 && o' % Size(leaf') == 0 && (o + Size(leaf) <= o' || o' + Size(leaf') <= o)
    ensures i == o / Size(level - 1) < 512 && q == o % Size(level - 1) && j == o' / Size(level - 1) < 512
    ensures r == o' % Size(level - 1)
    ensures q < Size(level - 1) && r < Size(level - 1) && q % Size(leaf) == 0 && r % Size(leaf') == 0
    ensures i == j ==> q + Size(leaf) <= r || r + Size(leaf') <= q
  {
    var s := Size(level - 1);
    i, q, j, r := o / s, o % s, o' / s, o' % s;
    PageInEntry(level, leaf, o, o);
    PageInEntry(level, leaf', o', o');
    DivMod(o, s);
    DivMod(o', s);
  }

  lemma ElsewhereBelow(n: Node, n': Node, level: nat, o: nat, leaf: nat, page: Node, flags: nat, o': nat, leaf': nat,
                       i: nat, q: nat, j: nat, r: nat)
    requires 1 <= leaf < level <= 5 && 1 <= leaf' < level && o < Size(level) && o' < Size(level) && Wf(n, level)
    requires !n.Page?
    requires i == o / Size(level - 1) < 512 && q == o % Size(level - 1) && j == o' / Size(level - 1) < 512
    requires r == o' % Size(level - 1)
    requires n' == Inserted(n, level, o, leaf, page, flags) && Wf(n', level)
    ensures Wf(Child(n, i), level - 1) && Wf(Child(n, j), level - 1)
    ensures Wf(Inserted(Child(n, i), level - 1, q, leaf, page, flags), level - 1)
    ensures Occupied(n, level, o', leaf') == Occupied(Child(n, j), level - 1, r, leaf')
    ensures Occupied(n', level, o', leaf') ==
      Occupied(if i == j then Inserted(Child(n, i), level - 1, q, leaf, page, flags)
               else Child(n, j), level - 1, r, leaf')
  {
    InsertedEntries(n, level, o, leaf, page, flags, i, q);
    OccupiedBelow(n, level, o', leaf', j, r);
    OccupiedBelow(n', level, o', leaf', j, r);
  }

  /** Two pages that are apart are below an entry that is larger than both. */
  lemma NotWhole(level: nat, o: nat, leaf: nat, o': nat, leaf': nat)
    requires 1 <= leaf <= 2 && 1 <= leaf' <= 2 && leaf <= level <= 5 && leaf' <= level && o < Size(level)
    requires o' < Size(level)
    requires o % Size(leaf) == 0 && o' % Size(leaf') == 0 && (o + Size(leaf) <= o' || o' + Size(leaf') <= o)
    ensures level > leaf && level > leaf'
  {
    if level == leaf {
      DivUnique(o, Size(leaf), 0, o);
    }
    if level == leaf' {
      DivUnique(o', Size(leaf'), 0, o');
    }
  }

  // ---------------------------------------------------------------- looking up

  /** The index that `pagetable_lookup` takes from the bits of an address. */
  lemma IndexBits(va: nat, level: nat)
    requires 1 <= level <= 4
    ensures (va / Size(level)) % 512 == va % Size(level + 1) / Size(level)
    ensures va % Size(level + 1) % Size(level) == va % Size(level)
  {
    var s, t := Size(level + 1), Size(level);
    DivSplit(va, s, t, 512);
    DivUnique(va / t, 512, va / s, va % s / t);
  }

  /** Tables as the processor takes them: there may also be pages of 1 GiB, which the mapping
      functions never make. */
  ghost predicate Shaped(n: Node, level: nat)
    requires 1 <= level <= 5
    decreases level
  {
    match n
    case Absent => true
    case Page(_, _) => level <= 3
    case Table(es, _) => level >= 2 && |es| == 512 && forall i :: 0 <= i < 512 ==> Shaped(es[i], level - 1)
  }

  /** Where such tables lead. */
  function Walk(n: Node, level: nat, x: nat): Option<nat>
    requires 1 <= level <= 5 && x < Size(level) && Shaped(n, level)
    decreases level
  {
    match n
    case Absent => None
    case Page(pa, _) => Some(pa + x)
    case Table(es, _) => Walk(es[x / Size(level - 1)], level - 1, x % Size(level - 1))
  }

  lemma {:induction false} WfIsShaped(n: Node, level: nat)
    requires 1 <= level <= 5 && Wf(n, level)
    ensures Shaped(n, level)
    decreases level
  {
    if n.Table? {
      forall i | 0 <= i < 512
        ensures Shaped(n.entries[i], level - 1)
      {
        WfIsShaped(n.entries[i], level - 1);
      }
    }
  }

  /** The tables that mapping makes are walked as they translate. */
  lemma {:induction false} WalkTranslates(n: Node, level: nat, x: nat)
    requires 1 <= level <= 5 && x < Size(level) && Wf(n, level)
    ensures Shaped(n, level)
    ensures Walk(n, level, x) == match Translate(n, level, x) case None => None case Some((pa, _)) => Some(pa)
    decreases level
  {
    WfIsShaped(n, level);
    if n.Table? {
      TranslateTable(n, level, x);
      WalkTranslates(n.entries[x / Size(level - 1)], level - 1, x % Size(level - 1));
    }
  }

  /** `pagetable_lookup`. */
  method Lookup(root: Node, va: nat) returns (pa: Option<nat>)
    requires Shaped(root, ROOT) && root.Table?
    ensures pa == Walk(root, ROOT, va % SPACE)
  {
    IndexBits(va, 4);
    IndexBits(va, 3);
    IndexBits(va, 2);
    IndexBits(va, 1);
    var pml4e := root.entries[(va / 0x80_0000_0000) % 512];
    if !pml4e.Table? {
      return None;
    }
    var pdpe := pml4e.entries[(va / 0x4000_0000) % 512];
    if pdpe.Absent? {
      return None;
    }
    if pdpe.Page? {
      return Some(pdpe.pa + va % 0x4000_0000);
    }
    var pde := pdpe.entries[(va / 0x20_0000) % 512];
    if pde.Absent? {
      return None;
    }
    if pde.Page? {
      return Some(pde.pa + va % HUGE_PAGE_SIZE);
    }
    var pte := pde.entries[(va / 0x1000) % 512];
    if !pte.Page? {
      return None;
    }
    return Some(pte.pa + va % PAGE_SIZE);
  }
}

/** Mapping ranges: `map_range_len`. */
module PageMapping {
  import opened Division
  import opened PageSpace
  import opened PageTable
  import opened PageLevels

  /** The map once the first `done` bytes from `va` on are mapped to `pa`; without the present
      flag nothing is. */
  ghost function Filled(m: Space, va: nat, pa: nat, flags: nat, done: nat): Space {
    if Present(flags) then Fill(m, va, pa, flags, done) else m
  }

  /** A page that would go round to the start of the range is in use already. */
  lemma FullCircle(n: Node, m: Space, va: nat, pa: nat, flags: nat, done: nat, leaf: nat)
    requires Gives(n, Fill(m, va, pa, flags, done)) && 0 < done <= SPACE
    requires 1 <= leaf <= 2 && (va + done) % Size(leaf) == 0 && done + Size(leaf) > SPACE
    ensures Occupied(n, ROOT, (va + done) % SPACE, leaf)
  {
    RoundToStart(va, done, Size(leaf));
    assert va % SPACE in Fill(m, va, pa, flags, done);
    TranslatedIsOccupied(n, ROOT, leaf, va % SPACE, (va + done) % SPACE);
  }

  lemma PhysicalOk(pa: nat, flags: nat, leaf: nat)
    requires 1 <= leaf <= 2 && pa % Size(leaf) == 0
    ensures Wf(Page(pa % PHYSICAL, flags), leaf)
  {
    AlignedInSpace(pa, Size(leaf), PHYSICAL, 0);
  }

  /** None of the first `done` bytes from `va` on was mapped. */
  ghost predicate NoneThere(m: Space, va: nat, done: nat) {
    forall x: nat :: x < SPACE && Behind(x, va) < done ==> x !in m
  }

  /** The level of the next page. */
  function NextLeaf(va: nat, pa: nat, len: nat, done: nat): (leaf: nat)
    requires RangeOk(va, pa, len, done) && done < len
    ensures 1 <= leaf <= 2 && (va + done) % Size(leaf) == 0 && (pa + done) % Size(leaf) == 0
    ensures RangeOk(va, pa, len, done + Size(leaf))
  {
    LeftAligned(len, done);
    AddMultiple(va, PAGE_SIZE, done / PAGE_SIZE);
    AddMultiple(pa, PAGE_SIZE, done / PAGE_SIZE);
    StillAligned(done, LeafFor(va + done, pa + done, len - done));
    LeafFor(va + done, pa + done, len - done)
  }

  predicate RangeOk(va: nat, pa: nat, len: nat, done: nat) {
    va % PAGE_SIZE == 0 && pa % PAGE_SIZE == 0 && len % PAGE_SIZE == 0 && done % PAGE_SIZE == 0 && done <= len
  }

  // ---------------------------------------------------------------- how far it gets

  /** The levels of pages that follow each other from `done` on fit the addresses. */
  ghost predicate PagesOk(va: nat, pa: nat, done: nat, pages: seq<nat>)
    decreases |pages|
  {
    pages == [] ||
    (1 <= pages[0] <= 2 && (va + done) % Size(pages[0]) == 0 && (pa + done) % Size(pages[0]) == 0
     && PagesOk(va, pa, done + Size(pages[0]), pages[1..]))
  }

  function Total(pages: seq<nat>): nat {
    if pages == [] then 0 else (if pages[0] == 1 then PAGE_SIZE else HUGE_PAGE_SIZE) + Total(pages[1..])
  }

  /** The pages into which the rest of the range is divided. */
  ghost function Pages(va: nat, pa: nat, len: nat, done: nat): (pages: seq<nat>)
    requires RangeOk(va, pa, len, done)
    ensures PagesOk(va, pa, done, pages) && done + Total(pages) == len
    decreases len - done
  {
    if done == len then []
    else [NextLeaf(va, pa, len, done)] + Pages(va, pa, len, done + Size(NextLeaf(va, pa, len, done)))
  }

  lemma NextPage(va: nat, pa: nat, len: nat, done: nat, leaf: nat, next: nat)
    requires RangeOk(va, pa, len, done) && done < len && leaf == NextLeaf(va, pa, len, done)
    requires next == done + Size(leaf)
    ensures done < next && RangeOk(va, pa, len, next)
    ensures var pages := Pages(va, pa, len, done);
      pages != [] && pages[0] == leaf && pages[1..] == Pages(va, pa, len, next)
  {}

  /** The tables with a page of level `leaf` behind the first `done` bytes. */
  function PageOn(n: Node, va: nat, pa: nat, flags: nat, done: nat, leaf: nat): Node
    requires Wf(n, ROOT) && 1 <= leaf <= 2
  {
    Inserted(n, ROOT, (va + done) % SPACE, leaf, EntryOf((pa + done) % PHYSICAL, flags), flags)
  }

  lemma PageOnWf(n: Node, va: nat, pa: nat, flags: nat, done: nat, leaf: nat)
    requires Wf(n, ROOT) && n.Table? && 1 <= leaf <= 2 && (pa + done) % Size(leaf) == 0
    ensures Wf(PageOn(n, va, pa, flags, done, leaf), ROOT) && PageOn(n, va, pa, flags, done, leaf).Table?
  {
    PhysicalOk(pa + done, flags, leaf);
    InsertedWf(n, ROOT, (va + done) % SPACE, leaf, EntryOf((pa + done) % PHYSICAL, flags), flags);
  }

  /** The page cannot be mapped with `free` pages for tables. */
  ghost predicate Refused(n: Node, va: nat, done: nat, leaf: nat, free: nat)
    requires Wf(n, ROOT) && 1 <= leaf <= 2
  {
    Taken(n, va, done, leaf) || Lacking(n, va, done, leaf) > free
  }

  ghost predicate Taken(n: Node, va: nat, done: nat, leaf: nat)
    requires Wf(n, ROOT) && 1 <= leaf <= 2
  {
    Occupied(n, ROOT, (va + done) % SPACE, leaf)
  }

  function Lacking(n: Node, va: nat, done: nat, leaf: nat): nat
    requires Wf(n, ROOT) && 1 <= leaf <= 2
  {
    Missing(n, ROOT, (va + done) % SPACE, leaf)
  }

  /** How many bytes of the range are mapped with `free` pages for tables, when the first
      `done` are mapped in `n` already: up to the first page that is in use or lacks a table. */
  ghost function Reach(n: Node, va: nat, pa: nat, flags: nat, done: nat, pages: seq<nat>, free: nat): (r: nat)
    requires Wf(n, ROOT) && n.Table? && PagesOk(va, pa, done, pages)
    decreases |pages|
  {
    if pages == [] || Refused(n, va, done, pages[0], free) then done
    else
      PageOnWf(n, va, pa, flags, done, pages[0]);
      Reach(PageOn(n, va, pa, flags, done, pages[0]), va, pa, flags, done + Size(pages[0]), pages[1..],
            free - Lacking(n, va, done, pages[0]))
  }

  /** From the first `done` bytes on it gets to `goal`: right here, or with the page mapped. */
  ghost predicate Leads(n: Node, va: nat, pa: nat, flags: nat, done: nat, leaf: nat, rest: seq<nat>, free: nat,
                        goal: nat)
    requires Wf(n, ROOT) && 1 <= leaf <= 2
  {
    if Refused(n, va, done, leaf, free) then goal == done
    else
      LeadsOn(PageOn(n, va, pa, flags, done, leaf), va, pa, flags, done + Size(leaf), rest,
              free - Lacking(n, va, done, leaf), goal)
  }

  ghost predicate LeadsOn(n: Node, va: nat, pa: nat, flags: nat, done: nat, pages: seq<nat>, free: nat, goal: nat) {
    PagesOk(va, pa, done, pages) && (Wf(n, ROOT) && n.Table? ==> Reach(n, va, pa, flags, done, pages, free) == goal)
  }

  lemma ReachOne(n: Node, va: nat, pa: nat, flags: nat, done: nat, leaf: nat, pages: seq<nat>, free: nat)
    requires Wf(n, ROOT) && n.Table? && PagesOk(va, pa, done, pages) && pages != [] && leaf == pages[0]
    ensures Leads(n, va, pa, flags, done, leaf, pages[1..], free, Reach(n, va, pa, flags, done, pages, free))
  {
    PageOnWf(n, va, pa, flags, done, leaf);
  }

  /** None of the pages is in use. */
  ghost predicate AllClear(n: Node, va: nat, pa: nat, done: nat, pages: seq<nat>)
    requires Wf(n, ROOT) && PagesOk(va, pa, done, pages)
    decreases |pages|
  {
    pages == [] || (!Taken(n, va, done, pages[0]) && AllClear(n, va, pa, done + Size(pages[0]), pages[1..]))
  }

  /** The tables with all of the pages. */
  ghost function WithPages(n: Node, va: nat, pa: nat, flags: nat, done: nat, pages: seq<nat>): (n': Node)
    requires Wf(n, ROOT) && n.Table? && PagesOk(va, pa, done, pages)
    ensures Wf(n', ROOT) && n'.Table?
    decreases |pages|
  {
    if pages == [] then n
    else
      PageOnWf(n, va, pa, flags, done, pages[0]);
      WithPages(PageOn(n, va, pa, flags, done, pages[0]), va, pa, flags, done + Size(pages[0]), pages[1..])
  }

  /** Two pages of a range that is not longer than the address space are apart. */
  lemma PagesApart(va: nat, done: nat, leaf: nat, d: nat, leaf': nat)
    requires 1 <= leaf <= 2 && 1 <= leaf' <= 2 && (va + done) % Size(leaf) == 0 && (va + d) % Size(leaf') == 0
    requires done + Size(leaf) <= d && d + Size(leaf') <= SPACE
    ensures var o, o' := (va + done) % SPACE, (va + d) % SPACE;
      && o % Size(leaf) == 0 && o' % Size(leaf') == 0 && (o + Size(leaf) <= o' || o' + Size(leaf') <= o)
  {
    var o, o' := (va + done) % SPACE, (va + d) % SPACE;
    AlignedInSpace(va + done, Size(leaf), SPACE, 0);
    AlignedInSpace(va + d, Size(leaf'), SPACE, 0);
    var x := if o < o' then o' else o;
    BehindNear(va, done, Size(leaf), x);
    BehindNear(va, d, Size(leaf'), x);
  }

  lemma TakenKept(n: Node, va: nat, pa: nat, flags: nat, done: nat, leaf: nat, d: nat, leaf': nat)
    requires Wf(n, ROOT) && n.Table? && 1 <= leaf <= 2 && 1 <= leaf' <= 2 && (va + d) % Size(leaf') == 0
    requires (va + done) % Size(leaf) == 0 && (pa + done) % Size(leaf) == 0 && done + Size(leaf) <= d
    requires d + Size(leaf') <= SPACE
    requires !Taken(n, va, done, leaf)
    ensures Wf(PageOn(n, va, pa, flags, done, leaf), ROOT)
    ensures Taken(PageOn(n, va, pa, flags, done, leaf), va, d, leaf') == Taken(n, va, d, leaf')
  {
    PagesApart(va, done, leaf, d, leaf');
    PhysicalOk(pa + done, flags, leaf);
    InsertedElsewhere(n, ROOT, (va + done) % SPACE, leaf, EntryOf((pa + done) % PHYSICAL, flags), flags,
                      (va + d) % SPACE, leaf');
  }

  lemma {:induction false} ClearKept(n: Node, va: nat, pa: nat, flags: nat, done: nat, leaf: nat, d: nat,
                                     pages: seq<nat>)
    requires Wf(n, ROOT) && n.Table? && PagesOk(va, pa, d, pages) && d + Total(pages) <= SPACE && 1 <= leaf <= 2
    requires (va + done) % Size(leaf) == 0 && (pa + done) % Size(leaf) == 0 && done + Size(leaf) <= d
    requires !Taken(n, va, done, leaf)
    ensures Wf(PageOn(n, va, pa, flags, done, leaf), ROOT)
    ensures AllClear(PageOn(n, va, pa, flags, done, leaf), va, pa, d, pages) == AllClear(n, va, pa, d, pages)
    decreases |pages|
  {
    PageOnWf(n, va, pa, flags, done, leaf);
    if pages != [] {
      TakenKept(n, va, pa, flags, done, leaf, d, pages[0]);
      ClearKept(n, va, pa, flags, done, leaf, d + Size(pages[0]), pages[1..]);
    }
  }

  lemma PageOnTables(n: Node, va: nat, pa: nat, flags: nat, done: nat, leaf: nat)
    requires Wf(n, ROOT) && 1 <= leaf <= 2 && !Taken(n, va, done, leaf)
    ensures TablesIn(PageOn(n, va, pa, flags, done, leaf)) == TablesIn(n) + Lacking(n, va, done, leaf)
  {
    InsertedTables(n, ROOT, (va + done) % SPACE, leaf, EntryOf((pa + done) % PHYSICAL, flags), flags);
  }

  /** Of `total` bytes behind `done`, all are reached if and only if the pages are clear and
      the tables grow from `before` to `after` within the memory. */
  ghost predicate Ends(done: nat, total: nat, clear: bool, before: nat, after: nat, free: nat, reach: nat) {
    && (clear ==> before <= after) && reach <= done + total
    && (reach == done + total <==> clear && after <= before + free)
  }

  lemma EndsOneOn(done: nat, size: nat, total: nat, clear: bool, before: nat, lacking: nat, after: nat, free: nat,
                  left: nat, reach: nat)
    requires left == (if lacking <= free then free - lacking else 0) && size > 0
    requires Ends(done + size, total, clear, before + lacking, after, left, reach)
    ensures Ends(done, size + total, clear, before, after, free, if lacking > free then done else reach)
  {}

  /** All of the pages are mapped if and only if none of them was in use before and there is
      memory for the tables that they take. */
  lemma {:induction false} ReachesEnd(n: Node, va: nat, pa: nat, flags: nat, done: nat, pages: seq<nat>, free: nat)
    requires Wf(n, ROOT) && n.Table? && PagesOk(va, pa, done, pages) && done + Total(pages) <= SPACE
    ensures Ends(done, Total(pages), AllClear(n, va, pa, done, pages), TablesIn(n),
                 TablesIn(WithPages(n, va, pa, flags, done, pages)), free,
                 Reach(n, va, pa, flags, done, pages, free))
    decreases |pages|
  {
    if pages == [] || Taken(n, va, done, pages[0]) {
      NoPageOn(n, va, pa, flags, done, pages, free);
    } else {
      var leaf, rest := pages[0], pages[1..];
      var n', next, lacking := PageOn(n, va, pa, flags, done, leaf), done + Size(leaf), Lacking(n, va, done, leaf);
      var left := if lacking <= free then free - lacking else 0;
      PageOnTables(n, va, pa, flags, done, leaf);
      ClearKept(n, va, pa, flags, done, leaf, next, rest);
      UnfoldPages(n, n', va, pa, flags, done, next, leaf, pages, rest, free, lacking, left);
      ReachesEnd(n', va, pa, flags, next, rest, left);
      EndsOneOn(done, Size(leaf), Total(rest), AllClear(n', va, pa, next, rest), TablesIn(n), lacking,
                TablesIn(WithPages(n', va, pa, flags, next, rest)), free, left,
                  Reach(n', va, pa, flags, next, rest, left));
    }
  }

  lemma NoPageOn(n: Node, va: nat, pa: nat, flags: nat, done: nat, pages: seq<nat>, free: nat)
    requires Wf(n, ROOT) && n.Table? && PagesOk(va, pa, done, pages) && (pages == [] || Taken(n, va, done, pages[0]))
    ensures Reach(n, va, pa, flags, done, pages, free) == done && (Total(pages) == 0 <==> pages == [])
    ensures AllClear(n, va, pa, done, pages) <==> pages == []
    ensures pages == [] ==> WithPages(n, va, pa, flags, done, pages) == n
  {}

  /** The three definitions taken one page on. */
  lemma UnfoldPages(n: Node, n': Node, va: nat, pa: nat, flags: nat, done: nat, next: nat, leaf: nat, pages: seq<nat>,
                    rest: seq<nat>, free: nat, lacking: nat, left: nat)
    requires Wf(n, ROOT) && n.Table? && PagesOk(va, pa, done, pages) && pages == [leaf] + rest && 1 <= leaf <= 2
    requires next == done + Size(leaf)
    requires n' == PageOn(n, va, pa, flags, done, leaf) && lacking == Lacking(n, va, done, leaf)
    requires !Taken(n, va, done, leaf) && left == (if lacking <= free then free - lacking else 0)
    ensures Wf(n', ROOT) && n'.Table? && PagesOk(va, pa, next, rest) && Total(pages) == Size(leaf) + Total(rest)
    ensures WithPages(n, va, pa, flags, done, pages) == WithPages(n', va, pa, flags, next, rest)
    ensures AllClear(n, va, pa, done, pages) <==> AllClear(n, va, pa, next, rest)
    ensures Reach(n, va, pa, flags, done, pages, free) == if lacking > free then done
      else Reach(n', va, pa, flags, next, rest, left)
  {
    PageOnWf(n, va, pa, flags, done, leaf);
    assert pages[1..] == rest;
  }

  // ---------------------------------------------------------------- how the range is divided

  /** The byte at offset `e` is in a 2 MiB block that lies in the range as a whole, and both
      addresses have the same place in such a block: it can be mapped with a page of 2 MiB. */
  predicate HugeAt(va: nat, pa: nat, len: nat, e: nat) {
    var start := (va + e) / HUGE_PAGE_SIZE * HUGE_PAGE_SIZE;
    va % HUGE_PAGE_SIZE == pa % HUGE_PAGE_SIZE && va <= start && start + HUGE_PAGE_SIZE <= va + len
  }

  /** The level of the page that holds offset `e`. */
  function LeafOf(pages: seq<nat>, e: nat): nat {
    if pages == [] then 0
    else
      var size := if pages[0] == 1 then PAGE_SIZE else HUGE_PAGE_SIZE;
      if e < size then pages[0] else LeafOf(pages[1..], e - size)
  }

  /** A page does not begin inside a block that could be mapped as a whole. */
  predicate Fresh(va: nat, pa: nat, len: nat, done: nat) {
    (va + done) % HUGE_PAGE_SIZE == 0 || !HugeAt(va, pa, len, done)
  }

  lemma LeafChosen(va: nat, pa: nat, len: nat, done: nat)
    requires RangeOk(va, pa, len, done) && done < len
    ensures NextLeaf(va, pa, len, done) == 2 <==>
      len - done >= HUGE_PAGE_SIZE && (va + done) % HUGE_PAGE_SIZE == 0 && (pa + done) % HUGE_PAGE_SIZE == 0
    ensures (va + done) % PAGE_SIZE == 0
  {
    AddMultiple(va, PAGE_SIZE, done / PAGE_SIZE);
  }

  lemma SameResidue(va: nat, pa: nat, done: nat)
    requires (va + done) % HUGE_PAGE_SIZE == 0
    ensures (pa + done) % HUGE_PAGE_SIZE == 0 <==> va % HUGE_PAGE_SIZE == pa % HUGE_PAGE_SIZE
  {}

  /** The block of an address, with its start as a number of blocks. */
  lemma BlockIs(x: nat, k: nat)
    requires k * HUGE_PAGE_SIZE <= x < (k + 1) * HUGE_PAGE_SIZE
    ensures x / HUGE_PAGE_SIZE == k
  {}

  lemma HugeLeaf(va: nat, pa: nat, len: nat, done: nat, e: nat)
    requires RangeOk(va, pa, len, done) && done < len && NextLeaf(va, pa, len, done) == 2
    requires done <= e < done + HUGE_PAGE_SIZE
    ensures HugeAt(va, pa, len, e) && Fresh(va, pa, len, done + HUGE_PAGE_SIZE)
  {
    LeafChosen(va, pa, len, done);
    SameResidue(va, pa, done);
    var k := (va + done) / HUGE_PAGE_SIZE;
    BlockIs(va + e, k);
  }

  lemma SmallLeaf(va: nat, pa: nat, len: nat, done: nat, e: nat)
    requires RangeOk(va, pa, len, done) && done < len && NextLeaf(va, pa, len, done) == 1 && Fresh(va, pa, len, done)
    requires done <= e < done + PAGE_SIZE
    ensures !HugeAt(va, pa, len, e) && Fresh(va, pa, len, done + PAGE_SIZE)
  {
    LeafChosen(va, pa, len, done);
    SameBlock(va + done, va + e);
    if (va + done) % HUGE_PAGE_SIZE == 0 {
      SameResidue(va, pa, done);
    }
    assert !HugeAt(va, pa, len, done);
    if (va + done + PAGE_SIZE) % HUGE_PAGE_SIZE != 0 {
      NotLast(va + done);
    }
  }

  /** A page of 4 KiB lies in one block of 2 MiB ... */
  lemma SameBlock(x: nat, y: nat)
    requires x % PAGE_SIZE == 0 && x <= y < x + PAGE_SIZE
    ensures y / HUGE_PAGE_SIZE == x / HUGE_PAGE_SIZE
  {}

  /** ... and so does the next, unless the block ends. */
  lemma NotLast(x: nat)
    requires x % PAGE_SIZE == 0 && (x + PAGE_SIZE) % HUGE_PAGE_SIZE != 0
    ensures (x + PAGE_SIZE) / HUGE_PAGE_SIZE == x / HUGE_PAGE_SIZE
  {}

  /** How the range is divided: an address gets a page of 2 MiB exactly if it can have one. */
  lemma {:induction false} DividedInto(va: nat, pa: nat, len: nat, done: nat, e: nat)
    requires RangeOk(va, pa, len, done) && done <= e < len && Fresh(va, pa, len, done)
    ensures LeafOf(Pages(va, pa, len, done), e - done) == if HugeAt(va, pa, len, e) then 2 else 1
    decreases len - done
  {
    var leaf := NextLeaf(va, pa, len, done);
    var next := done + Size(leaf);
    NextPage(va, pa, len, done, leaf, next);
    var at := if e < next then e else done;
    if leaf == 2 {
      HugeLeaf(va, pa, len, done, at);
    } else {
      SmallLeaf(va, pa, len, done, at);
    }
    if e >= next {
      DividedInto(va, pa, len, next, e);
    }
  }

  /** The level at offset `b` once the pages from `done` on are there, when it was `was` before. */
  function LevelAfter(was: nat, done: nat, pages: seq<nat>, b: nat): nat
    decreases |pages|
  {
    if pages == [] then was
    else
      var next := done + if pages[0] == 1 then PAGE_SIZE else HUGE_PAGE_SIZE;
      LevelAfter(if done <= b < next then pages[0] else was, next, pages[1..], b)
  }

  lemma {:induction false} LevelAfterIs(was: nat, done: nat, pages: seq<nat>, b: nat)
    ensures LevelAfter(was, done, pages, b) ==
      if done <= b < done + Total(pages) then LeafOf(pages, b - done) else was
    decreases |pages|
  {
    if pages != [] {
      var next := done + if pages[0] == 1 then PAGE_SIZE else HUGE_PAGE_SIZE;
      LevelAfterIs(if done <= b < next then pages[0] else was, next, pages[1..], b);
    }
  }

  /** The level of every address once the pages are there. */
  lemma {:induction false} WithLevels(n: Node, va: nat, pa: nat, flags: nat, done: nat, pages: seq<nat>, x: nat)
    requires Wf(n, ROOT) && n.Table? && PagesOk(va, pa, done, pages) && done + Total(pages) <= SPACE && x < SPACE
    requires Present(flags) && AllClear(n, va, pa, done, pages)
    ensures LevelAt(WithPages(n, va, pa, flags, done, pages), ROOT, x) ==
      LevelAfter(LevelAt(n, ROOT, x), done, pages, Behind(x, va))
    decreases |pages|
  {
    if pages != [] {
      var leaf, rest := pages[0], pages[1..];
      var n', next := PageOn(n, va, pa, flags, done, leaf), done + Size(leaf);
      PageOnWf(n, va, pa, flags, done, leaf);
      ClearKept(n, va, pa, flags, done, leaf, next, rest);
      PageOnLevel(n, va, pa, flags, done, leaf, x);
      WithLevels(n', va, pa, flags, next, rest, x);
    }
  }

  lemma PageOnLevel(n: Node, va: nat, pa: nat, flags: nat, done: nat, leaf: nat, x: nat)
    requires Wf(n, ROOT) && 1 <= leaf <= 2 && (va + done) % Size(leaf) == 0 && (pa + done) % Size(leaf) == 0
    requires done + Size(leaf) <= SPACE && x < SPACE && Present(flags) && !Taken(n, va, done, leaf)
    ensures Wf(PageOn(n, va, pa, flags, done, leaf), ROOT)
    ensures LevelAt(PageOn(n, va, pa, flags, done, leaf), ROOT, x) ==
      if done <= Behind(x, va) < done + Size(leaf) then leaf else LevelAt(n, ROOT, x)
  {
    PhysicalOk(pa + done, flags, leaf);
    AlignedInSpace(va + done, Size(leaf), SPACE, 0);
    InsertedLevel(n, ROOT, (va + done) % SPACE, leaf, EntryOf((pa + done) % PHYSICAL, flags), flags, x);
    BehindNear(va, done, Size(leaf), x);
  }

  /** The range is mapped with pages of 2 MiB wherever it can be, and nothing else changes. */
  ghost predicate LevelsOf(root: Node, root': Node, va: nat, pa: nat, len: nat)
    requires Wf(root, ROOT) && Wf(root', ROOT)
  {
    forall x :: 0 <= x < SPACE ==>
      LevelAt(root', ROOT, x) ==
        if Behind(x, va) >= len then LevelAt(root, ROOT, x) else if HugeAt(va, pa, len, Behind(x, va)) then 2 else 1
  }

  lemma RangeLevels(root: Node, va: nat, pa: nat, flags: nat, len: nat)
    requires Wf(root, ROOT) && root.Table? && RangeOk(va, pa, len, 0) && len <= SPACE && Present(flags)
    requires AllClear(root, va, pa, 0, Pages(va, pa, len, 0))
    ensures LevelsOf(root, WithPages(root, va, pa, flags, 0, Pages(va, pa, len, 0)), va, pa, len)
  {
    var pages := Pages(va, pa, len, 0);
    forall x | 0 <= x < SPACE
      ensures LevelAt(WithPages(root, va, pa, flags, 0, pages), ROOT, x) ==
        if Behind(x, va) >= len then LevelAt(root, ROOT, x) else if HugeAt(va, pa, len, Behind(x, va)) then 2 else 1
    {
      WithLevels(root, va, pa, flags, 0, pages, x);
      LevelAfterIs(LevelAt(root, ROOT, x), 0, pages, Behind(x, va));
      if Behind(x, va) < len {
        DividedInto(va, pa, len, 0, Behind(x, va));
      }
    }
  }

  // ---------------------------------------------------------------- mapping the range

  /** `map_range_len` up to where it would undo a failure. `result` is the address behind the
      range, or 0; `done` tells how far it got and `left` how many pages are left for tables. */
  method MapRange(root: Node, va: nat, pa: nat, len: nat, flags: nat, free: nat)
    returns (root': Node, ok: bool, done: nat, result: nat, left: nat)
    requires Wf(root, ROOT) && root.Table? && RangeOk(va, pa, len, 0) && FlagsOk(flags)
    ensures done == if va == 0 then 0 else Reach(root, va, pa, flags, 0, Pages(va, pa, len, 0), free)
    ensures ok <==> va > 0 && done == len
    ensures len <= SPACE ==> (ok <==>
      && va > 0 && AllClear(root, va, pa, 0, Pages(va, pa, len, 0))
      && TablesIn(WithPages(root, va, pa, flags, 0, Pages(va, pa, len, 0))) <= TablesIn(root) + free)
    ensures Gives(root', Filled(SpaceOf(root), va, pa, flags, done)) && TablesIn(root') + left == TablesIn(root) + free
    ensures Present(flags) ==> done <= SPACE && NoneThere(SpaceOf(root), va, done)
    ensures ok && Present(flags) ==> LevelsOf(root, root', va, pa, len)
    ensures result == if ok then (va + len) % 0x1_0000_0000_0000_0000 else 0
  {
    if va == 0 {
      FillNothing(SpaceOf(root), va, pa, flags);
      return root, false, 0, 0, free;
    }
    root', ok, done, left := MapPages(root, va, pa, len, flags, free);
    if len <= SPACE {
      ReachesEnd(root, va, pa, flags, 0, Pages(va, pa, len, 0), free);
      if ok && Present(flags) {
        RangeLevels(root, va, pa, flags, len);
      }
    }
    result := if ok then (va + len) % 0x1_0000_0000_0000_0000 else 0;
  }

  /** The loop of `map_range_len`. */
  method MapPages(root: Node, va: nat, pa: nat, len: nat, flags: nat, free: nat)
    returns (root': Node, ok: bool, done: nat, left: nat)
    requires Wf(root, ROOT) && root.Table? && RangeOk(va, pa, len, 0) && FlagsOk(flags)
    ensures done == Reach(root, va, pa, flags, 0, Pages(va, pa, len, 0), free) && (ok <==> done == len)
    ensures ok ==> root' == WithPages(root, va, pa, flags, 0, Pages(va, pa, len, 0))
    ensures Gives(root', Filled(SpaceOf(root), va, pa, flags, done)) && TablesIn(root') + left == TablesIn(root) + free
    ensures Present(flags) ==> done <= SPACE && NoneThere(SpaceOf(root), va, done)
  {
    root', done, left := root, 0, free;
    ghost var m, goal := SpaceOf(root), Reach(root, va, pa, flags, 0, Pages(va, pa, len, 0), free);
    ghost var all := WithPages(root, va, pa, flags, 0, Pages(va, pa, len, 0));
    FillNothing(m, va, pa, flags);
    while done < len
      invariant RangeOk(va, pa, len, done) && Halfway(m, root', va, pa, len, flags, done, left, goal)
      invariant TablesIn(root') + left == TablesIn(root) + free && Heads(root', va, pa, len, flags, done, all)
      decreases len - done
    {
      ghost var n, was := root', done;
      root', ok, left, done := MapNextPage(m, root', va, pa, len, flags, done, left, goal);
      if !ok {
        return;
      }
      WithNextPage(n, root', va, pa, len, flags, was, done, all);
    }
    ok := true;
  }

  /** With the rest of the pages `n` becomes `all`. */
  ghost predicate Heads(n: Node, va: nat, pa: nat, len: nat, flags: nat, done: nat, all: Node) {
    && RangeOk(va, pa, len, done) && Wf(n, ROOT) && n.Table?
    && WithPages(n, va, pa, flags, done, Pages(va, pa, len, done)) == all
  }

  lemma WithNextPage(n: Node, n': Node, va: nat, pa: nat, len: nat, flags: nat, done: nat, next: nat, all: Node)
    requires Heads(n, va, pa, len, flags, done, all) && done < len
    requires var leaf := NextLeaf(va, pa, len, done);
      next == done + Size(leaf) && n' == PageOn(n, va, pa, flags, done, leaf)
    ensures Heads(n', va, pa, len, flags, next, all)
  {
    var leaf := NextLeaf(va, pa, len, done);
    NextPage(va, pa, len, done, leaf, next);
    PageOnWf(n, va, pa, flags, done, leaf);
  }

  /** The first `done` bytes are mapped in `n`, and `left` pages will do for up to `goal`. */
  ghost predicate Halfway(m: Space, n: Node, va: nat, pa: nat, len: nat, flags: nat, done: nat, left: nat, goal: nat)
    requires RangeOk(va, pa, len, done)
  {
    && Gives(n, Filled(m, va, pa, flags, done)) && (Present(flags) ==> done <= SPACE && NoneThere(m, va, done))
    && Reach(n, va, pa, flags, done, Pages(va, pa, len, done), left) == goal
  }

  /** One pass of the loop of `map_range_len`. */
  method MapNextPage(ghost m: Space, n: Node, va: nat, pa: nat, len: nat, flags: nat, done: nat, free: nat,
                     ghost goal: nat)
    returns (n': Node, ok: bool, free': nat, done': nat)
    requires RangeOk(va, pa, len, done) && done < len && Halfway(m, n, va, pa, len, flags, done, free, goal)
    requires FlagsOk(flags)
    ensures RangeOk(va, pa, len, done') && TablesIn(n') + free' == TablesIn(n) + free
    ensures ok ==> done < done' && Halfway(m, n', va, pa, len, flags, done', free', goal)
    ensures ok ==> var leaf := NextLeaf(va, pa, len, done);
      done' == done + Size(leaf) && n' == PageOn(n, va, pa, flags, done, leaf)
    ensures !ok ==> done' == done == goal && Gives(n', Filled(m, va, pa, flags, done))
  {
    var leaf := NextLeaf(va, pa, len, done);
    done' := done + Size(leaf);
    NextPage(va, pa, len, done, leaf, done');
    ReachOne(n, va, pa, flags, done, leaf, Pages(va, pa, len, done), free);
    n', ok, free' := MapStep(m, n, va, pa, flags, done, done', leaf, Pages(va, pa, len, done'), free, goal);
    if ok {
      return;
    }
    done' := done;
  }

  method MapStep(ghost m: Space, n: Node, va: nat, pa: nat, flags: nat, done: nat, ghost next: nat, leaf: nat,
                 ghost rest: seq<nat>, free: nat, ghost goal: nat)
    returns (n': Node, ok: bool, free': nat)
    requires Gives(n, Filled(m, va, pa, flags, done)) && (Present(flags) ==> done <= SPACE && NoneThere(m, va, done))
    requires FlagsOk(flags)
    requires 1 <= leaf <= 2 && (va + done) % Size(leaf) == 0 && (pa + done) % Size(leaf) == 0
    requires next == done + Size(leaf)
    requires Leads(n, va, pa, flags, done, leaf, rest, free, goal)
    ensures Gives(n', Filled(m, va, pa, flags, if ok then next else done)) && TablesIn(n') + free' == TablesIn(n) + free
    ensures ok && Present(flags) ==> next <= SPACE && NoneThere(m, va, next)
    ensures ok ==> n' == PageOn(n, va, pa, flags, done, leaf)
    ensures if ok then LeadsOn(n', va, pa, flags, next, rest, free', goal) else goal == done
  {
    n', ok, free' := MapNext(m, n, va, pa, flags, done, leaf, free);
  }

  lemma StillAligned(y: nat, leaf: nat)
    requires 1 <= leaf <= 2 && y % PAGE_SIZE == 0
    ensures (y + Size(leaf)) % PAGE_SIZE == 0
  {
    AddMultiple(y, PAGE_SIZE, Size(leaf) / PAGE_SIZE);
  }

  lemma LeftAligned(len: nat, done: nat)
    requires done < len && done % PAGE_SIZE == 0 && len % PAGE_SIZE == 0
    ensures (len - done) % PAGE_SIZE == 0 && len - done >= PAGE_SIZE
  {}

  /** `can_use_huge`: a page of 2 MiB where both addresses and the length allow it. */
  function LeafFor(va: nat, pa: nat, len: nat): (leaf: nat)
    requires va % PAGE_SIZE == 0 && pa % PAGE_SIZE == 0 && len >= PAGE_SIZE
    ensures 1 <= leaf <= 2 && va % Size(leaf) == 0 && pa % Size(leaf) == 0 && Size(leaf) <= len
  {
    if len >= HUGE_PAGE_SIZE && va % HUGE_PAGE_SIZE == 0 && pa % HUGE_PAGE_SIZE == 0 then 2 else 1
  }

  /** `map_2m` or `map_4k`, as the loop calls it. */
  method MapNext(ghost m: Space, n: Node, va: nat, pa: nat, flags: nat, done: nat, leaf: nat, free: nat)
    returns (n': Node, ok: bool, free': nat)
    requires 1 <= leaf <= 2 && Gives(n, Filled(m, va, pa, flags, done)) && (Present(flags) ==> done <= SPACE)
    requires (va + done) % Size(leaf) == 0 && (pa + done) % Size(leaf) == 0 && FlagsOk(flags)
    ensures Gives(n', Filled(m, va, pa, flags, if ok then done + Size(leaf) else done))
    ensures ok && Present(flags) ==> done + Size(leaf) <= SPACE
    ensures ok && Present(flags) && NoneThere(m, va, done) ==> NoneThere(m, va, done + Size(leaf))
    ensures ok <==> !Refused(n, va, done, leaf, free)
    ensures ok ==> n' == PageOn(n, va, pa, flags, done, leaf) && free' == free - Lacking(n, va, done, leaf)
    ensures TablesIn(n') + free' == TablesIn(n) + free
  {
    var o, p := (va + done) % SPACE, (pa + done) % PHYSICAL;
    AlignedInSpace(va + done, Size(leaf), SPACE, 0);
    PhysicalOk(pa + done, flags, leaf);
    n', ok, free' := MapAt(n, Filled(m, va, pa, flags, done), o, leaf, p, flags, free);
    if ok && Present(flags) {
      NextFilled(n, m, va, pa, flags, done, leaf);
    }
  }

  /** A page that was not in use is behind what is mapped, and held nothing of the old map. */
  lemma NextFilled(n: Node, m: Space, va: nat, pa: nat, flags: nat, done: nat, leaf: nat)
    requires 1 <= leaf <= 2 && Present(flags) && Gives(n, Fill(m, va, pa, flags, done)) && done <= SPACE
    requires (va + done) % Size(leaf) == 0 && (pa + done) % Size(leaf) == 0 && !Taken(n, va, done, leaf)
    ensures done + Size(leaf) <= SPACE && (NoneThere(m, va, done) ==> NoneThere(m, va, done + Size(leaf)))
    ensures PutPage(Filled(m, va, pa, flags, done), (va + done) % SPACE, Size(leaf), (pa + done) % PHYSICAL, flags)
      == Filled(m, va, pa, flags, done + Size(leaf))
  {
    AlignedInSpace(va + done, Size(leaf), SPACE, 0);
    NoRoomToTurn(n, m, va, pa, flags, done, leaf);
    NoneInPage(n, m, va, pa, flags, done, leaf);
    FilledMore(m, va, pa, flags, done, leaf);
  }

  lemma FilledMore(m: Space, va: nat, pa: nat, flags: nat, done: nat, leaf: nat)
    requires 1 <= leaf <= 2 && Present(flags) && done + Size(leaf) <= SPACE && (va + done) % Size(leaf) == 0
    requires (pa + done) % Size(leaf) == 0
    ensures PutPage(Filled(m, va, pa, flags, done), (va + done) % SPACE, Size(leaf), (pa + done) % PHYSICAL, flags)
      == Filled(m, va, pa, flags, done + Size(leaf))
  {
    FillMore(m, va, pa, flags, done, Size(leaf));
  }

  /** A page that is not in use has no address of the old map. */
  lemma NoneInPage(n: Node, m: Space, va: nat, pa: nat, flags: nat, done: nat, leaf: nat)
    requires 1 <= leaf <= 2 && Gives(n, Fill(m, va, pa, flags, done)) && done + Size(leaf) <= SPACE
    requires (va + done) % Size(leaf) == 0
    requires (va + done) % SPACE % Size(leaf) == 0 && (va + done) % SPACE + Size(leaf) <= SPACE
    requires !Occupied(n, ROOT, (va + done) % SPACE, leaf)
    ensures NoneThere(m, va, done) ==> NoneThere(m, va, done + Size(leaf))
  {
    if NoneThere(m, va, done) {
      forall x: nat | x < SPACE && Behind(x, va) < done + Size(leaf)
        ensures x !in m
      {
        BehindNear(va, done, Size(leaf), x);
        FillAt(m, va, pa, flags, done, x);
        if x in m && Behind(x, va) >= done {
          TranslatedIsOccupied(n, ROOT, leaf, x, (va + done) % SPACE);
          assert false;
        }
      }
    }
  }

  lemma NoRoomToTurn(n: Node, m: Space, va: nat, pa: nat, flags: nat, done: nat, leaf: nat)
    requires 1 <= leaf <= 2 && Gives(n, Fill(m, va, pa, flags, done)) && done <= SPACE && (va + done) % Size(leaf) == 0
    requires (va + done) % SPACE + Size(leaf) <= SPACE && !Occupied(n, ROOT, (va + done) % SPACE, leaf)
    ensures done + Size(leaf) <= SPACE
  {
    if done + Size(leaf) > SPACE {
      FullCircle(n, m, va, pa, flags, done, leaf);
      assert false;
    }
  }
}

/** Tables on which the limits of mapping show. */
module PageExamples {
  import opened Division
  import opened PageSpace
  import opened PageTable
  import opened PageMapping

  const SUPERVISOR: nat := 3   // present, writable
  const USER_PAGE: nat := 7    // present, writable, user

  /** A root with nothing but a table for the first entry, made for the supervisor. */
  function Root(first: Node): Node {
    Table(seq(512, i => if i == 0 then first else Absent), SUPERVISOR)
  }

  lemma RootWf(first: Node)
    requires Wf(first, 4)
    ensures Wf(Root(first), ROOT)
  {}

  function NoEntries(): Node {
    Table(seq(512, _ => Absent), SUPERVISOR)
  }

  /** A page is mapped for the user below a table that was made for the supervisor: the user
      has no access to it. */
  method UserPageBelowSupervisorTable() returns (root: Node, ok: bool)
    ensures ok && Wf(root, ROOT) && Grants(USER_PAGE, User) && !Allows(root, ROOT, 0, User)
  {
    var before := Root(NoEntries());
    SupervisorOnly(before);
    var left;
    root, ok, left := MapFirstPage(before);
  }

  lemma SupervisorOnly(n: Node)
    requires n == Root(NoEntries())
    ensures Wf(n, ROOT) && n.Table?
    ensures Missing(n, ROOT, 0, 1) == 2 && !Occupied(n, ROOT, 0, 1) && !WayGrants(n, ROOT, 0, 1, User)
  {
    RootWf(NoEntries());
  }

  method MapFirstPage(n: Node) returns (n': Node, ok: bool, left: nat)
    requires Wf(n, ROOT) && n.Table? && Missing(n, ROOT, 0, 1) == 2 && !Occupied(n, ROOT, 0, 1)
    ensures ok && Wf(n', ROOT) && (Allows(n', ROOT, 0, User) <==> WayGrants(n, ROOT, 0, 1, User))
  {
    n', ok, left := MapAt(n, SpaceOf(n), 0, 1, 0, USER_PAGE, 2);
    FirstPageRights(n, n');
  }

  lemma FirstPageRights(n: Node, n': Node)
    requires Wf(n, ROOT) && Wf(n', ROOT) && RightsMapped(n, n', ROOT, 0, 1, EntryOf(0, USER_PAGE), User)
    ensures Allows(n', ROOT, 0, User) <==> WayGrants(n, ROOT, 0, 1, User)
  {}

  const LAST_PAGE: nat := 0xFFFF_FFFF_FFFF_F000

  /** The last page of the address space is mapped, and the answer is 0 as if it were not. */
  method LastPageAnswersZero() returns (root: Node, ok: bool, result: nat)
    ensures ok && result == 0 && Wf(root, ROOT) && root.Table? && LAST_PAGE % SPACE in SpaceOf(root)
  {
    var before := Root(Absent);
    RootWf(Absent);
    OnePage(before);
    root, ok, result := MapOne(before, LAST_PAGE, PAGE_SIZE, SUPERVISOR, 3);
  }

  method MapOne(n: Node, va: nat, len: nat, flags: nat, free: nat) returns (n': Node, ok: bool, result: nat)
    requires Wf(n, ROOT) && n.Table? && RangeOk(va, 0, len, 0) && FlagsOk(flags) && Present(flags) && va > 0 && len > 0
    requires Reach(n, va, 0, flags, 0, Pages(va, 0, len, 0), free) == len
    ensures ok && result == (va + len) % 0x1_0000_0000_0000_0000 && Wf(n', ROOT) && n'.Table?
    ensures va % SPACE in SpaceOf(n')
  {
    var done, left;
    n', ok, done, result, left := MapRange(n, va, 0, len, flags, free);
    FillAt(SpaceOf(n), va, 0, flags, len, va % SPACE);
    StartsAtZero(va);
  }

  lemma StartsAtZero(va: nat)
    ensures Behind(va % SPACE, va) == 0
  {
    DivMod(va, SPACE);
    assert va % SPACE - va == 0 - (va / SPACE) * SPACE;
  }

  lemma OnePage(n: Node)
    requires n == Root(Absent) && Wf(n, ROOT)
    ensures Reach(n, LAST_PAGE, 0, SUPERVISOR, 0, Pages(LAST_PAGE, 0, PAGE_SIZE, 0), 3) == PAGE_SIZE
  {
    var pages := Pages(LAST_PAGE, 0, PAGE_SIZE, 0);
    NextPage(LAST_PAGE, 0, PAGE_SIZE, 0, 1, PAGE_SIZE);
    var o := LAST_PAGE % SPACE;
    assert o / Size(4) == 511 && n.entries[511] == Absent;
    assert !Taken(n, LAST_PAGE, 0, 1) && Lacking(n, LAST_PAGE, 0, 1) == 3;
    ReachOne(n, LAST_PAGE, 0, SUPERVISOR, 0, 1, pages, 3);
  }
}
