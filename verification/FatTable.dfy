/**
 The three encodings of the file allocation table, as kernel/src/fs/fat/fat_table.c reads and
 writes them (section "FAT Data Structure" of the Microsoft FAT32 File System Specification).
 */
module FatEncoding {
  datatype Bits = Fat12 | Fat16 | Fat32

  type Byte = x: nat | x < 256
  type Bytes = seq<Byte>

  function EntryPos(bits: Bits, c: nat): nat {
    if bits.Fat12? then c * 3 / 2 else if bits.Fat16? then c * 2 else c * 4
  }

  function EntryWidth(bits: Bits): nat {
    if bits.Fat32? then 4 else 2
  }

  predicate HasEntry(bits: Bits, b: Bytes, c: nat) {
    EntryPos(bits, c) + EntryWidth(bits) <= |b|
  }

  /** The entry as it is stored. */
  function Raw(bits: Bits, b: Bytes, c: nat): nat
    requires HasEntry(bits, b, c)
  {
    var p := EntryPos(bits, c);
    var x: nat, y: nat := b[p], b[p + 1];
    if bits.Fat12? then (if c % 2 == 0 then x + y % 16 * 256 else x / 16 + y * 16)
    else if bits.Fat16? then x + y * 0x100
    else
      var z: nat, w: nat := b[p + 2], b[p + 3];
      x + y * 0x100 + z * 0x1_0000 + w * 0x100_0000
  }

  /** The bytes that replace those of entry `c` to store `v` in it. */
  function Patch(bits: Bits, b: Bytes, c: nat, v: nat): (r: Bytes)
    requires HasEntry(bits, b, c)
    ensures |r| == EntryWidth(bits)
  {
    var p := EntryPos(bits, c);
    if bits.Fat12? then
      if c % 2 == 0 then [v % 256, b[p + 1] / 16 * 16 + v / 256 % 16]
      else [b[p] % 16 + v % 16 * 16, v / 16 % 256]
    else if bits.Fat16? then [v % 256, v / 0x100 % 256]
    else [v % 256, v / 0x100 % 256, v / 0x1_0000 % 256, v / 0x100_0000 % 256]
  }

  function Splice<T>(b: seq<T>, p: nat, data: seq<T>): (r: seq<T>)
    requires p + |data| <= |b|
    ensures |r| == |b|
  {
    b[..p] + data + b[p + |data|..]
  }

  function Limit(bits: Bits): nat {
    if bits.Fat12? then 0x1000 else if bits.Fat16? then 0x1_0000 else 0x1_0000_0000
  }

  function Set(bits: Bits, b: Bytes, c: nat, v: nat): (r: Bytes)
    requires HasEntry(bits, b, c)
    ensures |r| == |b|
  {
    Splice(b, EntryPos(bits, c), Patch(bits, b, c, v))
  }

  lemma Nibbles(x: nat, y: nat)
    requires y < 16
    ensures (x / 16 * 16 + y) / 16 == x / 16 && (x / 16 * 16 + y) % 16 == y
    ensures (x % 16 + y * 16) % 16 == x % 16 && (x % 16 + y * 16) / 16 == y
  {}

  lemma FourBytes(v: nat)
    ensures v == v % 256 + 0x100 * (v / 0x100 % 256) + 0x1_0000 * (v / 0x1_0000 % 256) + 0x100_0000 * (v / 0x100_0000)
  {
    var a, b := v / 0x100, v / 0x1_0000;
    assert v == v % 256 + 0x100 * a;
    assert b == a / 0x100 && a == a % 256 + 0x100 * b;
    assert v / 0x100_0000 == b / 0x100 && b == b % 256 + 0x100 * (b / 0x100);
  }

  /** What was stored is read ... */
  lemma SetThenRead(bits: Bits, b: Bytes, c: nat, v: nat)
    requires HasEntry(bits, b, c) && v < Limit(bits)
    ensures Raw(bits, Set(bits, b, c, v), c) == v
  {
    var p, w, s := EntryPos(bits, c), Patch(bits, b, c, v), Set(bits, b, c, v);
    assert s[p] == w[0] && s[p + 1] == w[1];
    match bits
    case Fat12 =>
      if c % 2 == 0 {
        Even12(v, b[p + 1]);
      } else {
        Odd12(v, b[p]);
      }
    case Fat16 =>
      Bytes16(v);
    case Fat32 =>
      assert s[p + 2] == w[2] && s[p + 3] == w[3];
      Bytes32(v);
  }

  lemma Bytes16(v: nat)
    requires v < 0x1_0000
    ensures v % 256 + v / 0x100 % 256 * 0x100 == v
  {}

  lemma Bytes32(v: nat)
    requires v < 0x1_0000_0000
    ensures v % 256 + v / 0x100 % 256 * 0x100 + v / 0x1_0000 % 256 * 0x1_0000 + v / 0x100_0000 % 256 * 0x100_0000 == v
  {
    FourBytes(v);
    assert v / 0x100_0000 % 256 == v / 0x100_0000;
  }

  lemma Even12(v: nat, x: nat)
    requires v < 0x1000
    ensures v % 256 + (x / 16 * 16 + v / 256 % 16) % 16 * 256 == v
  {
    Nibbles(x, v / 256 % 16);
  }

  lemma Odd12(v: nat, x: nat)
    requires v < 0x1000
    ensures (x % 16 + v % 16 * 16) / 16 + v / 16 % 256 * 16 == v
  {
    Nibbles(x, v % 16);
  }

  lemma Outside(bits: Bits, b: Bytes, c: nat, v: nat, i: nat)
    requires HasEntry(bits, b, c) && i < |b| && !(EntryPos(bits, c) <= i < EntryPos(bits, c) + EntryWidth(bits))
    ensures Set(bits, b, c, v)[i] == b[i]
  {}

  /** ... and the other entries are as before, also the one that shares a byte with it. */
  lemma SetKeepsOthers(bits: Bits, b: Bytes, c: nat, v: nat, d: nat)
    requires HasEntry(bits, b, c) && HasEntry(bits, b, d) && c != d
    ensures Raw(bits, Set(bits, b, c, v), d) == Raw(bits, b, d)
  {
    var q := EntryPos(bits, d);
    match bits
    case Fat12 =>
      Keeps12(b, c, v, d);
    case Fat16 =>
      Outside(bits, b, c, v, q);
      Outside(bits, b, c, v, q + 1);
    case Fat32 =>
      Outside(bits, b, c, v, q);
      Outside(bits, b, c, v, q + 1);
      Outside(bits, b, c, v, q + 2);
      Outside(bits, b, c, v, q + 3);
  }

  lemma Keeps12(b: Bytes, c: nat, v: nat, d: nat)
    requires HasEntry(Fat12, b, c) && HasEntry(Fat12, b, d) && c != d
    ensures Raw(Fat12, Set(Fat12, b, c, v), d) == Raw(Fat12, b, d)
  {
    var p, q, s := EntryPos(Fat12, c), EntryPos(Fat12, d), Set(Fat12, b, c, v);
    Pos12(c);
    Pos12(d);
    if c % 2 == 0 && d == c + 1 {
      assert q == p + 1 && s[q] == b[q] / 16 * 16 + v / 256 % 16;
      Nibbles(b[q], v / 256 % 16);
      Outside(Fat12, b, c, v, q + 1);
    } else if c % 2 == 1 && d == c - 1 {
      assert p == q + 1 && s[p] == b[p] % 16 + v % 16 * 16;
      Nibbles(b[p], v % 16);
      Outside(Fat12, b, c, v, q);
    } else {
      Apart12(c, d);
      Outside(Fat12, b, c, v, q);
      Outside(Fat12, b, c, v, q + 1);
    }
  }

  lemma Pos12(c: nat)
    ensures c * 3 / 2 == c / 2 * 3 + c % 2
  {}

  lemma Apart12(c: nat, d: nat)
    requires c != d && !(c % 2 == 0 && d == c + 1) && !(c % 2 == 1 && d == c - 1)
    ensures c * 3 / 2 + 2 <= d * 3 / 2 || d * 3 / 2 + 2 <= c * 3 / 2
  {
    var k, m := c / 2, d / 2;
    Pos12(c);
    Pos12(d);
    assert c == 2 * k + c % 2 && d == 2 * m + d % 2;
    assert k != m;
  }
}

/** The table in memory and its copies on disk. */
module FatTables {
  import opened Wrappers
  import opened Division
  import opened FatEncoding
  import opened FatLayout

  const SECTOR: nat := 512

  /** From here on `table_at` and `is_cluster_eof` take an entry for the end of a chain. */
  function Reserved(bits: Bits): nat {
    match bits
    case Fat12 => 0xff0
    case Fat16 => 0xfff0
    case Fat32 => 0xfff_fff0
  }

  /** The mark of the end of a chain. */
  function Eoc(bits: Bits): nat {
    match bits
    case Fat12 => 0xfff
    case Fat16 => 0xffff
    case Fat32 => 0xfff_ffff
  }

  /** A stored entry as `table_at` returns it, without the four bits that are ignored. */
  function Next(bits: Bits, raw: nat): nat {
    match bits
    case Fat12 => if raw / 16 % 256 == 0xff then 0xfff_fff0 + raw % 16 else raw % 0x1000_0000
    case Fat16 => if raw / 16 % 4096 == 0xfff then 0xfff_fff0 + raw % 16 else raw % 0x1000_0000
    case Fat32 => raw % 0x1000_0000
  }

  /** The number of a cluster reads back as a link exactly below the reserved values. */
  lemma LinkReadsBack(bits: Bits, v: nat)
    requires v < Limit(bits) && v < 0x1000_0000
    ensures Next(bits, v) == v && v < 0xfff_fff0 <==> v < Reserved(bits)
  {}

  /** The values from the reserved ones on are read as those of the 28-bit encoding, in order. */
  lemma NextIs(bits: Bits, v: nat)
    requires v < Limit(bits)
    ensures var low := v % 0x1000_0000;
      Next(bits, v) == if low < Reserved(bits) then low else 0xfff_fff0 + (low - Reserved(bits))
  {}

  /** A chain that the allocator closes reads as closed. */
  lemma EocReadsBack(bits: Bits)
    ensures Next(bits, Eoc(bits)) == 0xfff_ffff && Eoc(bits) < Limit(bits)
  {}

  class FatTable {
    const bits: Bits
    const count: nat       // cluster_count
    var buffer: Bytes
    var copies: seq<Bytes>

    /** The table of a volume, as read from the first copy. */
    constructor (bits: Bits, count: nat, buffer: Bytes, copies: seq<Bytes>)
      requires (forall i :: 0 <= i < |copies| ==> copies[i] == buffer) && |buffer| % SECTOR == 0
      requires count + 2 <= Limit(bits) && Roomy(bits, buffer, count)
      ensures Valid() && this.bits == bits && this.count == count && this.buffer == buffer && this.copies == copies
    {
      this.bits, this.count, this.buffer, this.copies := bits, count, buffer, copies;
    }

    /** The copies on disk equal the table in memory, which has room for every cluster. */
    ghost predicate Valid()
      reads this
    {
      && (forall i :: 0 <= i < |copies| ==> copies[i] == buffer) && |buffer| % SECTOR == 0
      && count + 2 <= Limit(bits) && Roomy(bits, buffer, count)
    }

    ghost function Entries(): (r: seq<nat>)
      requires Roomy(bits, buffer, count)
      reads this
      ensures |r| == count + 2 && forall c :: 0 <= c < count + 2 ==> r[c] == Raw(bits, buffer, c)
    {
      EntriesOf(bits, buffer, count)
    }

    /** `fat_table_write`: the sectors that changed go to one copy after the other; writing copy
        number `bad`, if there is one, fails, leaving any bytes of `junk` in these sectors, and
        ends it. */
    method Write(pos: nat, data: Bytes, bad: Option<nat>, junk: Bytes) returns (ok: bool)
      requires Valid() && pos + |data| <= |buffer| && data != [] && |junk| == |buffer|
      modifies this
      ensures buffer == Splice(old(buffer), pos, data) && |copies| == |old(copies)|
      ensures ok <==> bad.None? || bad.value >= |copies|
      ensures ok ==> Valid()
      ensures !ok ==>
        forall i :: 0 <= i < |copies| && i != bad.value ==> copies[i] == if i < bad.value then buffer else old(buffer)
      ensures !ok ==> Torn(old(buffer), copies[bad.value], junk, pos, |data|)
    {
      ghost var was := buffer;
      buffer := Splice(buffer, pos, data);
      SectorsCover(pos, |data|, |buffer|);
      var sectorPos := pos / SECTOR;
      var front := sectorPos * SECTOR;
      var sectors := (pos - front + |data| + SECTOR - 1) / SECTOR;
      var end := front + sectors * SECTOR;
      TornCopy(was, junk, pos, |data|, front, end);
      CopyAgrees(was, buffer, pos, |data|, front, end);
      SameRoom(bits, was, buffer, count);
      ok := WriteCopies(was, front, end, bad, junk);
    }

    /** The loop of `fat_table_write`. */
    method WriteCopies(ghost was: Bytes, front: nat, end: nat, bad: Option<nat>, junk: Bytes) returns (ok: bool)
      requires front <= end <= |was| == |buffer| == |junk| && CopiesUpTo(copies, 0, buffer, was)
      requires Splice(was, front, buffer[front..end]) == buffer
      modifies this`copies
      ensures |copies| == |old(copies)| && (ok <==> bad.None? || bad.value >= |copies|)
      ensures ok ==> CopiesUpTo(copies, |copies|, buffer, was)
      ensures !ok ==> copies[bad.value] == Splice(was, front, junk[front..end])
      ensures !ok ==>
        forall i :: 0 <= i < |copies| && i != bad.value ==> copies[i] == if i < bad.value then buffer else was
    {
      for i := 0 to |copies|
        invariant |copies| == |old(copies)| && CopiesUpTo(copies, i, buffer, was) && (bad.Some? ==> i <= bad.value)
      {
        if bad == Some(i) {
          copies := copies[i := Splice(copies[i], front, junk[front..end])];
          return false;
        }
        copies := copies[i := Splice(copies[i], front, buffer[front..end])];
      }
      return true;
    }

    method TableAt(c: nat) returns (entry: Option<nat>)
      requires Valid()
      ensures c < count + 2 ==> entry == Some(Next(bits, Entries()[c])) && Stores(bits, buffer, c, Entries()[c])
      ensures entry.Some? <==> HasEntry(bits, buffer, c)
    {
      if !HasEntry(bits, buffer, c) {
        return None;
      }
      RawStored(bits, buffer, c);
      return Some(Next(bits, Raw(bits, buffer, c)));
    }

    method TableSet(c: nat, v: nat)
      requires Valid() && c < count + 2 && v < Limit(bits)
      modifies this
      ensures Valid() && Entries() == old(Entries())[c := v] && Stores(bits, buffer, c, v)
    {
      ghost var was := buffer;
      var _ := Write(EntryPos(bits, c), Patch(bits, buffer, c, v), None, buffer);
      assert buffer == Set(bits, was, c, v);
      SetThenRead(bits, was, c, v);
      RawStored(bits, buffer, c);
      forall d | 0 <= d < count + 2 && d != c
        ensures Raw(bits, buffer, d) == Raw(bits, was, d)
      {
        SetKeepsOthers(bits, was, c, v, d);
      }
    }

    /** The search of `table_alloc`: the first free entry. */
    method FindFree() returns (c: nat)
      requires Valid()
      ensures 2 <= c <= count + 2 && (forall d :: 2 <= d < c ==> Entries()[d] != 0)
      ensures c < count + 2 ==> Entries()[c] == 0
    {
      if bits.Fat12? {
        c := FindFree12();
        return;
      }
      c := 2;
      while c < count + 2 && Raw(bits, buffer, c) != 0
        invariant 2 <= c <= count + 2 && forall d :: 2 <= d < c ==> Entries()[d] != 0
      {
        c := c + 1;
      }
    }

    /** The search of `fat12_table_alloc`, which looks at two entries at a time. */
    method FindFree12() returns (c: nat)
      requires Valid() && bits.Fat12?
      ensures 2 <= c <= count + 2 && (forall d :: 2 <= d < c ==> Entries()[d] != 0)
      ensures c < count + 2 ==> Entries()[c] == 0
    {
      var pair := 1;
      while pair * 2 < count + 2
        invariant 1 <= pair && pair * 2 <= count + 3
        invariant forall d :: 2 <= d < pair * 2 && d < count + 2 ==> Entries()[d] != 0
        decreases count + 2 - pair * 2
      {
        PairPos(pair);
        var x: nat, y: nat, z: nat := buffer[pair * 3], buffer[pair * 3 + 1], buffer[pair * 3 + 2];
        var e1, e2 := x + y % 16 * 256, y / 16 + z * 16;
        assert e1 == Entries()[pair * 2];
        if e1 == 0 {
          return pair * 2;
        }
        if e2 == 0 {
          return if pair * 2 + 1 < count + 2 then pair * 2 + 1 else count + 2;
        }
        pair := pair + 1;
      }
      c := count + 2;
    }

    /** `table_alloc`: the first free cluster becomes a chain of its own. */
    method TableAlloc() returns (c: Option<nat>)
      requires Valid()
      modifies this
      ensures Valid()
      ensures c.None? <==> forall d :: 2 <= d < count + 2 ==> old(Entries())[d] != 0
      ensures c.None? ==> Entries() == old(Entries())
      ensures c.Some? ==> IsFirstFree(old(Entries()), c.value) && Entries() == old(Entries())[c.value := Eoc(bits)]
    {
      ghost var was := Entries();
      var free := FindFree();
      assert Entries() == was;
      if free == count + 2 {
        assert forall d :: 2 <= d < count + 2 ==> was[d] != 0;
        return None;
      }
      EocReadsBack(bits);
      TableSet(free, Eoc(bits));
      return Some(free);
    }

    /** `fat_table_append`: only the last cluster of a chain can be continued. */
    method Append(c: nat) returns (next: Option<nat>)
      requires Valid() && c < count + 2
      modifies this
      ensures Valid()
      ensures next.None? ==> Entries() == old(Entries())
      ensures next.None? <==>
        Next(bits, old(Entries())[c]) < 0xfff_fff8 || forall d :: 2 <= d < count + 2 ==> old(Entries())[d] != 0
      ensures next.Some? ==> IsFirstFree(old(Entries()), next.value)
      ensures next.Some? ==> Entries() == old(Entries())[next.value := Eoc(bits)][c := next.value]
    {
      var entry := TableAt(c);
      if entry.value < 0xfff_fff8 {
        return None;
      }
      next := TableAlloc();
      if next.Some? {
        TableSet(c, next.value);
      }
    }
  }

  /** The first `n` copies are up to date. */
  ghost predicate CopiesUpTo(copies: seq<Bytes>, n: nat, now: Bytes, was: Bytes) {
    && (forall i :: 0 <= i < n && i < |copies| ==> copies[i] == now)
    && (forall i :: n <= i < |copies| ==> copies[i] == was)
  }

  /** A copy has `junk` in the sectors around `pos .. pos + len`. */
  ghost predicate Torn(was: Bytes, copy: Bytes, junk: Bytes, pos: nat, len: nat) {
    && |copy| == |was| == |junk|
    && forall x :: 0 <= x < |copy| ==> copy[x] == if RoundDown(pos) <= x < RoundUp(pos + len) then junk[x] else was[x]
  }

  /** The start of the sector that holds `x`. */
  function RoundDown(x: nat): nat {
    x / SECTOR * SECTOR
  }

  /** The end of the sector that holds the byte before `x`. */
  function RoundUp(x: nat): nat {
    (x + SECTOR - 1) / SECTOR * SECTOR
  }

  /** Cluster `c` is free and all before it are in use. */
  ghost predicate IsFirstFree(entries: seq<nat>, c: nat) {
    2 <= c < |entries| && entries[c] == 0 && forall d :: 2 <= d < c ==> entries[d] != 0
  }

  /** Every cluster has its entry; for FAT12 also the other half of the last pair. */
  ghost predicate Roomy(bits: Bits, b: Bytes, count: nat) {
    && (forall c :: 0 <= c < count + 2 ==> HasEntry(bits, b, c))
    && (bits.Fat12? ==> (count + 3) / 2 * 3 <= |b|)
  }

  lemma SameRoom(bits: Bits, b: Bytes, b': Bytes, count: nat)
    requires Roomy(bits, b, count) && |b'| == |b|
    ensures Roomy(bits, b', count)
  {
    forall c | 0 <= c < count + 2
      ensures HasEntry(bits, b', c)
    {
      assert HasEntry(bits, b, c);
    }
  }

  ghost function EntriesOf(bits: Bits, b: Bytes, count: nat): (r: seq<nat>)
    requires Roomy(bits, b, count)
    ensures |r| == count + 2 && forall c :: 0 <= c < count + 2 ==> r[c] == Raw(bits, b, c)
  {
    seq(count + 2, c requires 0 <= c < count + 2 => Raw(bits, b, c))
  }

  lemma PairPos(pair: nat)
    ensures pair * 2 * 3 / 2 == pair * 3 && (pair * 2 + 1) * 3 / 2 == pair * 3 + 1
    ensures pair * 2 % 2 == 0 && (pair * 2 + 1) % 2 == 1
  {}

  /** The sectors counted from `front` on are those around the change. */
  lemma SectorsCover(pos: nat, len: nat, total: nat)
    requires pos + len <= total && total % SECTOR == 0 && len > 0
    ensures RoundDown(pos) + (pos - RoundDown(pos) + len + SECTOR - 1) / SECTOR * SECTOR == RoundUp(pos + len)
    ensures RoundDown(pos) <= pos && pos + len <= RoundUp(pos + len) <= total
  {
    DivMod(pos, SECTOR);
    var sum := pos % SECTOR + len + SECTOR - 1;
    DivMod(sum, SECTOR);
    DivUnique(pos + len + SECTOR - 1, SECTOR, pos / SECTOR + sum / SECTOR, sum % SECTOR);
  }

  /** A failing write of the sectors `front .. end` tears the copy. */
  lemma TornCopy(was: Bytes, junk: Bytes, pos: nat, len: nat, front: nat, end: nat)
    requires |junk| == |was| && front == RoundDown(pos) && end == RoundUp(pos + len) && front <= end <= |was|
    ensures Torn(was, Splice(was, front, junk[front..end]), junk, pos, len)
  {}

  /** Whole sectors around the change bring a copy up to date. */
  lemma CopyAgrees(was: Bytes, now: Bytes, pos: nat, len: nat, front: nat, end: nat)
    requires |was| == |now| && front <= pos && pos + len <= end <= |was|
    requires forall i :: 0 <= i < |was| && !(pos <= i < pos + len) ==> now[i] == was[i]
    ensures Splice(was, front, now[front..end]) == now
  {}
}
