/** Cluster chains in the file allocation table. */
module FatChains {
  import opened FatEncoding
  import opened FatTables

  /** `is_cluster_eof`: not the number of a cluster. */
  predicate IsEof(count: nat, cluster: nat) {
    !(2 <= cluster < 0xfff_fff0 && cluster - 2 < count)
  }

  /** `cs` are the clusters of a chain, in order, each once. */
  ghost predicate ChainOk(bits: Bits, count: nat, entries: seq<nat>, cs: seq<nat>) {
    && |entries| == count + 2
    && (forall i :: 0 <= i < |cs| ==> 2 <= cs[i] < count + 2)
    && (forall i, j :: 0 <= i < j < |cs| ==> cs[i] != cs[j])
    && (forall i :: 0 <= i < |cs| - 1 ==> Next(bits, entries[cs[i]]) == cs[i + 1])
    && (forall i :: 1 <= i < |cs| ==> cs[i] < 0xfff_fff0)
    && (cs != [] ==> Next(bits, entries[cs[|cs| - 1]]) >= 0xfff_fff8)
  }

  ghost predicate Apart(cs: seq<nat>, ds: seq<nat>) {
    forall c :: c in cs ==> c !in ds
  }

  /** The chain of the file and those of all others: no cluster is in two of them. */
  ghost predicate ChainsOk(bits: Bits, count: nat, entries: seq<nat>, cs: seq<nat>, others: seq<seq<nat>>) {
    ChainOk(bits, count, entries, cs)
      && forall k :: 0 <= k < |others| ==> ChainOk(bits, count, entries, others[k]) && Apart(cs, others[k])
  }

  /** The clusters of a chain are not free. */
  lemma InUse(bits: Bits, count: nat, entries: seq<nat>, cs: seq<nat>, i: nat)
    requires ChainOk(bits, count, entries, cs) && i < |cs|
    ensures entries[cs[i]] != 0
  {
    assert Next(bits, 0) == 0;
    if i < |cs| - 1 {
      assert Next(bits, entries[cs[i]]) == cs[i + 1];
    }
  }

  /** The next cluster of the chain, or the end. */
  lemma FollowChain(bits: Bits, count: nat, entries: seq<nat>, cs: seq<nat>, i: nat)
    requires ChainOk(bits, count, entries, cs) && i < |cs| && count + 2 <= Reserved(bits)
    ensures 2 <= cs[i] < count + 2 && !IsEof(count, cs[i])
    ensures var next := Next(bits, entries[cs[i]]);
      if i + 1 < |cs| then next == cs[i + 1] && !IsEof(count, next) else IsEof(count, next) && next >= 0xfff_fff8
  {
    if i + 1 < |cs| {
      assert 2 <= cs[i + 1] < count + 2;
    } else {
      assert i == |cs| - 1;
    }
  }

  /** A free cluster is linked behind the last one. */
  lemma Grown(bits: Bits, count: nat, entries: seq<nat>, cs: seq<nat>, c: nat)
    requires ChainOk(bits, count, entries, cs) && cs != [] && 2 <= c < count + 2 <= Reserved(bits) && entries[c] == 0
    ensures ChainOk(bits, count, entries[c := Eoc(bits)][cs[|cs| - 1] := c], cs + [c])
  {
    forall i | 0 <= i < |cs|
      ensures cs[i] != c
    {
      InUse(bits, count, entries, cs, i);
    }
    LinkReadsBack(bits, c);
    EocReadsBack(bits);
  }

  /** Linking any free cluster behind the last one: the result reads as one chain if and only
      if the number of the cluster is below the reserved ones. */
  lemma GrownIff(bits: Bits, count: nat, entries: seq<nat>, cs: seq<nat>, c: nat)
    requires ChainOk(bits, count, entries, cs) && cs != []
    requires 2 <= c < count + 2 <= Limit(bits) && c < 0x1000_0000 && entries[c] == 0
    ensures ChainOk(bits, count, entries[c := Eoc(bits)][cs[|cs| - 1] := c], cs + [c]) <==> c < Reserved(bits)
  {
    LinkReadsBack(bits, c);
    forall i | 0 <= i < |cs|
      ensures cs[i] != c
    {
      InUse(bits, count, entries, cs, i);
    }
    EocReadsBack(bits);
    var last, cs' := |cs| - 1, cs + [c];
    assert cs'[last] == cs[last] && cs'[last + 1] == c;
  }

  lemma Started(bits: Bits, count: nat, entries: seq<nat>, c: nat)
    requires |entries| == count + 2 && 2 <= c < count + 2
    ensures ChainOk(bits, count, entries[c := Eoc(bits)], [c])
  {
    EocReadsBack(bits);
  }

  /** Other chains are neither changed nor met. */
  lemma OtherKept(bits: Bits, count: nat, entries: seq<nat>, entries': seq<nat>, cs: seq<nat>, other: seq<nat>, c: nat)
    requires ChainOk(bits, count, entries, other) && Apart(cs, other) && c < count + 2 && entries[c] == 0
    requires |entries'| == |entries|
    requires forall d :: 0 <= d < |entries| && d != c && d !in cs ==> entries'[d] == entries[d]
    ensures ChainOk(bits, count, entries', other) && Apart(cs + [c], other)
  {
    forall i | 0 <= i < |other|
      ensures other[i] != c && entries'[other[i]] == entries[other[i]]
    {
      InUse(bits, count, entries, other, i);
      assert other[i] in other;
    }
  }

  lemma AllGrown(bits: Bits, count: nat, entries: seq<nat>, cs: seq<nat>, others: seq<seq<nat>>, c: nat)
    requires ChainsOk(bits, count, entries, cs, others) && cs != [] && 2 <= c < count + 2 <= Reserved(bits)
    requires entries[c] == 0
    ensures ChainsOk(bits, count, entries[c := Eoc(bits)][cs[|cs| - 1] := c], cs + [c], others)
  {
    var entries' := entries[c := Eoc(bits)][cs[|cs| - 1] := c];
    Grown(bits, count, entries, cs, c);
    assert cs[|cs| - 1] in cs;
    forall k | 0 <= k < |others|
      ensures ChainOk(bits, count, entries', others[k]) && Apart(cs + [c], others[k])
    {
      OtherKept(bits, count, entries, entries', cs, others[k], c);
    }
  }

  lemma AllStarted(bits: Bits, count: nat, entries: seq<nat>, others: seq<seq<nat>>, c: nat)
    requires ChainsOk(bits, count, entries, [], others) && 2 <= c < count + 2 && entries[c] == 0
    ensures ChainsOk(bits, count, entries[c := Eoc(bits)], [c], others)
  {
    Started(bits, count, entries, c);
    forall k | 0 <= k < |others|
      ensures ChainOk(bits, count, entries[c := Eoc(bits)], others[k]) && Apart([c], others[k])
    {
      OtherKept(bits, count, entries, entries[c := Eoc(bits)], [], others[k], c);
      assert [] + [c] == [c];
    }
  }

  /** The first `n` clusters of the chain are free; all other entries are as before. */
  ghost predicate Freed(entries: seq<nat>, entries': seq<nat>, cs: seq<nat>, n: nat) {
    && |entries'| == |entries| && n <= |cs|
    && (forall i :: 0 <= i < n ==> cs[i] < |entries| && entries'[cs[i]] == 0)
    && (forall d :: 0 <= d < |entries| && d !in cs[..n] ==> entries'[d] == entries[d])
  }

  lemma FreedMore(entries: seq<nat>, entries': seq<nat>, cs: seq<nat>, n: nat)
    requires Freed(entries, entries', cs, n) && n < |cs| && cs[n] < |entries|
    ensures Freed(entries, entries'[cs[n] := 0], cs, n + 1)
  {
    assert cs[..n + 1] == cs[..n] + [cs[n]];
  }

  lemma AllFreed(bits: Bits, count: nat, entries: seq<nat>, entries': seq<nat>, cs: seq<nat>, others: seq<seq<nat>>)
    requires ChainsOk(bits, count, entries, cs, others) && Freed(entries, entries', cs, |cs|)
    ensures ChainsOk(bits, count, entries', [], others)
  {
    assert cs[..|cs|] == cs;
    forall k | 0 <= k < |others|
      ensures ChainOk(bits, count, entries', others[k])
    {
      forall i | 0 <= i < |others[k]|
        ensures entries'[others[k][i]] == entries[others[k][i]]
      {
        assert others[k][i] in others[k];
      }
    }
  }

  /** The entries of clusters outside `cs` are the same. */
  ghost predicate SameOutside(entries: seq<nat>, entries': seq<nat>, cs: seq<nat>) {
    |entries'| == |entries| && forall d :: 0 <= d < |entries| && d !in cs ==> entries'[d] == entries[d]
  }

  lemma SameOutsideBoth(e: seq<nat>, e': seq<nat>, e'': seq<nat>, cs: seq<nat>, cs': seq<nat>)
    requires SameOutside(e, e', cs) && SameOutside(e', e'', cs') && |cs| <= |cs'| && cs'[..|cs|] == cs
    ensures SameOutside(e, e'', cs')
  {
    forall d | 0 <= d < |e| && d !in cs'
      ensures e''[d] == e[d]
    {
      assert d !in cs;
    }
  }

  // ---------------------------------------------------------------- free clusters

  /** The free clusters from `i` on, in the order in which they are handed out. */
  function FreeFrom(entries: seq<nat>, i: nat): seq<nat>
    decreases |entries| - i
  {
    if i >= |entries| then []
    else if entries[i] == 0 then [i] + FreeFrom(entries, i + 1) else FreeFrom(entries, i + 1)
  }

  function FreeClusters(entries: seq<nat>): seq<nat> {
    FreeFrom(entries, 2)
  }

  lemma {:induction false} NoneFree(entries: seq<nat>, i: nat)
    ensures FreeFrom(entries, i) == [] <==> forall d :: i <= d < |entries| ==> entries[d] != 0
    decreases |entries| - i
  {
    if i < |entries| {
      NoneFree(entries, i + 1);
    }
  }

  lemma {:induction false} FreeFromFirst(entries: seq<nat>, i: nat, c: nat)
    requires i <= c < |entries| && entries[c] == 0 && forall d :: i <= d < c ==> entries[d] != 0
    ensures FreeFrom(entries, i) == [c] + FreeFrom(entries, c + 1)
    decreases c - i
  {
    if i < c {
      FreeFromFirst(entries, i + 1, c);
    }
  }

  lemma {:induction false} FreeFromSkips(entries: seq<nat>, i: nat, c: nat)
    requires i <= c <= |entries| && forall d :: i <= d < c ==> entries[d] != 0
    ensures FreeFrom(entries, i) == FreeFrom(entries, c)
    decreases c - i
  {
    if i < c {
      FreeFromSkips(entries, i + 1, c);
    }
  }

  lemma {:induction false} SameFree(e: seq<nat>, e': seq<nat>, i: nat)
    requires |e'| == |e| && forall d :: i <= d < |e| ==> (e'[d] == 0 <==> e[d] == 0)
    ensures FreeFrom(e', i) == FreeFrom(e, i)
    decreases |e| - i
  {
    if i < |e| {
      SameFree(e, e', i + 1);
    }
  }

  /** Handing out the first free cluster. */
  lemma FirstTaken(e: seq<nat>, e': seq<nat>, c: nat)
    requires |e'| == |e| && IsFirstFree(e, c) && e'[c] != 0
    requires forall d :: 0 <= d < |e| && d != c ==> (e'[d] == 0 <==> e[d] == 0)
    ensures FreeClusters(e) == [c] + FreeClusters(e')
  {
    FreeFromFirst(e, 2, c);
    FreeFromSkips(e', 2, c + 1);
    SameFree(e, e', c + 1);
  }

  lemma {:induction false} AllFree(entries: seq<nat>, i: nat)
    requires i <= |entries| && forall d :: i <= d < |entries| ==> entries[d] == 0
    ensures |FreeFrom(entries, i)| == |entries| - i && (i < |entries| ==> FreeFrom(entries, i)[0] == i)
    decreases |entries| - i
  {
    if i < |entries| {
      AllFree(entries, i + 1);
    }
  }

  /** They are free, each once and in ascending order, and no others are. */
  lemma {:induction false} FreeFromAre(entries: seq<nat>, i: nat)
    ensures forall k :: 0 <= k < |FreeFrom(entries, i)| ==> i <= FreeFrom(entries, i)[k] < |entries|
    ensures forall k, l :: 0 <= k < l < |FreeFrom(entries, i)| ==> FreeFrom(entries, i)[k] < FreeFrom(entries, i)[l]
    ensures forall c :: c in FreeFrom(entries, i) <==> i <= c < |entries| && entries[c] == 0
    decreases |entries| - i
  {
    if i < |entries| {
      FreeFromAre(entries, i + 1);
      if entries[i] == 0 {
        var rest := FreeFrom(entries, i + 1);
        assert FreeFrom(entries, i) == [i] + rest;
      }
    }
  }

  /** The chain `cs0` has grown to `cs` by the first free clusters, which are in use now. */
  ghost predicate Allocated(entries0: seq<nat>, entries: seq<nat>, cs0: seq<nat>, cs: seq<nat>) {
    && |cs0| <= |cs| <= |cs0| + |FreeClusters(entries0)|
    && cs == cs0 + FreeClusters(entries0)[..|cs| - |cs0|]
    && FreeClusters(entries) == FreeClusters(entries0)[|cs| - |cs0|..]
  }

  lemma AllocatedOne(e: seq<nat>, e': seq<nat>, cs: seq<nat>, c: nat)
    requires FreeClusters(e) == [c] + FreeClusters(e')
    ensures Allocated(e, e', cs, cs + [c])
  {}

  lemma AllocatedBoth(e: seq<nat>, e': seq<nat>, e'': seq<nat>, cs: seq<nat>, cs': seq<nat>, cs'': seq<nat>)
    requires Allocated(e, e', cs, cs') && Allocated(e', e'', cs', cs'')
    ensures Allocated(e, e'', cs, cs'')
  {
    var f, j, k := FreeClusters(e), |cs'| - |cs|, |cs''| - |cs'|;
    assert f[..j] + f[j..][..k] == f[..j + k];
    assert f[j..][k..] == f[j + k..];
  }

  lemma HandedOn(bits: Bits, count: nat, entries: seq<nat>, cs: seq<nat>, c: nat)
    requires ChainOk(bits, count, entries, cs) && cs != [] && IsFirstFree(entries, c)
    ensures Allocated(entries, entries[c := Eoc(bits)][cs[|cs| - 1] := c], cs, cs + [c])
  {
    InUse(bits, count, entries, cs, |cs| - 1);
    FirstTaken(entries, entries[c := Eoc(bits)][cs[|cs| - 1] := c], c);
    AllocatedOne(entries, entries[c := Eoc(bits)][cs[|cs| - 1] := c], cs, c);
  }

  lemma HandedFirst(bits: Bits, entries: seq<nat>, c: nat)
    requires IsFirstFree(entries, c)
    ensures Allocated(entries, entries[c := Eoc(bits)], [], [c])
  {
    FirstTaken(entries, entries[c := Eoc(bits)], c);
    AllocatedOne(entries, entries[c := Eoc(bits)], [], c);
    assert [] + [c] == [c];
  }

  // ---------------------------------------------------------------- the size of a chain

  /** The clusters of a volume. */
  function Clusters(count: nat): (r: set<nat>)
    ensures |r| == count && forall c :: c in r <==> 2 <= c < count + 2
  {
    if count == 0 then {} else Clusters(count - 1) + {count + 1}
  }

  lemma {:induction false} DistinctSize(cs: seq<nat>, used: set<nat>)
    requires (forall i, j :: 0 <= i < j < |cs| ==> cs[i] != cs[j]) && used == set c | c in cs
    ensures |used| == |cs|
  {
    if cs != [] {
      var n := |cs| - 1;
      var rest := set c | c in cs[..n];
      assert cs == cs[..n] + [cs[n]];
      DistinctSize(cs[..n], rest);
      assert used == rest + {cs[n]} && cs[n] !in rest;
    }
  }

  lemma {:induction false} SubsetSize(a: set<nat>, b: set<nat>)
    requires a <= b
    ensures |a| <= |b|
    decreases a
  {
    if a != {} {
      var x :| x in a;
      SubsetSize(a - {x}, b - {x});
    }
  }

  /** A chain has no more clusters than the volume, and as many only if it has them all. */
  lemma ChainBound(bits: Bits, count: nat, entries: seq<nat>, cs: seq<nat>)
    requires ChainOk(bits, count, entries, cs)
    ensures |cs| <= count
    ensures (forall d :: 2 <= d < count + 2 ==> d in cs) ==> |cs| == count
  {
    var used := set c | c in cs;
    DistinctSize(cs, used);
    SubsetSize(used, Clusters(count));
    if forall d :: 2 <= d < count + 2 ==> d in cs {
      assert used == Clusters(count);
    }
  }
}

/** Reading and writing a file: kernel/src/fs/fat/inode.c. */
module FatFiles {
  import opened Wrappers
  import opened Division
  import opened FatEncoding
  import opened FatTables
  import opened FatChains
  import opened FatContents
  import opened FatWrites

  class FatFile {
    const table: FatTable
    const bpc: nat                    // bytes per cluster
    var disk: Disk                    // the data clusters
    var firstCluster: nat
    var filesize: nat
    var buffer: seq<nat>              // the cached content, up to a whole number of clusters
    var entryCluster: nat             // first cluster and size in the directory entry
    var entrySize: nat
    ghost var chain: seq<nat>
    ghost var others: seq<seq<nat>>   // the chains of all other files, and chains that were lost

    /** A file that was just created: no clusters. */
    constructor (table: FatTable, bpc: nat, disk: Disk, ghost others: seq<seq<nat>>)
      requires table.Valid() && ClusterSizeOk(bpc) && table.count + 2 <= Reserved(table.bits)
      requires DiskOk(disk, table.count, bpc)
      requires forall k :: 0 <= k < |others| ==> ChainOk(table.bits, table.count, table.Entries(), others[k])
      ensures Valid() && this.table == table && this.bpc == bpc && this.disk == disk && Content() == [] && chain == []
      ensures this.others == others
    {
      this.table, this.bpc, this.disk, this.others := table, bpc, disk, others;
      firstCluster, filesize, buffer, entryCluster, entrySize, chain := 0, 0, [], 0, 0, [];
    }

    /** The chains are sound and the volume has no cluster whose number is a reserved value. */
    ghost predicate VolumeOk(cs: seq<nat>)
      reads this`disk, this`others, table
    {
      table.Valid() && Sound(table.bits, table.count, table.Entries(), disk, bpc, cs, others)
    }

    ghost predicate Begins(cs: seq<nat>, first: nat)
    {
      if cs == [] then IsEof(table.count, first) else first == cs[0]
    }

    /** Cache and directory entry agree, and the chain is long enough. */
    ghost predicate Loaded()
      reads this, table
    {
      && VolumeOk(chain) && Begins(chain, firstCluster) && entryCluster == firstCluster && entrySize == filesize
      && SizesOk(filesize, |buffer|, |chain|)
    }

    ghost predicate SizesOk(size: nat, cached: nat, clusters: nat)
    {
      size <= cached && size <= Base(clusters, bpc) && size <= UINT32_MAX
    }

    /** The clusters of the file hold the cached content. */
    ghost predicate Synced()
      requires filesize <= |buffer|
      reads this
    {
      Holds(disk, bpc, chain, buffer[..filesize])
    }

    ghost predicate Valid()
      reads this, table
    {
      Loaded() && Synced()
    }

    ghost function Content(): seq<nat>
      requires filesize <= |buffer|
      reads this
    {
      buffer[..filesize]
    }

    /** `fat_inode_readall` of a file whose directory entry gives `size`: what the clusters hold,
        up to that size or to the end of a chain that is shorter. */
    method ReadAll(size: nat) returns (read: seq<nat>, length: nat)
      requires VolumeOk(chain) && Begins(chain, firstCluster)
      ensures length == (if size < Base(|chain|, bpc) then size else Base(|chain|, bpc))
      ensures length <= |read| && Holds(disk, bpc, chain, read[..length])
    {
      read := [];
      var cluster := firstCluster;
      ghost var i := 0;
      while !IsEof(table.count, cluster) && |read| < size
        invariant i <= |chain| && |read| == Base(i, bpc)
        invariant if i < |chain| then cluster == chain[i] else IsEof(table.count, cluster)
        invariant forall j :: 0 <= j < i ==> ClusterHolds(disk, chain[j], bpc, read, Base(j, bpc))
        decreases |chain| - i
      {
        FollowChain(table.bits, table.count, table.Entries(), chain, i);
        ReadMore(disk, bpc, chain, i, read);
        read := read + disk[cluster];
        var entry := table.TableAt(cluster);
        cluster := entry.value;
        i := i + 1;
      }
      if i < |chain| {
        FollowChain(table.bits, table.count, table.Entries(), chain, i);
      }
      length := if size < |read| then size else |read|;
      ReadEnough(table.count, disk, bpc, chain, i, read, size);
    }

    /** The file is closed and opened again: the cache is read from the disk. */
    method Reopen()
      requires Loaded()
      modifies this`buffer
      ensures Valid()
      ensures old(Synced()) ==> Content() == old(Content())
    {
      ghost var content := Content();
      var read, length := ReadAll(entrySize);
      if Synced() {
        HoldsUnique(disk, bpc, chain, content, read[..length]);
      }
      buffer := read;
    }

    /** On to the next cluster; the chain grows where it ends, if there is a free cluster. */
    method Advance(cluster: nat, ghost cs: seq<nat>, ghost i: nat) returns (next: Option<nat>, ghost cs': seq<nat>)
      requires VolumeOk(cs) && i < |cs| && cluster == cs[i]
      modifies table
      ensures VolumeOk(cs') && SameOutside(old(table.Entries()), table.Entries(), cs')
      ensures Allocated(old(table.Entries()), table.Entries(), cs, cs')
      ensures cs' == cs || (i + 1 == |cs| && |cs'| == |cs| + 1 && cs' == cs + [cs'[i + 1]])
      ensures next.Some? ==> i + 1 < |cs'| && next.value == cs'[i + 1]
      ensures next.None? ==> cs' == cs && i + 1 == |cs| && Full(table)
    {
      FollowChain(table.bits, table.count, table.Entries(), cs, i);
      var entry := table.TableAt(cluster);
      cs' := cs;
      if !IsEof(table.count, entry.value) {
        return entry, cs';
      }
      ghost var entries := table.Entries();
      next := table.Append(cluster);
      if next.Some? {
        AllGrown(table.bits, table.count, entries, cs, others, next.value);
        HandedOn(table.bits, table.count, entries, cs, next.value);
        cs' := cs + [next.value];
        assert cs'[i] == cluster && cs'[i + 1] == next.value;
      }
    }

    /** The loop of `fat_inode_write`: `k` clusters have been passed when it ends.  Unless the
        32-bit index goes round it stops early only for want of clusters, and if the index does
        go round it stops for want of clusters only. */
    method WriteClusters(buf: seq<nat>, pos: nat, end: nat, first: nat, ghost cs0: seq<nat>, ghost m: nat)
      returns (byteIndex: nat, ghost k: nat, ghost cs: seq<nat>)
      requires VolumeOk(cs0) && cs0 != [] && first == cs0[0] && 0 < end <= UINT32_MAX && end <= |buf| == Base(m, bpc)
      modifies this`disk, table
      ensures VolumeOk(cs)
      ensures Progress(old(disk), disk, old(table.Entries()), table.Entries(), bpc, cs0, cs, k, buf, pos, end)
      ensures k > 0 && byteIndex == Index(k, bpc) && LoopEnded(bpc, cs, k, end, Full(table))
    {
      byteIndex, k, cs := 0, 0, cs0;
      ghost var disk0, entries0 := disk, table.Entries();
      var cluster: Option<nat> := Some(first);
      ChainBound(table.bits, table.count, table.Entries(), cs);
      while byteIndex < end && cluster.Some?
        invariant VolumeOk(cs) && DiskOk(disk0, table.count, bpc) && k <= table.count
        invariant Writing(disk0, entries0, cs0, buf, pos, end, byteIndex, cluster, cs, k)
        decreases table.count - k
      {
        byteIndex, cluster, k, cs := WriteOne(disk0, entries0, cs0, buf, pos, end, byteIndex, cluster.value, cs, k, m);
        ChainBound(table.bits, table.count, table.Entries(), cs);
      }
      IndexAligned(k, bpc);
    }

    /** Between two passes of the loop: `cluster` is the next one, or there is none left. */
    ghost predicate Writing(disk0: Disk, entries0: seq<nat>, cs0: seq<nat>, buf: seq<nat>, pos: nat, end: nat,
                            byteIndex: nat, cluster: Option<nat>, cs: seq<nat>, k: nat)
      requires table.Valid()
      reads this`disk, table
    {
      && Progress(disk0, disk, entries0, table.Entries(), bpc, cs0, cs, k, buf, pos, end) && byteIndex == Index(k, bpc)
      && (byteIndex >= end || cluster.None? ==> k > 0) && (cluster.None? ==> k == |cs| && Full(table))
      && (cluster.Some? && byteIndex < end ==> k < |cs| && cluster.value == cs[k])
    }

    /** One pass of the loop of `fat_inode_write`. */
    method WriteOne(ghost disk0: Disk, ghost entries0: seq<nat>, ghost cs0: seq<nat>, buf: seq<nat>, pos: nat, end: nat,
                    byteIndex: nat, cluster: nat, ghost cs: seq<nat>, ghost k: nat, ghost m: nat)
      returns (byteIndex': nat, cluster': Option<nat>, ghost k': nat, ghost cs': seq<nat>)
      requires VolumeOk(cs) && DiskOk(disk0, table.count, bpc)
      requires Writing(disk0, entries0, cs0, buf, pos, end, byteIndex, Some(cluster), cs, k)
      requires byteIndex < end <= UINT32_MAX && end <= |buf| == Base(m, bpc)
      modifies this`disk, table
      ensures VolumeOk(cs') && Writing(disk0, entries0, cs0, buf, pos, end, byteIndex', cluster', cs', k')
      ensures k' == k + 1
    {
      k' := k + 1;
      PassCluster(disk0, entries0, cs0, buf, pos, end, byteIndex, cluster, cs, k, m);
      byteIndex' := NextIndex(byteIndex, k, end);
      cluster', cs' := MoveOn(disk0, entries0, cs0, buf, pos, end, byteIndex', cluster, cs, k');
    }

    /** The second half of the pass: on to the next cluster, unless the end is reached. */
    method MoveOn(ghost disk0: Disk, ghost entries0: seq<nat>, ghost cs0: seq<nat>, ghost buf: seq<nat>, ghost pos: nat,
                  end: nat, byteIndex: nat, cluster: nat, ghost cs: seq<nat>, ghost k: nat)
      returns (cluster': Option<nat>, ghost cs': seq<nat>)
      requires VolumeOk(cs) && 0 < k <= |cs| && cluster == cs[k - 1] && byteIndex == Index(k, bpc)
      requires Progress(disk0, disk, entries0, table.Entries(), bpc, cs0, cs, k, buf, pos, end)
      modifies table
      ensures VolumeOk(cs') && Writing(disk0, entries0, cs0, buf, pos, end, byteIndex, cluster', cs', k)
    {
      cluster', cs' := Some(cluster), cs;
      if byteIndex < end {
        ghost var entries := table.Entries();
        cluster', cs' := Advance(cluster, cs, k - 1);
        ProgressGrow(disk0, disk, entries0, entries, table.Entries(), bpc, cs0, cs, cs', k, buf, pos, end);
      }
    }

    /** The first half: the cluster is written if it reaches beyond `pos`. */
    method PassCluster(ghost disk0: Disk, ghost entries0: seq<nat>, ghost cs0: seq<nat>, buf: seq<nat>, pos: nat,
                       ghost end: nat, byteIndex: nat, cluster: nat, ghost cs: seq<nat>, ghost k: nat, ghost m: nat)
      requires VolumeOk(cs) && DiskOk(disk0, table.count, bpc) && k < |cs| && cluster == cs[k]
      requires Progress(disk0, disk, entries0, table.Entries(), bpc, cs0, cs, k, buf, pos, end)
      requires byteIndex == Index(k, bpc) && byteIndex < end <= UINT32_MAX && end <= |buf| == Base(m, bpc)
      modifies this`disk
      ensures VolumeOk(cs) && Progress(disk0, disk, entries0, table.Entries(), bpc, cs0, cs, k + 1, buf, pos, end)
    {
      FitsBuffer(k, bpc, end, m);
      PassOk(table.bits, table.count, table.Entries(), disk0, disk, bpc, cs, others, k, pos, buf);
      ghost var before := disk;
      disk := PutCluster(disk, bpc, cluster, byteIndex, pos, buf);
      ProgressPass(disk0, before, disk, entries0, table.Entries(), bpc, cs0, cs, k, buf, pos, end);
    }

    method NextIndex(byteIndex: nat, ghost k: nat, ghost end: nat) returns (byteIndex': nat)
      requires byteIndex == Index(k, bpc) && byteIndex < end <= UINT32_MAX
      ensures byteIndex' == Index(k + 1, bpc)
    {
      IndexNext(k, bpc, end);
      byteIndex' := (byteIndex + bpc) % INDEX_MODULUS;
    }

    ghost function Now(): Snapshot
      requires table.Valid() && filesize <= |buffer|
      reads this, table
    {
      Snapshot(Content(), disk, table.Entries(), chain, others, Synced())
    }

    /** `fat_inode_write`, without I/O errors. */
    method Write(pos: nat, data: seq<nat>) returns (n: Option<nat>)
      requires Loaded()
      modifies this, table
      ensures Loaded()
      ensures pos + |data| > UINT32_MAX ==> n.None? && Now() == old(Now())
      ensures pos + |data| <= UINT32_MAX && data == [] ==> n == Some(0) && Now() == old(Now())
      ensures pos + |data| <= UINT32_MAX && data != [] ==> Effect(n, pos, data, bpc, old(Now()), Now())
      ensures pos <= |old(Content())| && pos + |data| + bpc <= INDEX_MODULUS ==> Plain(n, pos, data, old(Now()), Now())
    {
      if pos > UINT32_MAX || |data| > UINT32_MAX - pos {
        return None;
      }
      ghost var was := Now();
      if |data| == 0 {
        if pos <= |was.content| {
          NothingPlain(pos, was);
        }
        return Some(0);
      }
      InRange();
      n := WriteData(pos, data);
      if pos <= |was.content| && !Wraps(pos + |data|, bpc) {
        PlainWrite(table.count, n, pos, data, bpc, was, Now());
      }
    }

    lemma InRange()
      requires Loaded()
      ensures bpc > 0 && |Content()| <= Base(|chain|, bpc) && DiskOk(disk, table.count, bpc)
      ensures forall i :: 0 <= i < |chain| ==> 2 <= chain[i] < table.count + 2
    {}

    /** The rest of `fat_inode_write`, with something to write. */
    method WriteData(pos: nat, data: seq<nat>) returns (n: Option<nat>)
      requires Loaded() && data != [] && pos + |data| <= UINT32_MAX
      modifies this, table
      ensures Loaded() && Effect(n, pos, data, bpc, old(Now()), Now())
    {
      var buf;
      ghost var m;
      buf, m := NewBuffer(pos, data);
      EofIffEmpty();
      if IsEof(table.count, firstCluster) {
        n := WriteFirst(buf, pos, data, m);
      } else {
        AllocatedNone(table.Entries(), chain);
        n := WriteFrom(buf, pos, data, firstCluster, chain, m, Now());
      }
    }

    lemma EofIffEmpty()
      requires Loaded()
      ensures IsEof(table.count, firstCluster) <==> chain == []
    {
      if chain != [] {
        FollowChain(table.bits, table.count, table.Entries(), chain, 0);
      }
    }

    /** To a file without clusters. */
    method WriteFirst(buf: seq<nat>, pos: nat, data: seq<nat>, ghost m: nat) returns (n: Option<nat>)
      requires Loaded() && chain == [] && data != [] && pos + |data| <= UINT32_MAX
      requires BufferOk(buf, bpc, m, Content(), pos, data)
      modifies this, table
      ensures Loaded() && Effect(n, pos, data, bpc, old(Now()), Now())
    {
      ghost var before := Now();
      var first := StartChain();
      if first.None? {
        NoneFree(table.Entries(), 2);
        NothingStarted(pos, data, bpc, before);
        return None;
      }
      n := WriteFrom(buf, pos, data, first.value, [first.value], m, before);
    }

    /** The old content and the new data in a zeroed buffer of whole clusters. */
    method NewBuffer(pos: nat, data: seq<nat>) returns (buf: seq<nat>, ghost m: nat)
      requires filesize <= |buffer| && bpc > 0
      ensures BufferOk(buf, bpc, m, Content(), pos, data)
    {
      var fsz := if pos + |data| > filesize then pos + |data| else filesize;
      m := ClustersFor(fsz, bpc);
      ClustersForIff(fsz, bpc, m);
      var newlen := ClustersFor(fsz, bpc) * bpc;
      BufferMade(Content(), pos, data, newlen);
      buf := seq(newlen, _ => 0);
      buf := Splice(buf, 0, buffer[..filesize]);
      buf := Splice(buf, pos, data);
    }

    /** The first cluster of a file that has none. */
    method StartChain() returns (c: Option<nat>)
      requires Loaded() && chain == []
      modifies table
      ensures c.None? ==> Loaded() && Full(table) && table.Entries() == old(table.Entries())
      ensures c.Some? ==> VolumeOk([c.value]) && SameOutside(old(table.Entries()), table.Entries(), [c.value])
      ensures c.Some? ==> Allocated(old(table.Entries()), table.Entries(), [], [c.value])
    {
      ghost var entries := table.Entries();
      c := table.TableAlloc();
      if c.Some? {
        AllStarted(table.bits, table.count, entries, others, c.value);
        HandedFirst(table.bits, entries, c.value);
      }
    }

    /** The loop, and what is recorded after it; `was` is the state before the write, in which
        the file may have had no cluster yet. */
    method WriteFrom(buf: seq<nat>, pos: nat, data: seq<nat>, first: nat, ghost cs1: seq<nat>, ghost m: nat,
                     ghost was: Snapshot)
      returns (n: Option<nat>)
      requires VolumeOk(cs1) && cs1 != [] && first == cs1[0] && Begins(chain, firstCluster)
      requires entryCluster == firstCluster && entrySize == filesize && SizesOk(filesize, |buffer|, |chain|)
      requires data != [] && pos + |data| <= UINT32_MAX && BufferOk(buf, bpc, m, Content(), pos, data)
      requires LoopStart(was, table.Entries(), cs1) && Beside(was)
      modifies this, table
      ensures Loaded() && Effect(n, pos, data, bpc, was, Now())
    {
      var byteIndex;
      ghost var cs;
      byteIndex, cs := LoopFrom(buf, pos, data, first, cs1, m, was);
      n := Record(buf, pos, data, first, byteIndex, was, cs);
    }

    /** But for the table, everything is as in `was`. */
    ghost predicate Beside(was: Snapshot)
      requires filesize <= |buffer|
      reads this
    {
      was.content == Content() && was.disk == disk && was.chain == chain && was.others == others
        && was.synced == Synced()
    }

    method LoopFrom(buf: seq<nat>, pos: nat, data: seq<nat>, first: nat, ghost cs1: seq<nat>, ghost m: nat,
                    ghost was: Snapshot)
      returns (byteIndex: nat, ghost cs: seq<nat>)
      requires VolumeOk(cs1) && cs1 != [] && first == cs1[0] && |was.content| <= Base(|was.chain|, bpc)
      requires data != [] && pos + |data| <= UINT32_MAX && BufferOk(buf, bpc, m, was.content, pos, data)
      requires |was.content| <= UINT32_MAX
      requires was.disk == disk && LoopStart(was, table.Entries(), cs1)
      requires was.synced == Holds(disk, bpc, was.chain, was.content)
      modifies this`disk, table
      ensures VolumeOk(cs) && cs != [] && cs[0] == first
      ensures Ended(pos, data, bpc, was, disk, table.Entries(), cs, buf, byteIndex)
    {
      ghost var k;
      ghost var entries1 := table.Entries();
      byteIndex, k, cs := WriteClusters(buf, pos, pos + |data|, first, cs1, m);
      NoneFree(table.Entries(), 2);
      LoopConcluded(table.bits, table.count, entries1, table.Entries(), disk, bpc, others, cs1, cs, k, pos, data, buf,
                    m, was, Full(table));
    }

    /** The end of `fat_inode_write`: how much was written, directory entry and cache. */
    method Record(buf: seq<nat>, pos: nat, data: seq<nat>, first: nat, byteIndex: nat, ghost was: Snapshot,
                  ghost cs: seq<nat>)
      returns (n: Option<nat>)
      requires VolumeOk(cs) && cs != [] && first == cs[0] && Begins(chain, firstCluster)
      requires entryCluster == firstCluster && entrySize == filesize && filesize <= |buffer| && filesize <= UINT32_MAX
      requires was.content == Content() && was.chain == chain && was.others == others
      requires Ended(pos, data, bpc, was, disk, table.Entries(), cs, buf, byteIndex)
      modifies this`chain, this`others, this`entryCluster, this`entrySize, this`firstCluster, this`filesize, this`buffer
      ensures Loaded() && Effect(n, pos, data, bpc, was, Now())
    {
      var amount := Amount(pos, |data|, filesize, byteIndex);
      if amount.None? {
        GiveUp(pos, data, was, cs);
        return None;
      }
      RecordSize(pos, data, buf, first, amount.value.0, amount.value.1, was, cs);
      return Some(amount.value.1);
    }

    method RecordSize(ghost pos: nat, ghost data: seq<nat>, buf: seq<nat>, first: nat, size: nat, ghost n: nat,
                      ghost was: Snapshot, ghost cs: seq<nat>)
      requires VolumeOk(cs) && cs != [] && first == cs[0] && was.others == others
      requires Framed(pos, data, bpc, was, disk, table.Entries(), cs)
      requires cs == ChainAfter(was, pos + |data|, bpc)
      requires RecordLeads(pos, data, bpc, was.content, buf, size, n, was.disk, disk, cs, was.synced)
      modifies this`chain, this`entryCluster, this`entrySize, this`firstCluster, this`filesize, this`buffer
      ensures Loaded() && Effect(Some(n), pos, data, bpc, was, Now())
    {
      SetSize(buf, first, size, cs);
      RecordEffect(pos, data, bpc, was, Now(), cs, was.synced, buf, size, n);
    }

    method SetSize(buf: seq<nat>, first: nat, size: nat, ghost cs: seq<nat>)
      requires VolumeOk(cs) && Begins(cs, first) && SizesOk(size, |buf|, |cs|)
      modifies this`chain, this`entryCluster, this`entrySize, this`firstCluster, this`filesize, this`buffer
      ensures Loaded() && Now() == Snapshot(buf[..size], disk, table.Entries(), cs, others,
                                            Holds(disk, bpc, cs, buf[..size]))
    {
      chain := cs;
      entryCluster, entrySize := first, size;
      firstCluster, filesize, buffer := first, size, buf;
    }

    /** The error path: nothing is recorded, so a chain that was just started is lost. */
    ghost method GiveUp(pos: nat, data: seq<nat>, was: Snapshot, cs: seq<nat>)
      requires VolumeOk(cs) && cs != [] && Begins(chain, firstCluster) && entryCluster == firstCluster
      requires entrySize == filesize
      requires filesize <= |buffer| && filesize <= UINT32_MAX && was.content == Content() && was.chain == chain
      requires was.others == others
      requires Framed(pos, data, bpc, was, disk, table.Entries(), cs) && cs == ChainAfter(was, pos + |data|, bpc)
      requires ErrorLeads(pos, data, bpc, was.content, was.disk, disk, chain, cs, was.synced)
      modifies this`chain, this`others
      ensures Loaded() && Effect(None, pos, data, bpc, was, Now())
    {
      if chain != [] {
        chain := cs;
      } else {
        LostChain(table.bits, table.count, table.Entries(), disk, bpc, cs, others);
        others := others + [cs];
      }
      ErrorEffect(pos, data, bpc, was, Now(), cs, was.synced);
    }

    /** `fat_file_truncate` to nothing: the clusters of the file become free. */
    method Truncate(size: nat) returns (ok: bool)
      requires Loaded()
      modifies this, table
      ensures Loaded() && ok == (size == 0) && disk == old(disk) && others == old(others)
      ensures !ok ==> Content() == old(Content()) && chain == old(chain) && table.Entries() == old(table.Entries())
      ensures ok ==>
        Valid() && Content() == [] && chain == []
          && Freed(old(table.Entries()), table.Entries(), old(chain), |old(chain)|)
    {
      if size != 0 {
        return false;
      }
      entryCluster, entrySize := 0, 0;
      FreeChain();
      buffer, filesize, firstCluster := [], 0, 0;
      chain := [];
      return true;
    }

    /** The loop of `fat_file_truncate`. */
    method FreeChain()
      requires VolumeOk(chain) && Begins(chain, firstCluster)
      modifies table
      ensures VolumeOk([]) && Freed(old(table.Entries()), table.Entries(), chain, |chain|)
    {
      ghost var entries0 := table.Entries();
      var cluster := firstCluster;
      ghost var i := 0;
      if chain != [] {
        FollowChain(table.bits, table.count, entries0, chain, 0);
      }
      while !IsEof(table.count, cluster)
        invariant table.Valid() && i <= |chain| && Freed(entries0, table.Entries(), chain, i)
        invariant if i < |chain| then cluster == chain[i] else IsEof(table.count, cluster)
        decreases |chain| - i
      {
        FollowChain(table.bits, table.count, entries0, chain, i);
        assert chain[i] !in chain[..i];
        var entry := table.TableAt(cluster);
        FreedMore(entries0, table.Entries(), chain, i);
        table.TableSet(cluster, 0);
        cluster := entry.value;
        i := i + 1;
      }
      AllFreed(table.bits, table.count, entries0, table.Entries(), chain, others);
    }
  }

  /** No cluster is free. */
  ghost predicate Full(table: FatTable)
    requires table.Valid()
    reads table
  {
    forall d :: 2 <= d < table.count + 2 ==> table.Entries()[d] != 0
  }

  lemma ReadMore(disk: Disk, bpc: nat, cs: seq<nat>, i: nat, read: seq<nat>)
    requires i < |cs| && |read| == Base(i, bpc) && cs[i] in disk && |disk[cs[i]]| == bpc
    requires forall j :: 0 <= j < i ==> ClusterHolds(disk, cs[j], bpc, read, Base(j, bpc))
    ensures var more := read + disk[cs[i]];
      |more| == Base(i + 1, bpc) && forall j :: 0 <= j < i + 1 ==> ClusterHolds(disk, cs[j], bpc, more, Base(j, bpc))
  {
    var more := read + disk[cs[i]];
    BaseNext(i, bpc);
    forall j | 0 <= j < i + 1
      ensures ClusterHolds(disk, cs[j], bpc, more, Base(j, bpc))
    {
      if j < i {
        BaseNext(j, bpc);
        BaseMonotone(j + 1, i, bpc);
        assert ClusterHolds(disk, cs[j], bpc, read, Base(j, bpc));
      }
    }
  }

  lemma ReadEnough(count: nat, disk: Disk, bpc: nat, cs: seq<nat>, i: nat, read: seq<nat>, size: nat)
    requires i <= |cs| && |read| == Base(i, bpc) && (i == |cs| || size <= |read|) && DiskOk(disk, count, bpc)
    requires forall j :: 0 <= j < |cs| ==> 2 <= cs[j] < count + 2
    requires forall j :: 0 <= j < i ==> ClusterHolds(disk, cs[j], bpc, read, Base(j, bpc))
    ensures var length := if size < |read| then size else |read|;
      length == (if size < Base(|cs|, bpc) then size else Base(|cs|, bpc)) && Holds(disk, bpc, cs, read[..length])
  {
    BaseMonotone(i, |cs|, bpc);
    var length := if size < |read| then size else |read|;
    forall j | 0 <= j < |cs|
      ensures ClusterHolds(disk, cs[j], bpc, read[..length], Base(j, bpc))
    {
      if i <= j {
        BaseMonotone(i, j, bpc);
      } else {
        assert ClusterHolds(disk, cs[j], bpc, read, Base(j, bpc));
      }
    }
  }
}
