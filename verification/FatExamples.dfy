/** Volumes on which the limits of the FAT driver show. */
module FatExamples {
  import opened Wrappers
  import opened FatEncoding
  import opened FatTables
  import opened FatChains
  import opened FatContents
  import opened FatWrites
  import opened FatFiles

  const CLUSTER: nat := 0x8_0000   // 512 KiB
  const CLUSTERS: nat := 0x2000    // 4 GiB of them

  function Bytes4G(): (r: seq<nat>)
    ensures |r| == UINT32_MAX && forall i :: 0 <= i < |r| ==> r[i] == 2
  {
    seq(UINT32_MAX, _ => 2)
  }

  function Cluster(b: nat): (r: seq<nat>)
    ensures |r| == CLUSTER && forall i :: 0 <= i < |r| ==> r[i] == b
  {
    seq(CLUSTER, _ => b)
  }

  function EmptyDisk(n: nat, b: nat): (disk: Disk)
    ensures DiskOk(disk, n, CLUSTER) && forall c :: 2 <= c < n + 2 ==> disk[c] == Cluster(b)
  {
    if n == 0 then map[] else EmptyDisk(n - 1, b)[n + 1 := Cluster(b)]
  }

  /** A table in which every cluster is free. */
  method EmptyTable() returns (table: FatTable)
    ensures fresh(table) && table.Valid() && table.bits == Fat32 && table.count == CLUSTERS
    ensures forall c :: 0 <= c < CLUSTERS + 2 ==> table.Entries()[c] == 0
  {
    var bytes: Bytes := seq(0x8200, _ => 0);
    assert Roomy(Fat32, bytes, CLUSTERS);
    table := new FatTable(Fat32, CLUSTERS, bytes, []);
  }

  method NewFile(b: nat) returns (file: FatFile)
    ensures fresh(file) && fresh(file.table) && file.Valid() && file.bpc == CLUSTER && file.table.bits == Fat32
    ensures file.table.count == CLUSTERS
    ensures file.chain == [] && file.Content() == [] && file.disk == EmptyDisk(CLUSTERS, b)
    ensures forall c :: 0 <= c < CLUSTERS + 2 ==> file.table.Entries()[c] == 0
  {
    var table := EmptyTable();
    file := new FatFile(table, CLUSTER, EmptyDisk(CLUSTERS, b), []);
  }

  /** The first byte of a new file goes to the first cluster. */
  method OneByte(file: FatFile) returns (n: Option<nat>)
    requires file.Valid() && file.bpc == CLUSTER && file.table.count == CLUSTERS && file.chain == []
    requires file.Content() == []
    requires forall c :: 0 <= c < CLUSTERS + 2 ==> file.table.Entries()[c] == 0
    modifies file, file.table
    ensures n == Some(1) && file.Valid() && file.Content() == [1] && |file.chain| == 1
    ensures |FreeClusters(file.table.Entries())| == CLUSTERS - 1
  {
    ghost var was := file.Now();
    AllFree(was.entries, 2);
    n := file.Write(0, [1]);
    FirstByte(n, was, file.Now());
  }

  lemma FirstByte(n: Option<nat>, s: Snapshot, s': Snapshot)
    requires Effect(n, 0, [1], CLUSTER, s, s') && s.content == [] && s.chain == [] && s.synced
    requires |FreeClusters(s.entries)| == CLUSTERS
    ensures n == Some(1) && s'.content == [1] && |s'.chain| == 1 && s'.synced
    ensures |FreeClusters(s'.entries)| == CLUSTERS - 1
  {
    assert ClustersFor(1, CLUSTER) == 1;
    assert |ChainAfter(s, 1, CLUSTER)| == 1;
    assert Written([], 0, [1]) == [1];
  }

  lemma WrappedWrite(n: Option<nat>, s: Snapshot, s': Snapshot)
    requires Effect(n, 0, Bytes4G(), CLUSTER, s, s') && s.content == [1] && s.synced
    requires |s.chain| == 1 && |FreeClusters(s.entries)| == CLUSTERS - 1
    ensures n.None? && s'.content == [1] && !s'.synced && |s'.chain| == CLUSTERS
  {
    assert Index(CLUSTERS, CLUSTER) == 0;
    assert s.content[0] == 1 && Bytes4G()[0] == 2;
    assert !Agrees(s.content, 0, Bytes4G());
  }

  /** A write that ends in the last cluster below 4 GiB, on an empty volume of exactly that
      size: it takes every cluster, writes all of the data and then reports that nothing was
      written, so that the cache still has the byte that the disk has lost. */
  method IndexWrapSpoilsDisk() returns (file: FatFile, first: Option<nat>, second: Option<nat>)
    ensures first == Some(1) && second.None?
    ensures file.Loaded() && file.Content() == [1] && !file.Synced() && |file.chain| == CLUSTERS
  {
    file := NewFile(0);
    first := OneByte(file);
    ghost var was := file.Now();
    second := file.Write(0, Bytes4G());
    WrappedWrite(second, was, file.Now());
  }

  lemma GapWrite(n: Option<nat>, s: Snapshot, s': Snapshot)
    requires Effect(n, CLUSTER, [1], CLUSTER, s, s') && s.content == [] && s.chain == [] && s.synced
    requires s.disk == EmptyDisk(CLUSTERS, 7)
    requires |FreeClusters(s.entries)| == CLUSTERS && FreeClusters(s.entries)[0] == 2
    ensures n == Some(1) && s'.content == Cluster(0) + [1] && !s'.synced
  {
    var cs := ChainAfter(s, CLUSTER + 1, CLUSTER);
    assert ClustersFor(CLUSTER + 1, CLUSTER) == 2;
    assert |cs| == 2 && cs[0] == 2 && s.disk[2] == Cluster(7);
    assert Written([], CLUSTER, [1]) == Cluster(0) + [1];
    assert s.disk[cs[0]][0] == 7;
    assert !ZeroFrom(s.disk, cs[0], CLUSTER, Base(0, CLUSTER), 0);
  }

  /** A write behind the end of the file that skips a whole cluster: the cache has zeros there,
      the disk has what the cluster held before. */
  method SkippedClusterIsStale() returns (file: FatFile, n: Option<nat>)
    ensures n == Some(1) && file.Loaded() && file.Content() == Cluster(0) + [1] && !file.Synced()
  {
    file := NewFile(7);
    ghost var was := file.Now();
    AllFree(was.entries, 2);
    n := file.Write(CLUSTER, [1]);
    GapWrite(n, was, file.Now());
  }

  // ---------------------------------------------------------------- reserved cluster numbers

  const FAT12_MAX_CLUSTERS: nat := 4084

  /** A FAT12 table of the largest volume with every entry set. */
  method FullTable12() returns (table: FatTable)
    ensures fresh(table) && table.Valid() && table.bits == Fat12 && table.count == FAT12_MAX_CLUSTERS
    ensures forall c :: 0 <= c < FAT12_MAX_CLUSTERS + 2 ==> table.Entries()[c] == 0xfff
  {
    var bytes: Bytes := seq(6144, _ => 0xff);
    assert Roomy(Fat12, bytes, FAT12_MAX_CLUSTERS);
    table := new FatTable(Fat12, FAT12_MAX_CLUSTERS, bytes, []);
  }

  /** The last cluster that is free has the number 0xff0: it is handed out and linked, but the
      link reads as the end of the chain. */
  method ReservedNumberHandedOut() returns (table: FatTable, next: Option<nat>)
    ensures table.Valid() && table.count == FAT12_MAX_CLUSTERS && next == Some(0xff0)
    ensures table.Entries()[2] == 0xff0 && Next(table.bits, table.Entries()[2]) == 0xfff_fff0
    ensures IsEof(table.count, Next(table.bits, table.Entries()[2]))
  {
    table := FullTable12();
    table.TableSet(0xff0, 0);
    EocReadsBack(Fat12);
    assert table.Entries()[0xff0] == 0;
    next := table.Append(2);
  }
}
