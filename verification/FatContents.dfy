/** File contents in the clusters of a chain, and what the loop of `fat_inode_write` leaves. */
module FatContents {
  import opened Wrappers
  import opened FatEncoding
  import opened FatTables
  import opened FatChains

  type Disk = map<nat, seq<nat>>

  const UINT32_MAX: nat := 0xFFFF_FFFF
  const INDEX_MODULUS: nat := 0x1_0000_0000  // byte_index is a uint32_t

  ghost predicate DiskOk(disk: Disk, count: nat, bpc: nat) {
    forall c :: 2 <= c < count + 2 ==> c in disk && |disk[c]| == bpc
  }

  /** Clusters are powers of two of at most half a megabyte; all that is used here is that
      they divide the range of the byte index. */
  predicate ClusterSizeOk(bpc: nat) {
    bpc > 0 && INDEX_MODULUS % bpc == 0
  }

  ghost predicate Sound(bits: Bits, count: nat, entries: seq<nat>, disk: Disk, bpc: nat, cs: seq<nat>,
                        others: seq<seq<nat>>) {
    ClusterSizeOk(bpc) && count + 2 <= Reserved(bits) && DiskOk(disk, count, bpc)
      && ChainsOk(bits, count, entries, cs, others)
  }

  /** Where cluster `i` of a file begins, and the 32-bit number that the write loop has for it. */
  function Base(i: nat, bpc: nat): nat {
    i * bpc
  }

  function Index(i: nat, bpc: nat): nat {
    Base(i, bpc) % INDEX_MODULUS
  }

  /** Cluster `c` holds the part of `content` that begins at `base`. */
  ghost predicate ClusterHolds(disk: Disk, c: nat, bpc: nat, content: seq<nat>, base: nat) {
    c in disk && |disk[c]| == bpc
      && forall o :: 0 <= o < bpc && base + o < |content| ==> disk[c][o] == content[base + o]
  }

  /** The clusters of the chain hold `content`. */
  ghost predicate Holds(disk: Disk, bpc: nat, cs: seq<nat>, content: seq<nat>) {
    && |content| <= Base(|cs|, bpc)
    && forall i :: 0 <= i < |cs| ==> ClusterHolds(disk, cs[i], bpc, content, Base(i, bpc))
  }

  // ---------------------------------------------------------------- writing

  /** Byte `x` of a file after `data` was written at `pos`; a gap is filled with zeros. */
  function ByteAt(content: seq<nat>, pos: nat, data: seq<nat>, x: nat): nat {
    if pos <= x < pos + |data| then data[x - pos] else if x < |content| then content[x] else 0
  }

  function Written(content: seq<nat>, pos: nat, data: seq<nat>): (r: seq<nat>)
    ensures |r| == if pos + |data| > |content| then pos + |data| else |content|
    ensures forall x :: 0 <= x < |r| ==> r[x] == ByteAt(content, pos, data, x)
  {
    seq(if pos + |data| > |content| then pos + |data| else |content|, x requires x >= 0 =>
        ByteAt(content, pos, data, x))
  }

  /** The buffer of `fat_inode_write`: the new file and zeros up to `m` whole clusters. */
  ghost predicate BufferOk(buf: seq<nat>, bpc: nat, m: nat, content: seq<nat>, pos: nat, data: seq<nat>) {
    && |Written(content, pos, data)| <= |buf| == Base(m, bpc)
    && forall x :: 0 <= x < |buf| ==> buf[x] == ByteAt(content, pos, data, x)
  }

  /** The loop has passed the first `k` clusters: those that reached beyond `pos` hold the part
      of `buf` at their index; all other clusters are as on `disk0`. */
  ghost predicate WroteUpTo(disk0: Disk, disk: Disk, bpc: nat, cs: seq<nat>, k: nat, pos: nat, buf: seq<nat>) {
    && k <= |cs| && (forall c :: c in disk0 && c !in cs[..k] ==> c in disk && disk[c] == disk0[c])
    && (forall i :: 0 <= i < k ==> Passed(disk0, disk, bpc, cs[i], Index(i, bpc), pos, buf))
  }

  ghost predicate Passed(disk0: Disk, disk: Disk, bpc: nat, c: nat, base: nat, pos: nat, buf: seq<nat>) {
    if base + bpc > pos then base + bpc <= |buf| && ClusterHolds(disk, c, bpc, buf, base)
    else c in disk0 && c in disk && disk[c] == disk0[c]
  }

  /** The loop writes a cluster only if it reaches beyond `pos`. */
  function PutCluster(disk: Disk, bpc: nat, c: nat, base: nat, pos: nat, buf: seq<nat>): Disk
    requires base + bpc <= |buf|
  {
    if base + bpc > pos then disk[c := buf[base..base + bpc]] else disk
  }

  /** The clusters before the one with `pos`, which the loop skips, are zero from `size` on. */
  ghost predicate StaleZero(disk: Disk, bpc: nat, cs: seq<nat>, size: nat, pos: nat) {
    forall i :: 0 <= i < |cs| && Base(i, bpc) + bpc <= pos ==> ZeroFrom(disk, cs[i], bpc, Base(i, bpc), size)
  }

  ghost predicate ZeroFrom(disk: Disk, c: nat, bpc: nat, base: nat, size: nat) {
    c in disk && |disk[c]| == bpc && forall o :: 0 <= o < bpc && size <= base + o ==> disk[c][o] == 0
  }

  /** Where `data` meets the old content, it is the same. */
  predicate Agrees(content: seq<nat>, pos: nat, data: seq<nat>) {
    forall x :: pos <= x < pos + |data| && x < |content| ==> content[x] == data[x - pos]
  }

  /** The byte index goes round before it can reach `end`. */
  predicate Wraps(end: nat, bpc: nat) {
    end <= UINT32_MAX && end + bpc > INDEX_MODULUS
  }

  /** What the loop has done after `k` passes: the chain `cs0` has grown to `cs`, if at all, and
      unless the index goes round only as far as the data needs. */
  ghost predicate Progress(disk0: Disk, disk: Disk, entries0: seq<nat>, entries: seq<nat>, bpc: nat, cs0: seq<nat>,
                           cs: seq<nat>, k: nat, buf: seq<nat>, pos: nat, end: nat) {
    && Allocated(entries0, entries, cs0, cs) && SameOutside(entries0, entries, cs)
      && WroteUpTo(disk0, disk, bpc, cs, k, pos, buf)
    && (!Wraps(end, bpc) ==> Index(k, bpc) == Base(k, bpc) && (cs == cs0 || Base(|cs| - 1, bpc) < end))
  }

  /** New size of the file and number of bytes written, when the loop ended at `byteIndex`. */
  function Amount(pos: nat, len: nat, filesize: nat, byteIndex: nat): Option<(nat, nat)> {
    if byteIndex >= pos + len then Some((if pos + len > filesize then pos + len else filesize, len))
    else if byteIndex <= pos then None
    else Some((byteIndex, byteIndex - pos))
  }

  /** Where the byte index stands when the loop has used the clusters `cs`. */
  function LoopEnd(cs: seq<nat>, end: nat, bpc: nat): nat {
    if Wraps(end, bpc) then Index(|cs|, bpc) else Base(|cs|, bpc)
  }

  /** What a write of `data`, not empty, at `pos` answers and makes of the cached content, with
      `cs` the clusters that it can use: it is done if these reach the end of the data, gives up
      if they do not reach beyond `pos`, and otherwise the file ends with them.  If the index
      goes round, the place where it happens to be counts instead. */
  ghost predicate Outcome(n: Option<nat>, pos: nat, data: seq<nat>, bpc: nat, content: seq<nat>, content': seq<nat>,
                          cs: seq<nat>) {
    var at := LoopEnd(cs, pos + |data|, bpc);
    if at >= pos + |data| then n == Some(|data|) && content' == Written(content, pos, data)
    else if at <= pos then n.None? && content' == content
    else n == Some(at - pos) && content' == Written(content, pos, data)[..at]
  }

  /** When the clusters hold the cached content after a write to a file where they did: a
      write that gives up has changed the disk only if the index went round, and one that does
      not leaves the clusters of the gap before `pos` as they are. */
  ghost predicate SyncedIff(pos: nat, data: seq<nat>, bpc: nat, content: seq<nat>, disk0: Disk, cs: seq<nat>) {
    if LoopEnd(cs, pos + |data|, bpc) > pos then StaleZero(disk0, bpc, cs, |content|, pos)
    else !Wraps(pos + |data|, bpc) || Agrees(content, pos, data)
  }

  /** A file and its volume: the cached content, the clusters, the entries of the table, the
      chain of the file and the other chains, and whether the clusters hold the cached content. */
  datatype Snapshot = Snapshot(
    content: seq<nat>, disk: Disk, entries: seq<nat>, chain: seq<nat>, others: seq<seq<nat>>, synced: bool)

  ghost predicate SameDiskOutside(disk: Disk, disk': Disk, cs: seq<nat>) {
    forall c :: c in disk && c !in cs ==> c in disk' && disk'[c] == disk[c]
  }

  /** How many clusters it takes to reach `end`. */
  function ClustersFor(end: nat, bpc: nat): nat
    requires bpc > 0
  {
    (end + bpc - 1) / bpc
  }

  /** How many free clusters a write up to `end` takes: as many as it needs or there are, and
      all of them if the index goes round. */
  function Growth(s: Snapshot, end: nat, bpc: nat): (k: nat)
    requires bpc > 0
    ensures k <= |FreeClusters(s.entries)|
  {
    var free := |FreeClusters(s.entries)|;
    if Wraps(end, bpc) || ClustersFor(end, bpc) >= |s.chain| + free then free
    else if ClustersFor(end, bpc) <= |s.chain| then 0
    else ClustersFor(end, bpc) - |s.chain|
  }

  /** The clusters that a write up to `end` uses, as given by the state before it. */
  function ChainAfter(s: Snapshot, end: nat, bpc: nat): seq<nat>
    requires bpc > 0
  {
    s.chain + FreeClusters(s.entries)[..Growth(s, end, bpc)]
  }

  /** What a write of `data`, not empty, at `pos` does to the state `s`.  The file has the
      clusters `ChainAfter` afterwards, except that a chain which was started by a write that
      then gives up is lost. */
  ghost predicate Effect(n: Option<nat>, pos: nat, data: seq<nat>, bpc: nat, s: Snapshot, s': Snapshot)
    requires bpc > 0
  {
    var cs := ChainAfter(s, pos + |data|, bpc);
    && SameOutside(s.entries, s'.entries, cs) && SameDiskOutside(s.disk, s'.disk, cs)
    && FreeClusters(s'.entries) == FreeClusters(s.entries)[|cs| - |s.chain|..]
    && (s'.chain, s'.others) == (if n.None? && s.chain == [] && cs != [] then ([], s.others + [cs]) else (cs, s.others))
    && Outcome(n, pos, data, bpc, s.content, s'.content, cs)
    && (s.synced ==> (s'.synced <==> SyncedIff(pos, data, bpc, s.content, s.disk, cs)))
  }

  /** What callers expect of a write at `pos`, not behind the end, of which `n` bytes succeed:
      these replace what was there, cache and disk still agree, and fewer than all are written
      only if the volume is full. */
  ghost predicate Plain(n: Option<nat>, pos: nat, data: seq<nat>, s: Snapshot, s': Snapshot) {
    var k := if n.Some? then n.value else 0;
    && pos <= |s.content| && k <= |data| && (s.synced ==> s'.synced) && (n.None? ==> pos == |s.content| && data != [])
    && s'.content == s.content[..pos] + data[..k] + (if pos + k < |s.content| then s.content[pos + k..] else [])
    && (k < |data| ==> FreeClusters(s'.entries) == [])
  }

  /** The loop starts with the clusters `cs1`: those of the file, or one that was just allocated. */
  ghost predicate LoopStart(s: Snapshot, entries: seq<nat>, cs1: seq<nat>) {
    && Allocated(s.entries, entries, s.chain, cs1) && SameOutside(s.entries, entries, cs1)
    && (cs1 == s.chain || (s.chain == [] && |cs1| == 1))
  }

  /** What is settled when the loop has ended with the clusters `cs`. */
  ghost predicate Framed(pos: nat, data: seq<nat>, bpc: nat, s: Snapshot, disk: Disk, entries: seq<nat>, cs: seq<nat>) {
    && Allocated(s.entries, entries, s.chain, cs) && SameOutside(s.entries, entries, cs)
      && SameDiskOutside(s.disk, disk, cs)
    && (!Wraps(pos + |data|, bpc) ==> |cs| <= |s.chain| || Base(|cs| - 1, bpc) < pos + |data|)
  }

  /** What the error path, or recording `size` and `n`, leads to; `sync` says that the clusters
      `cs0` held `content` before the write. */
  ghost predicate ErrorLeads(pos: nat, data: seq<nat>, bpc: nat, content: seq<nat>, disk0: Disk, disk: Disk,
                             cs0: seq<nat>, cs: seq<nat>, sync: bool) {
    && Outcome(None, pos, data, bpc, content, content, cs) && |content| <= Base(|cs|, bpc)
    && (sync ==> (Holds(disk, bpc, cs, content) <==> SyncedIff(pos, data, bpc, content, disk0, cs)))
    && (cs0 == [] ==> content == [] && SyncedIff(pos, data, bpc, content, disk0, cs))
  }

  ghost predicate RecordLeads(pos: nat, data: seq<nat>, bpc: nat, content: seq<nat>, buf: seq<nat>, size: nat, n: nat,
                              disk0: Disk, disk: Disk, cs: seq<nat>, sync: bool) {
    && size <= |buf| && size <= Base(|cs|, bpc) && size <= UINT32_MAX
    && Outcome(Some(n), pos, data, bpc, content, buf[..size], cs)
    && (sync ==> (Holds(disk, bpc, cs, buf[..size]) <==> SyncedIff(pos, data, bpc, content, disk0, cs)))
  }

  /** Both: the loop of a write to `s` has ended with the clusters `cs` at `byteIndex`. */
  ghost predicate Ended(pos: nat, data: seq<nat>, bpc: nat, s: Snapshot, disk: Disk, entries: seq<nat>, cs: seq<nat>,
                        buf: seq<nat>, byteIndex: nat)
    requires bpc > 0
  {
    && Framed(pos, data, bpc, s, disk, entries, cs) && cs == ChainAfter(s, pos + |data|, bpc)
    && match Amount(pos, |data|, |s.content|, byteIndex)
       case None => ErrorLeads(pos, data, bpc, s.content, s.disk, disk, s.chain, cs, s.synced)
       case Some((size, n)) => RecordLeads(pos, data, bpc, s.content, buf, size, n, s.disk, disk, cs, s.synced)
  }

  /** What the loop of a write has done, from a file whose clusters `cs0` held `content`. */
  ghost predicate Looped(count: nat, disk0: Disk, disk: Disk, bpc: nat, cs0: seq<nat>, cs: seq<nat>, k: nat,
                         pos: nat, data: seq<nat>, content: seq<nat>, buf: seq<nat>) {
    && ClusterSizeOk(bpc) && DiskOk(disk0, count, bpc) && DiskOk(disk, count, bpc)
    && (forall i :: 0 <= i < |cs| ==> 2 <= cs[i] < count + 2) && (forall i, j :: 0 <= i < j < |cs| ==> cs[i] != cs[j])
    && |cs0| <= |cs| && cs[..|cs0|] == cs0 && WroteUpTo(disk0, disk, bpc, cs, k, pos, buf)
    && |content| <= Base(|cs0|, bpc) && (forall x :: 0 <= x < |buf| ==> buf[x] == ByteAt(content, pos, data, x))
  }
}

/** Facts about them. */
module FatWrites {
  import opened Wrappers
  import opened Division
  import opened FatEncoding
  import opened FatTables
  import opened FatChains
  import opened FatContents

  // ---------------------------------------------------------------- bases and indices

  lemma BaseNext(i: nat, bpc: nat)
    ensures Base(i + 1, bpc) == Base(i, bpc) + bpc
  {
    Regroup(1, i, 1, bpc);
  }

  lemma BaseMonotone(i: nat, j: nat, bpc: nat)
    requires i <= j
    ensures Base(i, bpc) <= Base(j, bpc)
  {
    assert (j - i) * bpc >= 0;
    assert Base(j, bpc) == Base(i, bpc) + (j - i) * bpc;
  }

  lemma IndexNext(k: nat, bpc: nat, end: nat)
    requires Index(k, bpc) < end <= UINT32_MAX
    ensures Index(k + 1, bpc) == (Index(k, bpc) + bpc) % INDEX_MODULUS
    ensures !Wraps(end, bpc) && Index(k, bpc) == Base(k, bpc) ==> Index(k + 1, bpc) == Base(k + 1, bpc)
  {
    BaseNext(k, bpc);
    ModStep(Base(k, bpc), bpc);
  }

  lemma ModStep(x: nat, y: nat)
    ensures (x + y) % INDEX_MODULUS == (x % INDEX_MODULUS + y) % INDEX_MODULUS
  {}

  /** The index of a cluster is that of a whole cluster below 4 GiB. */
  lemma IndexAligned(k: nat, bpc: nat)
    requires ClusterSizeOk(bpc)
    ensures Index(k, bpc) % bpc == 0 && Index(k, bpc) + bpc <= INDEX_MODULUS
  {
    DivMod(INDEX_MODULUS, bpc);
    DivUnique(Base(k, bpc), bpc, k, 0);
    AlignedMod(Base(k, bpc), bpc, INDEX_MODULUS, INDEX_MODULUS / bpc, 0);
  }

  lemma FitsBuffer(k: nat, bpc: nat, end: nat, m: nat)
    requires ClusterSizeOk(bpc) && Index(k, bpc) < end <= Base(m, bpc)
    ensures Index(k, bpc) + bpc <= Base(m, bpc)
  {
    IndexAligned(k, bpc);
    var j := Index(k, bpc) / bpc;
    DivMod(Index(k, bpc), bpc);
    assert Index(k, bpc) == Base(j, bpc);
    if m <= j {
      BaseMonotone(m, j, bpc);
    } else {
      BaseNext(j, bpc);
      BaseMonotone(j + 1, m, bpc);
    }
  }

  // ---------------------------------------------------------------- one pass of the loop

  lemma OneCluster(disk0: Disk, disk: Disk, bpc: nat, cs: seq<nat>, k: nat, pos: nat, buf: seq<nat>)
    requires WroteUpTo(disk0, disk, bpc, cs, k, pos, buf) && k < |cs| && cs[k] in disk0
    requires forall i, j :: 0 <= i < j < |cs| ==> cs[i] != cs[j]
    requires Index(k, bpc) + bpc <= |buf|
    ensures WroteUpTo(disk0, PutCluster(disk, bpc, cs[k], Index(k, bpc), pos, buf), bpc, cs, k + 1, pos, buf)
  {
    var disk' := PutCluster(disk, bpc, cs[k], Index(k, bpc), pos, buf);
    assert cs[..k + 1] == cs[..k] + [cs[k]];
    assert cs[k] !in cs[..k];
    forall i | 0 <= i < k + 1
      ensures Passed(disk0, disk', bpc, cs[i], Index(i, bpc), pos, buf)
    {
      if i < k {
        assert Passed(disk0, disk, bpc, cs[i], Index(i, bpc), pos, buf);
      }
    }
  }

  lemma PutSound(bits: Bits, count: nat, entries: seq<nat>, disk: Disk, bpc: nat, cs: seq<nat>, others: seq<seq<nat>>,
                 c: nat, base: nat, pos: nat, buf: seq<nat>)
    requires Sound(bits, count, entries, disk, bpc, cs, others) && base + bpc <= |buf|
    ensures Sound(bits, count, entries, PutCluster(disk, bpc, c, base, pos, buf), bpc, cs, others)
  {}

  lemma PassOk(bits: Bits, count: nat, entries: seq<nat>, disk0: Disk, disk: Disk, bpc: nat, cs: seq<nat>,
               others: seq<seq<nat>>, k: nat, pos: nat, buf: seq<nat>)
    requires Sound(bits, count, entries, disk, bpc, cs, others) && DiskOk(disk0, count, bpc)
    requires WroteUpTo(disk0, disk, bpc, cs, k, pos, buf) && k < |cs| && Index(k, bpc) + bpc <= |buf|
    ensures Sound(bits, count, entries, PutCluster(disk, bpc, cs[k], Index(k, bpc), pos, buf), bpc, cs, others)
    ensures WroteUpTo(disk0, PutCluster(disk, bpc, cs[k], Index(k, bpc), pos, buf), bpc, cs, k + 1, pos, buf)
  {
    PutSound(bits, count, entries, disk, bpc, cs, others, cs[k], Index(k, bpc), pos, buf);
    OneCluster(disk0, disk, bpc, cs, k, pos, buf);
  }

  /** A longer chain starts with the same clusters. */
  lemma LongerChain(disk0: Disk, disk: Disk, bpc: nat, cs: seq<nat>, k: nat, pos: nat, buf: seq<nat>, c: nat)
    requires WroteUpTo(disk0, disk, bpc, cs, k, pos, buf)
    ensures WroteUpTo(disk0, disk, bpc, cs + [c], k, pos, buf)
  {
    assert (cs + [c])[..k] == cs[..k];
    forall i | 0 <= i < k
      ensures Passed(disk0, disk, bpc, (cs + [c])[i], Index(i, bpc), pos, buf)
    {
      assert (cs + [c])[i] == cs[i];
    }
  }

  lemma StillWrote(disk0: Disk, disk: Disk, bpc: nat, cs: seq<nat>, cs': seq<nat>, k: nat, pos: nat, buf: seq<nat>)
    requires WroteUpTo(disk0, disk, bpc, cs, k, pos, buf)
    requires cs' == cs || (|cs'| == |cs| + 1 && cs' == cs + [cs'[|cs|]])
    ensures WroteUpTo(disk0, disk, bpc, cs', k, pos, buf) && |cs| <= |cs'| && cs'[..|cs|] == cs
  {
    if cs' != cs {
      LongerChain(disk0, disk, bpc, cs, k, pos, buf, cs'[|cs|]);
    }
  }

  lemma ProgressPass(disk0: Disk, disk: Disk, disk': Disk, entries0: seq<nat>, entries: seq<nat>, bpc: nat,
                     cs0: seq<nat>, cs: seq<nat>, k: nat, buf: seq<nat>, pos: nat, end: nat)
    requires Progress(disk0, disk, entries0, entries, bpc, cs0, cs, k, buf, pos, end)
    requires Index(k, bpc) < end <= UINT32_MAX
    requires WroteUpTo(disk0, disk', bpc, cs, k + 1, pos, buf)
    ensures Progress(disk0, disk', entries0, entries, bpc, cs0, cs, k + 1, buf, pos, end)
  {
    IndexNext(k, bpc, end);
  }

  lemma ProgressGrow(disk0: Disk, disk: Disk, entries0: seq<nat>, entries: seq<nat>, entries': seq<nat>, bpc: nat,
                     cs0: seq<nat>, cs: seq<nat>, cs': seq<nat>, k: nat, buf: seq<nat>, pos: nat, end: nat)
    requires Progress(disk0, disk, entries0, entries, bpc, cs0, cs, k, buf, pos, end)
    requires SameOutside(entries, entries', cs') && Allocated(entries, entries', cs, cs')
    requires Index(k, bpc) < end && (cs' == cs || (k == |cs| && |cs'| == |cs| + 1 && cs' == cs + [cs'[k]]))
    ensures Progress(disk0, disk, entries0, entries', bpc, cs0, cs', k, buf, pos, end)
  {
    StillWrote(disk0, disk, bpc, cs, cs', k, pos, buf);
    SameOutsideBoth(entries0, entries, entries', cs, cs');
    AllocatedBoth(entries0, entries, entries', cs0, cs, cs');
  }

  // ---------------------------------------------------------------- after the loop

  /** Contents of equal length held by the same clusters are equal. */
  lemma HoldsUnique(disk: Disk, bpc: nat, cs: seq<nat>, a: seq<nat>, b: seq<nat>)
    requires bpc > 0 && Holds(disk, bpc, cs, a) && Holds(disk, bpc, cs, b) && |a| == |b|
    ensures a == b
  {
    forall x | 0 <= x < |a|
      ensures a[x] == b[x]
    {
      var i, o := ByteInChain(disk, bpc, cs, a, x);
      assert ClusterHolds(disk, cs[i], bpc, b, Base(i, bpc));
      assert disk[cs[i]][o] == b[Base(i, bpc) + o];
    }
  }

  lemma ByteInChain(disk: Disk, bpc: nat, cs: seq<nat>, content: seq<nat>, x: nat) returns (i: nat, o: nat)
    requires bpc > 0 && Holds(disk, bpc, cs, content) && x < |content|
    ensures i < |cs| && o < bpc && x == Base(i, bpc) + o && cs[i] in disk && |disk[cs[i]]| == bpc
    ensures disk[cs[i]][o] == content[x]
  {
    i, o := x / bpc, x % bpc;
    DivMod(x, bpc);
    DivBelow(x, |cs|, bpc);
    assert Base(i, bpc) + o == x;
    assert ClusterHolds(disk, cs[i], bpc, content, Base(i, bpc));
    assert disk[cs[i]][o] == content[Base(i, bpc) + o];
  }

  /** A cluster that was passed below 4 GiB and reaches beyond `pos` holds its part of `buf`;
      one that does not, and one that was not passed, is as before. */
  lemma ClusterAfter(count: nat, disk0: Disk, disk: Disk, bpc: nat, cs0: seq<nat>, cs: seq<nat>, k: nat, pos: nat,
                     data: seq<nat>, content: seq<nat>, buf: seq<nat>, i: nat)
    requires Looped(count, disk0, disk, bpc, cs0, cs, k, pos, data, content, buf) && i < |cs|
    ensures i < k && Base(i, bpc) < INDEX_MODULUS && Base(i, bpc) + bpc > pos ==>
      ClusterHolds(disk, cs[i], bpc, buf, Base(i, bpc)) && Base(i, bpc) + bpc <= |buf|
    ensures i >= k || (Base(i, bpc) < INDEX_MODULUS && Base(i, bpc) + bpc <= pos) ==>
      cs[i] in disk && cs[i] in disk0 && disk[cs[i]] == disk0[cs[i]]
  {
    if i < k {
      assert Passed(disk0, disk, bpc, cs[i], Index(i, bpc), pos, buf);
    } else {
      assert cs[i] !in cs[..k];
    }
  }

  /** What `disk0` says about a cluster of the old file. */
  lemma OldCluster(disk0: Disk, bpc: nat, cs0: seq<nat>, cs: seq<nat>, content: seq<nat>, i: nat)
    requires Holds(disk0, bpc, cs0, content) && |cs0| <= |cs| && cs[..|cs0|] == cs0 && i < |cs|
    requires cs[i] in disk0 && |disk0[cs[i]]| == bpc
    ensures ClusterHolds(disk0, cs[i], bpc, content, Base(i, bpc))
    ensures Base(i, bpc) < |content| ==> i < |cs0|
  {
    if i >= |cs0| {
      BaseMonotone(|cs0|, i, bpc);
    } else {
      assert cs[..|cs0|][i] == cs0[i];
    }
  }

  /** A skipped cluster holds the new file exactly if its part of the gap is zero already. */
  lemma SkippedCluster(count: nat, disk0: Disk, disk: Disk, bpc: nat, cs0: seq<nat>, cs: seq<nat>, k: nat, pos: nat,
                       data: seq<nat>, content: seq<nat>, buf: seq<nat>, size: nat, i: nat)
    requires Looped(count, disk0, disk, bpc, cs0, cs, k, pos, data, content, buf) && Holds(disk0, bpc, cs0, content)
    requires i < |cs| && Base(i, bpc) + bpc <= pos < size <= |buf| && pos <= UINT32_MAX
    ensures ClusterHolds(disk, cs[i], bpc, buf[..size], Base(i, bpc)) <==>
      ZeroFrom(disk0, cs[i], bpc, Base(i, bpc), |content|)
  {
    ClusterAfter(count, disk0, disk, bpc, cs0, cs, k, pos, data, content, buf, i);
    OldCluster(disk0, bpc, cs0, cs, content, i);
    var c, base := cs[i], Base(i, bpc);
    forall o | 0 <= o < bpc
      ensures disk0[c][o] == buf[..size][base + o] <==> (|content| <= base + o ==> disk0[c][o] == 0)
    {
      assert buf[base + o] == ByteAt(content, pos, data, base + o);
    }
  }

  lemma WrittenCluster(count: nat, disk0: Disk, disk: Disk, bpc: nat, cs0: seq<nat>, cs: seq<nat>, k: nat, pos: nat,
                       data: seq<nat>, content: seq<nat>, buf: seq<nat>, size: nat, i: nat)
    requires Looped(count, disk0, disk, bpc, cs0, cs, k, pos, data, content, buf) && Holds(disk0, bpc, cs0, content)
    requires i < |cs| && Base(i, bpc) + bpc > pos && size <= |buf| && size <= INDEX_MODULUS
    requires size <= Base(k, bpc) || (pos + |data| <= Base(k, bpc) && size <= |content|)
    ensures ClusterHolds(disk, cs[i], bpc, buf[..size], Base(i, bpc))
  {
    ClusterAfter(count, disk0, disk, bpc, cs0, cs, k, pos, data, content, buf, i);
    if i >= k && Base(i, bpc) < size {
      BaseMonotone(k, i, bpc);
      OldCluster(disk0, bpc, cs0, cs, content, i);
      var c, base := cs[i], Base(i, bpc);
      forall o | 0 <= o < bpc && base + o < size
        ensures disk[c][o] == buf[base + o]
      {
        assert buf[base + o] == ByteAt(content, pos, data, base + o);
        assert disk0[c][o] == content[base + o];
      }
    }
  }

  /** After the loop the clusters hold the new file up to `size` exactly if the clusters that
      were skipped were zero from the old end of the file on. */
  lemma AfterLoop(count: nat, disk0: Disk, disk: Disk, bpc: nat, cs0: seq<nat>, cs: seq<nat>, k: nat, pos: nat,
                  data: seq<nat>, content: seq<nat>, buf: seq<nat>, size: nat)
    requires Looped(count, disk0, disk, bpc, cs0, cs, k, pos, data, content, buf) && Holds(disk0, bpc, cs0, content)
    requires pos < size <= |buf| && size <= INDEX_MODULUS && size <= Base(|cs|, bpc)
    requires size <= Base(k, bpc) || (pos + |data| <= Base(k, bpc) && size <= |content|)
    ensures Holds(disk, bpc, cs, buf[..size]) <==> StaleZero(disk0, bpc, cs, |content|, pos)
  {
    forall i | 0 <= i < |cs|
      ensures ClusterHolds(disk, cs[i], bpc, buf[..size], Base(i, bpc))
        <==> (Base(i, bpc) + bpc <= pos ==> ZeroFrom(disk0, cs[i], bpc, Base(i, bpc), |content|))
    {
      if Base(i, bpc) + bpc <= pos {
        SkippedCluster(count, disk0, disk, bpc, cs0, cs, k, pos, data, content, buf, size, i);
      } else {
        WrittenCluster(count, disk0, disk, bpc, cs0, cs, k, pos, data, content, buf, size, i);
      }
    }
  }

  /** A write that reports an error after its loop leaves cache and disk alike exactly if the
      data is what the file held already. */
  lemma AfterError(count: nat, disk0: Disk, disk: Disk, bpc: nat, cs0: seq<nat>, cs: seq<nat>, k: nat, pos: nat,
                   data: seq<nat>, content: seq<nat>, buf: seq<nat>)
    requires Looped(count, disk0, disk, bpc, cs0, cs, k, pos, data, content, buf) && Holds(disk0, bpc, cs0, content)
    requires k == |cs| && Index(k, bpc) <= pos <= UINT32_MAX && |content| <= UINT32_MAX && |content| <= |buf|
    ensures Holds(disk, bpc, cs, content) <==> Agrees(content, pos, data)
  {
    BaseMonotone(|cs0|, |cs|, bpc);
    if Agrees(content, pos, data) {
      forall i | 0 <= i < |cs|
        ensures ClusterHolds(disk, cs[i], bpc, content, Base(i, bpc))
      {
        AgreedCluster(count, disk0, disk, bpc, cs0, cs, k, pos, data, content, buf, i);
      }
    }
    if Holds(disk, bpc, cs, content) {
      forall x | pos <= x < pos + |data| && x < |content|
        ensures content[x] == data[x - pos]
      {
        var i, o := ByteInChain(disk, bpc, cs, content, x);
        ClusterAfter(count, disk0, disk, bpc, cs0, cs, k, pos, data, content, buf, i);
        assert buf[x] == ByteAt(content, pos, data, x);
        assert disk[cs[i]][o] == buf[Base(i, bpc) + o];
      }
    }
  }

  lemma AgreedCluster(count: nat, disk0: Disk, disk: Disk, bpc: nat, cs0: seq<nat>, cs: seq<nat>, k: nat, pos: nat,
                      data: seq<nat>, content: seq<nat>, buf: seq<nat>, i: nat)
    requires Looped(count, disk0, disk, bpc, cs0, cs, k, pos, data, content, buf) && Holds(disk0, bpc, cs0, content)
    requires k == |cs| && Agrees(content, pos, data) && |content| <= UINT32_MAX && |content| <= |buf| && i < |cs|
    ensures ClusterHolds(disk, cs[i], bpc, content, Base(i, bpc))
  {
    ClusterAfter(count, disk0, disk, bpc, cs0, cs, k, pos, data, content, buf, i);
    OldCluster(disk0, bpc, cs0, cs, content, i);
    var c, base := cs[i], Base(i, bpc);
    if base + bpc > pos {
      forall o | 0 <= o < bpc && base + o < |content|
        ensures disk[c][o] == content[base + o]
      {
        assert buf[base + o] == ByteAt(content, pos, data, base + o);
      }
    }
  }

  /** How the loop of a write ends: with the index at or behind the end of the data unless
      clusters ran out, but if the index goes round always for want of clusters. */
  ghost predicate LoopEnded(bpc: nat, cs: seq<nat>, k: nat, end: nat, full: bool) {
    && (Wraps(end, bpc) ==> Index(k, bpc) < end && k == |cs| && full)
    && (!Wraps(end, bpc) ==> Index(k, bpc) == Base(k, bpc) && (Base(k, bpc) < end ==> k == |cs| && full))
  }

  /** What a write leaves, from where its loop ended. */
  lemma Concluded(count: nat, disk0: Disk, disk: Disk, bpc: nat, cs0: seq<nat>, cs: seq<nat>, k: nat, pos: nat,
                  data: seq<nat>, content: seq<nat>, buf: seq<nat>, m: nat, full: bool)
    requires Looped(count, disk0, disk, bpc, cs0, cs, k, pos, data, content, buf)
    requires BufferOk(buf, bpc, m, content, pos, data)
    requires data != [] && pos + |data| <= UINT32_MAX && |content| <= UINT32_MAX
    requires LoopEnded(bpc, cs, k, pos + |data|, full)
    ensures match Amount(pos, |data|, |content|, Index(k, bpc))
      case None => k == |cs| && |content| <= Base(|cs|, bpc)
      case Some((size, n)) =>
        && n <= |data| && pos < size <= |buf| && size <= Base(|cs|, bpc) && size <= UINT32_MAX
        && (size <= Base(k, bpc) || (pos + |data| <= Base(k, bpc) && size <= |content|))
        && size <= |Written(content, pos, data)| && buf[..size] == Written(content, pos, data)[..size]
    ensures Amount(pos, |data|, |content|, Index(k, bpc)) ==
      Amount(pos, |data|, |content|, LoopEnd(cs, pos + |data|, bpc))
  {
    BaseMonotone(|cs0|, |cs|, bpc);
    BaseMonotone(k, |cs|, bpc);
  }

  /** Whether the clusters then hold what the cache holds. */
  lemma SyncedAfter(count: nat, disk0: Disk, disk: Disk, bpc: nat, cs0: seq<nat>, cs: seq<nat>, k: nat, pos: nat,
                    data: seq<nat>, content: seq<nat>, buf: seq<nat>, m: nat, full: bool)
    requires Looped(count, disk0, disk, bpc, cs0, cs, k, pos, data, content, buf)
    requires BufferOk(buf, bpc, m, content, pos, data)
    requires data != [] && pos + |data| <= UINT32_MAX && |content| <= UINT32_MAX
    requires LoopEnded(bpc, cs, k, pos + |data|, full)
    requires Holds(disk0, bpc, cs0, content)
    ensures match Amount(pos, |data|, |content|, Index(k, bpc))
      case None => Holds(disk, bpc, cs, content) <==> !Wraps(pos + |data|, bpc) || Agrees(content, pos, data)
      case Some((size, n)) =>
        size <= |buf| && (Holds(disk, bpc, cs, buf[..size]) <==> StaleZero(disk0, bpc, cs, |content|, pos))
  {
    Concluded(count, disk0, disk, bpc, cs0, cs, k, pos, data, content, buf, m, full);
    match Amount(pos, |data|, |content|, Index(k, bpc))
    case None =>
      AfterError(count, disk0, disk, bpc, cs0, cs, k, pos, data, content, buf);
    case Some((size, n)) =>
      AfterLoop(count, disk0, disk, bpc, cs0, cs, k, pos, data, content, buf, size);
  }

  lemma Recorded(count: nat, disk0: Disk, disk: Disk, bpc: nat, cs0: seq<nat>, cs: seq<nat>, k: nat, pos: nat,
                 data: seq<nat>, content: seq<nat>, buf: seq<nat>, m: nat, full: bool, sync: bool)
    requires Looped(count, disk0, disk, bpc, cs0, cs, k, pos, data, content, buf)
    requires BufferOk(buf, bpc, m, content, pos, data) && k > 0
    requires data != [] && pos + |data| <= UINT32_MAX && |content| <= UINT32_MAX
    requires LoopEnded(bpc, cs, k, pos + |data|, full)
    requires sync ==> Holds(disk0, bpc, cs0, content)
    ensures match Amount(pos, |data|, |content|, Index(k, bpc))
      case None => ErrorLeads(pos, data, bpc, content, disk0, disk, cs0, cs, sync)
      case Some((size, n)) => RecordLeads(pos, data, bpc, content, buf, size, n, disk0, disk, cs, sync)
  {
    Concluded(count, disk0, disk, bpc, cs0, cs, k, pos, data, content, buf, m, full);
    if sync {
      SyncedAfter(count, disk0, disk, bpc, cs0, cs, k, pos, data, content, buf, m, full);
    }
    OutcomeIs(pos, data, bpc, content, buf, cs);
  }

  /** Outcome and amount are two views of where the loop ended. */
  lemma OutcomeIs(pos: nat, data: seq<nat>, bpc: nat, content: seq<nat>, buf: seq<nat>, cs: seq<nat>)
    requires data != []
    ensures match Amount(pos, |data|, |content|, LoopEnd(cs, pos + |data|, bpc))
      case None => Outcome(None, pos, data, bpc, content, content, cs)
      case Some((size, n)) =>
        (size <= |buf| && size <= |Written(content, pos, data)| && buf[..size] == Written(content, pos, data)[..size]
         ==> Outcome(Some(n), pos, data, bpc, content, buf[..size], cs))
  {}

  lemma MakeLooped(bits: Bits, count: nat, entries0: seq<nat>, entries: seq<nat>, disk0: Disk, disk: Disk, bpc: nat,
                   others: seq<seq<nat>>, cs0: seq<nat>, cs1: seq<nat>, cs: seq<nat>, k: nat, pos: nat, data: seq<nat>,
                   content: seq<nat>, buf: seq<nat>, m: nat)
    requires Sound(bits, count, entries, disk, bpc, cs, others) && DiskOk(disk0, count, bpc)
    requires |content| <= Base(|cs0|, bpc)
    requires Progress(disk0, disk, entries0, entries, bpc, cs1, cs, k, buf, pos, pos + |data|)
    requires cs0 == cs1 || cs0 == []
    requires BufferOk(buf, bpc, m, content, pos, data)
    ensures Looped(count, disk0, disk, bpc, cs0, cs, k, pos, data, content, buf)
  {}

  /** A chain that no directory entry leads to. */
  lemma LostChain(bits: Bits, count: nat, entries: seq<nat>, disk: Disk, bpc: nat, cs: seq<nat>, others: seq<seq<nat>>)
    requires Sound(bits, count, entries, disk, bpc, cs, others)
    ensures Sound(bits, count, entries, disk, bpc, [], others + [cs])
  {}

  lemma AllocatedNone(entries: seq<nat>, cs: seq<nat>)
    ensures Allocated(entries, entries, cs, cs) && SameOutside(entries, entries, cs)
  {}

  /** A write to a file without clusters when there is none to begin with. */
  lemma NothingStarted(pos: nat, data: seq<nat>, bpc: nat, s: Snapshot)
    requires bpc > 0 && data != [] && s.chain == [] && s.content == [] && FreeClusters(s.entries) == []
    ensures Effect(None, pos, data, bpc, s, s)
  {
    NoChainAfter(s, pos + |data|, bpc);
    NoOutcome(pos, data, bpc);
    assert SyncedIff(pos, data, bpc, [], s.disk, []);
  }

  lemma NoChainAfter(s: Snapshot, end: nat, bpc: nat)
    requires bpc > 0 && s.chain == [] && FreeClusters(s.entries) == []
    ensures ChainAfter(s, end, bpc) == []
  {}

  lemma NoOutcome(pos: nat, data: seq<nat>, bpc: nat)
    requires data != []
    ensures LoopEnd([], pos + |data|, bpc) == 0 && Outcome(None, pos, data, bpc, [], [], [])
  {}

  lemma MakeFramed(disk: Disk, entries1: seq<nat>, entries: seq<nat>, bpc: nat, cs1: seq<nat>, cs: seq<nat>, k: nat,
                   buf: seq<nat>, pos: nat, data: seq<nat>, s: Snapshot)
    requires Progress(s.disk, disk, entries1, entries, bpc, cs1, cs, k, buf, pos, pos + |data|)
    requires LoopStart(s, entries1, cs1) && |cs1| >= 1 && data != []
    ensures Framed(pos, data, bpc, s, disk, entries, cs)
  {
    AllocatedBoth(s.entries, entries1, entries, s.chain, cs1, cs);
    SameOutsideBoth(s.entries, entries1, entries, cs1, cs);
    forall c | c in s.disk && c !in cs
      ensures c in disk && disk[c] == s.disk[c]
    {
      assert c !in cs[..k];
    }
  }

  lemma ClustersForIff(end: nat, bpc: nat, k: nat)
    requires bpc > 0
    ensures Base(k, bpc) >= end <==> k >= ClustersFor(end, bpc)
  {
    var m := ClustersFor(end, bpc);
    DivMod(end + bpc - 1, bpc);
    if k >= m {
      BaseMonotone(m, k, bpc);
    } else {
      BaseNext(k, bpc);
      BaseMonotone(k + 1, m, bpc);
    }
  }

  /** Copying the old content and then the data into a zeroed buffer. */
  lemma BufferMade(content: seq<nat>, pos: nat, data: seq<nat>, n: nat)
    requires |Written(content, pos, data)| <= n
    ensures var buf := Splice(Splice(seq(n, _ => 0), 0, content), pos, data);
      |buf| == n && forall x :: 0 <= x < n ==> buf[x] == ByteAt(content, pos, data, x)
  {}

  /** The clusters with which the loop ends are those that the state before gives. */
  lemma ChainAfterIs(pos: nat, data: seq<nat>, bpc: nat, s: Snapshot, disk: Disk, entries: seq<nat>, cs: seq<nat>,
                     k: nat)
    requires bpc > 0 && data != [] && k <= |cs| && Framed(pos, data, bpc, s, disk, entries, cs)
    requires LoopEnded(bpc, cs, k, pos + |data|, FreeClusters(entries) == [])
    ensures cs == ChainAfter(s, pos + |data|, bpc)
  {
    var end, free, j := pos + |data|, FreeClusters(s.entries), |cs| - |s.chain|;
    assert FreeClusters(entries) == [] ==> j == |free|;
    if !Wraps(end, bpc) {
      ClustersForIff(end, bpc, k);
      if |cs| > |s.chain| {
        ClustersForIff(end, bpc, |cs| - 1);
      }
    }
  }

  lemma ErrorEffect(pos: nat, data: seq<nat>, bpc: nat, s: Snapshot, s': Snapshot, cs: seq<nat>, sync: bool)
    requires bpc > 0 && cs != [] && cs == ChainAfter(s, pos + |data|, bpc)
    requires Framed(pos, data, bpc, s, s'.disk, s'.entries, cs) && s'.content == s.content && (s.synced ==> sync)
    requires ErrorLeads(pos, data, bpc, s.content, s.disk, s'.disk, s.chain, cs, sync)
    requires if s.chain != [] then s'.chain == cs && s'.others == s.others
             else s'.chain == [] && s'.others == s.others + [cs]
    requires s'.synced == Holds(s'.disk, bpc, s'.chain, s'.content)
    ensures Effect(None, pos, data, bpc, s, s')
  {}

  lemma RecordEffect(pos: nat, data: seq<nat>, bpc: nat, s: Snapshot, s': Snapshot, cs: seq<nat>, sync: bool,
                     buf: seq<nat>, size: nat, n: nat)
    requires bpc > 0 && cs == ChainAfter(s, pos + |data|, bpc)
    requires Framed(pos, data, bpc, s, s'.disk, s'.entries, cs) && (s.synced ==> sync)
    requires RecordLeads(pos, data, bpc, s.content, buf, size, n, s.disk, s'.disk, cs, sync)
    requires s'.content == buf[..size] && s'.chain == cs && s'.others == s.others
    requires s'.synced == Holds(s'.disk, bpc, s'.chain, s'.content)
    ensures Effect(Some(n), pos, data, bpc, s, s')
  {}

  /** All that the loop and its clusters settle. */
  lemma LoopConcluded(bits: Bits, count: nat, entries1: seq<nat>, entries: seq<nat>, disk: Disk, bpc: nat,
                      others: seq<seq<nat>>, cs1: seq<nat>, cs: seq<nat>, k: nat, pos: nat, data: seq<nat>,
                      buf: seq<nat>, m: nat, s: Snapshot, full: bool)
    requires Sound(bits, count, entries, disk, bpc, cs, others) && DiskOk(s.disk, count, bpc)
    requires |s.content| <= Base(|s.chain|, bpc)
    requires Progress(s.disk, disk, entries1, entries, bpc, cs1, cs, k, buf, pos, pos + |data|)
    requires LoopStart(s, entries1, cs1)
    requires BufferOk(buf, bpc, m, s.content, pos, data) && data != [] && pos + |data| <= UINT32_MAX
    requires |s.content| <= UINT32_MAX
    requires k > 0 && cs1 != [] && LoopEnded(bpc, cs, k, pos + |data|, full) && (full <==> FreeClusters(entries) == [])
    requires s.synced ==> Holds(s.disk, bpc, s.chain, s.content)
    ensures Ended(pos, data, bpc, s, disk, entries, cs, buf, Index(k, bpc))
  {
    MakeLooped(bits, count, entries1, entries, s.disk, disk, bpc, others, s.chain, cs1, cs, k, pos, data, s.content,
               buf, m);
    MakeFramed(disk, entries1, entries, bpc, cs1, cs, k, buf, pos, data, s);
    Recorded(count, s.disk, disk, bpc, s.chain, cs, k, pos, data, s.content, buf, m, full, s.synced);
    ChainAfterIs(pos, data, bpc, s, disk, entries, cs, k);
  }

  lemma WrittenPlain(content: seq<nat>, pos: nat, data: seq<nat>)
    requires pos <= |content|
    ensures Written(content, pos, data) ==
      content[..pos] + data + if pos + |data| < |content| then content[pos + |data|..] else []
  {}

  lemma WrittenCut(content: seq<nat>, pos: nat, data: seq<nat>, at: nat)
    requires pos <= |content| <= at <= pos + |data|
    ensures Written(content, pos, data)[..at] == content[..pos] + data[..at - pos]
  {}

  lemma PlainWrite(count: nat, n: Option<nat>, pos: nat, data: seq<nat>, bpc: nat, s: Snapshot, s': Snapshot)
    requires bpc > 0 && data != [] && Effect(n, pos, data, bpc, s, s') && !Wraps(pos + |data|, bpc)
    requires pos <= |s.content| <= Base(|s.chain|, bpc) && |s.entries| == count + 2 && DiskOk(s.disk, count, bpc)
    requires forall i :: 0 <= i < |s.chain| ==> 2 <= s.chain[i] < count + 2
    ensures Plain(n, pos, data, s, s')
  {
    var end, cs := pos + |data|, ChainAfter(s, pos + |data|, bpc);
    BaseMonotone(|s.chain|, |cs|, bpc);
    NothingStale(count, s, bpc, pos, end);
    ClustersForIff(end, bpc, |cs|);
    PlainOutcome(n, pos, data, bpc, s.content, s'.content, cs);
    assert Base(|cs|, bpc) < end ==> |cs| == |s.chain| + |FreeClusters(s.entries)|;
  }

  lemma NothingPlain(pos: nat, s: Snapshot)
    requires pos <= |s.content|
    ensures Plain(Some(0), pos, [], s, s)
  {
    assert s.content == s.content[..pos] + [] + s.content[pos..];
  }

  lemma PlainOutcome(n: Option<nat>, pos: nat, data: seq<nat>, bpc: nat, content: seq<nat>, content': seq<nat>,
                     cs: seq<nat>)
    requires Outcome(n, pos, data, bpc, content, content', cs) && !Wraps(pos + |data|, bpc)
    requires pos <= |content| <= Base(|cs|, bpc)
    ensures var k := if n.Some? then n.value else 0;
      && k <= |data| && (n.None? ==> pos == |content|) && (k < |data| ==> Base(|cs|, bpc) < pos + |data|)
      && content' == content[..pos] + data[..k] + (if pos + k < |content| then content[pos + k..] else [])
  {
    var at := Base(|cs|, bpc);
    if at >= pos + |data| {
      WrittenPlain(content, pos, data);
      assert data[..|data|] == data;
    } else if at > pos {
      WrittenCut(content, pos, data, at);
    }
  }

  /** No cluster before one with old content is skipped. */
  lemma NothingStale(count: nat, s: Snapshot, bpc: nat, pos: nat, end: nat)
    requires bpc > 0 && pos <= |s.content| && |s.entries| == count + 2 && DiskOk(s.disk, count, bpc)
    requires forall i :: 0 <= i < |s.chain| ==> 2 <= s.chain[i] < count + 2
    ensures StaleZero(s.disk, bpc, ChainAfter(s, end, bpc), |s.content|, pos)
  {
    FreeFromAre(s.entries, 2);
  }
}
